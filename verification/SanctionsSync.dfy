/**
 One sanctions run over the CGU registries: page through a registry, stamp what it lists, and
 sweep it only when the listing is known to be whole.
 */
module SanctionsSync {
  import opened Retraction
  import opened Text
  import opened Wrappers

  datatype SanctionRecord = SanctionRecord(entryId: string, sourceUrl: string)

  // What the client gets for one page once its own retries are spent. A page past the end of the
  // list is empty.
  datatype Page = Listed(records: seq<SanctionRecord>) | GaveUp | Malformed

  datatype Options = Options(dryRun: bool, maxPages: nat, sweep: bool)

  datatype Outcome = Finished | Stopped | RunFailed

  // cguRegistryPath, without the URL segment.
  function RegistryOf(group: string): Option<string> {
    if group == "ceis" then Some("CEIS")
    else if group == "cnep" then Some("CNEP")
    else if group == "ceaf" then Some("CEAF")
    else if group == "leniencia" then Some("LENIENCIA")
    else None
  }

  function PageAt(pages: seq<Page>, page: nat): Page
    requires page > 0
  {
    if page <= |pages| then pages[page - 1] else Listed([])
  }

  // The whole listing: every record before the first empty page, if every page up to it was read.
  function Listing(pages: seq<Page>): Option<seq<SanctionRecord>> {
    if pages == [] || pages[0] == Listed([]) then Some([])
    else match pages[0]
      case Listed(records) =>
        (match Listing(pages[1..]) case Some(rest) => Some(records + rest) case None => None)
      case _ => None
  }

  predicate HasSource(r: SanctionRecord) { Trim(r.sourceUrl) != "" }

  predicate Sourced(records: seq<SanctionRecord>) { forall r | r in records :: HasSource(r) }

  function Ingested(s: Store, registry: string, records: seq<SanctionRecord>, run: string): Store {
    if records == [] then s
    else AfterUpsert(Ingested(s, registry, records[..|records| - 1], run), registry, records[|records| - 1].entryId, run)
  }

  // What is left in the store once these records were applied: nothing new by a dry run.
  function Landed(s: Store, registry: string, records: seq<SanctionRecord>, run: string, dry: bool): Store {
    if dry then s else Ingested(s, registry, records, run)
  }

  function Digits(n: nat): string {
    if n < 10 then [(n as char) + '0'] else Digits(n / 10) + [((n % 10) as char) + '0']
  }

  // fmt.Sprintf("%s@p%d", group, page)
  function FailureEntry(group: string, page: nat): string { group + "@p" + Digits(page) }

  predicate Blocks(entry: string, registry: string) {
    ToLower(registry) + "@" <= ToLower(entry) || ToLower(entry) == ToLower(registry)
  }

  class Worker {
    const opts: Options
    const runId: string
    const graph: SanctionGraph
    var failed: seq<string>

    constructor (opts: Options, runId: string, graph: SanctionGraph)
      ensures this.opts == opts && this.runId == runId && this.graph == graph && failed == []
    {
      this.opts, this.runId, this.graph, this.failed := opts, runId, graph, [];
    }

    // apply, as far as the sanction node: a dry run writes nothing.
    method Apply(registry: string, rec: SanctionRecord) returns (ok: bool)
      modifies graph
      ensures ok <==> opts.dryRun || HasSource(rec)
      ensures graph.records ==
        if opts.dryRun || !ok then old(graph.records) else AfterUpsert(old(graph.records), registry, rec.entryId, runId)
    {
      if opts.dryRun { return true; }
      var r := graph.UpsertSanction(registry, rec.entryId, rec.sourceUrl, runId);
      ok := r.Success?;
    }

    // Applies a page's records in order, up to the first that cannot be.
    method ApplyAll(registry: string, records: seq<SanctionRecord>) returns (n: nat)
      modifies graph
      ensures n <= |records|
      ensures n == |records| <==> opts.dryRun || Sourced(records)
      ensures graph.records == Landed(old(graph.records), registry, records[..n], runId, opts.dryRun)
    {
      n := 0;
      while n < |records|
        invariant n <= |records|
        invariant opts.dryRun || Sourced(records[..n])
        invariant graph.records == Landed(old(graph.records), registry, records[..n], runId, opts.dryRun)
      {
        LandedOneMore(old(graph.records), registry, records, n, runId, opts.dryRun);
        var ok := Apply(registry, records[n]);
        if !ok { return; }
        n := n + 1;
      }
      assert records[..n] == records;
    }

    // One page, after the records `applied`.
    method ApplyPage(registry: string, records: seq<SanctionRecord>, ghost start: Store, ghost applied: seq<SanctionRecord>)
        returns (ok: bool, ghost more: seq<SanctionRecord>)
      requires graph.records == Landed(start, registry, applied, runId, opts.dryRun)
      modifies graph
      ensures graph.records == Landed(start, registry, more, runId, opts.dryRun)
      ensures ok <==> opts.dryRun || Sourced(records)
      ensures ok ==> more == applied + records
    {
      var n := ApplyAll(registry, records);
      more := applied + records[..n];
      if !opts.dryRun { IngestedAppends(start, registry, applied, records[..n], runId); }
      assert n == |records| ==> records[..n] == records;
      ok := n == |records|;
    }

    // runCGURegistry
    method RunRegistry(group: string, registry: string, pages: seq<Page>)
        returns (r: Outcome, ghost applied: seq<SanctionRecord>)
      modifies this, graph
      ensures graph.records == Landed(old(graph.records), registry, applied, runId, opts.dryRun)
      ensures opts.maxPages == 0 ==>
        (r.Finished? <==> Listing(pages).Some? && (opts.dryRun || Sourced(Listing(pages).value)))
      ensures opts.maxPages == 0 && r.Finished? ==> Listing(pages) == Some(applied)
      ensures r.Stopped? <==> EndsGivenUp(opts, pages)
      ensures r.RunFailed? <==> EndsBroken(opts, pages)
      ensures if r.Stopped? then forall page: nat | EndsAt(opts, pages, page) :: failed == old(failed) + [FailureEntry(group, page)]
              else failed == old(failed)
    {
      var page := 1;
      applied := [];
      NothingYet(pages);
      while true
        invariant page > 0 && failed == old(failed)
        invariant forall q: nat | 0 < q < page :: Applied(opts, PageAt(pages, q))
        invariant graph.records == Landed(old(graph.records), registry, applied, runId, opts.dryRun)
        invariant opts.dryRun || Sourced(applied)
        invariant Listing(pages) == Prepend(applied, Listing(Rest(pages, page)))
        decreases |pages| + 1 - page
      {
        if opts.maxPages > 0 && page > opts.maxPages {
          NeverEnds(opts, pages, page);
          break;
        }
        ListingStep(pages, page, applied);
        if !Applied(opts, PageAt(pages, page)) { EndsHere(opts, pages, page); }
        match PageAt(pages, page) {
          case GaveUp =>
            failed := failed + [FailureEntry(group, page)];
            return Stopped, applied;
          case Malformed =>
            return RunFailed, applied;
          case Listed(records) =>
            if |records| == 0 { break; }
            var ok;
            ok, applied := ApplyPage(registry, records, old(graph.records), applied);
            if !ok {
              return RunFailed, applied;
            }
            page := page + 1;
        }
      }
      r := Finished;
    }

    // sweep: refuses whenever an absence might be this run's fault.
    method Sweep(registry: string) returns (res: Option<SweepResult>)
      modifies graph
      ensures res.Some? <==>
        && opts.sweep && !opts.dryRun && opts.maxPages == 0
        && (forall f | f in failed :: !Blocks(f, registry))
        && registry != "" && runId != ""
      ensures graph.records ==
        if res.Some? then AfterSweep(old(graph.records), registry, runId, DEFAULT_GUARD) else old(graph.records)
      ensures res.Some? ==>
        res.value.source == registry && res.value.refused == !Accepted(old(graph.records), registry, runId, DEFAULT_GUARD)
    {
      if !opts.sweep || opts.dryRun { return None; }
      if opts.maxPages > 0 { return None; }
      for i := 0 to |failed|
        invariant forall f | f in failed[..i] :: !Blocks(f, registry)
      {
        if Blocks(failed[i], registry) { return None; }
      }
      assert failed[..|failed|] == failed;
      var r := graph.SweepRetractedSanctions(registry, runId, DEFAULT_GUARD);
      res := match r case Success(v) => Some(v) case Failure(_) => None;
    }

    // One registry's turn in Run: fetch, then sweep. A sweep happens only after a whole listing was
    // stamped, and an accepted one leaves published exactly what was listed, with any record that
    // no run ever stamped.
    method SyncRegistry(group: string, registry: string, pages: seq<Page>) returns (r: Outcome, res: Option<SweepResult>)
      requires RegistryOf(group) == Some(registry)
      modifies this, graph
      ensures old(failed) <= failed
      ensures res.Some? ==>
        && r.Finished? && Listing(pages).Some?
        && graph.records == AfterSweep(Ingested(old(graph.records), registry, Listing(pages).value, runId),
                                       registry, runId, DEFAULT_GUARD)
      ensures KeepsOthers(old(graph.records), graph.records, registry)
      ensures Keyed(old(graph.records)) ==> Keyed(graph.records)
      ensures res.Some? && !res.value.refused && FreshRun(old(graph.records), registry, runId) ==>
        Published(graph.records, registry) ==
        Ids(registry, Listing(pages).value) + PublishedUnstamped(old(graph.records), registry)
      ensures r.Finished? && res.None? && opts.sweep && !opts.dryRun && opts.maxPages == 0 ==>
        runId == "" || exists f :: f in old(failed) && Blocks(f, registry)
    {
      ghost var applied;
      res := None;
      r, applied := RunRegistry(group, registry, pages);
      GroupsAreRegistries(group, registry);
      if !opts.dryRun { IngestKeepsOthers(old(graph.records), registry, applied, runId); }
      ghost var ingested := graph.records;
      if r.RunFailed? { return; }
      SweepKeepsOthers(ingested, registry, runId);
      if r.Stopped? {
        ghost var page: nat :| failed == old(failed) + [FailureEntry(group, page)];
        FailureBlocksIff(group, page, group);
        assert failed[|old(failed)|] in failed;
      }
      res := Sweep(ToUpper(group));
      KeptInTurn(old(graph.records), ingested, graph.records, registry);
      if res.Some? && !res.value.refused && FreshRun(old(graph.records), registry, runId) {
        CleanSweepPublishesTheListing(old(graph.records), registry, applied, runId);
      }
    }

    // Run, over the CGU groups: each registry in turn, under the one run id. What the run leaves
    // published of a registry whose sweep was accepted is what that registry listed, with what was
    // never stamped, whatever the other registries of the run stamped or swept.
    method Run(groups: seq<string>, pages: string -> seq<Page>) returns (ok: bool, swept: seq<Option<SweepResult>>)
      requires (forall i, j | 0 <= i < j < |groups| :: groups[i] != groups[j]) && "tcu" !in groups
      modifies this, graph
      ensures |swept| <= |groups| && (ok ==> |swept| == |groups|)
      ensures Keyed(old(graph.records)) && FreshId(old(graph.records), runId) ==>
        forall i | 0 <= i < |swept| && swept[i].Some? && !swept[i].value.refused ::
          PublishesListing(old(graph.records), graph.records, groups[i], pages)
      ensures Keyed(old(graph.records)) ==> Keyed(graph.records)
      ensures Keyed(old(graph.records)) ==> Untouched(old(graph.records), graph.records, groups)
    {
      ok, swept := true, [];
      ghost var s0 := graph.records;
      for i := 0 to |groups|
        invariant |swept| == i
        invariant Keyed(s0) ==> Keyed(graph.records) && Untouched(s0, graph.records, groups[..i])
        invariant Keyed(s0) && FreshId(s0, runId) ==> AllPublish(s0, graph.records, groups, swept, pages)
      {
        ghost var before := graph.records;
        var registry := RegistryOf(groups[i]);
        if registry.None? {
          FewerGroups(s0, graph.records, groups, i);
          return false, swept;
        }
        var r, res := SyncRegistry(groups[i], registry.value, pages(groups[i]));
        if Keyed(s0) { RunStep(s0, before, graph.records, groups, i, swept, res, pages, runId); }
        swept := swept + [res];
        if r.RunFailed? {
          FewerGroups(s0, graph.records, groups, i + 1);
          return false, swept;
        }
      }
      assert groups[..|groups|] == groups;
    }
  }

  ghost predicate NoneWrites(groups: seq<string>, q: string) {
    forall i | 0 <= i < |groups| :: RegistryOf(groups[i]) != Some(q)
  }

  // The registries none of these groups writes are as they were.
  ghost predicate Untouched(s: Store, t: Store, groups: seq<string>) {
    forall q | Separate(q) && NoneWrites(groups, q) :: SameOf(s, t, q)
  }

  ghost predicate AllPublish(s: Store, t: Store, groups: seq<string>, swept: seq<Option<SweepResult>>, pages: string -> seq<Page>) {
    |swept| <= |groups| &&
    forall i | 0 <= i < |swept| && swept[i].Some? && !swept[i].value.refused :: PublishesListing(s, t, groups[i], pages)
  }

  lemma FewerGroups(s: Store, t: Store, groups: seq<string>, n: nat)
    requires n <= |groups|
    ensures Untouched(s, t, groups[..n]) ==> Untouched(s, t, groups)
  {
    forall q | NoneWrites(groups, q) ensures NoneWrites(groups[..n], q) {
      assert forall i | 0 <= i < n :: groups[..n][i] == groups[i];
    }
  }

  lemma RunStep(s: Store, t: Store, u: Store, groups: seq<string>, i: nat, swept: seq<Option<SweepResult>>,
                res: Option<SweepResult>, pages: string -> seq<Page>, run: string)
    requires i < |groups| && |swept| == i && forall i, j | 0 <= i < j < |groups| :: groups[i] != groups[j]
    requires RegistryOf(groups[i]).Some? && Keyed(t) && KeepsOthers(t, u, RegistryOf(groups[i]).value)
    requires Untouched(s, t, groups[..i])
    requires FreshId(s, run) ==> AllPublish(s, t, groups, swept, pages)
    requires var registry := RegistryOf(groups[i]).value;
             res.Some? && !res.value.refused && FreshRun(t, registry, run) ==>
               && Listing(pages(groups[i])).Some?
               && Published(u, registry) == Ids(registry, Listing(pages(groups[i])).value) + PublishedUnstamped(t, registry)
    ensures Untouched(s, u, groups[..i + 1])
    ensures FreshId(s, run) ==> AllPublish(s, u, groups, swept + [res], pages)
  {
    var registry := RegistryOf(groups[i]).value;
    forall j | 0 <= j < i ensures RegistryOf(groups[..i][j]) != Some(registry) {
      if RegistryOf(groups[j]).Some? { GroupsAreApart(groups[j], groups[i]); }
    }
    GroupsAreRegistries(groups[i], registry);
    assert NoneWrites(groups[..i], registry) && SameOf(s, t, registry);
    UntouchedStep(s, t, u, groups, i, registry);
    if FreshId(s, run) {
      forall j | 0 <= j < |swept + [res]| && (swept + [res])[j].Some? && !(swept + [res])[j].value.refused
        ensures PublishesListing(s, u, groups[j], pages)
      {
        if j < i {
          StillPublishes(s, t, u, groups[j], groups[i], pages);
        } else {
          NowPublishes(s, t, u, groups[i], pages, run);
        }
      }
    }
  }

  lemma UntouchedStep(s: Store, t: Store, u: Store, groups: seq<string>, i: nat, registry: string)
    requires i < |groups| && RegistryOf(groups[i]) == Some(registry) && Keyed(t) && KeepsOthers(t, u, registry)
    requires Untouched(s, t, groups[..i])
    ensures Untouched(s, u, groups[..i + 1])
  {
    forall q | Separate(q) && NoneWrites(groups[..i + 1], q) ensures SameOf(s, u, q) {
      assert groups[..i + 1][i] == groups[i];
      forall j | 0 <= j < i ensures RegistryOf(groups[..i][j]) != Some(q) { assert groups[..i + 1][j] == groups[..i][j]; }
      assert NoneWrites(groups[..i], q);
      assert SameOf(s, t, q) && SameOf(t, u, q);
    }
  }

  // ----- The pages and the listing -----

  // Every record of a page that lists some was applied.
  predicate Applied(opts: Options, p: Page) {
    p.Listed? && p.records != [] && (opts.dryRun || Sourced(p.records))
  }

  // A page that cannot be read, or holds a record that cannot be applied.
  predicate Breaks(opts: Options, p: Page) {
    p.Malformed? || (p.Listed? && !opts.dryRun && !Sourced(p.records))
  }

  // The first page, within the limit, whose records were not all applied.
  ghost predicate EndsAt(opts: Options, pages: seq<Page>, page: nat) {
    && page > 0 && (opts.maxPages == 0 || page <= opts.maxPages)
    && (forall q: nat | 0 < q < page :: Applied(opts, PageAt(pages, q)))
    && !Applied(opts, PageAt(pages, page))
  }

  ghost predicate EndsGivenUp(opts: Options, pages: seq<Page>) {
    exists page: nat :: EndsAt(opts, pages, page) && PageAt(pages, page).GaveUp?
  }

  ghost predicate EndsBroken(opts: Options, pages: seq<Page>) {
    exists page: nat :: EndsAt(opts, pages, page) && Breaks(opts, PageAt(pages, page))
  }

  // The page loop ends at its first page not wholly applied.
  lemma EndsHere(opts: Options, pages: seq<Page>, page: nat)
    requires page > 0 && (opts.maxPages == 0 || page <= opts.maxPages) && !Applied(opts, PageAt(pages, page))
    requires forall q: nat | 0 < q < page :: Applied(opts, PageAt(pages, q))
    ensures EndsAt(opts, pages, page) && forall q: nat | EndsAt(opts, pages, q) :: q == page
    ensures EndsGivenUp(opts, pages) <==> PageAt(pages, page).GaveUp?
    ensures EndsBroken(opts, pages) <==> Breaks(opts, PageAt(pages, page))
  {
    assert EndsAt(opts, pages, page);
    forall q: nat | EndsAt(opts, pages, q) ensures q == page { EndsOnce(opts, pages, q, page); }
  }

  lemma NeverEnds(opts: Options, pages: seq<Page>, page: nat)
    requires opts.maxPages > 0 && page > opts.maxPages
    requires forall q: nat | 0 < q < page :: Applied(opts, PageAt(pages, q))
    ensures !EndsGivenUp(opts, pages) && !EndsBroken(opts, pages)
  {
  }

  lemma EndsOnce(opts: Options, pages: seq<Page>, p: nat, q: nat)
    requires EndsAt(opts, pages, p) && EndsAt(opts, pages, q)
    ensures p == q
  {
  }

  function Rest(pages: seq<Page>, page: nat): seq<Page>
    requires page > 0
  {
    if page <= |pages| then pages[page - 1..] else []
  }

  function Prepend(records: seq<SanctionRecord>, rest: Option<seq<SanctionRecord>>): Option<seq<SanctionRecord>> {
    match rest case Some(more) => Some(records + more) case None => None
  }

  lemma NothingYet(pages: seq<Page>)
    ensures Listing(pages) == Prepend([], Listing(Rest(pages, 1)))
  {
    assert Rest(pages, 1) == pages;
    if Listing(pages).Some? { assert [] + Listing(pages).value == Listing(pages).value; }
  }

  lemma ListingStep(pages: seq<Page>, page: nat, applied: seq<SanctionRecord>)
    requires page > 0
    ensures var rest := Listing(Rest(pages, page));
      match PageAt(pages, page)
      case Listed(records) =>
        if records == [] then Prepend(applied, rest) == Some(applied)
        else Prepend(applied, rest) == Prepend(applied + records, Listing(Rest(pages, page + 1)))
      case _ => Prepend(applied, rest) == None
  {
    if page <= |pages| {
      assert Rest(pages, page)[1..] == Rest(pages, page + 1);
      match PageAt(pages, page) {
        case Listed(records) =>
          var more := Listing(Rest(pages, page + 1));
          if more.Some? { assert applied + (records + more.value) == applied + records + more.value; }
          assert applied + [] == applied;
        case _ =>
      }
    } else {
      assert applied + [] == applied;
    }
  }

  lemma LandedOneMore(s: Store, registry: string, records: seq<SanctionRecord>, n: nat, run: string, dry: bool)
    requires n < |records|
    ensures var t := Landed(s, registry, records[..n], run, dry);
            Landed(s, registry, records[..n + 1], run, dry) == if dry then t else AfterUpsert(t, registry, records[n].entryId, run)
    ensures Sourced(records[..n + 1]) <==> Sourced(records[..n]) && HasSource(records[n])
    ensures Sourced(records) ==> HasSource(records[n])
  {
    assert records[..n + 1] == records[..n] + [records[n]];
  }

  lemma {:induction false} IngestedAppends(s: Store, registry: string, xs: seq<SanctionRecord>,
                                           ys: seq<SanctionRecord>, run: string)
    ensures Ingested(Ingested(s, registry, xs, run), registry, ys, run) == Ingested(s, registry, xs + ys, run)
  {
    if ys == [] {
      assert xs + ys == xs;
    } else {
      IngestedAppends(s, registry, xs, ys[..|ys| - 1], run);
      LastOfBoth(xs, ys);
    }
  }

  lemma LastOfBoth(xs: seq<SanctionRecord>, ys: seq<SanctionRecord>)
    requires ys != []
    ensures var zs := xs + ys; zs[..|zs| - 1] == xs + ys[..|ys| - 1] && zs[|zs| - 1] == ys[|ys| - 1]
  {
  }

  // ----- Which failures stop which sweeps -----

  lemma GroupsAreRegistries(group: string, registry: string)
    requires RegistryOf(group) == Some(registry)
    ensures ToUpper(group) == registry && ToUpper(Trim(registry)) == registry && '@' !in group && Separate(registry)
  {
    GroupsInUpperCase(group, registry);
    GroupsAreWords(group, registry);
    RegistriesAreTrimmed(registry);
  }

  // The four groups, each under its own name in capitals.
  lemma KnownGroupsIff(group: string)
    ensures RegistryOf(group) ==
            if group == "ceis" || group == "cnep" || group == "ceaf" || group == "leniencia" then Some(ToUpper(group)) else None
  {
    if RegistryOf(group).Some? { GroupsInUpperCase(group, RegistryOf(group).value); }
  }

  lemma GroupsInUpperCase(group: string, registry: string)
    requires RegistryOf(group) == Some(registry)
    ensures ToUpper(group) == registry
  {
  }

  lemma GroupsAreWords(group: string, registry: string)
    requires RegistryOf(group) == Some(registry)
    ensures '@' !in group && Separate(registry)
  {
  }

  lemma RegistriesAreTrimmed(registry: string)
    requires registry == "CEIS" || registry == "CNEP" || registry == "CEAF" || registry == "LENIENCIA"
    ensures Trim(registry) == registry && ToUpper(registry) == registry
  {
  }

  lemma LowerKeepsAt(s: string)
    requires '@' !in s
    ensures '@' !in ToLower(s)
  {
  }

  lemma LowerOfUpper(s: string)
    ensures ToLower(ToUpper(s)) == ToLower(s)
  {
    forall i | 0 <= i < |s| ensures ToLower(ToUpper(s))[i] == ToLower(s)[i] { CaseLaws(s[i], s[i]); }
  }

  lemma FirstAtDecides(a: string, b: string, rest: string)
    requires '@' !in a && '@' !in b && a + "@" <= b + "@" + rest
    ensures a == b
  {
    var s := b + "@" + rest;
    assert s[|a|] == '@' && s[|b|] == '@';
    assert forall i | 0 <= i < |a| :: a[i] == s[i] && a[i] != '@';
    assert forall i | 0 <= i < |b| :: b[i] == s[i] && b[i] != '@';
    assert |a| == |b|;
  }

  function Number(digits: string): nat {
    if digits == "" then 0
    else Number(digits[..|digits| - 1]) * 10 +
         (if '0' <= digits[|digits| - 1] <= '9' then (digits[|digits| - 1] - '0') as nat else 0)
  }

  // The page number of a failure can be read back.
  lemma {:induction false} DigitsRead(n: nat)
    ensures Digits(n) != "" && Number(Digits(n)) == n && forall c | c in Digits(n) :: '0' <= c <= '9'
  {
    if n >= 10 {
      DigitsRead(n / 10);
      assert Digits(n)[..|Digits(n)| - 1] == Digits(n / 10);
    } else {
      assert Digits(n)[..0] == "";
    }
  }

  lemma FailureNamesItsPage(group: string, page: nat)
    ensures var entry := FailureEntry(group, page);
            group + "@p" <= entry && Number(entry[|group| + 2..]) == page
  {
    DigitsRead(page);
    assert FailureEntry(group, page)[|group| + 2..] == Digits(page);
  }

  // A recorded failure stops the sweep of its own registry and of no other.
  lemma FailureBlocksIff(group: string, page: nat, other: string)
    requires '@' !in group && '@' !in other
    ensures Blocks(FailureEntry(group, page), ToUpper(other)) <==> ToLower(group) == ToLower(other)
  {
    var tail := ToLower("p" + Digits(page));
    var entry := ToLower(FailureEntry(group, page));
    assert entry == ToLower(group) + "@" + tail;
    LowerOfUpper(other);
    LowerKeepsAt(group);
    LowerKeepsAt(other);
    if ToLower(other) + "@" <= entry {
      FirstAtDecides(ToLower(other), ToLower(group), tail);
    }
    assert entry[|group|] == '@';
    assert entry != ToLower(other);
  }

  // ----- What a clean sweep leaves published -----

  function Ids(registry: string, records: seq<SanctionRecord>): set<string> {
    set r | r in records :: SanctionNodeID(registry, r.entryId)
  }

  lemma {:induction false} IngestedRecord(s: Store, registry: string, records: seq<SanctionRecord>, run: string, id: string)
    requires ToUpper(Trim(registry)) == registry && run != ""
    ensures id in Ingested(s, registry, records, run) <==> id in s || id in Ids(registry, records)
    ensures id in Ids(registry, records) ==> Ingested(s, registry, records, run)[id] == Record(registry, true, false, Some(run))
    ensures id in s && id !in Ids(registry, records) ==> Ingested(s, registry, records, run)[id] == s[id]
  {
    if records != [] {
      var last := records[|records| - 1];
      IngestedRecord(s, registry, records[..|records| - 1], run, id);
      assert records == records[..|records| - 1] + [last];
      assert Ids(registry, records) == Ids(registry, records[..|records| - 1]) + {SanctionNodeID(registry, last.entryId)};
    }
  }

  // ----- How many that is -----

  // The entries a listing names.
  function Entries(records: seq<SanctionRecord>): set<string> { set r | r in records :: Trim(r.entryId) }

  lemma OneEntryMore(registry: string, init: seq<SanctionRecord>, last: SanctionRecord)
    requires Separate(registry)
    ensures Entries(init + [last]) == Entries(init) + {Trim(last.entryId)}
    ensures Ids(registry, init + [last]) == Ids(registry, init) + {SanctionNodeID(registry, last.entryId)}
    ensures Trim(last.entryId) in Entries(init) <==> SanctionNodeID(registry, last.entryId) in Ids(registry, init)
  {
    forall r | r in init
      ensures SanctionNodeID(registry, r.entryId) == SanctionNodeID(registry, last.entryId) <==> Trim(r.entryId) == Trim(last.entryId)
    {
      IdsAgreeIff(registry, r.entryId, registry, last.entryId);
    }
  }

  // Each entry of a listing is one node.
  lemma {:induction false} EntriesAreNodes(registry: string, records: seq<SanctionRecord>)
    requires Separate(registry)
    ensures |Ids(registry, records)| == |Entries(records)|
  {
    if records != [] {
      var init, last := records[..|records| - 1], records[|records| - 1];
      EntriesAreNodes(registry, init);
      OneNodeMore(registry, init, last, |Entries(init)|);
      assert records == init + [last];
    }
  }

  lemma OneNodeMore(registry: string, init: seq<SanctionRecord>, last: SanctionRecord, n: nat)
    requires Separate(registry) && |Ids(registry, init)| == n == |Entries(init)|
    ensures |Ids(registry, init + [last])| == |Entries(init + [last])|
  {
    OneEntryMore(registry, init, last);
    OneMoreEach(Ids(registry, init), Entries(init), SanctionNodeID(registry, last.entryId), Trim(last.entryId));
  }

  ghost predicate DistinctEntries(records: seq<SanctionRecord>) {
    forall i, j | 0 <= i < j < |records| :: Trim(records[i].entryId) != Trim(records[j].entryId)
  }

  lemma {:induction false} DistinctEntriesAreMany(records: seq<SanctionRecord>)
    requires DistinctEntries(records)
    ensures |Entries(records)| == |records|
  {
    if records != [] {
      var init, last := records[..|records| - 1], records[|records| - 1];
      DistinctEntriesAreMany(init);
      LastIsAnother(records, init, last);
      OneEntryMore("", init, last);
      assert records == init + [last];
    }
  }

  lemma LastIsAnother(records: seq<SanctionRecord>, init: seq<SanctionRecord>, last: SanctionRecord)
    requires DistinctEntries(records) && records == init + [last]
    ensures Trim(last.entryId) !in Entries(init)
  {
    forall i | 0 <= i < |init| ensures Trim(init[i].entryId) != Trim(last.entryId) {
      assert records[i] == init[i] && records[|init|] == last;
    }
  }

  lemma OneMoreEach(a: set<string>, b: set<string>, x: string, y: string)
    requires |a| == |b| && (x in a <==> y in b)
    ensures |a + {x}| == |b + {y}|
  {
    assert x in a ==> a + {x} == a && b + {y} == b;
  }

  // A first ingest publishes as many records as the listing has entries, no two of them at one node.
  lemma FirstIngestPublishes(registry: string, records: seq<SanctionRecord>, run: string)
    requires ToUpper(Trim(registry)) == registry && Separate(registry) && run != ""
    ensures |Published(Ingested(map[], registry, records, run), registry)| == |Entries(records)|
    ensures DistinctEntries(records) ==> |Published(Ingested(map[], registry, records, run), registry)| == |records|
  {
    forall id ensures id in Published(Ingested(map[], registry, records, run), registry) <==> id in Ids(registry, records) {
      IngestedRecord(map[], registry, records, run, id);
    }
    assert Published(Ingested(map[], registry, records, run), registry) == Ids(registry, records);
    EntriesAreNodes(registry, records);
    if DistinctEntries(records) { DistinctEntriesAreMany(records); }
  }

  // And an accepted clean sweep leaves that many listed records published.
  lemma CleanSweepPublishesThatMany(s: Store, registry: string, records: seq<SanctionRecord>, run: string)
    requires ToUpper(Trim(registry)) == registry && Separate(registry) && FreshRun(s, registry, run)
    requires Accepted(Ingested(s, registry, records, run), registry, run, DEFAULT_GUARD)
    ensures var published := Published(AfterSweep(Ingested(s, registry, records, run), registry, run, DEFAULT_GUARD), registry);
            && |published * Ids(registry, records)| == |Entries(records)|
            && (DistinctEntries(records) ==> |published * Ids(registry, records)| == |records|)
            && published - Ids(registry, records) <= PublishedUnstamped(s, registry)
  {
    CleanSweepPublishesTheListing(s, registry, records, run);
    var published := Published(AfterSweep(Ingested(s, registry, records, run), registry, run, DEFAULT_GUARD), registry);
    assert published * Ids(registry, records) == Ids(registry, records);
    EntriesAreNodes(registry, records);
    if DistinctEntries(records) { DistinctEntriesAreMany(records); }
  }

  // No record of the registry was stamped by this run.
  ghost predicate FreshRun(s: Store, registry: string, run: string) {
    forall id | id in s && s[id].registry == registry :: s[id].lastSeen != Some(run)
  }

  function PublishedUnstamped(s: Store, registry: string): set<string> {
    set id | id in Published(s, registry) && s[id].lastSeen.None?
  }

  // After an accepted sweep by a run that had not stamped the registry before, the registry's published records are the
  // ones just listed, together with any published record that no run ever stamped.
  lemma CleanSweepPublishesTheListing(s: Store, registry: string, records: seq<SanctionRecord>, run: string)
    requires ToUpper(Trim(registry)) == registry && FreshRun(s, registry, run)
    requires Accepted(Ingested(s, registry, records, run), registry, run, DEFAULT_GUARD)
    ensures Published(AfterSweep(Ingested(s, registry, records, run), registry, run, DEFAULT_GUARD), registry) ==
            Ids(registry, records) + PublishedUnstamped(s, registry)
  {
    var t := Ingested(s, registry, records, run);
    var u := AfterSweep(t, registry, run, DEFAULT_GUARD);
    forall id ensures id in Published(u, registry) <==> id in Ids(registry, records) + PublishedUnstamped(s, registry) {
      IngestedRecord(s, registry, records, run, id);
    }
  }

  // ----- Registries beside each other -----

  predicate Separate(registry: string) { ':' !in registry }

  // Every record sits at an id that starts with its registry, and no registry holds the separator.
  ghost predicate Keyed(s: Store) {
    forall id | id in s :: Separate(s[id].registry) && s[id].registry + ":" <= id
  }

  // The two stores hold the same records of registry q.
  ghost predicate SameOf(s: Store, t: Store, q: string) {
    forall id :: ((id in s && s[id].registry == q) <==> (id in t && t[id].registry == q))
                 && (id in s && s[id].registry == q ==> t[id] == s[id])
  }

  ghost predicate KeepsOthers(s: Store, t: Store, registry: string) {
    Keyed(s) ==> forall q | Separate(q) && q != registry :: SameOf(s, t, q)
  }

  // The run id is new.
  ghost predicate FreshId(s: Store, run: string) { forall id | id in s :: s[id].lastSeen != Some(run) }

  ghost predicate PublishesListing(s: Store, t: Store, group: string, pages: string -> seq<Page>) {
    && RegistryOf(group).Some? && Listing(pages(group)).Some?
    && var registry := RegistryOf(group).value;
       Published(t, registry) == Ids(registry, Listing(pages(group)).value) + PublishedUnstamped(s, registry)
  }

  lemma FirstColonDecides(a: string, b: string, id: string)
    requires Separate(a) && Separate(b) && a + ":" <= id && b + ":" <= id
    ensures a == b
  {
    assert id[|a|] == (a + ":")[|a|] == ':' && id[|b|] == (b + ":")[|b|] == ':';
    assert forall i | 0 <= i < |a| :: id[i] == (a + ":")[i] == a[i];
    assert forall i | 0 <= i < |b| :: id[i] == (b + ":")[i] == b[i];
    assert a == id[..|a|] && b == id[..|b|];
  }

  lemma UpsertKeepsOthers(s: Store, registry: string, entryId: string, run: string)
    requires Keyed(s) && Separate(registry) && ToUpper(Trim(registry)) == registry
    ensures var t := AfterUpsert(s, registry, entryId, run); Keyed(t) && forall q | q != registry :: SameOf(s, t, q)
  {
    var id := SanctionNodeID(registry, entryId);
    assert registry + ":" <= id;
    if id in s { FirstColonDecides(s[id].registry, registry, id); }
  }

  lemma {:induction false} IngestKeepsOthers(s: Store, registry: string, records: seq<SanctionRecord>, run: string)
    requires Separate(registry) && ToUpper(Trim(registry)) == registry
    ensures var t := Ingested(s, registry, records, run); KeepsOthers(s, t, registry) && (Keyed(s) ==> Keyed(t))
  {
    if records != [] && Keyed(s) {
      var init := records[..|records| - 1];
      IngestKeepsOthers(s, registry, init, run);
      var mid, t := Ingested(s, registry, init, run), Ingested(s, registry, records, run);
      UpsertKeepsOthers(mid, registry, records[|records| - 1].entryId, run);
      forall q | Separate(q) && q != registry ensures SameOf(s, t, q) {
        assert SameOf(s, mid, q) && SameOf(mid, t, q);
      }
    }
  }

  lemma SweepKeepsOthers(s: Store, registry: string, run: string)
    ensures var t := AfterSweep(s, registry, run, DEFAULT_GUARD); KeepsOthers(s, t, registry) && (Keyed(s) ==> Keyed(t))
  {
  }

  lemma KeptInTurn(s: Store, t: Store, u: Store, registry: string)
    requires KeepsOthers(s, t, registry) && (Keyed(s) ==> Keyed(t)) && KeepsOthers(t, u, registry)
    ensures KeepsOthers(s, u, registry)
  {
  }

  lemma SamePublished(s: Store, t: Store, q: string)
    requires SameOf(s, t, q)
    ensures Published(s, q) == Published(t, q) && PublishedUnstamped(s, q) == PublishedUnstamped(t, q)
  {
  }

  lemma GroupsAreApart(a: string, b: string)
    requires RegistryOf(a).Some? && RegistryOf(b).Some? && a != b
    ensures RegistryOf(a) != RegistryOf(b) && Separate(RegistryOf(a).value)
  {
  }

  // Every store a history of upserts and sweeps leads to is keyed.
  lemma {:induction false} HistoriesAreKeyed(h: seq<Event>, n: nat)
    requires n <= |h| && forall i | 0 <= i < n && h[i].Upsert? :: Separate(ToUpper(Trim(h[i].registry)))
    ensures Keyed(State(h, n))
  {
    if n > 0 { HistoriesAreKeyed(h, n - 1); }
  }

  // A later registry's turn leaves what an earlier one published.
  lemma StillPublishes(s: Store, t: Store, u: Store, group: string, other: string, pages: string -> seq<Page>)
    requires PublishesListing(s, t, group, pages) && RegistryOf(other).Some? && group != other
    requires Keyed(t) && KeepsOthers(t, u, RegistryOf(other).value)
    ensures PublishesListing(s, u, group, pages)
  {
    GroupsAreApart(group, other);
    SamePublished(t, u, RegistryOf(group).value);
  }

  // A registry's own turn, when no earlier one touched it.
  lemma NowPublishes(s: Store, t: Store, u: Store, group: string, pages: string -> seq<Page>, run: string)
    requires RegistryOf(group).Some? && Listing(pages(group)).Some? && SameOf(s, t, RegistryOf(group).value)
    requires var registry := RegistryOf(group).value;
             Published(u, registry) == Ids(registry, Listing(pages(group)).value) + PublishedUnstamped(t, registry)
    ensures PublishesListing(s, u, group, pages)
  {
    SamePublished(s, t, RegistryOf(group).value);
  }
}
