/**
 Sanction records and the retraction sweep.

 A record keeps its identity for good; the labels Sanction and RetractedSanction say whether it
 is published. Every upsert stamps the run that saw the record, and a sweep unpublishes the
 published records of one registry that its run did not see, unless the guard refuses.
 */
module Retraction {
  import opened Text
  import opened Wrappers

  datatype Record = Record(registry: string, sanction: bool, retracted: bool, lastSeen: Option<string>)

  type Store = map<string, Record>

  // MaxFraction is num / den, compared by cross-multiplication.
  datatype Guard = Guard(num: nat, den: nat, minRecords: nat)

  const DEFAULT_GUARD := Guard(1, 20, 100)

  datatype SweepResult = SweepResult(source: string, held: nat, seen: nat, missing: nat, retracted: nat, refused: bool)

  datatype Error = MissingSourceUrl | MissingRegistryOrRun

  function SanctionNodeID(registry: string, entryId: string): string {
    ToUpper(Trim(registry)) + ":" + Trim(entryId)
  }

  // ----- The effect of one statement -----

  function Stamp(s: Store, id: string): Option<string> { if id in s then s[id].lastSeen else None }

  function AfterUpsert(s: Store, registry: string, entryId: string, runId: string): Store {
    var id := SanctionNodeID(registry, entryId);
    s[id := Record(ToUpper(Trim(registry)), true, false, if runId == "" then Stamp(s, id) else Some(runId))]
  }

  // last_seen_run <> run: neither true nor false of a record that was never stamped.
  predicate SeenByAnother(r: Record, run: string) { r.lastSeen.Some? && r.lastSeen.value != run }

  function Of(s: Store, registry: string): set<string> { set id | id in s && s[id].registry == registry }

  function Seen(s: Store, registry: string, run: string): set<string> {
    set id | id in s && s[id].registry == registry && s[id].lastSeen == Some(run)
  }

  function Missing(s: Store, registry: string, run: string): set<string> {
    set id | id in s && s[id].registry == registry && s[id].sanction && SeenByAnother(s[id], run)
  }

  predicate Refuses(g: Guard, held: nat, missing: nat) {
    held < g.minRecords || missing * g.den > held * g.num
  }

  predicate Accepted(s: Store, registry: string, run: string, g: Guard) {
    registry != "" && run != "" && !Refuses(g, |Of(s, registry)|, |Missing(s, registry, run)|)
  }

  function Swept(r: Record, missing: bool): Record {
    if missing then r.(sanction := false, retracted := true) else r
  }

  function AfterSweep(s: Store, registry: string, run: string, g: Guard): Store {
    if !Accepted(s, registry, run, g) then s
    else map id | id in s :: Swept(s[id], id in Missing(s, registry, run))
  }

  function Published(s: Store, registry: string): set<string> {
    set id | id in s && s[id].registry == registry && s[id].sanction
  }

  // Exactly one of the two labels.
  ghost predicate OneLabel(s: Store) { forall id | id in s :: s[id].sanction != s[id].retracted }

  class SanctionGraph {
    var records: Store

    method UpsertSanction(registry: string, entryId: string, sourceUrl: string, runId: string)
        returns (r: Result<string, Error>)
      modifies this
      ensures r == if Trim(sourceUrl) == "" then Failure(MissingSourceUrl)
                   else Success(SanctionNodeID(registry, entryId))
      ensures records == if r.Failure? then old(records) else AfterUpsert(old(records), registry, entryId, runId)
    {
      if Trim(sourceUrl) == "" { return Failure(MissingSourceUrl); }
      var id := SanctionNodeID(registry, entryId);
      var stamp := if runId != "" then Some(runId) else if id in records then records[id].lastSeen else None;
      records := records[id := Record(ToUpper(Trim(registry)), true, false, stamp)];
      r := Success(id);
    }

    // Nothing is written before the guard has seen the counts.
    method SweepRetractedSanctions(registry: string, run: string, guard: Guard)
        returns (r: Result<SweepResult, Error>)
      modifies this
      ensures r.Failure? <==> registry == "" || run == ""
      ensures records == AfterSweep(old(records), registry, run, guard)
      ensures r.Success? ==>
        var res := r.value;
        && res.source == registry
        && res.held == |Of(old(records), registry)|
        && res.seen == |Seen(old(records), registry, run)|
        && res.missing == |Missing(old(records), registry, run)|
        && res.refused == !Accepted(old(records), registry, run, guard)
        && res.retracted == if res.refused then 0 else res.missing
    {
      if registry == "" || run == "" { return Failure(MissingRegistryOrRun); }
      var res := SweepResult(registry, |Of(records, registry)|, |Seen(records, registry, run)|,
                             |Missing(records, registry, run)|, 0, false);
      if res.held < guard.minRecords {
        return Success(res.(refused := true));
      }
      if res.missing * guard.den > res.held * guard.num {
        return Success(res.(refused := true));
      }
      var swept := Missing(records, registry, run);
      records := map id | id in records :: Swept(records[id], id in swept);
      r := Success(res.(retracted := |swept|));
    }
  }

  // ----- Node ids -----

  lemma ColonIsColon(registry: string)
    requires ':' !in registry
    ensures ':' !in ToUpper(Trim(registry))
  {
    TrimIsInside(registry);
    forall c | c in registry ensures UpperChar(c) != ':' { }
  }

  // Two upserts meet at one node exactly when their registries agree up to case and outer space and their
  // entries up to outer space.
  lemma IdsAgreeIff(registry: string, entryId: string, registry2: string, entryId2: string)
    requires ':' !in registry && ':' !in registry2
    ensures SanctionNodeID(registry, entryId) == SanctionNodeID(registry2, entryId2) <==>
              ToUpper(Trim(registry)) == ToUpper(Trim(registry2)) && Trim(entryId) == Trim(entryId2)
  {
    ColonIsColon(registry);
    ColonIsColon(registry2);
    FirstColon(ToUpper(Trim(registry)), Trim(entryId), ToUpper(Trim(registry2)), Trim(entryId2));
  }

  lemma FirstColon(a: string, x: string, b: string, y: string)
    requires ':' !in a && ':' !in b
    ensures a + ":" + x == b + ":" + y <==> a == b && x == y
  {
    var s, t := a + ":" + x, b + ":" + y;
    assert s[|a|] == ':' && t[|b|] == ':';
    assert forall k | 0 <= k < |a| :: s[k] == a[k] && a[k] in a;
    assert forall k | 0 <= k < |b| :: t[k] == b[k] && b[k] in b;
    assert s[..|a|] == a && t[..|b|] == b && s[|a| + 1..] == x && t[|b| + 1..] == y;
  }

  lemma CeisOne(registry: string, entryId: string)
    requires registry == "ceis " && entryId == " 1"
    ensures SanctionNodeID(registry, entryId) == "CEIS:1"
  {
    TrimmedIs(registry, 0, 4);
    TrimmedIs(entryId, 1, 2);
    assert registry[..4] == "ceis" && ToUpper("ceis") == "CEIS";
  }

  // ----- One sweep -----

  // Every record held is in exactly one of four groups.
  lemma HeldSplits(s: Store, registry: string, run: string)
    requires OneLabel(s)
    ensures var retractedUnseen := set id | id in s && s[id].registry == registry && s[id].retracted && SeenByAnother(s[id], run);
      var neverStamped := set id | id in s && s[id].registry == registry && s[id].lastSeen.None?;
      |Of(s, registry)| == |Seen(s, registry, run)| + |Missing(s, registry, run)| + |retractedUnseen| + |neverStamped|
  {
    var a, b := Seen(s, registry, run), Missing(s, registry, run);
    var c := set id | id in s && s[id].registry == registry && s[id].retracted && SeenByAnother(s[id], run);
    var d := set id | id in s && s[id].registry == registry && s[id].lastSeen.None?;
    FourParts(Of(s, registry), a, b, c, d);
  }

  lemma FourParts(all: set<string>, a: set<string>, b: set<string>, c: set<string>, d: set<string>)
    requires a !! b && a !! c && a !! d && b !! c && b !! d && c !! d
    requires forall x :: x in all <==> x in a || x in b || x in c || x in d
    ensures |all| == |a| + |b| + |c| + |d|
  {
    TwoParts(a, b);
    TwoParts(a + b, c);
    TwoParts(a + b + c, d);
    assert all == a + b + c + d;
  }

  lemma TwoParts(a: set<string>, b: set<string>)
    requires a !! b
    ensures |a + b| == |a| + |b|
  {
  }

  // With the default guard a sweep is accepted exactly when at least a hundred records are held and at most
  // a twentieth of them is missing. It then unpublishes the missing records and nothing else; a refused
  // one changes nothing; no other registry is touched.
  lemma SweepEffect(s: Store, registry: string, run: string)
    ensures Accepted(s, registry, run, DEFAULT_GUARD) <==>
      && registry != "" && run != ""
      && |Of(s, registry)| >= 100 && 20 * |Missing(s, registry, run)| <= |Of(s, registry)|
    ensures var t := AfterSweep(s, registry, run, DEFAULT_GUARD);
      && t.Keys == s.Keys
      && (forall id | id in s && s[id].registry != registry :: t[id] == s[id])
      && (if Accepted(s, registry, run, DEFAULT_GUARD)
          then Published(t, registry) == Published(s, registry) - Missing(s, registry, run)
          else t == s)
  {
    var t := AfterSweep(s, registry, run, DEFAULT_GUARD);
    if Accepted(s, registry, run, DEFAULT_GUARD) {
      assert Published(t, registry) == Published(s, registry) - Missing(s, registry, run);
    }
  }

  // ----- A history of upserts and sweeps -----

  datatype Event =
    | Upsert(registry: string, entryId: string, sourceUrl: string, runId: string)
    | Sweep(registry: string, run: string, guard: Guard)

  function After(s: Store, e: Event): Store {
    match e
    case Upsert(registry, entryId, sourceUrl, runId) =>
      if Trim(sourceUrl) == "" then s else AfterUpsert(s, registry, entryId, runId)
    case Sweep(registry, run, guard) => AfterSweep(s, registry, run, guard)
  }

  // The store after the first n events of a history that begins with no records.
  function State(h: seq<Event>, n: nat): Store
    requires n <= |h|
  {
    if n == 0 then map[] else After(State(h, n - 1), h[n - 1])
  }

  // Event i upserts record id.
  predicate Writes(h: seq<Event>, i: nat, id: string)
    requires i < |h|
  {
    h[i].Upsert? && Trim(h[i].sourceUrl) != "" && SanctionNodeID(h[i].registry, h[i].entryId) == id
  }

  // The event before n that last upserted id, as one more than its index, or 0.
  function LastUpsert(h: seq<Event>, n: nat, id: string): (u: nat)
    requires n <= |h|
    ensures u <= n
    ensures u > 0 ==> Writes(h, u - 1, id)
    ensures forall i | u <= i < n :: !Writes(h, i, id)
  {
    if n == 0 then 0 else if Writes(h, n - 1, id) then n else LastUpsert(h, n - 1, id)
  }

  // The last run id that an event before n stamped on id.
  function LastStamp(h: seq<Event>, n: nat, id: string): Option<string>
    requires n <= |h|
  {
    if n == 0 then None
    else if Writes(h, n - 1, id) && h[n - 1].runId != "" then Some(h[n - 1].runId)
    else LastStamp(h, n - 1, id)
  }

  // Event i is an accepted sweep of this registry by a run other than the one that last stamped id.
  predicate SweepsAway(h: seq<Event>, i: nat, id: string, registry: string)
    requires i < |h|
  {
    && h[i].Sweep? && h[i].registry == registry
    && Accepted(State(h, i), h[i].registry, h[i].run, h[i].guard)
    && LastStamp(h, i, id).Some? && LastStamp(h, i, id).value != h[i].run
  }

  // Some event of [u, n) sweeps the record away.
  predicate SweptSince(h: seq<Event>, u: nat, n: nat, id: string, registry: string)
    requires n <= |h|
  {
    u < n && (SweepsAway(h, n - 1, id, registry) || SweptSince(h, u, n - 1, id, registry))
  }

  lemma {:induction false} SweptSinceIff(h: seq<Event>, u: nat, n: nat, id: string, registry: string)
    requires n <= |h|
    ensures SweptSince(h, u, n, id, registry) <==> exists i :: u <= i < n && SweepsAway(h, i, id, registry)
  {
    if u < n {
      SweptSinceIff(h, u, n - 1, id, registry);
    }
  }

  // What a history says about one record, without looking at the store.
  ghost predicate Told(h: seq<Event>, n: nat, id: string)
    requires n <= |h|
  {
    var u, s := LastUpsert(h, n, id), State(h, n);
    && (id in s <==> u > 0)
    && (u > 0 ==>
          && s[id].registry == ToUpper(Trim(h[u - 1].registry))
          && s[id].lastSeen == LastStamp(h, n, id)
          && s[id].sanction == !s[id].retracted
          && (s[id].retracted <==> SweptSince(h, u, n, id, s[id].registry)))
  }

  lemma {:induction false} NeverStamped(h: seq<Event>, n: nat, id: string)
    requires n <= |h| && LastUpsert(h, n, id) == 0
    ensures LastStamp(h, n, id).None?
  {
    if n > 0 { NeverStamped(h, n - 1, id); }
  }

  // What one sweep does to one record, in terms of the store before it.
  lemma SweptOrKept(s: Store, e: Event, id: string)
    requires e.Sweep? && id in s
    ensures After(s, e).Keys == s.Keys
    ensures var away := s[id].registry == e.registry && Accepted(s, e.registry, e.run, e.guard) && SeenByAnother(s[id], e.run);
            After(s, e)[id] == Swept(s[id], away && s[id].sanction)
  {
  }

  lemma SweepWritesNothing(h: seq<Event>, n: nat, id: string)
    requires 0 < n <= |h| && h[n - 1].Sweep?
    ensures LastUpsert(h, n, id) == LastUpsert(h, n - 1, id) && LastStamp(h, n, id) == LastStamp(h, n - 1, id)
    ensures State(h, n) == After(State(h, n - 1), h[n - 1]) && State(h, n).Keys == State(h, n - 1).Keys
  {
    assert !Writes(h, n - 1, id);
  }

  lemma SweepIsTold(h: seq<Event>, n: nat, id: string)
    requires 0 < n <= |h| && Told(h, n - 1, id) && h[n - 1].Sweep?
    ensures Told(h, n, id)
  {
    SweepWritesNothing(h, n, id);
    if id in State(h, n - 1) { SweptOrKept(State(h, n - 1), h[n - 1], id); }
  }

  lemma OwnUpsertRecord(h: seq<Event>, n: nat, id: string)
    requires 0 < n <= |h| && Writes(h, n - 1, id)
    ensures var e := h[n - 1];
      && id in State(h, n)
      && State(h, n)[id] == Record(ToUpper(Trim(e.registry)), true, false,
                                   if e.runId == "" then Stamp(State(h, n - 1), id) else Some(e.runId))
  {
  }

  lemma OwnUpsertStamp(h: seq<Event>, n: nat, id: string)
    requires 0 < n <= |h| && Told(h, n - 1, id) && Writes(h, n - 1, id)
    ensures id in State(h, n) && State(h, n)[id].lastSeen == LastStamp(h, n, id)
  {
    if id !in State(h, n - 1) { NeverStamped(h, n - 1, id); }
    OwnUpsertRecord(h, n, id);
  }

  lemma OwnUpsertIsTold(h: seq<Event>, n: nat, id: string)
    requires 0 < n <= |h| && Told(h, n - 1, id) && Writes(h, n - 1, id)
    ensures Told(h, n, id)
  {
    OwnUpsertStamp(h, n, id);
    OwnUpsertRecord(h, n, id);
  }

  lemma OtherUpsertRecord(h: seq<Event>, n: nat, id: string)
    requires 0 < n <= |h| && h[n - 1].Upsert? && !Writes(h, n - 1, id)
    ensures id in State(h, n) <==> id in State(h, n - 1)
    ensures id in State(h, n) ==> State(h, n)[id] == State(h, n - 1)[id]
    ensures LastUpsert(h, n, id) == LastUpsert(h, n - 1, id) && LastStamp(h, n, id) == LastStamp(h, n - 1, id)
  {
  }

  lemma OtherUpsertIsTold(h: seq<Event>, n: nat, id: string)
    requires 0 < n <= |h| && Told(h, n - 1, id) && h[n - 1].Upsert? && !Writes(h, n - 1, id)
    ensures Told(h, n, id)
  {
    OtherUpsertRecord(h, n, id);
    var u := LastUpsert(h, n, id);
    if u > 0 { UpsertSweepsNothing(h, u, n, id, State(h, n)[id].registry); }
  }

  lemma UpsertSweepsNothing(h: seq<Event>, u: nat, n: nat, id: string, registry: string)
    requires 0 < u < n <= |h| && h[n - 1].Upsert?
    ensures SweptSince(h, u, n, id, registry) == SweptSince(h, u, n - 1, id, registry)
  {
  }

  lemma {:induction false} HistoryIsTold(h: seq<Event>, n: nat, id: string)
    requires n <= |h|
    ensures Told(h, n, id)
  {
    if n > 0 {
      HistoryIsTold(h, n - 1, id);
      if h[n - 1].Sweep? { SweepIsTold(h, n, id); }
      else if Writes(h, n - 1, id) { OwnUpsertIsTold(h, n, id); }
      else { OtherUpsertIsTold(h, n, id); }
    }
  }

  // A record always carries exactly one label, and is unpublished exactly when, since its last
  // upsert, its registry was swept, with the guard's consent, by another run than the one that
  // last stamped it.
  lemma RetractionHistory(h: seq<Event>, n: nat, id: string)
    requires n <= |h|
    ensures id in State(h, n) <==> exists i | 0 <= i < n :: Writes(h, i, id)
    ensures id in State(h, n) ==>
      var r, u := State(h, n)[id], LastUpsert(h, n, id);
      && r.sanction == !r.retracted
      && (r.retracted <==> exists i :: u <= i < n && SweepsAway(h, i, id, r.registry))
  {
    HistoryIsTold(h, n, id);
    var u := LastUpsert(h, n, id);
    if u > 0 {
      SweptSinceIff(h, u, n, id, State(h, n)[id].registry);
    }
  }

  lemma {:induction false} RecordsAreKept(h: seq<Event>, m: nat, n: nat)
    requires m <= n <= |h|
    ensures State(h, m).Keys <= State(h, n).Keys && OneLabel(State(h, n))
    decreases n
  {
    forall id | id in State(h, n) ensures State(h, n)[id].sanction != State(h, n)[id].retracted {
      RetractionHistory(h, n, id);
    }
    if m < n { RecordsAreKept(h, m, n - 1); }
  }
}
