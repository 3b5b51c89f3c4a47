/**
 Whether a purged name stays out of a case's party snapshot: the scrub that completes a purge and the
 polls that follow it.

 A purged party is still recorded by a poll; only its handling is skipped.
 */
module Erasure {
  import opened Text
  import opened Roster

  // One case's snapshot: the name recorded under each key.
  type Rows = map<string, string>

  datatype Event = Polled(poll: Poll) | Scrubbed(name: string)

  // upper(btrim(nome)) = upper(btrim(name)), for a recorded name, which has no outer space.
  predicate Matches(nome: string, name: string) { ToUpper(nome) == ToUpper(Trim(name)) }

  predicate SameName(a: string, b: string) { ToUpper(Trim(a)) == ToUpper(Trim(b)) }

  predicate Legible(rows: Rows, name: string) { exists k | k in rows :: Matches(rows[k], name) }

  function Inserted(key: Party -> string, rows: Rows, ps: seq<Party>): Rows {
    if ps == [] then rows else Inserted(key, rows, ps[..|ps| - 1])[key(ps[|ps| - 1]) := ps[|ps| - 1].nome]
  }

  // The parties a poll records.
  function Recorded(key: Party -> string, rows: Rows, p: Poll): seq<Party> {
    Take(Delta(key, RosterOf(key, p.items), rows.Keys), p.recorded)
  }

  function Scrub(rows: Rows, name: string): Rows {
    if Trim(name) == "" then rows else map k | k in rows && !Matches(rows[k], name) :: rows[k]
  }

  function AfterEvent(key: Party -> string, rows: Rows, e: Event): Rows {
    match e
    case Polled(p) => Inserted(key, rows, Recorded(key, rows, p))
    case Scrubbed(name) => Scrub(rows, name)
  }

  function Play(key: Party -> string, rows: Rows, events: seq<Event>): Rows {
    if events == [] then rows else AfterEvent(key, Play(key, rows, events[..|events| - 1]), events[|events| - 1])
  }

  class Snapshot {
    const key: Party -> string
    var rows: Rows

    constructor (key: Party -> string)
      ensures rows == map[] && this.key == key
    {
      this.key, rows := key, map[];
    }

    // InsertDjenSnapshotParty, for what a poll records; a key already there is left alone.
    method Insert(items: seq<Item>, limit: nat)
      modifies this
      ensures rows == AfterEvent(key, old(rows), Polled(Poll(items, limit, false)))
    {
      var roster := RosterFromItems(key, items);
      var delta := RosterDelta(key, roster, rows.Keys);
      RosterIsDistinct(key, Mentions(items));
      DeltaIsFresh(key, roster, rows.Keys);
      PrefixKeys(key, delta, Take(delta, limit));
      InsertAll(Take(delta, limit));
    }

    method InsertAll(done: seq<Party>)
      requires DistinctKeys(key, done) && Keys(key, done) !! rows.Keys
      modifies this
      ensures rows == Inserted(key, old(rows), done)
    {
      ghost var before := rows;
      for i := 0 to |done|
        invariant rows == Inserted(key, before, done[..i])
      {
        assert done[..i + 1][..i] == done[..i];
        InsertedKeys(key, before, done[..i]);
        FreshSoFar(key, done, i, before.Keys);
        if key(done[i]) !in rows {
          rows := rows[key(done[i]) := done[i].nome];
        }
      }
      assert done[..|done|] == done;
    }

    // DeletePurgedSubjectName, on this case's snapshot.
    method DeleteName(name: string) returns (removed: nat)
      modifies this
      ensures rows == Scrub(old(rows), name) && removed == |old(rows)| - |rows|
      ensures Trim(name) != "" ==> !Legible(rows, name)
    {
      if Trim(name) == "" { return 0; }
      ghost var before := rows;
      var kept := map k | k in rows && !Matches(rows[k], name) :: rows[k];
      FewerRows(rows, kept);
      removed := |rows| - |kept|;
      rows := kept;
    }
  }

  lemma FewerRows(rows: Rows, kept: Rows)
    requires kept.Keys <= rows.Keys
    ensures |kept| <= |rows|
  {
    FewerKeys(kept.Keys, rows.Keys);
  }

  lemma {:induction false} FewerKeys(a: set<string>, b: set<string>)
    requires a <= b
    ensures |a| <= |b|
  {
    if x :| x in a { FewerKeys(a - {x}, b - {x}); }
  }

  lemma {:induction false} InsertedKeys(key: Party -> string, rows: Rows, ps: seq<Party>)
    ensures Inserted(key, rows, ps).Keys == rows.Keys + Keys(key, ps)
  {
    if ps != [] { InsertedKeys(key, rows, ps[..|ps| - 1]); }
  }

  lemma FreshSoFar(key: Party -> string, ps: seq<Party>, i: nat, existing: set<string>)
    requires i < |ps| && DistinctKeys(key, ps) && Keys(key, ps) !! existing
    ensures key(ps[i]) !in existing && key(ps[i]) !in Keys(key, ps[..i])
  {
    KeysHas(key, ps, key(ps[i]));
    KeysHas(key, ps[..i], key(ps[i]));
  }

  // A row shows a name when they are the same letters up to case, but for the outer spaces of the name.
  lemma MatchesIff(nome: string, name: string)
    ensures Matches(nome, name) <==>
              |nome| == |Trim(name)| && forall i | 0 <= i < |nome| :: LowerChar(nome[i]) == LowerChar(Trim(name)[i])
  {
    var k, l := ToUpper(nome), ToUpper(Trim(name));
    if |nome| == |Trim(name)| {
      forall i | 0 <= i < |nome| ensures k[i] == l[i] <==> LowerChar(nome[i]) == LowerChar(Trim(name)[i]) {
        CaseLaws(nome[i], Trim(name)[i]);
      }
    }
  }

  // ----- When a name is legible -----

  ghost predicate Shows(ps: seq<Party>, name: string) { exists i | 0 <= i < |ps| :: Matches(ps[i].nome, name) }

  // New keys only: what was recorded stays, and what a poll records is added.
  lemma {:induction false} InsertedShowsIff(key: Party -> string, rows: Rows, ps: seq<Party>, name: string)
    requires DistinctKeys(key, ps) && Keys(key, ps) !! rows.Keys
    ensures Legible(Inserted(key, rows, ps), name) <==> Legible(rows, name) || Shows(ps, name)
  {
    if ps != [] {
      var init, last := ps[..|ps| - 1], ps[|ps| - 1];
      LastOf(ps);
      PrefixKeys(key, ps, init);
      InsertedShowsIff(key, rows, init, name);
      InsertedKeys(key, rows, init);
      LastIsNew(key, init, last, ps);
      FreshSoFar(key, ps, |init|, rows.Keys);
      NewRowShowsIff(Inserted(key, rows, init), key(last), last.nome, name);
      LastShowsIff(init, last, name);
    }
  }

  lemma NewRowShowsIff(rows: Rows, k: string, nome: string, name: string)
    requires k !in rows
    ensures Legible(rows[k := nome], name) <==> Legible(rows, name) || Matches(nome, name)
  {
    var after := rows[k := nome];
    assert after[k] == nome;
    assert forall j | j in rows :: after[j] == rows[j];
  }

  lemma LastShowsIff(init: seq<Party>, last: Party, name: string)
    ensures Shows(init + [last], name) <==> Shows(init, name) || Matches(last.nome, name)
  {
    assert (init + [last])[|init|] == last;
    assert forall i | 0 <= i < |init| :: (init + [last])[i] == init[i];
  }

  // A poll makes a name legible exactly when it records a party of that name.
  lemma PollShowsIff(key: Party -> string, rows: Rows, p: Poll, name: string)
    ensures Legible(AfterEvent(key, rows, Polled(p)), name) <==> Legible(rows, name) || Shows(Recorded(key, rows, p), name)
  {
    RosterIsDistinct(key, Mentions(p.items));
    DeltaIsFresh(key, RosterOf(key, p.items), rows.Keys);
    PrefixKeys(key, Delta(key, RosterOf(key, p.items), rows.Keys), Recorded(key, rows, p));
    InsertedShowsIff(key, rows, Recorded(key, rows, p), name);
  }

  // A scrub removes exactly the rows of its own name.
  lemma ScrubHidesIff(rows: Rows, scrubbed: string, name: string)
    requires Trim(name) != ""
    ensures Legible(Scrub(rows, scrubbed), name) <==> Legible(rows, name) && !(Trim(scrubbed) != "" && SameName(scrubbed, name))
  {
    if k :| k in rows && Matches(rows[k], name) && !SameName(scrubbed, name) {
      assert Trim(scrubbed) != "" ==> k in Scrub(rows, scrubbed);
    }
  }

  ghost predicate Brings(key: Party -> string, rows: Rows, events: seq<Event>, i: nat, name: string) {
    && i < |events| && events[i].Polled?
    && Shows(Recorded(key, Play(key, rows, events[..i]), events[i].poll), name)
  }

  predicate Hides(e: Event, name: string) { e.Scrubbed? && Trim(e.name) != "" && SameName(e.name, name) }

  ghost predicate HiddenAfter(events: seq<Event>, i: nat, name: string) {
    exists j | i <= j < |events| :: Hides(events[j], name)
  }

  // What the events say about the name, without looking at the rows they leave.
  ghost predicate Told(key: Party -> string, rows: Rows, events: seq<Event>, name: string) {
    || (Legible(rows, name) && !HiddenAfter(events, 0, name))
    || exists i: nat :: Brings(key, rows, events, i, name) && !HiddenAfter(events, i, name)
  }

  /**
   Over any polls and scrubs, a name is legible in the snapshot exactly when it was, or some poll
   recorded a party of that name, and no scrub of the name came after.
   */
  lemma {:induction false} NameIsLegibleIff(key: Party -> string, rows: Rows, events: seq<Event>, name: string)
    requires Trim(name) != ""
    ensures Legible(Play(key, rows, events), name) <==> Told(key, rows, events, name)
  {
    if events != [] {
      var init, last := events[..|events| - 1], events[|events| - 1];
      EventsSplit(events);
      NameIsLegibleIff(key, rows, init, name);
      NameStep(key, rows, init, last, name);
    }
  }

  lemma EventsSplit(events: seq<Event>)
    requires events != []
    ensures events == events[..|events| - 1] + [events[|events| - 1]]
  {
  }

  lemma NameStep(key: Party -> string, rows: Rows, init: seq<Event>, last: Event, name: string)
    requires Trim(name) != "" && (Legible(Play(key, rows, init), name) <==> Told(key, rows, init, name))
    ensures Legible(Play(key, rows, init + [last]), name) <==> Told(key, rows, init + [last], name)
  {
    var before := Play(key, rows, init);
    PlayOneMore(key, rows, init, last);
    ToldStep(key, rows, init, last, name);
    if last.Polled? { PollShowsIff(key, before, last.poll, name); } else { ScrubHidesIff(before, last.name, name); }
  }

  lemma PlayOneMore(key: Party -> string, rows: Rows, init: seq<Event>, last: Event)
    ensures Play(key, rows, init + [last]) == AfterEvent(key, Play(key, rows, init), last)
  {
    assert (init + [last])[..|init|] == init;
  }

  lemma ToldStep(key: Party -> string, rows: Rows, init: seq<Event>, last: Event, name: string)
    ensures Told(key, rows, init + [last], name) <==>
              if last.Polled? then
                Told(key, rows, init, name) || Shows(Recorded(key, Play(key, rows, init), last.poll), name)
              else Told(key, rows, init, name) && !Hides(last, name)
  {
    var events := init + [last];
    OneMoreEvent(key, rows, init, last, name);
    assert last.Polled? ==> !HiddenAfter(events, |init|, name) <==> !HiddenAfter(init, |init|, name);
    assert !HiddenAfter(init, |init|, name);
  }

  lemma OneMoreEvent(key: Party -> string, rows: Rows, init: seq<Event>, last: Event, name: string)
    ensures var events := init + [last];
            && (forall i: nat | i <= |init| :: HiddenAfter(events, i, name) <==> HiddenAfter(init, i, name) || Hides(last, name))
            && (forall i: nat | i < |init| :: Brings(key, rows, events, i, name) <==> Brings(key, rows, init, i, name))
            && (Brings(key, rows, events, |init|, name) <==>
                last.Polled? && Shows(Recorded(key, Play(key, rows, init), last.poll), name))
  {
    var events := init + [last];
    assert events[|init|] == last && events[..|init|] == init;
    forall i: nat | i < |init| ensures events[i] == init[i] && events[..i] == init[..i] {}
    forall i: nat | i <= |init| ensures HiddenAfter(events, i, name) <==> HiddenAfter(init, i, name) || Hides(last, name) {
      assert Hides(last, name) ==> Hides(events[|init|], name);
      assert forall j | i <= j < |init| :: events[j] == init[j];
    }
  }

  // Mention i lists the name, first under its key, and the key is free.
  ghost predicate Lists(key: Party -> string, rows: Rows, ps: seq<Party>, i: nat, name: string) {
    FirstMention(key, ps, i) && Matches(ps[i].nome, name) && key(ps[i]) !in rows
  }

  // What a poll that goes through records of a name.
  lemma RecordsNameIff(key: Party -> string, rows: Rows, p: Poll, name: string)
    requires |Delta(key, RosterOf(key, p.items), rows.Keys)| <= p.recorded
    ensures Shows(Recorded(key, rows, p), name) <==>
              exists i: nat :: Lists(key, rows, Mentions(p.items), i, name)
  {
    if n :| 0 <= n < |Recorded(key, rows, p)| && Matches(Recorded(key, rows, p)[n].nome, name) {
      var i := RecordedIsListed(key, rows, p, Recorded(key, rows, p)[n]);
      assert Lists(key, rows, Mentions(p.items), i, name);
    }
    if i: nat :| Lists(key, rows, Mentions(p.items), i, name) {
      ListedIsRecorded(key, rows, p, i);
      var n :| 0 <= n < |Recorded(key, rows, p)| && Recorded(key, rows, p)[n] == Mentions(p.items)[i];
    }
  }

  lemma RecordedIsListed(key: Party -> string, rows: Rows, p: Poll, q: Party) returns (i: nat)
    requires q in Recorded(key, rows, p)
    ensures FirstMention(key, Mentions(p.items), i) && Mentions(p.items)[i] == q && key(q) !in rows
  {
    RosterIsExact(key, Mentions(p.items));
    DeltaHas(key, RosterOf(key, p.items), rows.Keys);
    assert q in Delta(key, RosterOf(key, p.items), rows.Keys);
    assert q in FirstSeen(key, Mentions(p.items));
    i :| FirstMention(key, Mentions(p.items), i) && Mentions(p.items)[i] == q;
  }

  lemma ListedIsRecorded(key: Party -> string, rows: Rows, p: Poll, i: nat)
    requires |Delta(key, RosterOf(key, p.items), rows.Keys)| <= p.recorded
    requires FirstMention(key, Mentions(p.items), i) && key(Mentions(p.items)[i]) !in rows
    ensures Mentions(p.items)[i] in Recorded(key, rows, p)
  {
    RosterIsExact(key, Mentions(p.items));
    DeltaHas(key, RosterOf(key, p.items), rows.Keys);
    assert Mentions(p.items)[i] in FirstSeen(key, Mentions(p.items));
  }

  lemma PlayTwo(key: Party -> string, rows: Rows, a: Event, b: Event)
    ensures Play(key, rows, [a, b]) == AfterEvent(key, AfterEvent(key, rows, a), b)
  {
    assert [a, b][..1] == [a] && [a][..0] == [];
    assert Play(key, rows, [a]) == AfterEvent(key, Play(key, rows, []), a);
  }

  // A scrubbed name is back with the next poll that goes through exactly when that poll's
  // communications list it first under its key, and no row the scrub left holds that key (the same
  // name with other accents or inner spaces).
  lemma ScrubbedNameReturnsIff(key: Party -> string, rows: Rows, name: string, p: Poll)
    requires Trim(name) != "" && |Delta(key, RosterOf(key, p.items), Scrub(rows, name).Keys)| <= p.recorded
    ensures Legible(Play(key, rows, [Scrubbed(name), Polled(p)]), name) <==>
              exists i: nat :: Lists(key, Scrub(rows, name), Mentions(p.items), i, name)
  {
    PlayTwo(key, rows, Scrubbed(name), Polled(p));
    PollShowsIff(key, Scrub(rows, name), p, name);
    ScrubHidesIff(rows, name, name);
    RecordsNameIff(key, Scrub(rows, name), p, name);
  }
}
