/**
 Removing a subject and keeping it removed: the purge sequence of the backoffice and the guarded
 ingest of name-only nodes, interleaved statement by statement.
 */
module Purge {
  import opened Text
  import opened Tombstones

  // The writers that create a node from a name alone, each behind the same name-key check.
  datatype Kind = DjenPerson | DjenOrganization | QsaPerson

  function Prefix(kind: Kind): string {
    match kind
    case DjenPerson => "person_djen_"
    case DjenOrganization => "org_djen_"
    case QsaPerson => "person_qsa_"
  }

  function NodeId(kind: Kind, name: string): string { Prefix(kind) + Slug(name) }

  // A worker's check of one name that found no tombstone, and whose write is still to come.
  datatype Clearance = Clearance(kind: Kind, name: string)

  // Name-only nodes by id, with the spelling last written; the tombstone table; the ingests between
  // their check and their write; and the names of deleted nodes whose tombstones are not yet written.
  datatype Store = Store(nodes: map<string, string>, tombstones: set<string>, cleared: set<Clearance>, owed: set<string>)

  datatype Event =
    | Check(kind: Kind, name: string)
    | Upsert(kind: Kind, name: string)
    | Delete(id: string)
    | Tombstone(name: string)

  predicate Blocked(s: Store, name: string) { Recordable(Key(name)) && Key(name) in s.tombstones }

  // The QSA writer refuses a name that is empty once trimmed.
  predicate Refused(kind: Kind, name: string) { kind == QsaPerson && Trim(name) == "" }

  function AfterCheck(s: Store, kind: Kind, name: string): Store {
    if Blocked(s, name) then s else s.(cleared := s.cleared + {Clearance(kind, name)})
  }

  function AfterUpsert(s: Store, kind: Kind, name: string): Store {
    if Clearance(kind, name) !in s.cleared then s
    else
      s.(cleared := s.cleared - {Clearance(kind, name)},
         nodes := if Refused(kind, name) then s.nodes else s.nodes[NodeId(kind, name) := Trim(name)])
  }

  function PurgeKeys(name: string): seq<string> { if Trim(name) != "" then [Key(name)] else [] }

  function AfterDelete(s: Store, id: string): Store {
    if id !in s.nodes then s else s.(nodes := s.nodes - {id}, owed := s.owed + {s.nodes[id]})
  }

  function AfterTombstone(s: Store, name: string): Store {
    if name !in s.owed then s
    else s.(owed := s.owed - {name}, tombstones := s.tombstones + set k | k in PurgeKeys(name) && Recordable(k))
  }

  function After(s: Store, e: Event): Store {
    match e
    case Check(kind, name) => AfterCheck(s, kind, name)
    case Upsert(kind, name) => AfterUpsert(s, kind, name)
    case Delete(id) => AfterDelete(s, id)
    case Tombstone(name) => AfterTombstone(s, name)
  }

  function Run(s: Store, events: seq<Event>): Store
    decreases |events|
  {
    if events == [] then s else Run(After(s, events[0]), events[1..])
  }

  // ----- The handlers -----

  datatype Request = Request(target: string, pending: bool)

  // The stores as one purge request sees them.
  datatype Desk = Desk(store: Store, requests: map<string, Request>)

  // Which of a purge's later writes succeed.
  datatype Luck = Luck(tombstones: bool, scrub: bool)

  // The gate, the deletion, the tombstones, the scrub of the review tables and the resolution, in
  // this order; the first that fails ends it.
  function AfterResolve(d: Desk, request: string, luck: Luck): Desk {
    if request !in d.requests || !d.requests[request].pending || d.requests[request].target !in d.store.nodes then d
    else
      var id := d.requests[request].target;
      var name := d.store.nodes[id];
      var deleted := AfterDelete(d.store, id);
      if Trim(name) != "" && !luck.tombstones then d.(store := deleted)
      else
        var marked := AfterTombstone(deleted, name);
        if Trim(name) != "" && !luck.scrub then d.(store := marked)
        else Desk(marked, d.requests[request := Request(id, false)])
  }

  class SubjectStore {
    var nodes: map<string, string>
    var tombstones: set<string>
    ghost var cleared: set<Clearance>
    ghost var owed: set<string>
    var requests: map<string, Request>

    ghost function State(): Store
      reads this
    {
      Store(nodes, tombstones, cleared, owed)
    }

    method IsSubjectPurged(keys: seq<string>) returns (purged: bool)
      ensures purged <==> exists k | k in keys :: Recordable(k) && k in tombstones
    {
      for i := 0 to |keys|
        invariant forall k | k in keys[..i] :: !(Recordable(k) && k in tombstones)
      {
        if !Recordable(keys[i]) { continue; }
        if keys[i] in tombstones { return true; }
      }
      assert keys[..|keys|] == keys;
      purged := false;
    }

    method CreatePurgeTombstones(keys: seq<string>)
      modifies this`tombstones
      ensures tombstones == old(tombstones) + set k | k in keys && Recordable(k)
    {
      for i := 0 to |keys|
        invariant tombstones == old(tombstones) + set k | k in keys[..i] && Recordable(k)
      {
        assert keys[..i + 1] == keys[..i] + [keys[i]];
        if !Recordable(keys[i]) { continue; }
        tombstones := tombstones + {keys[i]};
      }
      assert keys[..|keys|] == keys;
    }

    // handlePersonParty, handleCompanyParty and handleIndividual up to the check.
    method CheckName(kind: Kind, name: string) returns (clear: bool)
      modifies this`cleared
      ensures State() == AfterCheck(old(State()), kind, name)
      ensures clear <==> !Blocked(old(State()), name)
    {
      var key := TombstoneKeyName(name);
      var purged := IsSubjectPurged([key]);
      clear := !purged;
      if clear { cleared := cleared + {Clearance(kind, name)}; }
    }

    // The upsert that follows a clear check, at any later time.
    method UpsertName(kind: Kind, name: string) returns (written: bool)
      requires Clearance(kind, name) in cleared
      modifies this`nodes, this`cleared
      ensures State() == AfterUpsert(old(State()), kind, name)
      ensures written <==> !Refused(kind, name)
    {
      cleared := cleared - {Clearance(kind, name)};
      if kind == QsaPerson && Trim(name) == "" { return false; }
      nodes := nodes[NodeId(kind, name) := Trim(name)];
      written := true;
    }

    // PurgePersonNode.
    method DeleteNode(id: string) returns (name: string)
      requires id in nodes
      modifies this`nodes, this`owed
      ensures State() == AfterDelete(old(State()), id) && name == old(nodes)[id]
    {
      name := nodes[id];
      nodes, owed := nodes - {id}, owed + {name};
    }

    // purgeTombstoneKeys and the writes of its keys.
    method MarkPurged(name: string)
      requires name in owed
      modifies this`tombstones, this`owed
      ensures State() == AfterTombstone(old(State()), name)
    {
      var keys := [];
      if Trim(name) != "" {
        var key := TombstoneKeyName(name);
        keys := [key];
      }
      CreatePurgeTombstones(keys);
      owed := owed - {name};
    }

    // removalResolve, action "purge".
    method ResolvePurge(request: string, luck: Luck) returns (resolved: bool)
      modifies this
      ensures Desk(State(), requests) == AfterResolve(old(Desk(State(), requests)), request, luck)
      ensures resolved <==>
        && request in old(requests) && old(requests)[request].pending && old(requests)[request].target in old(nodes)
        && (Trim(old(nodes)[old(requests)[request].target]) == "" || (luck.tombstones && luck.scrub))
    {
      if request !in requests || !requests[request].pending { return false; }
      var id := requests[request].target;
      if id !in nodes { return false; }
      var name := DeleteNode(id);
      if Trim(name) != "" && !luck.tombstones { return false; }
      MarkPurged(name);
      if Trim(name) != "" && !luck.scrub { return false; }
      requests := requests[request := Request(id, false)];
      resolved := true;
    }
  }

  // A request is acted on once: replaying a resolved one changes nothing.
  lemma ReplayIsRefused(d: Desk, request: string, first: Luck, again: Luck)
    requires request in d.requests && !AfterResolve(d, request, first).requests[request].pending
    ensures AfterResolve(AfterResolve(d, request, first), request, again) == AfterResolve(d, request, first)
  {
  }

  // Nor can a purge that failed after its deletion, at its tombstones or at its scrub, be finished by
  // trying again: the node is gone, so the request is refused for good and stays pending. If it was the
  // tombstones that failed, the name has none.
  lemma FailedPurgeIsNotRetried(d: Desk, request: string, luck: Luck, again: Luck)
    requires request in d.requests && d.requests[request].pending && d.requests[request].target in d.store.nodes
    requires AfterResolve(d, request, luck).requests[request].pending
    ensures var failed := AfterResolve(d, request, luck);
            && d.requests[request].target !in failed.store.nodes && AfterResolve(failed, request, again) == failed
            && (!luck.tombstones ==> failed.store.tombstones == d.store.tombstones)
  {
  }

  // Which purges those are.
  lemma PurgeFailsIff(d: Desk, request: string, luck: Luck)
    requires request in d.requests && d.requests[request].pending && d.requests[request].target in d.store.nodes
    ensures AfterResolve(d, request, luck).requests[request].pending <==>
              Trim(d.store.nodes[d.requests[request].target]) != "" && !(luck.tombstones && luck.scrub)
  {
  }

  // ----- What holds over every run -----

  predicate Named(kind: Kind, id: string, name: string) { id == NodeId(kind, name) }

  // Every node sits at the id its stored spelling derives.
  ghost predicate NodesAreNamed(s: Store) {
    forall id | id in s.nodes :: exists kind :: Named(kind, id, s.nodes[id])
  }

  lemma SlugIgnoresOuterSpace(name: string)
    ensures Slug(Trim(name)) == Slug(name)
  {
    SlugIs(name);
    SlugIs(Trim(name));
    FieldsOfTrimmed(name);
  }

  lemma StepStaysNamed(s: Store, e: Event)
    requires NodesAreNamed(s)
    ensures NodesAreNamed(After(s, e))
  {
    var t := After(s, e);
    forall id | id in t.nodes ensures exists kind :: Named(kind, id, t.nodes[id]) {
      if id in s.nodes && t.nodes[id] == s.nodes[id] {
        var kind :| Named(kind, id, s.nodes[id]);
        assert Named(kind, id, t.nodes[id]);
      } else {
        SlugIgnoresOuterSpace(e.name);
        assert Named(e.kind, id, t.nodes[id]);
      }
    }
  }

  lemma {:induction false} NodesStayNamed(s: Store, events: seq<Event>)
    requires NodesAreNamed(s)
    ensures NodesAreNamed(Run(s, events))
    decreases |events|
  {
    if events != [] {
      StepStaysNamed(s, events[0]);
      NodesStayNamed(After(s, events[0]), events[1..]);
    }
  }

  lemma IdDeterminesSlug(kind: Kind, name: string, kind': Kind, name': string)
    requires NodeId(kind, name) == NodeId(kind', name')
    ensures kind == kind' && Slug(name) == Slug(name')
  {
    var a, b := Prefix(kind) + Slug(name), Prefix(kind') + Slug(name');
    assert a[0] == Prefix(kind)[0] && b[0] == Prefix(kind')[0];
    if kind != DjenOrganization && kind' != DjenOrganization {
      assert a[7] == Prefix(kind)[7] && b[7] == Prefix(kind')[7];
    }
    assert a[|Prefix(kind)|..] == Slug(name) && b[|Prefix(kind)|..] == Slug(name');
  }

  // ----- Resurrection -----

  // An ingest of this node has passed its check and not yet written.
  ghost predicate InFlight(s: Store, kind: Kind, name: string) {
    exists c | c in s.cleared :: NodeId(c.kind, c.name) == NodeId(kind, name) && !Refused(c.kind, c.name)
  }

  // Every spelling of this node id that is checked has the purged name's key.
  ghost predicate SpellingsShareKey(events: seq<Event>, kind: Kind, name: string) {
    forall e | e in events && e.Check? && NodeId(e.kind, e.name) == NodeId(kind, name) :: Key(e.name) == Key(name)
  }

  // A tombstone outlives every later event, and while it stands no spelling that shares its key
  // brings the node back, whichever worker it arrives through.
  lemma {:induction false} PurgedStaysGone(s: Store, kind: Kind, name: string, events: seq<Event>)
    requires Blocked(s, name) && NodeId(kind, name) !in s.nodes && !InFlight(s, kind, name)
    requires SpellingsShareKey(events, kind, name)
    ensures Blocked(Run(s, events), name) && NodeId(kind, name) !in Run(s, events).nodes
    decreases |events|
  {
    if events != [] {
      var e := events[0];
      assert e in events;
      StillGone(s, kind, name, e);
      PurgedStaysGone(After(s, e), kind, name, events[1..]);
    }
  }

  lemma StillGone(s: Store, kind: Kind, name: string, e: Event)
    requires Blocked(s, name) && NodeId(kind, name) !in s.nodes && !InFlight(s, kind, name)
    requires e.Check? && NodeId(e.kind, e.name) == NodeId(kind, name) ==> Key(e.name) == Key(name)
    ensures var t := After(s, e); Blocked(t, name) && NodeId(kind, name) !in t.nodes && !InFlight(t, kind, name)
  {
  }

  lemma RecordableIsNotBlank(name: string)
    requires Recordable(Key(name))
    ensures Trim(name) != ""
  {
    RecordableIff(SUFFIX, name);
    NotBlankIsNotSpace(name);
  }

  lemma NotBlankIsNotSpace(name: string)
    requires StripBlanks(name) != []
    ensures Trim(name) != ""
  {
    if Trim(name) == "" {
      FieldsOfTrimmed(name);
      StripBlanksEnds(name);
      StripBlanksIsPrefix(name);
      var i := |StripBlanks(name)| - 1;
      SplitKeeps(name, i, IsSpace);
    }
  }

  lemma {:induction false} StripBlanksIsPrefix(s: string)
    ensures StripBlanks(s) <= s
  {
    if s != [] && Blank(s[|s| - 1]) { StripBlanksIsPrefix(s[..|s| - 1]); }
  }

  // Every spelling of the node's slug that its writer would accept is stopped by a tombstone.
  ghost predicate Sealed(s: Store, kind: Kind, name: string) {
    forall m | Slug(m) == Slug(name) && !Refused(kind, m) :: Blocked(s, m)
  }

  /**
   The whole guarantee, for every store, every later spelling and every interleaving: a node that is
   gone never comes back exactly when every spelling of its slug is stopped by a tombstone and no
   ingest of it stands between its check and its write.
   */
  lemma PurgeHoldsIff(s: Store, kind: Kind, name: string)
    requires NodeId(kind, name) !in s.nodes
    ensures (forall events :: NodeId(kind, name) !in Run(s, events).nodes) <==> Sealed(s, kind, name) && !InFlight(s, kind, name)
  {
    if InFlight(s, kind, name) {
      LateWriteReturns(s, kind, name);
    } else if m :| Slug(m) == Slug(name) && !Refused(kind, m) && !Blocked(s, m) {
      SpellingReturns(s, kind, name, m);
    } else {
      forall events ensures NodeId(kind, name) !in Run(s, events).nodes { SealedStaysGone(s, kind, name, events); }
    }
  }

  // Tombstones only accumulate, so what is sealed stays sealed.
  lemma {:induction false} SealedStaysGone(s: Store, kind: Kind, name: string, events: seq<Event>)
    requires Sealed(s, kind, name) && NodeId(kind, name) !in s.nodes && !InFlight(s, kind, name)
    ensures NodeId(kind, name) !in Run(s, events).nodes
    decreases |events|
  {
    if events != [] {
      SealedStep(s, kind, name, events[0]);
      SealedStaysGone(After(s, events[0]), kind, name, events[1..]);
    }
  }

  lemma SealedStep(s: Store, kind: Kind, name: string, e: Event)
    requires Sealed(s, kind, name) && NodeId(kind, name) !in s.nodes && !InFlight(s, kind, name)
    ensures var t := After(s, e); Sealed(t, kind, name) && NodeId(kind, name) !in t.nodes && !InFlight(t, kind, name)
  {
    StaysSealed(s, After(s, e), kind, name);
    if e.Check? && NodeId(e.kind, e.name) == NodeId(kind, name) {
      IdDeterminesSlug(e.kind, e.name, kind, name);
      assert Refused(kind, e.name) || Blocked(s, e.name);
    }
  }

  lemma StaysSealed(s: Store, t: Store, kind: Kind, name: string)
    requires Sealed(s, kind, name) && s.tombstones <= t.tombstones
    ensures Sealed(t, kind, name)
  {
    forall m | Slug(m) == Slug(name) && !Refused(kind, m) ensures Blocked(t, m) { assert Blocked(s, m); }
  }

  // Whatever is in the table: for a name whose slug has no '_' (one word without '/', '_', '?', '#' or
  // '%') the one key decides.
  lemma WordIsSealedIff(s: Store, kind: Kind, name: string)
    requires '_' !in Slug(name) && !Refused(kind, name)
    ensures Sealed(s, kind, name) <==> Blocked(s, name)
  {
    if Blocked(s, name) {
      forall m | Slug(m) == Slug(name) && !Refused(kind, m) ensures Blocked(s, m) { AllSpellingsShareKeyIff(SUFFIX, name); }
    }
  }

  // The store just after a purge wrote its tombstones, the first ever written: the node is gone, and
  // other workers may be between their check and their write.
  ghost predicate JustPurged(s: Store, kind: Kind, name: string) {
    NodeId(kind, name) !in s.nodes && s.tombstones == set k | k in PurgeKeys(name) && Recordable(k)
  }

  lemma JustPurgedIsBlocked(s: Store, kind: Kind, name: string)
    requires JustPurged(s, kind, name)
    ensures Blocked(s, name) <==> Recordable(Key(name))
    ensures forall m | Key(m) != Key(name) :: !Blocked(s, m)
  {
    if Recordable(Key(name)) { RecordableIsNotBlank(name); }
  }

  // The statements of a purge stop the purged spelling, whatever was in the table.
  lemma PurgeLeadsThere(s: Store, kind: Kind, name: string)
    requires NodeId(kind, name) in s.nodes && s.nodes[NodeId(kind, name)] == name
    ensures var t := Run(s, [Delete(NodeId(kind, name)), Tombstone(name)]);
            && NodeId(kind, name) !in t.nodes && (Recordable(Key(name)) ==> Blocked(t, name))
            && (s.tombstones == {} ==> JustPurged(t, kind, name))
  {
    RunTwo(s, Delete(NodeId(kind, name)), Tombstone(name));
    if Recordable(Key(name)) { RecordableIsNotBlank(name); }
  }

  // The first purge ever made holds exactly when the slug has no '_', the key is usable and no ingest
  // is in flight.
  lemma FirstPurgeHoldsIff(s: Store, kind: Kind, name: string)
    requires JustPurged(s, kind, name) && !Refused(kind, name)
    ensures (forall events :: NodeId(kind, name) !in Run(s, events).nodes) <==>
            '_' !in Slug(name) && Recordable(Key(name)) && !InFlight(s, kind, name)
  {
    JustPurgedIsBlocked(s, kind, name);
    PurgeHoldsIff(s, kind, name);
    if '_' in Slug(name) || !Recordable(Key(name)) {
      var m := Respelling(kind, name);
    } else {
      WordIsSealedIff(s, kind, name);
    }
  }

  ghost predicate PlainNames(s: Store, events: seq<Event>) {
    && (forall e | e in events && e.Check? :: Plain(e.name))
    && (forall c | c in s.cleared :: Plain(c.name))
  }

  // Over spellings without '_', '?', '#' and '%' alone, and whatever is in the table, one key decides
  // for every name: that of its spelling with '/' in their place, which for a plain name is itself.
  lemma PurgeHoldsForPlainNamesIff(s: Store, kind: Kind, name: string)
    requires NodeId(kind, name) !in s.nodes && !Refused(kind, name)
    requires !InFlight(s, kind, name) && PlainNames(s, [])
    ensures (forall events | PlainNames(s, events) :: NodeId(kind, name) !in Run(s, events).nodes) <==> Blocked(s, Slashed(name))
    ensures Plain(name) ==> Slashed(name) == name
  {
    var m := Slashed(name);
    SlashedSharesSlug(name);
    assert Plain(name) ==> m == name by {
      if Plain(name) { assert forall i | 0 <= i < |name| :: name[i] in name; }
    }
    if !Plain(name) { SlashedEscapes(name); }
    if Blocked(s, m) {
      forall events | PlainNames(s, events) ensures NodeId(kind, name) !in Run(s, events).nodes {
        PlainSharesKey(s, events, kind, m);
        PurgedStaysGone(s, kind, m, events);
      }
    } else {
      SpellingReturns(s, kind, name, m);
    }
  }

  lemma PlainSharesKey(s: Store, events: seq<Event>, kind: Kind, name: string)
    requires PlainNames(s, events) && Plain(name)
    ensures SpellingsShareKey(events, kind, name)
  {
    forall e | e in events && e.Check? && NodeId(e.kind, e.name) == NodeId(kind, name) ensures Key(e.name) == Key(name) {
      IdDeterminesSlug(e.kind, e.name, kind, name);
      SpellingsShareKeyIff(SUFFIX, name);
    }
  }

  // ----- How a node comes back -----

  lemma RunTwo(s: Store, a: Event, b: Event)
    ensures Run(s, [a, b]) == After(After(s, a), b)
  {
    assert [a, b][1..] == [b] && [b][1..] == [];
    assert Run(s, [a, b]) == Run(After(s, a), [b]) == Run(After(After(s, a), b), []);
  }

  lemma LateWriteReturns(s: Store, kind: Kind, name: string)
    requires InFlight(s, kind, name)
    ensures exists events :: NodeId(kind, name) in Run(s, events).nodes
  {
    var c :| c in s.cleared && NodeId(c.kind, c.name) == NodeId(kind, name) && !Refused(c.kind, c.name);
    var e := Upsert(c.kind, c.name);
    assert [e][1..] == [];
    assert Run(s, [e]) == Run(After(s, e), []);
    assert NodeId(kind, name) in Run(s, [e]).nodes;
  }

  // Any spelling of the slug that the tombstone does not stop brings the node back.
  lemma SpellingReturns(s: Store, kind: Kind, name: string, m: string)
    requires Slug(m) == Slug(name) && !Blocked(s, m) && !Refused(kind, m)
    ensures exists events :: NodeId(kind, name) in Run(s, events).nodes && (Plain(m) && PlainNames(s, []) ==> PlainNames(s, events))
  {
    var events := [Check(kind, m), Upsert(kind, m)];
    RunTwo(s, Check(kind, m), Upsert(kind, m));
    assert NodeId(kind, name) in Run(s, events).nodes;
    assert Plain(m) && PlainNames(s, []) ==> PlainNames(s, events);
  }

  lemma HasCharIsNotBlank(name: string, i: nat)
    requires i < |name| && !IsSpace(name[i])
    ensures Trim(name) != ""
  {
    FieldsOfTrimmed(name);
    SplitKeeps(name, i, IsSpace);
  }

  lemma SlashedEscapes(name: string)
    requires !Plain(name)
    ensures Slug(Slashed(name)) == Slug(name) && Plain(Slashed(name)) && Trim(Slashed(name)) != ""
    ensures Key(Slashed(name)) != Key(name)
  {
    var c :| c in name && Structural(c);
    var i :| 0 <= i < |name| && name[i] == c;
    HasCharIsNotBlank(Slashed(name), i);
    SlashedSharesSlug(name);
    KeyKeepsStructural(SUFFIX, name, c);
    KeyKeepsStructural(SUFFIX, Slashed(name), c);
  }

  lemma SlugEscapes(name: string)
    requires Plain(name) && '_' in Slug(name)
    ensures Slug(Slug(name)) == Slug(name) && Trim(Slug(name)) != "" && Key(Slug(name)) != Key(name)
  {
    var slug := Slug(name);
    var i :| 0 <= i < |slug| && slug[i] == '_';
    HasCharIsNotBlank(slug, i);
    SlugHasAnotherKey(SUFFIX, name);
  }

  // A spelling that the purged name's tombstone does not stop.
  lemma Respelling(kind: Kind, name: string) returns (m: string)
    requires !Refused(kind, name) && ('_' in Slug(name) || !Recordable(Key(name)))
    ensures Slug(m) == Slug(name) && !Refused(kind, m)
    ensures Key(m) != Key(name) || !Recordable(Key(m))
  {
    if !Recordable(Key(name)) {
      m := name;
    } else if Plain(name) {
      SlugEscapes(name);
      m := Slug(name);
    } else {
      SlashedEscapes(name);
      m := Slashed(name);
    }
  }

  // Two words are enough: joined by an underscore they have the same node id and another key.
  lemma TwoWordsReturn(a: string, b: string)
    requires Solid(a, IsSpace) && Solid(b, IsSpace) && Plain(a) && Plain(b)
    ensures Plain(a + " " + b) && '_' in Slug(a + " " + b)
    ensures Slug(a + "_" + b) == Slug(a + " " + b) && Key(a + "_" + b) != Key(a + " " + b)
  {
    SlugOfTwo(a, b);
    assert (a + "_" + b)[|a|] == '_';
    UnderscoreShows(a + "_" + b);
    UnderscoreTells(a + " " + b, a + "_" + b);
  }

  lemma UnderscoreShows(x: string)
    requires '_' in x
    ensures '_' in Slug(x)
  {
    SlugKeepsChars(x, '_');
  }

  lemma UnderscoreTells(x: string, y: string)
    requires '_' !in x && '_' in y
    ensures Key(x) != Key(y)
  {
    KeyKeepsStructural(SUFFIX, x, '_');
    KeyKeepsStructural(SUFFIX, y, '_');
  }

  // Purged as "ANA LIMA", back as "ANA_LIMA".
  lemma AnaLimaReturns()
    ensures Slug("ANA" + "_" + "LIMA") == Slug("ANA" + " " + "LIMA") && Key("ANA" + "_" + "LIMA") != Key("ANA" + " " + "LIMA")
  {
    TwoWordsReturn("ANA", "LIMA");
  }
}
