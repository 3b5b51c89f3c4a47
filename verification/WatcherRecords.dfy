/**
 Where the watcher's findings are written: LegalProceeding nodes and watcher_tracking rows.

 Polls recompute what the last history supports; registrations know only the case number. Node ids
 are unique in the graph, so a statement that would create a second node with a taken id fails.
 */
module WatcherRecords {
  import opened Wrappers
  import opened Text
  import CaseState

  datatype Status = Ongoing | Concluded

  // An empty field is not known.
  datatype Facts = Facts(court: string, kind: string, className: string, subjects: seq<string>, filed: Option<string>)

  datatype Proceeding = Proceeding(id: string, status: Status, facts: Facts, sentenced: bool, hasConviction: Option<bool>)

  datatype Source = Source(number: string, secrecy: int, facts: Facts, movements: seq<CaseState.Movement>)

  datatype Answer = Failed | NotFound | Hit(source: Source)

  // graph by case number, tracking by tracked case number.
  datatype Stores = Stores(graph: map<string, Proceeding>, tracking: map<string, Status>)

  // `loaded` is the row's status when the worker's run began.
  datatype Event = Poll(tracked: string, loaded: Status, answer: Answer, writes: bool) | Registration(number: string)

  const UNKNOWN := Facts("", "", "", [], None)

  predicate DotOrDash(c: char) { c == '.' || c == '-' }

  function Unpunctuated(s: string): string { Drop(s, DotOrDash) }

  function ProceedingId(number: string): string { "lp_" + Unpunctuated(Trim(number)) }

  function Learn(known: Facts, news: Facts): Facts {
    Facts(if news.court == "" then known.court else news.court,
          if news.kind == "" then known.kind else news.kind,
          if news.className == "" then known.className else news.className,
          if news.subjects == [] then known.subjects else news.subjects,
          if news.filed.None? then known.filed else news.filed)
  }

  predicate Taken(graph: map<string, Proceeding>, number: string) {
    number !in graph && exists m | m in graph :: graph[m].id == ProceedingId(number)
  }

  // ----- The statements -----

  function Upserted(graph: map<string, Proceeding>, number: string, status: Option<Status>, facts: Facts): map<string, Proceeding>
    requires !Taken(graph, number)
  {
    var node := if number in graph then graph[number] else Proceeding(ProceedingId(number), Ongoing, UNKNOWN, false, None);
    graph[number := node.(status := if status.Some? then status.value else node.status, facts := Learn(node.facts, facts))]
  }

  // A node after an upsert, field by field: a field that is not empty is written, an empty one leaves what
  // the node had, which is nothing for a new node.
  ghost predicate Learnt(was: Option<Proceeding>, p: Proceeding, number: string, status: Option<Status>, facts: Facts) {
    && p.facts.court == (if facts.court != "" then facts.court else if was.Some? then was.value.facts.court else "")
    && p.facts.kind == (if facts.kind != "" then facts.kind else if was.Some? then was.value.facts.kind else "")
    && p.facts.className == (if facts.className != "" then facts.className else if was.Some? then was.value.facts.className else "")
    && p.facts.subjects == (if facts.subjects != [] then facts.subjects else if was.Some? then was.value.facts.subjects else [])
    && p.facts.filed == (if facts.filed.Some? then facts.filed else if was.Some? then was.value.facts.filed else None)
    && p.status == (if status.Some? then status.value else if was.Some? then was.value.status else Ongoing)
    && p.id == (if was.Some? then was.value.id else ProceedingId(number))
    && p.sentenced == (was.Some? && was.value.sentenced)
    && p.hasConviction == (if was.Some? then was.value.hasConviction else None)
  }

  function Flag(d: CaseState.Disposition): Option<bool> {
    match d case Conviction => Some(true) case Acquittal => Some(false) case Undeterminable => None
  }

  function Judged(p: Proceeding, st: CaseState.State): Proceeding {
    p.(sentenced := p.sentenced || st.sentenced, hasConviction := Flag(st.disposition),
       status := if st.concluded then Concluded else p.status)
  }

  function JudgedById(graph: map<string, Proceeding>, id: string, st: CaseState.State): map<string, Proceeding> {
    map n | n in graph :: if graph[n].id == id then Judged(graph[n], st) else graph[n]
  }

  // What a poll claims, when it may be written at all.
  function Finding(answer: Answer): Option<CaseState.State> {
    if answer.Hit? && answer.source.secrecy <= 0 then
      Some(CaseState.Derived(answer.source.facts.className, answer.source.movements))
    else None
  }

  // What a poll writes to its tracking row: the status loaded, unless it finds the case concluded.
  // Nothing when the lookup failed or the graph refused the finding.
  function RowWrite(graph: map<string, Proceeding>, loaded: Status, answer: Answer, writes: bool): Option<Status> {
    if !writes || answer.Failed? then None
    else if Finding(answer).None? then Some(loaded)
    else if Taken(graph, answer.source.number) then None
    else Some(if Finding(answer).value.concluded then Concluded else loaded)
  }

  function AfterPoll(s: Stores, tracked: string, loaded: Status, answer: Answer, writes: bool): Stores {
    var row := RowWrite(s.graph, loaded, answer, writes);
    var tracking := if row.Some? && tracked in s.tracking then s.tracking[tracked := row.value] else s.tracking;
    Stores(if row.None? || Finding(answer).None? then s.graph else Found(s.graph, answer.source, Finding(answer).value), tracking)
  }

  // applyCaseWrites: the upsert and then the finding.
  function Found(graph: map<string, Proceeding>, source: Source, st: CaseState.State): map<string, Proceeding>
    requires !Taken(graph, source.number)
  {
    var upserted := Upserted(graph, source.number, Some(Ongoing), source.facts);
    JudgedById(upserted, upserted[source.number].id, st)
  }

  function AfterRegistration(s: Stores, number: string): Stores {
    var digits := DigitsOnly(number);
    if |digits| != 20 || Taken(s.graph, digits) then s
    else Stores(Upserted(s.graph, digits, None, UNKNOWN),
                if digits in s.tracking then s.tracking else s.tracking[digits := Ongoing])
  }

  function After(s: Stores, e: Event): Stores {
    match e
    case Poll(tracked, loaded, answer, writes) => AfterPoll(s, tracked, loaded, answer, writes)
    case Registration(number) => AfterRegistration(s, number)
  }

  function Run(s: Stores, events: seq<Event>): Stores {
    if events == [] then s else After(Run(s, events[..|events| - 1]), events[|events| - 1])
  }

  // ----- Proceeding ids -----

  // The id keeps the digits of the case number and their order, so numbers that differ in a digit have
  // different ids.
  lemma IdKeepsDigits(number: string)
    ensures "lp_" <= ProceedingId(number) && DigitsOnly(ProceedingId(number)) == DigitsOnly(number)
  {
    var i, j := TrimIs(number);
    var middle := Trim(number);
    assert number == number[..i] + middle + number[j..];
    DigitsJoin(number[..i] + middle, number[j..]);
    DigitsJoin(number[..i], middle);
    forall c | c in number[..i] || c in number[j..] ensures IsSpace(c) { }
    NoDigits(number[..i]);
    NoDigits(number[j..]);
    DigitsOfUnpunctuated(middle);
    NoDigits("lp_");
    DigitsJoin("lp_", Unpunctuated(middle));
  }

  lemma {:induction false} DigitsOfUnpunctuated(s: string)
    ensures DigitsOnly(Unpunctuated(s)) == DigitsOnly(s)
  {
    if s != "" {
      DigitsOfUnpunctuated(s[1..]);
      var head := if s[0] == '.' || s[0] == '-' then "" else [s[0]];
      DigitsJoin(head, Unpunctuated(s[1..]));
    }
  }

  // A dot or a dash makes no difference, wherever it stands; any other character does.
  lemma PunctuationIsDropped(a: string, c: char, b: string)
    requires c == '.' || c == '-'
    ensures Unpunctuated(a + [c] + b) == Unpunctuated(a + b)
    ensures '.' !in a && '-' !in a ==> Unpunctuated(a) == a
  {
    DropJoins(a + [c], b, DotOrDash);
    DropJoins(a, [c], DotOrDash);
    DropJoins(a, b, DotOrDash);
    DropOne(c, DotOrDash);
    if '.' !in a && '-' !in a { DropNone(a, DotOrDash); }
  }

  // Two numbers have one id exactly when they are spelled alike but for outer space, dots and dashes.
  lemma IdsAgreeIff(a: string, b: string)
    ensures ProceedingId(a) == ProceedingId(b) <==> Unpunctuated(Trim(a)) == Unpunctuated(Trim(b))
    ensures DigitsOnly(a) != DigitsOnly(b) ==> ProceedingId(a) != ProceedingId(b)
  {
    assert forall s: string :: ("lp_" + s)[3..] == s;
    IdKeepsDigits(a);
    IdKeepsDigits(b);
  }

  datatype Failure = NotTwentyDigits | IdTaken

  class Records {
    var graph: map<string, Proceeding>
    var tracking: map<string, Status>

    constructor ()
      ensures State() == Stores(map[], map[])
    {
      graph, tracking := map[], map[];
    }

    ghost function State(): Stores
      reads this
    {
      Stores(graph, tracking)
    }

    method UpsertLegalProceedingByCase(number: string, status: Option<Status>, facts: Facts) returns (r: Result<string, Failure>)
      modifies this`graph
      ensures r.Failure? <==> Taken(old(graph), number)
      ensures r.Failure? ==> graph == old(graph) && r.error == IdTaken
      ensures r.Success? ==> graph == Upserted(old(graph), number, status, facts) && r.value == graph[number].id
      ensures r.Success? ==> Learnt(if number in old(graph) then Some(old(graph)[number]) else None, graph[number], number, status, facts)
      ensures r.Success? ==> graph.Keys == old(graph).Keys + {number} && forall n | n in old(graph) && n != number :: graph[n] == old(graph)[n]
    {
      if number !in graph {
        if m :| m in graph && graph[m].id == ProceedingId(number) {
          return Failure(IdTaken);
        }
        graph := graph[number := Proceeding(ProceedingId(number), Ongoing, UNKNOWN, false, None)];
      }
      var node := graph[number];
      if status.Some? {
        node := node.(status := status.value);
      }
      node := node.(facts := Learn(node.facts, facts));
      graph := graph[number := node];
      return Success(node.id);
    }

    // The flag is overwritten, the phase only ever set, the status set when the case is concluded.
    method UpdateProceedingCaseState(id: string, st: CaseState.State)
      modifies this`graph
      ensures forall n | n in old(graph) && old(graph)[n].id == id :: n in graph
                && graph[n].hasConviction == (if st.disposition.Undeterminable? then None else Some(st.disposition.Conviction?))
                && graph[n].sentenced == (old(graph)[n].sentenced || st.sentenced)
                && graph[n].status == (if st.concluded then Concluded else old(graph)[n].status)
                && graph[n].facts == old(graph)[n].facts && graph[n].id == id
      ensures forall n | n in old(graph) && old(graph)[n].id != id :: n in graph && graph[n] == old(graph)[n]
      ensures graph.Keys == old(graph).Keys
    {
      graph := map n | n in graph :: if graph[n].id == id then Judged(graph[n], st) else graph[n];
    }

    // registerWatcherCase.
    method Register(number: string) returns (r: Result<string, Failure>)
      modifies this
      ensures State() == AfterRegistration(old(State()), number)
      ensures r.Failure? <==> |DigitsOnly(number)| != 20 || Taken(old(graph), DigitsOnly(number))
      ensures r.Success? ==> DigitsOnly(number) in graph && DigitsOnly(number) in tracking
    {
      var digits := DigitsOnly(number);
      if |digits| != 20 {
        return Failure(NotTwentyDigits);
      }
      r := UpsertLegalProceedingByCase(digits, None, UNKNOWN);
      if r.Failure? {
        return;
      }
      if digits !in tracking {
        tracking := tracking[digits := Ongoing];
      }
    }

    // What the consumer does with one poll of the row `tracked`, loaded when the run began. A failure
    // ends the worker's run.
    method RecordPoll(tracked: string, loaded: Status, answer: Answer, writes: bool) returns (r: Result<bool, Failure>)
      modifies this
      ensures State() == AfterPoll(old(State()), tracked, loaded, answer, writes)
      ensures r.Failure? <==> writes && Finding(answer).Some? && Taken(old(graph), answer.source.number)
      ensures r.Success? ==> (r.value <==> writes && Finding(answer).Some?)
    {
      if answer.Failed? {
        return Success(false);
      }
      if answer.NotFound? || answer.source.secrecy > 0 {
        if writes { WriteRow(tracked, loaded); }
        return Success(false);
      }
      var st := CaseState.DeriveCaseState(answer.source.facts.className, answer.source.movements);
      var status := loaded;
      if st.concluded {
        status := Concluded;
      }
      if !writes {
        return Success(false);
      }
      var applied := ApplyCaseWrites(answer.source, st);
      if applied.Failure? {
        return Failure(applied.error);
      }
      WriteRow(tracked, status);
      return Success(true);
    }

    method ApplyCaseWrites(source: Source, st: CaseState.State) returns (r: Result<bool, Failure>)
      modifies this`graph
      ensures r.Failure? <==> Taken(old(graph), source.number)
      ensures graph == if r.Failure? then old(graph) else Found(old(graph), source, st)
    {
      var id := UpsertLegalProceedingByCase(source.number, Some(Ongoing), source.facts);
      if id.Failure? {
        return Failure(id.error);
      }
      ghost var upserted := graph;
      UpdateProceedingCaseState(id.value, st);
      assert graph == JudgedById(upserted, id.value, st);
      return Success(true);
    }

    // UpdateWatcherTrackingPoll: no row, no effect.
    method WriteRow(tracked: string, status: Status)
      modifies this`tracking
      ensures tracking == if tracked in old(tracking) then old(tracking)[tracked := status] else old(tracking)
    {
      if tracked in tracking {
        tracking := tracking[tracked := status];
      }
    }
  }

  // ----- What every event keeps -----

  ghost predicate OneNodePerId(graph: map<string, Proceeding>) {
    && (forall n | n in graph :: graph[n].id == ProceedingId(n))
    && (forall m, n | m in graph && n in graph && graph[m].id == graph[n].id :: m == n)
  }

  lemma UpsertKeepsIds(graph: map<string, Proceeding>, number: string, status: Option<Status>, facts: Facts)
    requires OneNodePerId(graph) && !Taken(graph, number)
    ensures OneNodePerId(Upserted(graph, number, status, facts))
  {
  }

  lemma JudgementKeepsIds(graph: map<string, Proceeding>, id: string, st: CaseState.State)
    requires OneNodePerId(graph)
    ensures OneNodePerId(JudgedById(graph, id, st))
  {
    var judged := JudgedById(graph, id, st);
    assert forall n | n in graph :: judged[n].id == graph[n].id;
  }

  lemma EventKeepsIds(s: Stores, e: Event)
    requires OneNodePerId(s.graph)
    ensures OneNodePerId(After(s, e).graph)
    ensures forall n | n in s.graph :: n in After(s, e).graph
  {
    match e
    case Registration(number) => RegistrationKeepsIds(s, number);
    case Poll(tracked, loaded, answer, writes) => PollKeepsIds(s, tracked, loaded, answer, writes);
  }

  lemma RegistrationKeepsIds(s: Stores, number: string)
    requires OneNodePerId(s.graph)
    ensures OneNodePerId(AfterRegistration(s, number).graph) && s.graph.Keys <= AfterRegistration(s, number).graph.Keys
  {
    if !Taken(s.graph, DigitsOnly(number)) { UpsertKeepsIds(s.graph, DigitsOnly(number), None, UNKNOWN); }
  }

  lemma PollKeepsIds(s: Stores, tracked: string, loaded: Status, answer: Answer, writes: bool)
    requires OneNodePerId(s.graph)
    ensures var t := AfterPoll(s, tracked, loaded, answer, writes); OneNodePerId(t.graph) && s.graph.Keys <= t.graph.Keys
  {
    if Finding(answer).Some? && !Taken(s.graph, answer.source.number) {
      FoundKeepsIds(s.graph, answer.source, Finding(answer).value);
    }
  }

  lemma FoundKeepsIds(graph: map<string, Proceeding>, source: Source, st: CaseState.State)
    requires OneNodePerId(graph) && !Taken(graph, source.number)
    ensures OneNodePerId(Found(graph, source, st)) && graph.Keys <= Found(graph, source, st).Keys
  {
    var upserted := Upserted(graph, source.number, Some(Ongoing), source.facts);
    UpsertKeepsIds(graph, source.number, Some(Ongoing), source.facts);
    JudgementKeepsIds(upserted, upserted[source.number].id, st);
  }

  lemma {:induction false} RunKeepsIds(s: Stores, events: seq<Event>)
    requires OneNodePerId(s.graph)
    ensures OneNodePerId(Run(s, events).graph)
    ensures forall n | n in s.graph :: n in Run(s, events).graph
  {
    if events != [] {
      RunKeepsIds(s, events[..|events| - 1]);
      EventKeepsIds(Run(s, events[..|events| - 1]), events[|events| - 1]);
    }
  }

  // The poll's finding about proceeding n, if it writes one.
  function About(e: Event, n: string): Option<CaseState.State> {
    if e.Poll? && e.writes && e.answer.Hit? && e.answer.source.number == n then Finding(e.answer) else None
  }

  // The findings about n of a run's polls, in order.
  function Findings(events: seq<Event>, n: string): seq<CaseState.State> {
    if events == [] then []
    else
      var e := About(events[|events| - 1], n);
      Findings(events[..|events| - 1], n) + if e.Some? then [e.value] else []
  }

  // What one event does to a proceeding that exists.
  lemma EventOnNode(s: Stores, e: Event, n: string)
    requires OneNodePerId(s.graph) && n in s.graph
    ensures n in After(s, e).graph
    ensures About(e, n).Some? ==>
              var p := After(s, e).graph[n];
              && p.hasConviction == Flag(About(e, n).value.disposition)
              && p.status == (if About(e, n).value.concluded then Concluded else Ongoing)
              && p.sentenced == (s.graph[n].sentenced || About(e, n).value.sentenced)
    ensures About(e, n).None? ==> After(s, e).graph[n] == s.graph[n]
  {
  }

  // What one event does to a proceeding it creates.
  lemma EventOnNewNode(s: Stores, e: Event, n: string)
    requires OneNodePerId(s.graph) && n !in s.graph && n in After(s, e).graph
    ensures !Taken(s.graph, n)
    ensures About(e, n).Some? ==>
              var p := After(s, e).graph[n];
              && p.hasConviction == Flag(About(e, n).value.disposition)
              && p.status == (if About(e, n).value.concluded then Concluded else Ongoing)
              && p.sentenced == About(e, n).value.sentenced
    ensures About(e, n).None? ==>
              var p := After(s, e).graph[n];
              p.hasConviction == None && p.status == Ongoing && !p.sentenced
  {
  }

  // A finding about n that found no node and left none met a node with n's id, which stays.
  lemma {:induction false} WrittenOrTaken(s: Stores, events: seq<Event>, n: string)
    requires OneNodePerId(s.graph) && Findings(events, n) != []
    ensures n in Run(s, events).graph || Taken(Run(s, events).graph, n)
  {
    var init, e := events[..|events| - 1], events[|events| - 1];
    var before := Run(s, init);
    RunKeepsIds(s, init);
    EventKeepsIds(before, e);
    if About(e, n).None? { WrittenOrTaken(s, init, n); }
    if Taken(before.graph, n) {
      var m :| m in before.graph && before.graph[m].id == ProceedingId(n);
      assert m in After(before, e).graph && After(before, e).graph[m].id == ProceedingId(n);
    }
  }

  function Was(s: Stores, n: string): Proceeding {
    if n in s.graph then s.graph[n] else Proceeding(ProceedingId(n), Ongoing, UNKNOWN, false, None)
  }

  predicate AnySentenced(fs: seq<CaseState.State>) { exists i | 0 <= i < |fs| :: fs[i].sentenced }

  predicate AnyConcluded(fs: seq<CaseState.State>) { exists i | 0 <= i < |fs| :: fs[i].concluded }

  lemma OneMoreFinding(fs: seq<CaseState.State>, st: CaseState.State)
    ensures AnySentenced(fs + [st]) <==> AnySentenced(fs) || st.sentenced
    ensures AnyConcluded(fs + [st]) <==> AnyConcluded(fs) || st.concluded
  {
    assert forall i | 0 <= i < |fs| :: (fs + [st])[i] == fs[i];
    assert (fs + [st])[|fs|] == st;
  }

  // A proceeding that was `was` before the findings fs reads p after them.
  predicate Shows(p: Proceeding, was: Proceeding, fs: seq<CaseState.State>) {
    && p.hasConviction == (if fs == [] then was.hasConviction else Flag(fs[|fs| - 1].disposition))
    && p.status == (if fs == [] then was.status else if fs[|fs| - 1].concluded then Concluded else Ongoing)
    && (p.sentenced <==> was.sentenced || AnySentenced(fs))
  }

  /**
   Nothing latches but the phase: over any mix of polls and registrations, a proceeding's conviction
   flag and status are those of the last finding about it, and it is unchanged by everything else. The
   phase is "sentenced" as soon as one finding said so, and no later finding takes that back.
   */
  lemma {:induction false} LastFindingDecides(s: Stores, events: seq<Event>, n: string)
    requires OneNodePerId(s.graph) && n in Run(s, events).graph
    ensures Shows(Run(s, events).graph[n], Was(s, n), Findings(events, n))
  {
    if events != [] {
      var init, e := events[..|events| - 1], events[|events| - 1];
      var before := Run(s, init);
      RunKeepsIds(s, init);
      if About(e, n).Some? { OneMoreFinding(Findings(init, n), About(e, n).value); }
      if n in before.graph {
        LastFindingDecides(s, init, n);
        NodeShows(before, e, n, Was(s, n), Findings(init, n));
      } else {
        if Findings(init, n) != [] { WrittenOrTaken(s, init, n); }
        NewNodeShows(before, e, n);
        NoNodeBefore(s, init, n);
      }
    }
  }

  lemma NodeShows(s: Stores, e: Event, n: string, was: Proceeding, fs: seq<CaseState.State>)
    requires OneNodePerId(s.graph) && n in s.graph && Shows(s.graph[n], was, fs)
    ensures n in After(s, e).graph
    ensures Shows(After(s, e).graph[n], was, fs + if About(e, n).Some? then [About(e, n).value] else [])
  {
    EventOnNode(s, e, n);
    if About(e, n).Some? {
      OneMoreFinding(fs, About(e, n).value);
    } else {
      assert fs + [] == fs;
    }
  }

  lemma NewNodeShows(s: Stores, e: Event, n: string)
    requires OneNodePerId(s.graph) && n !in s.graph && n in After(s, e).graph
    ensures !Taken(s.graph, n)
    ensures Shows(After(s, e).graph[n], Was(s, n), if About(e, n).Some? then [About(e, n).value] else [])
  {
    EventOnNewNode(s, e, n);
    if About(e, n).Some? { OneMoreFinding([], About(e, n).value); assert [] + [About(e, n).value] == [About(e, n).value]; }
  }

  lemma NoNodeBefore(s: Stores, events: seq<Event>, n: string)
    requires OneNodePerId(s.graph) && n !in Run(s, events).graph
    ensures Was(s, n) == Was(Run(s, events), n)
  {
    RunKeepsIds(s, events);
  }

  // Registering a case touches no proceeding and no tracking row that is already there.
  lemma RegistrationOnlyAdds(s: Stores, number: string)
    ensures forall n | n in s.graph :: n in AfterRegistration(s, number).graph && AfterRegistration(s, number).graph[n] == s.graph[n]
    ensures forall c | c in s.tracking :: c in AfterRegistration(s, number).tracking && AfterRegistration(s, number).tracking[c] == s.tracking[c]
    ensures DigitsOnly(number) in s.graph && DigitsOnly(number) in s.tracking ==> AfterRegistration(s, number) == s
  {
  }

  // ----- Graph and tracking side by side -----

  // The last status a poll wrote to row c, whatever case number the tribunal answered with.
  function LastRowWrite(s: Stores, events: seq<Event>, c: string): Option<Status> {
    if events == [] then None
    else
      var init, e := events[..|events| - 1], events[|events| - 1];
      var row := if e.Poll? && e.tracked == c then RowWrite(Run(s, init).graph, e.loaded, e.answer, e.writes) else None;
      if row.Some? then row else LastRowWrite(s, init, c)
  }

  // The row is what its polls last wrote.
  lemma {:induction false} RowIsLastWrite(s: Stores, events: seq<Event>, c: string)
    requires c in s.tracking
    ensures c in Run(s, events).tracking
    ensures Run(s, events).tracking[c] ==
              if LastRowWrite(s, events, c).Some? then LastRowWrite(s, events, c).value else s.tracking[c]
  {
    if events != [] {
      RowIsLastWrite(s, events[..|events| - 1], c);
      RowStep(Run(s, events[..|events| - 1]), events[|events| - 1], c);
    }
  }

  lemma RowStep(s: Stores, e: Event, c: string)
    requires c in s.tracking
    ensures c in After(s, e).tracking
    ensures var row := if e.Poll? && e.tracked == c then RowWrite(s.graph, e.loaded, e.answer, e.writes) else None;
            After(s, e).tracking[c] == if row.Some? then row.value else s.tracking[c]
  {
  }

  // What a poll of row c finds, whatever case number the tribunal answered with, if the graph took it.
  function AboutRow(s: Stores, e: Event, c: string): Option<CaseState.State> {
    if e.Poll? && e.tracked == c && e.writes && Finding(e.answer).Some? && !Taken(s.graph, e.answer.source.number) then
      Finding(e.answer)
    else None
  }

  function RowFindings(s: Stores, events: seq<Event>, c: string): seq<CaseState.State> {
    if events == [] then []
    else
      var init := events[..|events| - 1];
      var e := AboutRow(Run(s, init), events[|events| - 1], c);
      RowFindings(s, init, c) + if e.Some? then [e.value] else []
  }

  // No other run wrote the row since this one loaded it.
  ghost predicate LoadedFresh(s: Stores, events: seq<Event>, c: string) {
    events == [] ||
    (&& LoadedFresh(s, events[..|events| - 1], c)
     && var e, before := events[|events| - 1], Run(s, events[..|events| - 1]);
        e.Poll? && e.tracked == c && c in before.tracking ==> e.loaded == before.tracking[c])
  }

  lemma FreshRowStep(s: Stores, e: Event, c: string)
    requires c in s.tracking && (e.Poll? && e.tracked == c ==> e.loaded == s.tracking[c])
    ensures c in After(s, e).tracking
    ensures After(s, e).tracking[c] == if AboutRow(s, e, c).Some? && AboutRow(s, e, c).value.concluded then Concluded else s.tracking[c]
  {
    RowStep(s, e, c);
  }

  // Runs that do not overlap latch the row, unlike the node: it is concluded as soon as one of its polls
  // was. (Runs that overlap can write a status back that another has replaced.)
  lemma {:induction false} TrackingLatches(s: Stores, events: seq<Event>, c: string)
    requires c in s.tracking && LoadedFresh(s, events, c)
    ensures c in Run(s, events).tracking
    ensures Run(s, events).tracking[c].Concluded? <==> s.tracking[c].Concluded? || AnyConcluded(RowFindings(s, events, c))
  {
    if events != [] {
      var init, e := events[..|events| - 1], events[|events| - 1];
      var fs, st := RowFindings(s, init, c), AboutRow(Run(s, init), e, c);
      TrackingLatches(s, init, c);
      FreshRowStep(Run(s, init), e, c);
      if st.Some? {
        OneMoreFinding(fs, st.value);
      } else {
        assert fs + [] == fs;
      }
    }
  }

  // Graph and tracking agree on a case exactly when its node's last finding, or its first status if
  // there was none, is what was last written to its row.
  lemma LockstepIff(s: Stores, events: seq<Event>, c: string, t: Stores)
    requires OneNodePerId(s.graph) && c in s.graph && c in s.tracking && t == Run(s, events)
    ensures c in t.graph && c in t.tracking
    ensures var row := LastRowWrite(s, events, c);
            t.graph[c].status == t.tracking[c] <==>
              (LastConcluded(s.graph[c].status, Findings(events, c))
               <==> if row.Some? then row.value.Concluded? else s.tracking[c].Concluded?)
  {
    NodeIsLast(s, events, c);
    RowIsLastWrite(s, events, c);
  }

  predicate LastConcluded(first: Status, fs: seq<CaseState.State>) {
    if fs == [] then first.Concluded? else fs[|fs| - 1].concluded
  }

  lemma LastIs(p: Proceeding, was: Proceeding, fs: seq<CaseState.State>)
    requires Shows(p, was, fs)
    ensures p.status.Concluded? <==> LastConcluded(was.status, fs)
  {
  }

  // Each poll of case c is answered about c, and no other poll is.
  predicate AnsweredAbout(events: seq<Event>, c: string) {
    forall i | 0 <= i < |events| && events[i].Poll? && events[i].answer.Hit? ::
      events[i].tracked == c <==> events[i].answer.source.number == c
  }

  lemma {:induction false} RowFindingsAreFindings(s: Stores, events: seq<Event>, c: string)
    requires OneNodePerId(s.graph) && c in s.graph && AnsweredAbout(events, c)
    ensures RowFindings(s, events, c) == Findings(events, c)
  {
    if events != [] {
      var init, e := events[..|events| - 1], events[|events| - 1];
      RunKeepsIds(s, init);
      RowFindingsAreFindings(s, init, c);
      assert AboutRow(Run(s, init), e, c) == About(e, c);
    }
  }

  // For a case just registered, polled by runs that do not overlap and answered about it, they agree
  // exactly when no finding took back an earlier conclusion.
  lemma LockstepOfFreshCase(s: Stores, events: seq<Event>, c: string, t: Stores, fs: seq<CaseState.State>)
    requires OneNodePerId(s.graph) && c in s.graph && c in s.tracking && AnsweredAbout(events, c) && LoadedFresh(s, events, c)
    requires s.graph[c].status == s.tracking[c] == Ongoing
    requires t == Run(s, events) && fs == Findings(events, c)
    ensures c in t.graph && c in t.tracking
    ensures t.graph[c].status == t.tracking[c] <==> fs == [] || fs[|fs| - 1].concluded || !AnyConcluded(fs)
  {
    NodeIsLast(s, events, c);
    RowIsLatched(s, events, c);
    LatchOrLast(fs);
  }

  lemma RowIsLatched(s: Stores, events: seq<Event>, c: string)
    requires OneNodePerId(s.graph) && c in s.graph && c in s.tracking && AnsweredAbout(events, c) && LoadedFresh(s, events, c)
    ensures c in Run(s, events).tracking
    ensures Run(s, events).tracking[c].Concluded? <==> s.tracking[c].Concluded? || AnyConcluded(Findings(events, c))
  {
    TrackingLatches(s, events, c);
    RowFindingsAreFindings(s, events, c);
  }

  lemma NodeIsLast(s: Stores, events: seq<Event>, c: string)
    requires OneNodePerId(s.graph) && c in s.graph
    ensures c in Run(s, events).graph
    ensures Run(s, events).graph[c].status.Concluded? <==> LastConcluded(s.graph[c].status, Findings(events, c))
  {
    RunKeepsIds(s, events);
    LastFindingDecides(s, events, c);
    LastIs(Run(s, events).graph[c], s.graph[c], Findings(events, c));
  }

  lemma LatchOrLast(fs: seq<CaseState.State>)
    ensures fs != [] && fs[|fs| - 1].concluded ==> AnyConcluded(fs)
    ensures fs == [] ==> !AnyConcluded(fs)
  {
  }
}
