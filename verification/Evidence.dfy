/**
 The evidence rule: a DEFENDANT_IN edge says "convicted" only on an operator's recorded decision, over
 any interleaving of citations, confirmations, recorded outcomes, merges and purges.
 */
module Evidence {
  import opened Wrappers
  import opened Text
  import opened CaseGraph

  // What the DJEN worker writes.
  const CITED := "cited"

  // A call of a writer: an attachment either documents a node or merges two. Or one statement of a merge
  // that others may come between.
  datatype Event =
    | Cite(tag: Label, party: string, proceeding: string)
    | Confirm(politician: string, proceeding: string)
    | Record(decision: Decision)
    | Document(src: string, cnpj: string, actor: string, at: string)
    | Merge(src: string, dst: string, actor: string, at: string)
    | Move(src: string, dst: string, kind: Kind)
    | Name(src: string, dst: string)
    | Delete(src: string)
    | Stamp(dst: string, actor: string, at: string)
    | Purge(id: string)

  predicate Confirmable(g: Graph, politician: string, proceeding: string) {
    && Trim(politician) != "" && Trim(proceeding) != ""
    && Is(g, Trim(politician), Politician) && Is(g, Trim(proceeding), LegalProceeding)
  }

  predicate Accepted(g: Graph, d: Decision) {
    ValidOutcome(d.outcome) && (d.outcome == "convicted" ==> d.evidence != "")
    && d.Target() in g.edges && Is(g, d.proceeding, LegalProceeding)
  }

  // What an operator may record, outcome by outcome.
  lemma AcceptedIff(g: Graph, d: Decision)
    ensures Accepted(g, d) <==>
              && Edge(d.party, DefendantIn, d.proceeding) in g.edges && Is(g, d.proceeding, LegalProceeding)
              && match d.outcome
                 case "acquitted" => true case "dismissed" => true case "indicted" => true case "cited" => true
                 case "convicted" => d.evidence != ""
                 case _ => false
  {
  }

  ghost predicate Step(g: Graph, e: Event, h: Graph) {
    match e
    case Cite(tag, party, proceeding) => h == Cited(g, tag, party, proceeding, CITED)
    case Confirm(politician, proceeding) =>
      h == if Confirmable(g, politician, proceeding) then Confirmed(g, Trim(politician), Trim(proceeding)) else g
    case Record(d) => h == if Accepted(g, d) then Recorded(g, d) else g
    case Document(src, cnpj, actor, at) =>
      h == if Is(g, src, Organization) then Documented(g, src, cnpj, actor, at) else g
    case Merge(src, dst, actor, at) =>
      if src == dst || !Is(g, dst, Organization) then h == g else exists ok :: Merged(g, h, src, dst, actor, at, ok)
    case Move(src, dst, kind) =>
      if src == dst || !Is(g, dst, Organization) then h == g
      else h.nodes == g.nodes && Handed(g.edges, h.edges, Rows(g, src, kind), src, dst)
    case Name(src, dst) => h == Named(g, src, dst)
    case Delete(src) => h == if Touched(g.edges, src) then g else Without(g, src)
    case Stamp(dst, actor, at) => h == Stamped(g, dst, actor, at)
    case Purge(id) => h == if Is(g, id, Person) || Is(g, id, Organization) then Purged(g, id) else g
  }

  // An attachment nobody interrupts is one of these events, or changes nothing.
  lemma AttachIsAnEvent(g: Graph, h: Graph, src: string, cnpj: string, actor: string, at: string, r: Result<string, MergeError>)
    requires Attached(g, h, src, cnpj, actor, at, r)
    ensures Step(g, Document(src, cnpj, actor, at), h) || exists dst :: dst != src && Step(g, Merge(src, dst, actor, at), h)
  {
    if !Free(g, src, cnpj) {
      var dst :| dst in g.nodes && dst != src && Holds(g, dst, cnpj) && Merged(g, h, src, dst, actor, at, r.Success?);
      assert Step(g, Merge(src, dst, actor, at), h);
    }
  }

  // The other writers' calls and the statements of a merge are events too: what their contracts promise
  // is the step.
  lemma ConfirmationIsAnEvent(g: Graph, h: Graph, politician: string, proceeding: string, ok: bool)
    requires ok <==> Is(g, Trim(politician), Politician) && Is(g, Trim(proceeding), LegalProceeding)
                     && Trim(politician) != "" && Trim(proceeding) != ""
    requires h == if ok then Confirmed(g, Trim(politician), Trim(proceeding)) else g
    ensures Step(g, Confirm(politician, proceeding), h)
  {
  }

  lemma DecisionIsAnEvent(g: Graph, h: Graph, d: Decision, ok: bool)
    requires ok <==> Edge(d.party, DefendantIn, d.proceeding) in g.edges && Is(g, d.proceeding, LegalProceeding)
                     && d.outcome in {"convicted", "acquitted", "dismissed", "indicted", "cited"}
                     && (d.outcome == "convicted" ==> d.evidence != "")
    requires h == if ok then Recorded(g, d) else g
    ensures Step(g, Record(d), h)
  {
    AcceptedIff(g, d);
  }

  lemma DeletionIsAnEvent(g: Graph, h: Graph, src: string, ok: bool)
    requires ok <==> !(Is(g, src, Organization) && Touched(g.edges, src))
    requires h == g.(nodes := if ok && Is(g, src, Organization) then g.nodes - {src} else g.nodes)
    ensures Step(g, Delete(src), h)
  {
  }

  lemma PurgeIsAnEvent(g: Graph, h: Graph, id: string, ok: bool)
    requires ok <==> Is(g, id, Person) || Is(g, id, Organization)
    requires h == if ok then Purged(g, id) else g
    ensures Step(g, Purge(id), h)
  {
  }

  // The statements of a merge, when nothing comes between them, are the merge.
  lemma StatementsAreTheMerge(g: Graph, a: Graph, b: Graph, c: Graph, d: Graph, e: Graph, h: Graph,
                              src: string, dst: string, actor: string, at: string)
    requires src != dst && Is(g, dst, Organization)
    requires Step(g, Move(src, dst, DefendantIn), a) && Step(a, Move(src, dst, ImplicatedIn), b) && Step(b, Move(src, dst, Controls), c)
    requires Step(c, Name(src, dst), d) && Step(d, Delete(src), e) && Step(e, Stamp(dst, actor, at), h)
    ensures if Is(g, src, Organization) && Touched(c.edges, src) then Merged(g, e, src, dst, actor, at, false)
            else Merged(g, h, src, dst, actor, at, true)
  {
    MoveIs(g, a, src, dst, DefendantIn);
    MoveIs(a, b, src, dst, ImplicatedIn);
    MoveIs(b, c, src, dst, Controls);
    AllMoved(g, a, b, c, src, dst);
    RestOfTheMerge(g, c, d, e, h, src, dst, actor, at);
  }

  lemma MoveIs(g: Graph, h: Graph, src: string, dst: string, kind: Kind)
    requires src != dst && Is(g, dst, Organization) && Step(g, Move(src, dst, kind), h)
    ensures h.nodes == g.nodes && Handed(g.edges, h.edges, Rows(g, src, kind), src, dst)
  {
  }

  lemma RestOfTheMerge(g: Graph, c: Graph, d: Graph, e: Graph, h: Graph, src: string, dst: string, actor: string, at: string)
    requires src != dst && c.nodes == g.nodes && Handed(g.edges, c.edges, Movables(g, src), src, dst)
    requires Step(c, Name(src, dst), d) && Step(d, Delete(src), e) && Step(e, Stamp(dst, actor, at), h)
    ensures if Is(g, src, Organization) && Touched(c.edges, src) then Merged(g, e, src, dst, actor, at, false)
            else Merged(g, h, src, dst, actor, at, true)
  {
    assert d == Named(c, src, dst) && d.edges == c.edges && d.nodes == Named(g, src, dst).nodes;
    assert e == if Touched(d.edges, src) then d else Without(d, src);
    assert h == Stamped(e, dst, actor, at) && h.edges == e.edges == c.edges;
  }

  lemma AllMoved(g: Graph, a: Graph, b: Graph, c: Graph, src: string, dst: string)
    requires src != dst && g.nodes == a.nodes == b.nodes == c.nodes
    requires Handed(g.edges, a.edges, Rows(g, src, DefendantIn), src, dst)
    requires Handed(a.edges, b.edges, Rows(a, src, ImplicatedIn), src, dst)
    requires Handed(b.edges, c.edges, Rows(b, src, Controls), src, dst)
    ensures Handed(g.edges, c.edges, Movables(g, src), src, dst)
  {
    var cases, scandals, owners := Rows(g, src, DefendantIn), Rows(g, src, ImplicatedIn), Rows(g, src, Controls);
    NextMoved(g, a, b, cases, ImplicatedIn, src, dst);
    NextMoved(g, b, c, cases + scandals, Controls, src, dst);
    assert Movables(g, src) == cases + scandals + owners;
  }

  lemma NextMoved(g: Graph, a: Graph, b: Graph, done: set<Edge>, kind: Kind, src: string, dst: string)
    requires src != dst && g.nodes == a.nodes && Handed(g.edges, a.edges, done, src, dst)
    requires Handed(a.edges, b.edges, Rows(a, src, kind), src, dst) && forall e | e in done :: e.kind != kind
    ensures Handed(g.edges, b.edges, done + Rows(g, src, kind), src, dst)
  {
    RowsRemain(g, a, done, src, dst, kind);
    assert Rows(a, src, kind) == Rows(g, src, kind);
    HandedInTurn(g.edges, a.edges, b.edges, done, Rows(g, src, kind), src, dst);
  }

  ghost predicate Execution(states: seq<Graph>, events: seq<Event>) {
    |states| == |events| + 1 && forall i | 0 <= i < |events| :: Step(states[i], events[i], states[i + 1])
  }

  // The facts p are those of decision d.
  predicate Tells(p: Props, d: Decision) {
    && OutcomeSource in p && p[OutcomeSource] == "human" && Key.Evidence in p && p[Key.Evidence] == d.evidence
    && RecordedBy in p && p[RecordedBy] == d.actor && RecordedAt in p && p[RecordedAt] == d.at
  }

  predicate Convicted(p: Props) { Outcome in p && p[Outcome] == "convicted" }

  // d is a conviction with its evidence, in this case, that an operator recorded.
  predicate Convicts(e: Event, d: Decision, proceeding: string) {
    e == Record(d) && d.outcome == "convicted" && d.evidence != "" && d.proceeding == proceeding
  }

  ghost predicate Backed(p: Props, proceeding: string, events: seq<Event>) {
    && Outcome in p
    && (Convicted(p) ==> exists i, d | 0 <= i < |events| :: Convicts(events[i], d, proceeding) && Tells(p, d))
  }

  // Every DEFENDANT_IN edge carries an outcome, and a conviction is a recorded one.
  ghost predicate AllBacked(g: Graph, events: seq<Event>) {
    forall e | e in g.edges && e.kind == DefendantIn :: Backed(g.edges[e], e.to, events)
  }

  lemma BackedLater(p: Props, proceeding: string, events: seq<Event>, e: Event)
    requires Backed(p, proceeding, events)
    ensures Backed(p, proceeding, events + [e])
  {
    if Convicted(p) {
      var i, d :| 0 <= i < |events| && Convicts(events[i], d, proceeding) && Tells(p, d);
      assert (events + [e])[i] == events[i];
    }
  }

  lemma AllBackedLater(g: Graph, events: seq<Event>, e: Event)
    requires AllBacked(g, events)
    ensures AllBacked(g, events + [e])
  {
    forall x | x in g.edges && x.kind == DefendantIn ensures Backed(g.edges[x], x.to, events + [e]) {
      BackedLater(g.edges[x], x.to, events, e);
    }
  }

  // SET n += properties(r): what backs r backs the overlay.
  lemma OverlayIsBacked(p: Props, r: Props, proceeding: string, events: seq<Event>)
    requires Backed(r, proceeding, events)
    ensures Backed(p + r, proceeding, events)
  {
    if Convicted(p + r) {
      var i, d :| 0 <= i < |events| && Convicts(events[i], d, proceeding) && Tells(r, d);
      assert Tells(p + r, d);
    }
  }

  lemma HandedKeepsBacked(a: map<Edge, Props>, b: map<Edge, Props>, rows: set<Edge>, src: string, dst: string, events: seq<Event>)
    requires Handed(a, b, rows, src, dst)
    requires forall e | e in a && e.kind == DefendantIn :: Backed(a[e], e.to, events)
    ensures forall e | e in b && e.kind == DefendantIn :: Backed(b[e], e.to, events)
  {
    forall e | e in b && e.kind == DefendantIn ensures Backed(b[e], e.to, events) {
      var r := Onto(e, src);
      if Hand(e) == dst && r in rows {
        assert r.kind == DefendantIn && r.to == e.to;
        OverlayIsBacked(if e in a then a[e] else map[], a[r], e.to, events);
      }
    }
  }

  lemma WriteKeepsBacked(g: Graph, e: Edge, news: Props, events: seq<Event>)
    requires AllBacked(g, events) && Outcome in news
    requires news[Outcome] == "convicted" ==> Backed(news, e.to, events)
    ensures AllBacked(Written(g, e, news), events)
  {
    if news[Outcome] == "convicted" { OverlayIsBacked(if e in g.edges then g.edges[e] else map[], news, e.to, events); }
  }

  lemma RecordIsBacked(d: Decision, events: seq<Event>)
    requires d.outcome == "convicted" && d.evidence != ""
    ensures Backed(d.Facts(), d.proceeding, events + [Record(d)])
  {
    assert Convicts((events + [Record(d)])[|events|], d, d.proceeding) && Tells(d.Facts(), d);
  }

  lemma StepKeepsBacked(g: Graph, e: Event, h: Graph, events: seq<Event>)
    requires AllBacked(g, events) && Step(g, e, h)
    ensures AllBacked(h, events + [e])
  {
    AllBackedLater(g, events, e);
    match e
    case Cite(tag, party, proceeding) =>
      WriteKeepsBacked(g, Edge(party, DefendantIn, proceeding), map[Outcome := CITED, Source := "djen"], events + [e]);
    case Confirm(politician, proceeding) =>
      WriteKeepsBacked(g, Edge(Trim(politician), DefendantIn, Trim(proceeding)),
                       map[Outcome := "confirmed", Source := "backoffice_review"], events + [e]);
    case Record(d) =>
      if Accepted(g, d) {
        if d.outcome == "convicted" { RecordIsBacked(d, events); }
        WriteKeepsBacked(g, d.Target(), d.Facts(), events + [e]);
      }
    case Merge(src, dst, actor, at) =>
      if src != dst && Is(g, dst, Organization) {
        var ok :| Merged(g, h, src, dst, actor, at, ok);
        HandedKeepsBacked(g.edges, h.edges, Movables(g, src), src, dst, events + [e]);
      }
    case Move(src, dst, kind) =>
      if src != dst && Is(g, dst, Organization) {
        HandedKeepsBacked(g.edges, h.edges, Rows(g, src, kind), src, dst, events + [e]);
      }
    case _ =>
  }

  /**
   Conviction needs evidence, always: starting from a graph without DEFENDANT_IN edges, an edge that
   says "convicted" after any run carries source "human" and the evidence URL, operator and date of a
   conviction some operator recorded, with evidence, in that same case.
   */
  lemma {:induction false} ConvictionsAreRecordedDecisions(states: seq<Graph>, events: seq<Event>)
    requires Execution(states, events)
    requires forall e | e in states[0].edges :: e.kind != DefendantIn
    ensures AllBacked(states[|events|], events)
    decreases |events|
  {
    if events != [] {
      var init, last := events[..|events| - 1], events[|events| - 1];
      assert Execution(states[..|events|], init) by {
        forall i | 0 <= i < |init| ensures Step(states[..|events|][i], init[i], states[..|events|][i + 1]) {
          assert Step(states[i], events[i], states[i + 1]);
        }
      }
      ConvictionsAreRecordedDecisions(states[..|events|], init);
      StepKeepsBacked(states[|events| - 1], last, states[|events|], init);
      assert events == init + [last];
    }
  }

  // What the reader of one edge can rely on.
  lemma ConvictionNeedsEvidence(states: seq<Graph>, events: seq<Event>, e: Edge)
    requires Execution(states, events)
    requires forall x | x in states[0].edges :: x.kind != DefendantIn
    requires e in states[|events|].edges && e.kind == DefendantIn && Convicted(states[|events|].edges[e])
    ensures var p := states[|events|].edges[e];
            OutcomeSource in p && p[OutcomeSource] == "human" && Key.Evidence in p && p[Key.Evidence] != ""
  {
    ConvictionsAreRecordedDecisions(states, events);
    assert Backed(states[|events|].edges[e], e.to, events);
  }

  // ----- Whose word an edge carries -----

  // Event i writes the edge's outcome.
  predicate Writes(g: Graph, event: Event, e: Edge) {
    match event
    case Cite(tag, party, proceeding) =>
      Edge(party, DefendantIn, proceeding) == e && Is(g, party, tag) && Is(g, proceeding, LegalProceeding)
    case Confirm(politician, proceeding) =>
      Edge(Trim(politician), DefendantIn, Trim(proceeding)) == e && Confirmable(g, politician, proceeding)
    case Record(d) => d.Target() == e && Accepted(g, d)
    case _ => false
  }

  function OutcomeOf(event: Event): string {
    match event
    case Cite(_, _, _) => CITED
    case Record(d) => d.outcome
    case _ => "confirmed"
  }

  // The last of the first n events that wrote the edge, and the last that recorded a decision on it.
  function LastWriter(states: seq<Graph>, events: seq<Event>, n: nat, e: Edge): (w: Option<nat>)
    requires n <= |events| && |states| == |events| + 1
    ensures w.Some? ==> w.value < n && Writes(states[w.value], events[w.value], e)
    ensures forall i | (if w.Some? then w.value + 1 else 0) <= i < n :: !Writes(states[i], events[i], e)
  {
    if n == 0 then None
    else if Writes(states[n - 1], events[n - 1], e) then Some(n - 1)
    else LastWriter(states, events, n - 1, e)
  }

  function LastRecord(states: seq<Graph>, events: seq<Event>, n: nat, e: Edge): (w: Option<nat>)
    requires n <= |events| && |states| == |events| + 1
    ensures w.Some? ==> w.value < n && Writes(states[w.value], events[w.value], e) && events[w.value].Record?
    ensures forall i | (if w.Some? then w.value + 1 else 0) <= i < n :: !(events[i].Record? && Writes(states[i], events[i], e))
  {
    if n == 0 then None
    else if events[n - 1].Record? && Writes(states[n - 1], events[n - 1], e) then Some(n - 1)
    else LastRecord(states, events, n - 1, e)
  }

  predicate SameOn(a: Props, b: Props, k: Key) { (k in a <==> k in b) && (k in a ==> a[k] == b[k]) }

  predicate SameRecord(a: Props, b: Props) {
    SameOn(a, b, OutcomeSource) && SameOn(a, b, Key.Evidence) && SameOn(a, b, RecordedBy) && SameOn(a, b, RecordedAt)
  }

  // No merge and no purge touches the edge.
  ghost predicate LeftAlone(states: seq<Graph>, events: seq<Event>, e: Edge)
    requires |states| == |events| + 1
  {
    forall i | 0 <= i < |events| && (events[i].Merge? || events[i].Move? || events[i].Purge?) ::
      (e in states[i].edges <==> e in states[i + 1].edges) && PropsOf(states[i], e) == PropsOf(states[i + 1], e)
  }

  // What a writer leaves on the edge it writes.
  lemma WrittenEdge(g: Graph, event: Event, h: Graph, e: Edge)
    requires Step(g, event, h) && Writes(g, event, e)
    ensures e in h.edges && Outcome in h.edges[e] && h.edges[e][Outcome] == OutcomeOf(event)
    ensures if event.Record? then Tells(h.edges[e], event.decision) && ValidOutcome(event.decision.outcome)
            else SameRecord(h.edges[e], PropsOf(g, e))
  {
    match event
    case Cite(_, _, _) =>
    case Record(_) =>
    case Confirm(politician, proceeding) =>
      assert h == Written(g, e, map[Outcome := "confirmed", Source := "backoffice_review"]);
  }

  // What any other event but a merge leaves.
  lemma PassedEdge(g: Graph, event: Event, h: Graph, e: Edge)
    requires Step(g, event, h) && e.kind == DefendantIn && !Writes(g, event, e) && !event.Merge? && !event.Move?
    ensures e in h.edges ==> e in g.edges && h.edges[e] == g.edges[e]
    ensures e in g.edges && !event.Purge? ==> e in h.edges
  {
    match event
    case Delete(src) => if !Touched(g.edges, src) { assert h == Without(g, src); }
    case Purge(id) => if Is(g, id, Person) || Is(g, id, Organization) { assert h == Purged(g, id); }
    case Confirm(politician, proceeding) =>
      if Confirmable(g, politician, proceeding) { assert h == Confirmed(g, Trim(politician), Trim(proceeding)); }
    case _ =>
  }

  lemma StepOnEdge(g: Graph, event: Event, h: Graph, e: Edge)
    requires Step(g, event, h) && e.kind == DefendantIn
    requires event.Merge? || event.Move? || event.Purge? ==>
               (e in g.edges <==> e in h.edges) && PropsOf(g, e) == PropsOf(h, e)
    ensures e in h.edges <==> e in g.edges || Writes(g, event, e)
    ensures if Writes(g, event, e) then Outcome in h.edges[e] && h.edges[e][Outcome] == OutcomeOf(event)
            else PropsOf(h, e) == PropsOf(g, e)
    ensures if Writes(g, event, e) && event.Record? then Tells(h.edges[e], event.decision)
            else SameRecord(PropsOf(h, e), PropsOf(g, e))
  {
    if Writes(g, event, e) {
      WrittenEdge(g, event, h, e);
    } else if !event.Merge? && !event.Move? {
      PassedEdge(g, event, h, e);
    }
  }

  // What an edge says after n events, given what they wrote.
  ghost predicate Says(states: seq<Graph>, events: seq<Event>, n: nat, e: Edge)
    requires n <= |events| && |states| == |events| + 1
  {
    var w, j := LastWriter(states, events, n, e), LastRecord(states, events, n, e);
    var first, p := PropsOf(states[0], e), PropsOf(states[n], e);
    && (e in states[n].edges <==> e in states[0].edges || w.Some?)
    && (if w.Some? then Outcome in p && p[Outcome] == OutcomeOf(events[w.value]) else SameOn(p, first, Outcome))
    && (if j.Some? then Tells(p, events[j.value].decision) else SameRecord(p, first))
  }

  /**
   Over any execution, an edge that no merge or purge touches carries the outcome of its last citation,
   confirmation or accepted decision, and the evidence, operator and date of its last accepted
   decision.
   */
  lemma {:induction false} LastWriterDecides(states: seq<Graph>, events: seq<Event>, n: nat, e: Edge)
    requires Execution(states, events) && LeftAlone(states, events, e) && e.kind == DefendantIn && n <= |events|
    ensures Says(states, events, n, e)
  {
    if n > 0 {
      LastWriterDecides(states, events, n - 1, e);
      assert Step(states[n - 1], events[n - 1], states[n]);
      StepOnEdge(states[n - 1], events[n - 1], states[n], e);
    }
  }

  // So the outcome is the one the operator last recorded exactly when nothing wrote the edge after
  // that, or only citations last did and the operator's outcome was "cited" too.
  lemma UntouchedOutcomeIsTheRecordedIff(states: seq<Graph>, events: seq<Event>, e: Edge, j: nat)
    requires Execution(states, events) && LeftAlone(states, events, e) && e.kind == DefendantIn
    requires LastRecord(states, events, |events|, e) == Some(j)
    ensures var p, d := PropsOf(states[|events|], e), events[j].decision;
            var w := LastWriter(states, events, |events|, e);
            && w.Some? && Outcome in p && Tells(p, d)
            && (p[Outcome] == d.outcome <==> w.value == j || (events[w.value].Cite? && d.outcome == CITED))
            && (w.value == j <==> forall i | j < i < |events| :: !Writes(states[i], events[i], e))
  {
    LastWriterDecides(states, events, |events|, e);
    var w := LastWriter(states, events, |events|, e);
    assert Writes(states[j], events[j], e);
    assert w.value > j ==> !events[w.value].Record?;
    assert ValidOutcome(events[j].decision.outcome);
  }

  // ----- Merges as writers -----

  // The edge whose properties this event overlays on e.
  function OverlaidBy(g: Graph, event: Event, e: Edge): Option<Edge> {
    match event
    case Move(src, dst, kind) =>
      if src != dst && Is(g, dst, Organization) && e.from == dst && Edge(src, DefendantIn, e.to) in Rows(g, src, kind) then
        Some(Edge(src, DefendantIn, e.to))
      else None
    case Merge(src, dst, _, _) =>
      if src != dst && Is(g, dst, Organization) && e.from == dst && Edge(src, DefendantIn, e.to) in Movables(g, src) then
        Some(Edge(src, DefendantIn, e.to))
      else None
    case _ => None
  }

  // The event whose outcome edge e carries after n events: the one that last wrote it or, when a merge
  // came after that, the one whose outcome the edge merged into it carried.
  function OutcomeFrom(states: seq<Graph>, events: seq<Event>, n: nat, e: Edge): (w: Option<nat>)
    requires n <= |events| && |states| == |events| + 1
    ensures w.Some? ==> w.value < n
  {
    if n == 0 || e !in states[n].edges then None
    else if Writes(states[n - 1], events[n - 1], e) then Some(n - 1)
    else
      var r := OverlaidBy(states[n - 1], events[n - 1], e);
      OutcomeFrom(states, events, n - 1, if r.Some? then r.value else e)
  }

  // The event whose decision e carries the record of: a merged edge brings its record, if it has one.
  function RecordFrom(states: seq<Graph>, events: seq<Event>, n: nat, e: Edge): (j: Option<nat>)
    requires n <= |events| && |states| == |events| + 1
    ensures j.Some? ==> j.value < n && events[j.value].Record?
  {
    if n == 0 || e !in states[n].edges then None
    else if events[n - 1].Record? && Writes(states[n - 1], events[n - 1], e) then Some(n - 1)
    else
      var r := OverlaidBy(states[n - 1], events[n - 1], e);
      var brought := if r.Some? then RecordFrom(states, events, n - 1, r.value) else None;
      if brought.Some? then brought else RecordFrom(states, events, n - 1, e)
  }

  predicate NoRecord(p: Props) { OutcomeSource !in p && Key.Evidence !in p && RecordedBy !in p && RecordedAt !in p }

  lemma OriginStep(g: Graph, event: Event, h: Graph, e: Edge)
    requires Step(g, event, h) && e.kind == DefendantIn && e in h.edges && !Writes(g, event, e)
    ensures var r := OverlaidBy(g, event, e);
            if r.Some? then r.value in g.edges && h.edges[e] == PropsOf(g, e) + g.edges[r.value]
            else e in g.edges && h.edges[e] == g.edges[e]
  {
    match event
    case Merge(src, dst, actor, at) =>
      if src != dst && Is(g, dst, Organization) {
        var ok :| Merged(g, h, src, dst, actor, at, ok);
        HandedOrigin(g.edges, h.edges, Movables(g, src), src, dst, e);
      }
    case Move(src, dst, kind) =>
      if src != dst && Is(g, dst, Organization) { HandedOrigin(g.edges, h.edges, Rows(g, src, kind), src, dst, e); }
    case _ => PassedEdge(g, event, h, e);
  }

  lemma HandedOrigin(a: map<Edge, Props>, b: map<Edge, Props>, rows: set<Edge>, src: string, dst: string, e: Edge)
    requires Handed(a, b, rows, src, dst) && e.kind == DefendantIn && e in b
    ensures var r := Edge(src, DefendantIn, e.to);
            if e.from == dst && r in rows then r in a && b[e] == (if e in a then a[e] else map[]) + a[r] else e in a && b[e] == a[e]
  {
    assert Onto(e, src) == Edge(src, DefendantIn, e.to);
  }

  // What an edge carries after n events.
  ghost predicate Carries(states: seq<Graph>, events: seq<Event>, n: nat, e: Edge)
    requires n <= |events| && |states| == |events| + 1
  {
    e in states[n].edges ==>
      var w, j, p := OutcomeFrom(states, events, n, e), RecordFrom(states, events, n, e), states[n].edges[e];
      && w.Some? && Outcome in p && p[Outcome] == OutcomeOf(events[w.value])
      && (if j.Some? then Tells(p, events[j.value].decision) && ValidOutcome(events[j.value].decision.outcome) else NoRecord(p))
      && (events[w.value].Record? ==> j == w) && Speaks(events[w.value])
  }

  predicate Speaks(event: Event) { event.Cite? || event.Confirm? || event.Record? }

  lemma OverlaidRecord(p: Props, r: Props, d: Decision)
    ensures Tells(r, d) ==> Tells(p + r, d)
    ensures NoRecord(r) && Tells(p, d) ==> Tells(p + r, d)
    ensures NoRecord(r) && NoRecord(p) ==> NoRecord(p + r)
    ensures Outcome in r ==> Outcome in p + r && (p + r)[Outcome] == r[Outcome]
  {
  }

  lemma SameRecordTells(p: Props, q: Props, d: Decision)
    requires SameRecord(p, q)
    ensures Tells(p, d) <==> Tells(q, d)
    ensures NoRecord(p) <==> NoRecord(q)
  {
  }

  /**
   Over every execution that starts without DEFENDANT_IN edges, merges and purges included, each such
   edge carries the outcome and the record that its origins say.
   */
  lemma {:induction false} OriginsDecide(states: seq<Graph>, events: seq<Event>, n: nat, e: Edge)
    requires Execution(states, events) && n <= |events| && e.kind == DefendantIn
    requires forall x | x in states[0].edges :: x.kind != DefendantIn
    ensures Carries(states, events, n, e)
    decreases n
  {
    if n > 0 && e in states[n].edges {
      var g, event := states[n - 1], events[n - 1];
      var r := OverlaidBy(g, event, e);
      assert Step(g, event, states[n]);
      OriginsDecide(states, events, n - 1, e);
      if r.Some? { OriginsDecide(states, events, n - 1, r.value); }
      StepCarries(states, events, n, e, r);
    }
  }

  lemma StepCarries(states: seq<Graph>, events: seq<Event>, n: nat, e: Edge, r: Option<Edge>)
    requires 0 < n <= |events| && |states| == |events| + 1 && e in states[n].edges && e.kind == DefendantIn
    requires Step(states[n - 1], events[n - 1], states[n]) && r == OverlaidBy(states[n - 1], events[n - 1], e)
    requires Carries(states, events, n - 1, e) && (r.Some? ==> Carries(states, events, n - 1, r.value))
    ensures Carries(states, events, n, e)
  {
    if Writes(states[n - 1], events[n - 1], e) {
      WrittenEdge(states[n - 1], events[n - 1], states[n], e);
      WrittenCarries(states, events, n, e);
    } else {
      OriginStep(states[n - 1], events[n - 1], states[n], e);
      if r.Some? { MergedCarries(states, events, n, e, r.value); } else { PassedCarries(states, events, n, e); }
    }
  }

  lemma PassedCarries(states: seq<Graph>, events: seq<Event>, n: nat, e: Edge)
    requires 0 < n <= |events| && |states| == |events| + 1 && e in states[n].edges && Carries(states, events, n - 1, e)
    requires !Writes(states[n - 1], events[n - 1], e) && OverlaidBy(states[n - 1], events[n - 1], e).None?
    requires e in states[n - 1].edges && states[n].edges[e] == states[n - 1].edges[e]
    ensures Carries(states, events, n, e)
  {
    assert OutcomeFrom(states, events, n, e) == OutcomeFrom(states, events, n - 1, e);
    assert RecordFrom(states, events, n, e) == RecordFrom(states, events, n - 1, e);
  }

  lemma WrittenCarries(states: seq<Graph>, events: seq<Event>, n: nat, e: Edge)
    requires 0 < n <= |events| && |states| == |events| + 1 && e in states[n].edges && Carries(states, events, n - 1, e)
    requires var g, event, p := states[n - 1], events[n - 1], states[n].edges[e];
             && Writes(g, event, e) && Outcome in p && p[Outcome] == OutcomeOf(event)
             && if event.Record? then Tells(p, event.decision) && ValidOutcome(event.decision.outcome)
                else SameRecord(p, PropsOf(g, e))
    ensures Carries(states, events, n, e)
  {
    var j := RecordFrom(states, events, n - 1, e);
    if !events[n - 1].Record? && j.Some? { SameRecordTells(states[n].edges[e], PropsOf(states[n - 1], e), events[j.value].decision); }
    assert OverlaidBy(states[n - 1], events[n - 1], e).None?;
  }

  lemma MergedCarries(states: seq<Graph>, events: seq<Event>, n: nat, e: Edge, r: Edge)
    requires 0 < n <= |events| && |states| == |events| + 1 && e in states[n].edges
    requires !Writes(states[n - 1], events[n - 1], e) && OverlaidBy(states[n - 1], events[n - 1], e) == Some(r)
    requires r in states[n - 1].edges && states[n].edges[e] == PropsOf(states[n - 1], e) + states[n - 1].edges[r]
    requires Carries(states, events, n - 1, e) && Carries(states, events, n - 1, r)
    ensures Carries(states, events, n, e)
  {
    var p, q := PropsOf(states[n - 1], e), states[n - 1].edges[r];
    var je, jr := RecordFrom(states, events, n - 1, e), RecordFrom(states, events, n - 1, r);
    if je.Some? { OverlaidRecord(p, q, events[je.value].decision); }
    if jr.Some? { OverlaidRecord(p, q, events[jr.value].decision); }
  }

  // So an edge's outcome is that of the decision whose record it carries exactly when both come from
  // the same event, or the outcome comes from a citation and the decision was "cited" too.
  lemma OutcomeIsTheRecordedIff(states: seq<Graph>, events: seq<Event>, e: Edge, j: nat)
    requires Execution(states, events) && e.kind == DefendantIn && e in states[|events|].edges
    requires forall x | x in states[0].edges :: x.kind != DefendantIn
    requires RecordFrom(states, events, |events|, e) == Some(j)
    ensures var p, d, w := states[|events|].edges[e], events[j].decision, OutcomeFrom(states, events, |events|, e);
            && Tells(p, d) && w.Some? && Outcome in p
            && (p[Outcome] == d.outcome <==> w.value == j || (events[w.value].Cite? && d.outcome == CITED))
  {
    OriginsDecide(states, events, |events|, e);
  }

  // A citation after a decision: the edge reads "cited" by a human, with the decision's evidence.
  lemma CitationOverwritesDecision(g: Graph, tag: Label, d: Decision)
    requires Accepted(g, d) && Is(g, d.party, tag) && Is(g, d.proceeding, LegalProceeding)
    ensures var states := [g, Recorded(g, d), Cited(Recorded(g, d), tag, d.party, d.proceeding, CITED)];
            && Execution(states, [Record(d), Cite(tag, d.party, d.proceeding)])
            && states[2].edges[d.Target()][Outcome] == "cited" && Tells(states[2].edges[d.Target()], d)
  {
  }

  // A confirmed match after a decision: the edge reads "confirmed", which no operator can record.
  lemma ConfirmationOverwritesDecision(g: Graph, d: Decision)
    requires Accepted(g, d) && Confirmable(g, d.party, d.proceeding) && Trim(d.party) == d.party && Trim(d.proceeding) == d.proceeding
    ensures var states := [g, Recorded(g, d), Confirmed(Recorded(g, d), d.party, d.proceeding)];
            && Execution(states, [Record(d), Confirm(d.party, d.proceeding)])
            && states[2].edges[d.Target()][Outcome] == "confirmed" && !ValidOutcome("confirmed")
            && Tells(states[2].edges[d.Target()], d)
  {
  }

  // A merge after a decision: the survivor's edge takes the outcome of the source's, however old that
  // citation is, beside its own decision's evidence.
  lemma MergeOverwritesDecision(g: Graph, h: Graph, src: string, dst: string, actor: string, at: string, ok: bool, d: Decision)
    requires src != dst && Is(g, dst, Organization) && Merged(g, h, src, dst, actor, at, ok)
    requires var e, r := Edge(dst, DefendantIn, d.proceeding), Edge(src, DefendantIn, d.proceeding);
             && r in Movables(g, src) && g.edges[r] == map[Outcome := CITED, Source := "djen"]
             && e in g.edges && Convicted(g.edges[e]) && Tells(g.edges[e], d)
    ensures var p := PropsOf(h, Edge(dst, DefendantIn, d.proceeding));
            Outcome in p && p[Outcome] == "cited" && !Convicted(p) && Tells(p, d)
  {
    var e := Edge(dst, DefendantIn, d.proceeding);
    assert Onto(e, src) == Edge(src, DefendantIn, d.proceeding);
    OverlaidRecord(g.edges[e], g.edges[Onto(e, src)], d);
  }
}
