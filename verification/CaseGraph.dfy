/**
 The graph statements that write DEFENDANT_IN edges or move edges between organizations: the merge of
 a name-only Organization into the one that holds its CNPJ, citations, confirmations, recorded
 outcomes and purges.

 One edge at most joins two nodes by one relationship type, as MERGE keeps it. Each statement commits
 on its own. Node ids are unique across labels.
 */
module CaseGraph {
  import opened Wrappers
  import opened Text

  datatype Label = Politician | Person | Organization | LegalProceeding | Scandal | Sanction

  datatype Node = Node(tag: Label, name: string, searchName: string, cnpj: string, byHuman: bool, actor: string, at: string)

  datatype Kind = DefendantIn | ImplicatedIn | Controls | Unmovable(name: string)

  datatype Edge = Edge(from: string, kind: Kind, to: string)

  datatype Key = Outcome | OutcomeSource | Evidence | RecordedBy | RecordedAt | Source

  type Props = map<Key, string>

  datatype Graph = Graph(nodes: map<string, Node>, edges: map<Edge, Props>)

  predicate Is(g: Graph, id: string, tag: Label) { id in g.nodes && g.nodes[id].tag == tag }

  function PropsOf(g: Graph, e: Edge): Props { if e in g.edges then g.edges[e] else map[] }

  // ----- Moving edges -----

  // The end of an edge that a merge moves: the organization is what is controlled, and the one accused.
  function Hand(e: Edge): string { if e.kind.Controls? then e.to else e.from }

  function Onto(e: Edge, id: string): Edge { if e.kind.Controls? then e.(to := id) else e.(from := id) }

  // An edge of src that one of the three statements moves.
  predicate Movable(g: Graph, e: Edge, src: string) {
    && Is(g, src, Organization) && e in g.edges && Hand(e) == src
    && (e.kind == Controls || (e.kind == DefendantIn && Is(g, e.to, LegalProceeding)) || (e.kind == ImplicatedIn && Is(g, e.to, Scandal)))
  }

  function Movables(g: Graph, src: string): set<Edge> {
    set e | e in g.edges && Movable(g, e, src)
  }

  // What one statement matches.
  function Rows(g: Graph, src: string, kind: Kind): set<Edge> {
    set e | e in Movables(g, src) && e.kind == kind
  }

  // SET n += properties(r), with n the survivor's edge, merged if it was not there.
  function Overlaid(edges: map<Edge, Props>, n: Edge, r: Edge): Props
    requires r in edges
  {
    (if n in edges then edges[n] else map[]) + edges[r]
  }

  // `after` is `before` with the edges `rows` of src handed to dst, and nothing else changed.
  ghost predicate Handed(before: map<Edge, Props>, after: map<Edge, Props>, rows: set<Edge>, src: string, dst: string) {
    && (forall r | r in rows :: r in before && Hand(r) == src)
    && (forall e :: e in after <==> (e in before && e !in rows) || (Hand(e) == dst && Onto(e, src) in rows))
    && (forall e | e in after :: after[e] ==
          if Hand(e) == dst && Onto(e, src) in rows then Overlaid(before, e, Onto(e, src)) else before[e])
  }

  lemma HandLaws(e: Edge, src: string, dst: string)
    ensures Hand(Onto(e, dst)) == dst
    ensures Hand(e) == src ==> Onto(Onto(e, dst), src) == e
  {
  }

  lemma HandedOne(before: map<Edge, Props>, after: map<Edge, Props>, r: Edge, src: string, dst: string)
    requires src != dst && r in before && Hand(r) == src
    requires after == before[Onto(r, dst) := Overlaid(before, Onto(r, dst), r)] - {r}
    ensures Handed(before, after, {r}, src, dst)
  {
    HandLaws(r, src, dst);
    assert forall e | Hand(e) == dst && Onto(e, src) == r :: e == Onto(r, dst);
  }

  lemma HandedInTurn(a: map<Edge, Props>, b: map<Edge, Props>, c: map<Edge, Props>, rows: set<Edge>, more: set<Edge>, src: string, dst: string)
    requires src != dst && Handed(a, b, rows, src, dst) && Handed(b, c, more, src, dst)
    ensures Handed(a, c, rows + more, src, dst) && rows !! more
  {
    forall r | r in more ensures r in a && r !in rows && a[r] == b[r] {
      assert r in b && Hand(r) == src;
    }
    forall e | e in c ensures c[e] ==
        if Hand(e) == dst && Onto(e, src) in rows + more then Overlaid(a, e, Onto(e, src)) else a[e]
    {
      assert e in b || (Hand(e) == dst && Onto(e, src) in more);
    }
  }

  lemma RowsRemain(g: Graph, h: Graph, done: set<Edge>, src: string, dst: string, kind: Kind)
    requires src != dst && g.nodes == h.nodes && Handed(g.edges, h.edges, done, src, dst)
    ensures forall r :: r in Rows(h, src, kind) <==> r in Rows(g, src, kind) && r !in done
  {
  }

  function Named(g: Graph, src: string, dst: string): Graph {
    if Is(g, src, Organization) && Is(g, dst, Organization) && g.nodes[dst].name == "" then
      g.(nodes := g.nodes[dst := g.nodes[dst].(name := g.nodes[src].name, searchName := g.nodes[src].searchName)])
    else g
  }

  function Stamped(g: Graph, dst: string, actor: string, at: string): Graph {
    if Is(g, dst, Organization) then g.(nodes := g.nodes[dst := g.nodes[dst].(byHuman := true, actor := actor, at := at)])
    else g
  }

  ghost predicate Touched(edges: map<Edge, Props>, id: string) {
    exists e | e in edges :: e.from == id || e.to == id
  }

  predicate Holds(g: Graph, id: string, cnpj: string) { Is(g, id, Organization) && g.nodes[id].cnpj == cnpj }

  datatype MergeError = BadCnpj | NoOrganization | StillHoldsEdges

  function Documented(g: Graph, src: string, digits: string, actor: string, at: string): Graph
    requires src in g.nodes
  {
    g.(nodes := g.nodes[src := g.nodes[src].(cnpj := digits, byHuman := true, actor := actor, at := at)])
  }

  function Without(g: Graph, src: string): Graph {
    if Is(g, src, Organization) then g.(nodes := g.nodes - {src}) else g
  }

  // Nobody but src may hold the document.
  ghost predicate Free(g: Graph, src: string, cnpj: string) {
    forall d | d in g.nodes && d != src :: !Holds(g, d, cnpj)
  }

  // The survivor dst took over what could be moved; src is gone unless it still holds an edge.
  ghost predicate Merged(g: Graph, h: Graph, src: string, dst: string, actor: string, at: string, ok: bool) {
    && Handed(g.edges, h.edges, Movables(g, src), src, dst)
    && (ok <==> !(Is(g, src, Organization) && Touched(h.edges, src)))
    && h.nodes == if ok then Stamped(Without(Named(g, src, dst), src), dst, actor, at).nodes else Named(g, src, dst).nodes
  }

  ghost predicate Attached(g: Graph, h: Graph, src: string, cnpj: string, actor: string, at: string, r: Result<string, MergeError>) {
    if Free(g, src, cnpj) then
      if Is(g, src, Organization) then r == Success(src) && h == Documented(g, src, cnpj, actor, at)
      else r == Failure(NoOrganization) && h == g
    else
      exists dst | dst in g.nodes && dst != src && Holds(g, dst, cnpj) ::
        Merged(g, h, src, dst, actor, at, r.Success?) && r == if r.Success? then Success(dst) else Failure(StillHoldsEdges)
  }

  // ----- Writing DEFENDANT_IN edges -----

  function Written(g: Graph, e: Edge, news: Props): Graph {
    g.(edges := g.edges[e := (if e in g.edges then g.edges[e] else map[]) + news])
  }

  function Cited(g: Graph, tag: Label, party: string, proceeding: string, outcome: string): Graph {
    if Is(g, party, tag) && Is(g, proceeding, LegalProceeding) then
      Written(g, Edge(party, DefendantIn, proceeding), map[Outcome := outcome, Source := "djen"])
    else g
  }

  function Confirmed(g: Graph, politician: string, proceeding: string): Graph {
    Written(g, Edge(politician, DefendantIn, proceeding), map[Outcome := "confirmed", Source := "backoffice_review"])
  }

  predicate ValidOutcome(outcome: string) { outcome in {"convicted", "acquitted", "dismissed", "indicted", "cited"} }

  datatype Decision = Decision(proceeding: string, party: string, outcome: string, evidence: string, actor: string, at: string) {
    function Target(): Edge { Edge(party, DefendantIn, proceeding) }

    function Facts(): Props {
      map[Outcome := outcome, OutcomeSource := "human", Evidence := evidence, RecordedBy := actor, RecordedAt := at]
    }
  }

  function Recorded(g: Graph, d: Decision): Graph { Written(g, d.Target(), d.Facts()) }

  predicate Reads(edges: map<Edge, Props>, e: Edge, k: Key, v: string) { e in edges && k in edges[e] && edges[e][k] == v }

  // Nothing changed but these properties of edge e, which was created if it was not there.
  ghost predicate KeepsRest(before: map<Edge, Props>, after: map<Edge, Props>, e: Edge, written: set<Key>) {
    && after.Keys == before.Keys + {e}
    && (forall x | x in before && x != e :: after[x] == before[x])
    && forall k | k !in written :: (k in after[e] <==> e in before && k in before[e]) && (k in after[e] ==> after[e][k] == before[e][k])
  }

  function Purged(g: Graph, id: string): Graph {
    Graph(g.nodes - {id}, map e | e in g.edges && e.from != id && e.to != id :: g.edges[e])
  }

  // ----- The graph in place -----

  class CaseGraph {
    var nodes: map<string, Node>
    var edges: map<Edge, Props>

    constructor (g: Graph)
      ensures State() == g
    {
      nodes, edges := g.nodes, g.edges;
    }

    ghost function State(): Graph
      reads this
    {
      Graph(nodes, edges)
    }

    // One move statement: each matched row r merges dst's edge n, overlays r's properties and deletes r.
    method Move(src: string, dst: string, kind: Kind)
      requires src != dst
      modifies this`edges
      ensures Handed(old(edges), edges, Rows(old(State()), src, kind), src, dst)
    {
      ghost var g := State();
      var rows := Rows(Graph(nodes, edges), src, kind);
      ghost var all, done: set<Edge> := rows, {};
      while rows != {}
        invariant rows + done == all && rows !! done
        invariant Handed(g.edges, edges, done, src, dst)
      {
        var r :| r in rows;
        var n := Onto(r, dst);
        HandLaws(r, src, dst);
        ghost var before := edges;
        edges := edges[n := Overlaid(edges, n, r)] - {r};
        HandedOne(before, edges, r, src, dst);
        HandedInTurn(g.edges, before, edges, done, {r}, src, dst);
        rows, done := rows - {r}, done + {r};
      }
    }

    method MoveAll(src: string, dst: string)
      requires src != dst
      modifies this`edges
      ensures Handed(old(edges), edges, Movables(old(State()), src), src, dst)
    {
      ghost var g := State();
      ghost var done: set<Edge> := {};
      var moves := [DefendantIn, ImplicatedIn, Controls];
      for i := 0 to |moves|
        invariant nodes == g.nodes
        invariant Handed(g.edges, edges, done, src, dst)
        invariant forall r :: r in done <==> r in Movables(g, src) && r.kind in moves[..i]
      {
        ghost var before, rows := edges, Rows(State(), src, moves[i]);
        RowsRemain(g, State(), done, src, dst, moves[i]);
        Move(src, dst, moves[i]);
        HandedInTurn(g.edges, before, edges, done, rows, src, dst);
        done := done + rows;
        assert moves[..i + 1] == moves[..i] + [moves[i]];
      }
      assert moves[..|moves|] == moves && moves[0] == DefendantIn && moves[1] == ImplicatedIn && moves[2] == Controls;
      assert forall e | e in Movables(g, src) :: e.kind in moves;
      assert done == Movables(g, src);
    }

    method GiveName(src: string, dst: string)
      modifies this`nodes
      ensures State() == Named(old(State()), src, dst)
    {
      nodes := Named(Graph(nodes, edges), src, dst).nodes;
    }

    // A plain DELETE: it fails while an edge is left.
    method Delete(src: string) returns (ok: bool)
      modifies this`nodes
      ensures ok <==> !(Is(old(State()), src, Organization) && Touched(edges, src))
      ensures nodes == if ok && Is(old(State()), src, Organization) then old(nodes) - {src} else old(nodes)
    {
      if src !in nodes || nodes[src].tag != Organization {
        return true;
      }
      if e :| e in edges && (e.from == src || e.to == src) {
        return false;
      }
      nodes := nodes - {src};
      return true;
    }

    method MergeInto(src: string, dst: string, actor: string, at: string) returns (ok: bool)
      requires src != dst
      modifies this
      ensures Merged(old(State()), State(), src, dst, actor, at, ok)
    {
      MoveAll(src, dst);
      GiveName(src, dst);
      ok := Delete(src);
      if ok {
        nodes := Stamped(Graph(nodes, edges), dst, actor, at).nodes;
      }
    }

    method AttachOrganizationCNPJ(src: string, cnpj: string, actor: string, at: string) returns (r: Result<string, MergeError>)
      modifies this
      ensures |DigitsOnly(cnpj)| != 14 <==> r == Failure(BadCnpj)
      ensures r == Failure(BadCnpj) || r == Failure(NoOrganization) ==> State() == old(State())
      ensures |DigitsOnly(cnpj)| == 14 ==> Attached(old(State()), State(), src, DigitsOnly(cnpj), actor, at, r)
    {
      var digits := DigitsOnly(cnpj);
      if |digits| != 14 {
        return Failure(BadCnpj);
      }
      if dst :| dst in nodes && dst != src && Holds(Graph(nodes, edges), dst, digits) {
        var merged := MergeInto(src, dst, actor, at);
        return if merged then Success(dst) else Failure(StillHoldsEdges);
      }
      if src !in nodes || nodes[src].tag != Organization {
        return Failure(NoOrganization);
      }
      nodes := nodes[src := nodes[src].(cnpj := digits, byHuman := true, actor := actor, at := at)];
      return Success(src);
    }

    // A citation found in the gazette; when either node is missing it matches nothing.
    method EnsureDjenDefendantEdge(tag: Label, party: string, proceeding: string, outcome: string)
      modifies this`edges
      ensures State() == Cited(old(State()), tag, party, proceeding, outcome)
      ensures var e, met := Edge(party, DefendantIn, proceeding), Is(old(State()), party, tag) && Is(old(State()), proceeding, LegalProceeding);
              && (met ==> Reads(edges, e, Outcome, outcome) && Reads(edges, e, Source, "djen")
                          && KeepsRest(old(edges), edges, e, {Outcome, Source}))
              && (!met ==> edges == old(edges))
    {
      var g := Graph(nodes, edges);
      if Is(g, party, tag) && Is(g, proceeding, LegalProceeding) {
        var e := Edge(party, DefendantIn, proceeding);
        if e !in edges {
          edges := edges[e := map[]];
        }
        assert edges[e][Outcome := outcome][Source := "djen"] == edges[e] + map[Outcome := outcome, Source := "djen"];
        edges := edges[e := edges[e][Outcome := outcome][Source := "djen"]];
      }
    }

    // An operator confirms that a politician is a party to a case.
    method EnsurePoliticianDefendantEdge(politician: string, proceeding: string) returns (ok: bool)
      modifies this`edges
      ensures State() == if ok then Confirmed(old(State()), Trim(politician), Trim(proceeding)) else old(State())
      ensures ok <==> Is(old(State()), Trim(politician), Politician) && Is(old(State()), Trim(proceeding), LegalProceeding)
                      && Trim(politician) != "" && Trim(proceeding) != ""
      ensures var e := Edge(Trim(politician), DefendantIn, Trim(proceeding));
              && (ok ==> Reads(edges, e, Outcome, "confirmed") && Reads(edges, e, Source, "backoffice_review")
                         && KeepsRest(old(edges), edges, e, {Outcome, Source}))
              && (!ok ==> edges == old(edges))
    {
      var from, to := Trim(politician), Trim(proceeding);
      if from == "" || to == "" {
        return false;
      }
      if !(from in nodes && nodes[from].tag == Politician && to in nodes && nodes[to].tag == LegalProceeding) {
        return false;
      }
      var e := Edge(from, DefendantIn, to);
      if e !in edges {
        edges := edges[e := map[]];
      }
      assert edges[e][Outcome := "confirmed"][Source := "backoffice_review"]
          == edges[e] + map[Outcome := "confirmed", Source := "backoffice_review"];
      edges := edges[e := edges[e][Outcome := "confirmed"][Source := "backoffice_review"]];
      return true;
    }

    // The outcome of one defendant in one case, from the backoffice: a conviction takes evidence.
    method SetDefendantOutcome(d: Decision) returns (ok: bool)
      modifies this`edges
      ensures var e := Edge(d.party, DefendantIn, d.proceeding);
              ok <==> e in old(edges) && d.proceeding in nodes && nodes[d.proceeding].tag == LegalProceeding
                      && match d.outcome
                         case "acquitted" => true case "dismissed" => true case "indicted" => true case "cited" => true
                         case "convicted" => d.evidence != ""
                         case _ => false
      ensures State() == if ok then Recorded(old(State()), d) else old(State())
      ensures var e := Edge(d.party, DefendantIn, d.proceeding);
              if ok then
                && Reads(edges, e, Outcome, d.outcome) && Reads(edges, e, OutcomeSource, "human")
                && Reads(edges, e, Evidence, d.evidence) && Reads(edges, e, RecordedBy, d.actor) && Reads(edges, e, RecordedAt, d.at)
                && KeepsRest(old(edges), edges, e, {Outcome, OutcomeSource, Evidence, RecordedBy, RecordedAt})
              else edges == old(edges)
    {
      if !ValidOutcome(d.outcome) {
        return false;
      }
      if d.outcome == "convicted" && d.evidence == "" {
        return false;
      }
      if d.Target() !in edges || !(d.proceeding in nodes && nodes[d.proceeding].tag == LegalProceeding) {
        return false;
      }
      edges := edges[d.Target() := edges[d.Target()] + d.Facts()];
      return true;
    }

    // DETACH DELETE of a Person or Organization.
    method PurgePersonNode(id: string) returns (ok: bool)
      modifies this
      ensures ok <==> Is(old(State()), id, Person) || Is(old(State()), id, Organization)
      ensures !ok ==> State() == old(State())
      ensures State() == if ok then Purged(old(State()), id) else old(State())
      ensures ok ==> nodes == old(nodes) - {id} && !Touched(edges, id)
      ensures ok ==> forall e: Edge | e.from != id && e.to != id ::
                (e in edges <==> e in old(edges)) && (e in edges ==> edges[e] == old(edges)[e])
    {
      if id !in nodes || !(nodes[id].tag == Person || nodes[id].tag == Organization) {
        return false;
      }
      edges := map e | e in edges && e.from != id && e.to != id :: edges[e];
      nodes := nodes - {id};
      return true;
    }
  }
}
