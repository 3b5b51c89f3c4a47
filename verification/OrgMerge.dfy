/** What joining two Organization nodes keeps. */
module OrgMerge {
  import opened Wrappers
  import opened CaseGraph

  // An edge of src that the merge leaves on it: one no statement moves, or a company controlling itself.
  ghost predicate Stuck(g: Graph, e: Edge, src: string) {
    && e in g.edges && (e.from == src || e.to == src)
    && (!Movable(g, e, src) || e.from == e.to)
  }

  // The merge goes through exactly when the source holds no edge it cannot move: it is accused in cases,
  // implicated in scandals and controlled by others, and that is all.
  lemma MergeSucceedsIff(g: Graph, h: Graph, src: string, dst: string, actor: string, at: string, ok: bool)
    requires src != dst && Is(g, src, Organization) && Merged(g, h, src, dst, actor, at, ok)
    ensures ok <==> forall e | e in g.edges :: !Stuck(g, e, src)
    ensures ok <==> forall e | e in g.edges && (e.from == src || e.to == src) ::
              || (e.from == src && e.kind == DefendantIn && Is(g, e.to, LegalProceeding))
              || (e.from == src && e.kind == ImplicatedIn && Is(g, e.to, Scandal))
              || (e.to == src && e.kind == Controls && e.from != src)
  {
    forall e | e in g.edges && (e.from == src || e.to == src)
      ensures Stuck(g, e, src) <==>
              !(|| (e.from == src && e.kind == DefendantIn && Is(g, e.to, LegalProceeding))
                || (e.from == src && e.kind == ImplicatedIn && Is(g, e.to, Scandal))
                || (e.to == src && e.kind == Controls && e.from != src))
    {
    }
    if e :| e in h.edges && (e.from == src || e.to == src) {
      StuckComesFrom(g, h, src, dst, e);
    } else if e :| e in g.edges && Stuck(g, e, src) {
      StuckStays(g, h, src, dst, e);
    }
  }

  lemma StuckComesFrom(g: Graph, h: Graph, src: string, dst: string, e: Edge)
    requires src != dst && Handed(g.edges, h.edges, Movables(g, src), src, dst)
    requires e in h.edges && (e.from == src || e.to == src)
    ensures exists s | s in g.edges :: Stuck(g, s, src)
  {
    if e in g.edges && e !in Movables(g, src) {
      assert Stuck(g, e, src);
    } else {
      assert Stuck(g, Onto(e, src), src);
    }
  }

  // A stuck edge stays with the source; only a self-loop of CONTROLS gets one end moved.
  lemma StuckStays(g: Graph, h: Graph, src: string, dst: string, e: Edge)
    requires src != dst && Handed(g.edges, h.edges, Movables(g, src), src, dst)
    requires Stuck(g, e, src)
    ensures !Movable(g, e, src) ==> e in h.edges
    ensures Movable(g, e, src) ==> Onto(e, dst) in h.edges && Onto(e, dst).from == src
  {
    HandLaws(e, src, dst);
  }

  /**
   A merge that goes through conserves the graph: no edge mentions the deleted node; the survivor has
   an edge when either node had it, with both nodes' properties, the moved ones winning; every other
   edge is as it was.
   */
  lemma MergeUnites(g: Graph, h: Graph, src: string, dst: string, actor: string, at: string)
    requires src != dst && Is(g, src, Organization) && Merged(g, h, src, dst, actor, at, true)
    ensures forall e :: e in h.edges <==>
              e.from != src && e.to != src && (e in g.edges || (Hand(e) == dst && Onto(e, src) in g.edges))
    ensures forall e | e in h.edges ::
              h.edges[e] == if Hand(e) == dst && Onto(e, src) in g.edges then Overlaid(g.edges, e, Onto(e, src)) else g.edges[e]
  {
    MergeSucceedsIff(g, h, src, dst, actor, at, true);
    forall e | e in g.edges && (e.from == src || e.to == src) ensures e in Movables(g, src) && e.from != e.to {
      assert !Stuck(g, e, src);
    }
    forall e: Edge | Hand(e) == dst && Onto(e, src) in g.edges ensures Onto(e, src) in Movables(g, src) {
      HandLaws(e, dst, src);
    }
  }

  // The survivor's cases, scandals and owners are the unions of both nodes'.
  lemma MergeConserves(g: Graph, h: Graph, src: string, dst: string, actor: string, at: string)
    requires src != dst && Is(g, src, Organization) && Merged(g, h, src, dst, actor, at, true)
    ensures src !in h.nodes && h.nodes.Keys == g.nodes.Keys - {src}
    ensures forall to, kind | kind == DefendantIn || kind == ImplicatedIn ::
              Edge(dst, kind, to) in h.edges <==> Edge(dst, kind, to) in g.edges || Edge(src, kind, to) in g.edges
    ensures forall p :: Edge(p, Controls, dst) in h.edges <==> Edge(p, Controls, dst) in g.edges || Edge(p, Controls, src) in g.edges
  {
    MergeUnites(g, h, src, dst, actor, at);
    forall to, kind | kind == DefendantIn || kind == ImplicatedIn
      ensures Edge(dst, kind, to) in h.edges <==> Edge(dst, kind, to) in g.edges || Edge(src, kind, to) in g.edges
    {
      assert Onto(Edge(dst, kind, to), src) == Edge(src, kind, to);
      SuccessLeavesNoneStuck(g, h, src, dst, actor, at, Edge(dst, kind, to));
      SuccessLeavesNoneStuck(g, h, src, dst, actor, at, Edge(src, kind, to));
    }
    forall p ensures Edge(p, Controls, dst) in h.edges <==> Edge(p, Controls, dst) in g.edges || Edge(p, Controls, src) in g.edges {
      assert Onto(Edge(p, Controls, dst), src) == Edge(p, Controls, src);
      SuccessLeavesNoneStuck(g, h, src, dst, actor, at, Edge(p, Controls, dst));
      SuccessLeavesNoneStuck(g, h, src, dst, actor, at, Edge(p, Controls, src));
    }
  }

  // Each of these edges has the properties of both nodes'; where they differ the source's win.
  lemma MergeJoinsProperties(g: Graph, h: Graph, src: string, dst: string, actor: string, at: string, x: string)
    requires src != dst && Is(g, src, Organization) && Merged(g, h, src, dst, actor, at, true)
    ensures PropsOf(h, Edge(dst, DefendantIn, x)) == PropsOf(g, Edge(dst, DefendantIn, x)) + PropsOf(g, Edge(src, DefendantIn, x))
    ensures PropsOf(h, Edge(dst, ImplicatedIn, x)) == PropsOf(g, Edge(dst, ImplicatedIn, x)) + PropsOf(g, Edge(src, ImplicatedIn, x))
    ensures x != src ==>
              PropsOf(h, Edge(x, Controls, dst)) == PropsOf(g, Edge(x, Controls, dst)) + PropsOf(g, Edge(x, Controls, src))
  {
    MergeUnites(g, h, src, dst, actor, at);
    JoinedProperties(g, h, src, dst, actor, at, Edge(dst, DefendantIn, x));
    JoinedProperties(g, h, src, dst, actor, at, Edge(dst, ImplicatedIn, x));
    if x != src { JoinedProperties(g, h, src, dst, actor, at, Edge(x, Controls, dst)); }
  }

  lemma JoinedProperties(g: Graph, h: Graph, src: string, dst: string, actor: string, at: string, e: Edge)
    requires src != dst && Is(g, src, Organization) && Merged(g, h, src, dst, actor, at, true)
    requires Hand(e) == dst && (e.kind.Controls? ==> e.from != src)
    ensures PropsOf(h, e) == PropsOf(g, e) + PropsOf(g, Onto(e, src))
  {
    MergeUnites(g, h, src, dst, actor, at);
    SuccessLeavesNoneStuck(g, h, src, dst, actor, at, e);
    SuccessLeavesNoneStuck(g, h, src, dst, actor, at, Onto(e, src));
    assert PropsOf(g, e) + map[] == PropsOf(g, e);
  }

  lemma SuccessLeavesNoneStuck(g: Graph, h: Graph, src: string, dst: string, actor: string, at: string, e: Edge)
    requires src != dst && Is(g, src, Organization) && Merged(g, h, src, dst, actor, at, true)
    ensures e in g.edges && (e.from == src || e.to == src) ==> Movable(g, e, src) && e.from != e.to
  {
    MergeSucceedsIff(g, h, src, dst, actor, at, true);
    assert e in g.edges ==> !Stuck(g, e, src);
  }

  // A merge that fails has moved what it could, and still loses nothing: the source keeps its node and
  // every edge no statement moves. Those edges keep their properties, except the source's control of the
  // survivor, which a loop of control on the source is merged into.
  lemma FailedMergeKeepsTheSource(g: Graph, h: Graph, src: string, dst: string, actor: string, at: string)
    requires src != dst && Is(g, src, Organization) && Merged(g, h, src, dst, actor, at, false)
    ensures src in h.nodes && h.nodes[src] == g.nodes[src] && h.nodes.Keys == g.nodes.Keys
    ensures forall e | e in g.edges && (e.from == src || e.to == src) && !Movable(g, e, src) ::
              && e in h.edges
              && h.edges[e] == if e == Edge(src, Controls, dst) && Edge(src, Controls, src) in g.edges
                               then Overlaid(g.edges, e, Edge(src, Controls, src)) else g.edges[e]
    ensures exists e | e in g.edges :: Stuck(g, e, src)
  {
    MergeSucceedsIff(g, h, src, dst, actor, at, false);
    forall e | e in g.edges && (e.from == src || e.to == src) && !Movable(g, e, src)
      ensures Hand(e) == dst && Onto(e, src) in Movables(g, src) <==> e == Edge(src, Controls, dst) && Edge(src, Controls, src) in g.edges
    {
      HandLaws(e, dst, src);
    }
  }

  // What a merge does to the nodes: the survivor keeps its document, and its name if it has one; a merge
  // that goes through says who merged and when; no third node changes.
  lemma MergeKeepsNames(g: Graph, h: Graph, src: string, dst: string, actor: string, at: string, ok: bool)
    requires src != dst && Is(g, src, Organization) && Is(g, dst, Organization) && Merged(g, h, src, dst, actor, at, ok)
    ensures dst in h.nodes
    ensures var p, q, r := g.nodes[dst], g.nodes[src], h.nodes[dst];
            && r.tag == Organization && r.cnpj == p.cnpj
            && r.name == (if p.name != "" then p.name else q.name)
            && r.searchName == (if p.name != "" then p.searchName else q.searchName)
            && (if ok then r.byHuman && r.actor == actor && r.at == at
                else r.byHuman == p.byHuman && r.actor == p.actor && r.at == p.at)
    ensures forall n | n != src && n != dst :: (n in g.nodes <==> n in h.nodes) && (n in g.nodes ==> h.nodes[n] == g.nodes[n])
    ensures if ok then src !in h.nodes else src in h.nodes && h.nodes[src] == g.nodes[src]
  {
  }

  // A CNPJ nobody else holds is written on the Organization itself, by hand, and nothing else changes.
  lemma FreeCnpjIsDocumented(g: Graph, h: Graph, src: string, cnpj: string, actor: string, at: string, r: Result<string, MergeError>)
    requires Is(g, src, Organization) && Attached(g, h, src, cnpj, actor, at, r)
    requires forall d | d in g.nodes && d != src && g.nodes[d].tag == Organization :: g.nodes[d].cnpj != cnpj
    ensures r == Success(src) && h.edges == g.edges && h.nodes.Keys == g.nodes.Keys
    ensures h.nodes[src].cnpj == cnpj && h.nodes[src].byHuman && h.nodes[src].actor == actor && h.nodes[src].at == at
    ensures h.nodes[src].name == g.nodes[src].name && h.nodes[src].tag == Organization && h.nodes[src].searchName == g.nodes[src].searchName
    ensures forall n | n in g.nodes && n != src :: h.nodes[n] == g.nodes[n]
  {
  }

  // ----- One Organization per CNPJ -----

  ghost predicate OnePerCnpj(g: Graph) {
    forall a, b, c | a in g.nodes && b in g.nodes && c != "" && Holds(g, a, c) && Holds(g, b, c) :: a == b
  }

  // Attaching a CNPJ keeps it the CNPJ of one Organization, in both branches and when it fails; when
  // it succeeds for a name-only Organization, the node it names is that one.
  lemma AttachKeepsOnePerCnpj(g: Graph, h: Graph, src: string, cnpj: string, actor: string, at: string, r: Result<string, MergeError>)
    requires OnePerCnpj(g) && cnpj != "" && Attached(g, h, src, cnpj, actor, at, r)
    ensures OnePerCnpj(h)
    ensures r.Success? ==> r.value in h.nodes && Holds(h, r.value, cnpj)
  {
    if !Free(g, src, cnpj) {
      var dst :| dst in g.nodes && dst != src && Holds(g, dst, cnpj) && Merged(g, h, src, dst, actor, at, r.Success?);
      MergeGivesNoCnpj(g, h, src, dst, actor, at, r.Success?);
    } else if Is(g, src, Organization) {
      assert forall n, c | n in h.nodes && n != src && Holds(h, n, c) :: Holds(g, n, c) && c != cnpj;
    }
  }

  lemma MergeGivesNoCnpj(g: Graph, h: Graph, src: string, dst: string, actor: string, at: string, ok: bool)
    requires src != dst && Merged(g, h, src, dst, actor, at, ok)
    ensures forall n, c | n in h.nodes && Holds(h, n, c) :: n in g.nodes && Holds(g, n, c)
    ensures forall c | Holds(g, dst, c) :: Holds(h, dst, c)
  {
  }

  // What success means: for an Organization, that the CNPJ was free or every edge could be moved; for
  // anything else, only that the CNPJ was taken.
  lemma AttachSucceedsIff(g: Graph, h: Graph, src: string, cnpj: string, actor: string, at: string, r: Result<string, MergeError>)
    requires Attached(g, h, src, cnpj, actor, at, r)
    ensures r.Success? <==>
              if Is(g, src, Organization) then Free(g, src, cnpj) || forall e | e in g.edges :: !Stuck(g, e, src)
              else !Free(g, src, cnpj)
    ensures r.Success? && !Is(g, src, Organization) ==> h.edges == g.edges && r.value != src
  {
    if !Free(g, src, cnpj) {
      var dst :| dst in g.nodes && dst != src && Holds(g, dst, cnpj) && Merged(g, h, src, dst, actor, at, r.Success?)
                 && r == if r.Success? then Success(dst) else Failure(StillHoldsEdges);
      if Is(g, src, Organization) {
        MergeSucceedsIff(g, h, src, dst, actor, at, r.Success?);
      } else {
        assert Movables(g, src) == {};
      }
    }
  }
}
