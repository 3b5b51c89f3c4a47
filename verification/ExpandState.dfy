/** What the graph canvas shows: the expand state of frontend/components/GraphCanvas.tsx. */
module ExpandState {

  datatype Node = Node(id: string, scandal: bool)

  datatype Link = Link(source: string, target: string)

  // The nodes a list of links joins to id. Only nodes of the canvas have neighbours.
  function Joined(links: seq<Link>, id: string): set<string> {
    if links == [] then {} else Joined(links[..|links| - 1], id) + Ends(links[|links| - 1], id)
  }

  // What one link adds to the neighbours of id.
  function Ends(l: Link, id: string): set<string> {
    (if l.source == id then {l.target} else {}) + (if l.target == id then {l.source} else {})
  }

  lemma {:induction false} JoinedIff(links: seq<Link>, id: string, x: string)
    ensures x in Joined(links, id) <==> Link(id, x) in links || Link(x, id) in links
  {
    if links != [] {
      JoinedIff(links[..|links| - 1], id, x);
      InitOrLast(links, Link(id, x));
      InitOrLast(links, Link(x, id));
    }
  }

  lemma InitOrLast(links: seq<Link>, l: Link)
    requires links != []
    ensures l in links <==> l in links[..|links| - 1] || l == links[|links| - 1]
  {
    assert links == links[..|links| - 1] + [links[|links| - 1]];
  }

  function Ids(nodes: seq<Node>): set<string> { set n | n in nodes :: n.id }

  // The canvas keeps the last node listed under an id.
  ghost predicate LastOfItsId(nodes: seq<Node>, i: nat) {
    i < |nodes| && forall j | i < j < |nodes| :: nodes[j].id != nodes[i].id
  }

  lemma LastOfOneMore(nodes: seq<Node>, i: nat)
    requires i < |nodes|
    ensures Ids(nodes[..i + 1]) == Ids(nodes[..i]) + {nodes[i].id}
    ensures forall k: nat | LastOfItsId(nodes[..i + 1], k) :: k == i || (LastOfItsId(nodes[..i], k) && nodes[k].id != nodes[i].id)
  {
    assert nodes[..i + 1] == nodes[..i] + [nodes[i]];
    forall k: nat | LastOfItsId(nodes[..i + 1], k) && k != i ensures LastOfItsId(nodes[..i], k) && nodes[k].id != nodes[i].id {
      assert forall j | k < j < i :: nodes[..i + 1][j] == nodes[..i][j];
      assert nodes[..i + 1][i] == nodes[i] && nodes[..i + 1][k] == nodes[k];
    }
  }

  function Scandals(nodes: map<string, Node>): set<string> {
    set id | id in nodes && nodes[id].scandal :: nodes[id].id
  }

  function Near(adjacency: map<string, set<string>>, id: string): set<string> {
    if id in adjacency then adjacency[id] else {}
  }

  // Roots are always shown; so is every open node together with its neighbours.
  ghost predicate OnScreen(nodes: map<string, Node>, adjacency: map<string, set<string>>, expanded: set<string>, id: string) {
    id in Scandals(nodes) || id in expanded || exists x | x in expanded :: id in Near(adjacency, x)
  }

  class ExpandState {
    var allNodes: map<string, Node>
    var adjacency: map<string, set<string>>
    var expandedIds: set<string>
    var visibleIds: set<string>

    ghost predicate Valid()
      reads this
    {
      && (forall id | id in allNodes :: allNodes[id].id == id)
      && (forall id :: id in visibleIds <==> OnScreen(allNodes, adjacency, expandedIds, id))
    }

    constructor ()
      ensures Valid() && expandedIds == visibleIds == {}
    {
      allNodes, adjacency, expandedIds, visibleIds := map[], map[], {}, {};
    }

    method Init(nodes: seq<Node>, links: seq<Link>)
      modifies this
      ensures Valid() && expandedIds == {}
      ensures allNodes.Keys == adjacency.Keys == Ids(nodes)
      ensures forall id | id in adjacency :: adjacency[id] == Joined(links, id)
      ensures forall id | id in allNodes :: allNodes[id] in nodes && allNodes[id].id == id
      ensures forall i: nat | LastOfItsId(nodes, i) :: nodes[i].id in allNodes && allNodes[nodes[i].id] == nodes[i]
      ensures forall id :: id in visibleIds <==> id in allNodes && allNodes[id].scandal
    {
      Load(nodes);
      ghost var loaded := allNodes;
      for i := 0 to |links|
        invariant allNodes == loaded && adjacency.Keys == Ids(nodes)
        invariant forall id | id in adjacency :: adjacency[id] == Joined(links[..i], id)
      {
        assert links[..i + 1][..i] == links[..i];
        Connect(links[i]);
      }
      assert links[..|links|] == links;
      expandedIds := {};
      Recompute();
    }

    method Load(nodes: seq<Node>)
      modifies this`allNodes, this`adjacency
      ensures allNodes.Keys == adjacency.Keys == Ids(nodes)
      ensures forall id | id in adjacency :: adjacency[id] == {}
      ensures forall id | id in allNodes :: allNodes[id] in nodes && allNodes[id].id == id
      ensures forall i: nat | LastOfItsId(nodes, i) :: nodes[i].id in allNodes && allNodes[nodes[i].id] == nodes[i]
    {
      allNodes, adjacency := map[], map[];
      for i := 0 to |nodes|
        invariant allNodes.Keys == adjacency.Keys == Ids(nodes[..i])
        invariant forall id | id in adjacency :: adjacency[id] == {}
        invariant forall id | id in allNodes :: allNodes[id] in nodes && allNodes[id].id == id
        invariant forall k: nat | LastOfItsId(nodes[..i], k) :: nodes[k].id in allNodes && allNodes[nodes[k].id] == nodes[k]
      {
        LastOfOneMore(nodes, i);
        allNodes := allNodes[nodes[i].id := nodes[i]];
        adjacency := adjacency[nodes[i].id := {}];
      }
      assert nodes[..|nodes|] == nodes;
    }

    method Connect(l: Link)
      modifies this`adjacency
      ensures adjacency.Keys == old(adjacency).Keys
      ensures forall id | id in adjacency :: adjacency[id] == old(adjacency)[id] + Ends(l, id)
    {
      if l.source in adjacency {
        adjacency := adjacency[l.source := adjacency[l.source] + {l.target}];
      }
      if l.target in adjacency {
        adjacency := adjacency[l.target := adjacency[l.target] + {l.source}];
      }
    }

    method Recompute()
      requires forall id | id in allNodes :: allNodes[id].id == id
      modifies this`visibleIds
      ensures Valid()
    {
      var visible := Scandals(allNodes);
      var todo, done := expandedIds, {};
      while todo != {}
        invariant todo + done == expandedIds
        invariant forall id :: id in visible <==> OnScreen(allNodes, adjacency, done, id)
      {
        var x :| x in todo;
        visible := visible + {x} + Near(adjacency, x);
        todo, done := todo - {x}, done + {x};
      }
      visibleIds := visible;
    }

    method Toggle(nodeId: string) returns (ids: set<string>, expanded: bool)
      requires Valid()
      modifies this`expandedIds, this`visibleIds
      ensures Valid() && ids == visibleIds
      ensures expandedIds == Toggled(old(expandedIds), nodeId) && (expanded <==> nodeId in expandedIds)
    {
      expanded := nodeId !in expandedIds;
      if expanded {
        expandedIds := expandedIds + {nodeId};
      } else {
        expandedIds := expandedIds - {nodeId};
      }
      Recompute();
      ids := visibleIds;
    }

    method Collapse() returns (ids: set<string>)
      requires Valid()
      modifies this`expandedIds, this`visibleIds
      ensures Valid() && ids == visibleIds && expandedIds == {}
      ensures forall id :: id in ids <==> id in allNodes && allNodes[id].scandal
    {
      expandedIds := {};
      Recompute();
      ids := visibleIds;
      assert forall id :: id in ids <==> id in Scandals(allNodes);
    }
  }

  // ----- Sequences of clicks -----

  function Toggled(expanded: set<string>, id: string): set<string> {
    if id in expanded then expanded - {id} else expanded + {id}
  }

  function Clicked(expanded: set<string>, clicks: seq<string>): set<string> {
    if clicks == [] then expanded else Toggled(Clicked(expanded, clicks[..|clicks| - 1]), clicks[|clicks| - 1])
  }

  // A node is open after any clicks exactly when it was clicked an odd number of times and closed
  // before, or an even number and open.
  lemma {:induction false} ParityDecides(expanded: set<string>, clicks: seq<string>, id: string)
    ensures id in Clicked(expanded, clicks) <==> (id in expanded) == (multiset(clicks)[id] % 2 == 0)
  {
    if clicks != [] {
      var init, last := clicks[..|clicks| - 1], clicks[|clicks| - 1];
      ParityDecides(expanded, init, id);
      assert clicks == init + [last];
      assert multiset(clicks)[id] == multiset(init)[id] + (if last == id then 1 else 0);
    }
  }

  // So the order of clicks does not matter, and clicking everything twice undoes it.
  lemma ClicksCommute(expanded: set<string>, a: seq<string>, b: seq<string>)
    requires multiset(a) == multiset(b)
    ensures Clicked(expanded, a) == Clicked(expanded, b)
    ensures Clicked(Clicked(expanded, a), b) == expanded
  {
    forall id
      ensures id in Clicked(expanded, a) <==> id in Clicked(expanded, b)
      ensures id in Clicked(Clicked(expanded, a), b) <==> id in expanded
    {
      ParityDecides(expanded, a, id);
      ParityDecides(expanded, b, id);
      ParityDecides(Clicked(expanded, a), b, id);
    }
  }

  /**
   No node is left floating: after any clicks, a visible node that is neither a scandal nor open is
   joined by a link to an open node, which is visible too. Open nodes the canvas does not know about
   reveal nothing.
   */
  lemma VisibleNodesAreAnchored(nodes: map<string, Node>, adjacency: map<string, set<string>>, links: seq<Link>, clicks: seq<string>, id: string)
    requires forall x | x in adjacency :: adjacency[x] == Joined(links, x)
    requires OnScreen(nodes, adjacency, Clicked({}, clicks), id)
    requires id !in Scandals(nodes) && multiset(clicks)[id] % 2 == 0
    ensures exists x | x in adjacency ::
              && multiset(clicks)[x] % 2 == 1
              && (Link(x, id) in links || Link(id, x) in links)
              && OnScreen(nodes, adjacency, Clicked({}, clicks), x)
  {
    var open := Clicked({}, clicks);
    ParityDecides({}, clicks, id);
    var x :| x in open && id in Near(adjacency, x);
    ParityDecides({}, clicks, x);
    JoinedIff(links, x, id);
  }
}
