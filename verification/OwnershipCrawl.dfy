/**
 The CNPJ ownership crawl: a first-in first-out worklist over a possibly cyclic ownership graph,
 with a visited set and a ceiling on depth.

 The ceiling is a parameter, 2 in the source. CNPJs are bare digit strings. A partner is followed only when its node is new, so what the crawl
 reaches depends on which organisations the graph held when it began.
 */
module OwnershipCrawl {

  // What enriching one CNPJ comes to: unknown to the provider, an error after some partners were
  // already written, or its corporate partners.
  datatype Answer = NotFound | Failed(written: seq<string>) | Found(partners: seq<string>)

  datatype Job = Job(cnpj: string, depth: nat)

  datatype World = World(provider: string -> Answer, held: set<string>, purged: set<string>, roots: set<string>,
                         dryRun: bool, maxHops: nat)
  {
    // y is a corporate partner of x that this run may create and follow.
    predicate Leads(x: string, y: string) {
      !dryRun && provider(x).Found? && y in provider(x).partners && y !in held && y !in purged
    }

    // c can be reached from a root in at most d ownership steps.
    ghost predicate Within(c: string, d: nat)
      decreases d
    {
      c in roots || (d > 0 && (Within(c, d - 1) || exists x :: Within(x, d - 1) && Leads(x, c)))
    }

    // No write fails part of the way through a company's partners.
    ghost predicate WritesHold() { forall c :: provider(c).Failed? ==> provider(c).written == [] }

    ghost predicate Inside(universe: set<string>) {
      && roots <= universe
      && (forall c, p | provider(c).Found? && p in provider(c).partners :: p in universe)
    }
  }

  lemma {:induction false} WithinGrows(w: World, c: string, d: nat, e: nat)
    requires d <= e && w.Within(c, d)
    ensures w.Within(c, e)
    decreases e
  {
    if d < e { WithinGrows(w, c, d, e - 1); }
  }

  // ----- The state of the worklist -----

  datatype Crawl = Crawl(queue: seq<Job>, depths: map<string, nat>, orgs: set<string>, level: nat)

  ghost predicate Queued(queue: seq<Job>, c: string, d: nat) {
    exists i :: 0 <= i < |queue| && queue[i].cnpj == c && queue[i].depth <= d
  }

  // c was fetched, or is waiting to be, at depth d or less.
  ghost predicate Reached(s: Crawl, c: string, d: nat) {
    (c in s.depths && s.depths[c] <= d) || Queued(s.queue, c, d)
  }

  // Depths in the queue never decrease and differ by at most one.
  ghost predicate Layered(w: World, s: Crawl) {
    && (forall i, j | 0 <= i < j < |s.queue| :: s.queue[i].depth <= s.queue[j].depth)
    && (forall i | 0 <= i < |s.queue| :: s.level <= s.queue[i].depth <= s.level + 1 && s.queue[i].depth <= w.maxHops)
    && (forall c | c in s.depths :: s.depths[c] <= s.level)
    && s.level <= w.maxHops
  }

  // Nothing is fetched, or waits, further from a root than its depth says.
  ghost predicate Sound(w: World, s: Crawl) {
    && (forall i | 0 <= i < |s.queue| :: w.Within(s.queue[i].cnpj, s.queue[i].depth))
    && (forall c | c in s.depths :: w.Within(c, s.depths[c]))
    && w.held <= s.orgs
  }

  // Nothing that should be followed has been dropped.
  ghost predicate Whole(w: World, s: Crawl) {
    && (forall c | c in w.roots :: Reached(s, c, 0))
    && (forall x, y | x in s.depths && s.depths[x] < w.maxHops && w.Leads(x, y) :: Reached(s, y, s.depths[x] + 1))
    && (forall y | y in s.orgs && y !in w.held :: Reached(s, y, s.level + 1) || s.level == w.maxHops)
  }

  // What the worklist loop keeps.
  ghost predicate Good(w: World, s: Crawl, universe: set<string>) {
    && Layered(w, s) && Sound(w, s) && (w.WritesHold() ==> Whole(w, s))
    && forall i | 0 <= i < |s.queue| :: s.queue[i].cnpj in universe
  }

  // Enriching x at the current level, and what it leaves behind.
  ghost predicate Enriched(w: World, x: string, orgs: set<string>, orgs': set<string>, children: seq<string>) {
    && orgs <= orgs'
    && (forall i, j | 0 <= i < j < |children| :: children[i] != children[j])
    && (forall y | y in children :: w.Leads(x, y) && y !in orgs)
    && (forall y | w.Leads(x, y) && y !in orgs :: y in children || y == x)
    && (w.WritesHold() ==> forall y | y in orgs' :: y in orgs || y in children || y == x)
  }

  // The CNPJs fetched, each listed once.
  ghost predicate Once(fetched: seq<string>, depths: map<string, nat>) {
    (forall c :: c in fetched <==> c in depths) && forall i, j | 0 <= i < j < |fetched| :: fetched[i] != fetched[j]
  }

  lemma FetchedOnce(fetched: seq<string>, depths: map<string, nat>, j: Job)
    requires Once(fetched, depths) && j.cnpj !in depths
    ensures Once(fetched + [j.cnpj], depths[j.cnpj := j.depth])
  {
    forall i | 0 <= i < |fetched| ensures fetched[i] != j.cnpj {
      assert fetched[i] in depths;
    }
  }

  // The nodes that enriching x leaves in the graph: its own and those of its unpurged partners, or of
  // the partners written before a failure.
  function NodesOf(w: World, x: string): set<string> {
    match w.provider(x)
    case NotFound => {}
    case Failed(written) => if w.dryRun then {} else set p | p in written && p !in w.purged
    case Found(partners) => if w.dryRun then {} else {x} + set p | p in partners && p !in w.purged
  }

  // Fetching c leaves y in the graph: the company itself or a partner that is not purged; when a write
  // fails, one of the partners written before.
  predicate Wrote(w: World, c: string, y: string) {
    match w.provider(c)
    case NotFound => false
    case Failed(written) => !w.dryRun && y in written && y !in w.purged
    case Found(partners) => !w.dryRun && (y == c || (y in partners && y !in w.purged))
  }

  // The nodes after a run's fetches, and how many of these failed.
  function Holding(w: World, fetched: seq<string>): set<string> {
    if fetched == [] then w.held else Holding(w, fetched[..|fetched| - 1]) + NodesOf(w, fetched[|fetched| - 1])
  }

  function Failures(w: World, fetched: seq<string>): nat {
    if fetched == [] then 0
    else Failures(w, fetched[..|fetched| - 1]) + if w.provider(fetched[|fetched| - 1]).Failed? then 1 else 0
  }

  lemma OneFetchMore(w: World, fetched: seq<string>, c: string)
    ensures Holding(w, fetched + [c]) == Holding(w, fetched) + NodesOf(w, c)
    ensures Failures(w, fetched + [c]) == Failures(w, fetched) + if w.provider(c).Failed? then 1 else 0
  {
    assert (fetched + [c])[..|fetched|] == fetched;
  }

  // Each fetch added its company and the partners that are not purged, or those written before it failed.
  lemma {:induction false} HoldingIs(w: World, fetched: seq<string>, y: string)
    ensures y in Holding(w, fetched) <==> y in w.held || exists c | c in fetched :: Wrote(w, c, y)
  {
    if fetched != [] {
      var init, last := fetched[..|fetched| - 1], fetched[|fetched| - 1];
      HoldingIs(w, init, y);
      assert fetched == init + [last];
      assert last in fetched && (y in NodesOf(w, last) <==> Wrote(w, last, y));
    }
  }

  lemma {:induction false} FailuresAre(w: World, fetched: seq<string>)
    requires forall i, j | 0 <= i < j < |fetched| :: fetched[i] != fetched[j]
    ensures Failures(w, fetched) == |set c | c in fetched && w.provider(c).Failed?|
  {
    if fetched != [] {
      var init, last := fetched[..|fetched| - 1], fetched[|fetched| - 1];
      FailuresAre(w, init);
      assert fetched == init + [last];
      assert forall i | 0 <= i < |init| :: fetched[i] == init[i] && fetched[i] != last;
      LastFailed(w, init, last);
    }
  }

  lemma LastFailed(w: World, init: seq<string>, last: string)
    requires last !in init
    ensures |set c | c in init + [last] && w.provider(c).Failed?| ==
            |set c | c in init && w.provider(c).Failed?| + if w.provider(last).Failed? then 1 else 0
  {
    var failed := set c | c in init && w.provider(c).Failed?;
    assert (set c | c in init + [last] && w.provider(c).Failed?) == if w.provider(last).Failed? then failed + {last} else failed;
  }

  // And what it has done so far.
  ghost predicate Kept(w: World, s: Crawl, universe: set<string>, fetched: seq<string>, errors: nat) {
    Good(w, s, universe) && Once(fetched, s.depths) && s.orgs == Holding(w, fetched) && errors == Failures(w, fetched)
  }

  class Crawler {
    var orgs: set<string>

    // enrichOne, over the partners it writes: those with a new node come back to be followed.
    method WritePartners(partners: seq<string>, purged: set<string>) returns (created: seq<string>)
      modifies this
      ensures orgs == old(orgs) + set p | p in partners && p !in purged
      ensures forall p :: p in created <==> p in partners && p !in purged && p !in old(orgs)
      ensures forall i, j | 0 <= i < j < |created| :: created[i] != created[j]
    {
      created := [];
      for i := 0 to |partners|
        invariant orgs == old(orgs) + set p | p in partners[..i] && p !in purged
        invariant forall p :: p in created <==> p in partners[..i] && p !in purged && p !in old(orgs)
        invariant forall i, j | 0 <= i < j < |created| :: created[i] != created[j]
      {
        assert partners[..i + 1] == partners[..i] + [partners[i]];
        if partners[i] in purged { continue; }
        if partners[i] !in orgs { created := created + [partners[i]]; }
        orgs := orgs + {partners[i]};
      }
      assert partners[..|partners|] == partners;
    }

    method EnrichOne(w: World, j: Job) returns (failed: bool, children: seq<string>)
      requires w.held <= orgs
      modifies this
      ensures Enriched(w, j.cnpj, old(orgs), orgs, children)
      ensures orgs == old(orgs) + NodesOf(w, j.cnpj)
      ensures failed <==> w.provider(j.cnpj).Failed?
    {
      children, failed := [], false;
      match w.provider(j.cnpj) {
        case NotFound =>
        case Failed(written) =>
          failed := true;
          if !w.dryRun {
            var lost := WritePartners(written, w.purged);
          }
        case Found(partners) =>
          if !w.dryRun {
            orgs := orgs + {j.cnpj};
            children := WritePartners(partners, w.purged);
          }
      }
    }

    // Run's inner loop over the children of one company.
    method Expand(children: seq<string>, visited: set<string>, depth: nat, maxHops: nat) returns (more: seq<Job>)
      ensures more == Follow(children, visited, depth, maxHops)
    {
      more := [];
      for i := 0 to |children|
        invariant more == Follow(children[..i], visited, depth, maxHops)
      {
        assert children[..i + 1][..i] == children[..i];
        if children[i] in visited { continue; }
        if depth <= maxHops { more := more + [Job(children[i], depth)]; }
      }
      assert children[..|children|] == children;
    }

    // Run's worklist loop. Every CNPJ is fetched at most once, within the ceiling of a root and at a
    // depth it really has; and unless a write fails midway, exactly the CNPJs within the ceiling are
    // fetched, each at its least depth.
    method Run(w: World, jobs: seq<Job>, ghost universe: set<string>)
        returns (errors: nat, ghost fetched: seq<string>, ghost depths: map<string, nat>)
      requires orgs == w.held && w.Inside(universe)
      requires w.roots == set j | j in jobs :: j.cnpj
      requires forall j | j in jobs :: j.depth == 0
      modifies this
      ensures forall i, j | 0 <= i < j < |fetched| :: fetched[i] != fetched[j]
      ensures forall c :: c in fetched <==> c in depths
      ensures forall c | c in depths :: depths[c] <= w.maxHops && w.Within(c, depths[c])
      ensures w.WritesHold() ==>
        forall c, d: nat | d <= w.maxHops && w.Within(c, d) :: c in depths && depths[c] <= d
      ensures orgs == Holding(w, fetched) && errors == Failures(w, fetched)
    {
      var queue: seq<Job> := jobs;
      var visited: set<string> := {};
      ghost var level := 0;
      errors, fetched, depths := 0, [], map[];
      RootsAreGood(w, jobs, orgs, universe);
      while |queue| > 0
        invariant Kept(w, Crawl(queue, depths, orgs, level), universe, fetched, errors) && visited == depths.Keys
        decreases universe - visited, |queue|
      {
        var j := queue[0];
        ghost var before := Crawl(queue, depths, orgs, level);
        queue := queue[1..];
        level := j.depth;
        if j.cnpj in visited {
          SkipIsGood(w, before, universe);
          continue;
        }
        visited := visited + {j.cnpj};
        depths := depths[j.cnpj := j.depth];
        assert j.cnpj in universe && visited == depths.Keys;
        var failed, children := EnrichOne(w, j);
        FetchIsKept(w, before, orgs, children, universe, fetched, errors);
        if failed { errors := errors + 1; }
        fetched := fetched + [j.cnpj];
        var more := Expand(children, visited, j.depth + 1, w.maxHops);
        queue := queue + more;
        assert Crawl(queue, depths, orgs, level) == Fetched(w, before, orgs, children);
      }
      GoodAtEnd(w, Crawl(queue, depths, orgs, level), universe);
    }
  }

  // The jobs a fetched company appends: its new partners not yet visited, within the ceiling.
  function Follow(children: seq<string>, visited: set<string>, depth: nat, maxHops: nat): seq<Job> {
    if children == [] then []
    else
      var c := children[|children| - 1];
      Follow(children[..|children| - 1], visited, depth, maxHops) +
      if c !in visited && depth <= maxHops then [Job(c, depth)] else []
  }

  lemma {:induction false} FollowIs(children: seq<string>, visited: set<string>, depth: nat, maxHops: nat, c: string)
    ensures forall j | j in Follow(children, visited, depth, maxHops) ::
              j.depth == depth && depth <= maxHops && j.cnpj in children && j.cnpj !in visited
    ensures c in children && c !in visited && depth <= maxHops ==> Job(c, depth) in Follow(children, visited, depth, maxHops)
  {
    if children != [] {
      FollowIs(children[..|children| - 1], visited, depth, maxHops, c);
      assert children == children[..|children| - 1] + [children[|children| - 1]];
    }
  }

  lemma FollowedInside(w: World, universe: set<string>, j: Job, children: seq<string>, visited: set<string>)
    requires w.Inside(universe)
    requires forall y | y in children :: w.Leads(j.cnpj, y)
    ensures forall k | k in Follow(children, visited, j.depth + 1, w.maxHops) :: k.cnpj in universe
  {
    FollowIs(children, visited, j.depth + 1, w.maxHops, "");
  }

  lemma RootsStart(w: World, jobs: seq<Job>, orgs: set<string>)
    requires orgs == w.held && w.roots == set j | j in jobs :: j.cnpj
    requires forall j | j in jobs :: j.depth == 0
    ensures Layered(w, Crawl(jobs, map[], orgs, 0)) && Sound(w, Crawl(jobs, map[], orgs, 0))
    ensures Whole(w, Crawl(jobs, map[], orgs, 0))
  {
    forall c | c in w.roots ensures Reached(Crawl(jobs, map[], orgs, 0), c, 0) {
      var j :| j in jobs && j.cnpj == c;
      var i :| 0 <= i < |jobs| && jobs[i] == j;
    }
  }

  // Taking the first job off the queue loses nothing once its company has been fetched.
  lemma Carried(s: Crawl, t: Crawl, c: string, d: nat)
    requires s.queue != [] && Reached(s, c, d)
    requires s.queue[1..] <= t.queue
    requires forall x | x in s.depths :: x in t.depths && t.depths[x] <= s.depths[x]
    requires s.queue[0].cnpj in t.depths && t.depths[s.queue[0].cnpj] <= s.queue[0].depth
    ensures Reached(t, c, d)
  {
    if !(c in s.depths && s.depths[c] <= d) {
      var i :| 0 <= i < |s.queue| && s.queue[i].cnpj == c && s.queue[i].depth <= d;
      if i > 0 { assert t.queue[i - 1] == s.queue[i]; }
    }
  }

  lemma CarriedAll(s: Crawl, t: Crawl)
    requires s.queue != [] && s.queue[1..] <= t.queue
    requires forall x | x in s.depths :: x in t.depths && t.depths[x] <= s.depths[x]
    requires s.queue[0].cnpj in t.depths && t.depths[s.queue[0].cnpj] <= s.queue[0].depth
    ensures forall c, d: nat | Reached(s, c, d) :: Reached(t, c, d)
  {
    forall c, d: nat | Reached(s, c, d) ensures Reached(t, c, d) { Carried(s, t, c, d); }
  }

  lemma ReachedLater(s: Crawl, c: string, d: nat, e: nat)
    requires d <= e && Reached(s, c, d)
    ensures Reached(s, c, e)
  {
  }

  lemma SkipVisited(w: World, s: Crawl)
    requires Layered(w, s) && Sound(w, s) && s.queue != [] && s.queue[0].cnpj in s.depths
    ensures var t := s.(queue := s.queue[1..], level := s.queue[0].depth);
      Layered(w, t) && Sound(w, t) && (Whole(w, s) ==> Whole(w, t))
  {
    var t := s.(queue := s.queue[1..], level := s.queue[0].depth);
    CarriedAll(s, t);
    if Whole(w, s) {
      forall y | y in t.orgs && y !in w.held && t.level < w.maxHops ensures Reached(t, y, t.level + 1) {
        ReachedLater(t, y, s.level + 1, t.level + 1);
      }
    }
  }

  // The state after fetching the first job's company, whose new partners are `children`.
  function Fetched(w: World, s: Crawl, orgs: set<string>, children: seq<string>): Crawl
    requires s.queue != []
  {
    var j := s.queue[0];
    var depths := s.depths[j.cnpj := j.depth];
    Crawl(s.queue[1..] + Follow(children, depths.Keys, j.depth + 1, w.maxHops), depths, orgs, j.depth)
  }

  lemma FollowedJobs(w: World, s: Crawl, orgs: set<string>, children: seq<string>)
    requires Layered(w, s) && Sound(w, s) && s.queue != [] && s.queue[0].cnpj !in s.depths
    requires Enriched(w, s.queue[0].cnpj, s.orgs, orgs, children)
    ensures Layered(w, Fetched(w, s, orgs, children)) && Sound(w, Fetched(w, s, orgs, children))
  {
    var j, t := s.queue[0], Fetched(w, s, orgs, children);
    var more := Follow(children, t.depths.Keys, j.depth + 1, w.maxHops);
    FollowIs(children, t.depths.Keys, j.depth + 1, w.maxHops, "");
    forall i | 0 <= i < |t.queue|
      ensures w.Within(t.queue[i].cnpj, t.queue[i].depth)
      ensures j.depth <= t.queue[i].depth <= j.depth + 1 && t.queue[i].depth <= w.maxHops
      ensures i >= |s.queue| - 1 ==> t.queue[i].depth == j.depth + 1
    {
      if i < |s.queue| - 1 {
        assert t.queue[i] == s.queue[i + 1];
      } else {
        assert t.queue[i] in more;
        assert w.Within(j.cnpj, j.depth) && w.Leads(j.cnpj, t.queue[i].cnpj);
      }
    }
  }

  lemma ChildReached(w: World, s: Crawl, orgs: set<string>, children: seq<string>, y: string)
    requires Layered(w, s) && s.queue != [] && s.queue[0].cnpj !in s.depths && s.queue[0].depth < w.maxHops
    requires y in children || y == s.queue[0].cnpj
    ensures Reached(Fetched(w, s, orgs, children), y, s.queue[0].depth + 1)
  {
    var j, t := s.queue[0], Fetched(w, s, orgs, children);
    if y !in t.depths {
      FollowIs(children, t.depths.Keys, j.depth + 1, w.maxHops, y);
      assert Job(y, j.depth + 1) in t.queue;
    }
  }

  lemma FollowChildren(w: World, s: Crawl, orgs: set<string>, children: seq<string>)
    requires Layered(w, s) && Sound(w, s) && s.queue != [] && s.queue[0].cnpj !in s.depths
    requires Enriched(w, s.queue[0].cnpj, s.orgs, orgs, children)
    ensures Layered(w, Fetched(w, s, orgs, children)) && Sound(w, Fetched(w, s, orgs, children))
    ensures w.WritesHold() && Whole(w, s) ==> Whole(w, Fetched(w, s, orgs, children))
  {
    FollowedJobs(w, s, orgs, children);
    if w.WritesHold() && Whole(w, s) {
      var j, t := s.queue[0], Fetched(w, s, orgs, children);
      CarriedAll(s, t);
      forall y | y in orgs && y !in w.held && t.level < w.maxHops ensures Reached(t, y, t.level + 1) {
        if y in s.orgs { ReachedLater(t, y, s.level + 1, t.level + 1); }
        else { ChildReached(w, s, orgs, children, y); }
      }
      forall x, y | x in t.depths && t.depths[x] < w.maxHops && w.Leads(x, y) ensures Reached(t, y, t.depths[x] + 1) {
        if x == j.cnpj && y !in s.orgs { ChildReached(w, s, orgs, children, y); }
      }
    }
  }

  lemma {:induction false} WithinIsFetched(w: World, s: Crawl, c: string, d: nat)
    requires Whole(w, s) && s.queue == [] && d <= w.maxHops && w.Within(c, d)
    ensures c in s.depths && s.depths[c] <= d
    decreases d
  {
    if c !in w.roots {
      if w.Within(c, d - 1) {
        WithinIsFetched(w, s, c, d - 1);
      } else {
        var x :| w.Within(x, d - 1) && w.Leads(x, c);
        WithinIsFetched(w, s, x, d - 1);
      }
    }
  }

  lemma EmptyIsComplete(w: World, s: Crawl)
    requires s.queue == []
    ensures Whole(w, s) ==> forall c, d: nat | d <= w.maxHops && w.Within(c, d) :: c in s.depths && s.depths[c] <= d
  {
    if Whole(w, s) {
      forall c, d: nat | d <= w.maxHops && w.Within(c, d) ensures c in s.depths && s.depths[c] <= d {
        WithinIsFetched(w, s, c, d);
      }
    }
  }

  lemma RootsAreGood(w: World, jobs: seq<Job>, orgs: set<string>, universe: set<string>)
    requires orgs == w.held && w.roots == (set j | j in jobs :: j.cnpj) && w.Inside(universe)
    requires forall j | j in jobs :: j.depth == 0
    ensures Good(w, Crawl(jobs, map[], orgs, 0), universe)
  {
    RootsStart(w, jobs, orgs);
    forall i | 0 <= i < |jobs| ensures jobs[i].cnpj in universe { assert jobs[i] in jobs; }
  }

  lemma SkipIsGood(w: World, s: Crawl, universe: set<string>)
    requires Good(w, s, universe) && s.queue != [] && s.queue[0].cnpj in s.depths
    ensures Good(w, s.(queue := s.queue[1..], level := s.queue[0].depth), universe)
  {
    SkipVisited(w, s);
  }

  lemma FetchIsGood(w: World, s: Crawl, orgs: set<string>, children: seq<string>, universe: set<string>)
    requires Good(w, s, universe) && w.Inside(universe) && s.queue != [] && s.queue[0].cnpj !in s.depths
    requires Enriched(w, s.queue[0].cnpj, s.orgs, orgs, children)
    ensures Good(w, Fetched(w, s, orgs, children), universe)
  {
    FollowChildren(w, s, orgs, children);
    FollowedInside(w, universe, s.queue[0], children, s.depths[s.queue[0].cnpj := s.queue[0].depth].Keys);
  }

  lemma FetchIsKept(w: World, s: Crawl, orgs: set<string>, children: seq<string>, universe: set<string>, fetched: seq<string>, errors: nat)
    requires Kept(w, s, universe, fetched, errors) && w.Inside(universe) && s.queue != [] && s.queue[0].cnpj !in s.depths
    requires Enriched(w, s.queue[0].cnpj, s.orgs, orgs, children) && orgs == s.orgs + NodesOf(w, s.queue[0].cnpj)
    ensures Kept(w, Fetched(w, s, orgs, children), universe, fetched + [s.queue[0].cnpj],
                 errors + if w.provider(s.queue[0].cnpj).Failed? then 1 else 0)
  {
    OneFetchMore(w, fetched, s.queue[0].cnpj);
    FetchedOnce(fetched, s.depths, s.queue[0]);
    FetchIsGood(w, s, orgs, children, universe);
  }

  lemma GoodAtEnd(w: World, s: Crawl, universe: set<string>)
    requires Good(w, s, universe) && s.queue == []
    ensures forall c | c in s.depths :: s.depths[c] <= w.maxHops && w.Within(c, s.depths[c])
    ensures w.WritesHold() ==> forall c, d: nat | d <= w.maxHops && w.Within(c, d) :: c in s.depths && s.depths[c] <= d
  {
    EmptyIsComplete(w, s);
  }
}
