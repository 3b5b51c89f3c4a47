/**
 The DJEN gazette client: reading a numbered list of records through a paged server that
 refuses every page overlapping a record it cannot serve.

 A network is a function of the request number, the offset of the page and the page size, so the
 same definitions cover a server with fixed bad records, a server that fails at random, and one
 that misbehaves in any other way. A server numbers its pages; ByPage turns an offset into one.
 */
module DjenClient {
  import opened PartyWindows
  import opened Wrappers

  // itemsPerPage: a power of two, so halving keeps the offset on the page grid.
  const ITEMS_PER_PAGE: nat := 32

  datatype Reply<T> = Answered(items: seq<T>, count: nat) | Rejected | Broken

  type Network<T> = (nat, nat, nat) -> Reply<T>

  datatype Error = NothingAnswered | RequestFailed

  // What the client counts over its lifetime: requests sent, records given up on.
  datatype Meter = Meter(requests: nat, skipped: nat) {
    function Sent(n: nat): Meter { this.(requests := requests + n) }
  }

  datatype Range<T> = Range(items: seq<T>, total: nat, served: bool, skipped: nat)

  datatype Fetch<T> = Fetched(range: Range<T>, meter: Meter) | Aborted(meter: Meter)

  function Joined<T>(lo: Range<T>, hi: Range<T>): Range<T> {
    Range(lo.items + hi.items, Max(lo.total, hi.total), lo.served || hi.served, lo.skipped + hi.skipped)
  }

  function Max(a: nat, b: nat): nat { if a < b then b else a }

  // fetchRange: one page, or its two halves when the server refuses it.
  function FetchRange<T>(net: Network<T>, m: Meter, offset: nat, size: nat): (f: Fetch<T>)
    requires size > 0
    decreases size
  {
    match net(m.requests, offset, size)
    case Broken => Aborted(m.Sent(1))
    case Answered(items, count) => Fetched(Range(items, count, true, 0), m.Sent(1))
    case Rejected =>
      if size > 1 then
        var half := size / 2;
        match FetchRange(net, m.Sent(1), offset, half)
        case Aborted(m1) => Aborted(m1)
        case Fetched(lo, m1) =>
          match FetchRange(net, m1, offset + half, half)
          case Aborted(m2) => Aborted(m2)
          case Fetched(hi, m2) => Fetched(Joined(lo, hi), m2)
      else
        // One record alone on its page: one more chance before it is written off.
        match net(m.requests + 1, offset, 1)
        case Broken => Aborted(m.Sent(2))
        case Answered(items, count) => Fetched(Range(items, count, true, 0), m.Sent(2))
        case Rejected => Fetched(Range([], 0, false, 1), Meter(m.requests + 2, m.skipped + 1))
  }

  // ----- The servers -----

  ghost predicate PowerOfTwo(n: nat)
    decreases n
  {
    n == 1 || (n > 1 && n % 2 == 0 && PowerOfTwo(n / 2))
  }

  ghost function Log2(n: nat): nat
    decreases n
  {
    if n <= 1 then 0 else 1 + Log2(n / 2)
  }

  function Min(a: nat, b: nat): nat { if a < b then a else b }

  function Page<T>(records: seq<T>, lo: nat, hi: nat): seq<T>
    requires lo <= hi
  {
    records[Min(lo, |records|)..Min(hi, |records|)]
  }

  // The offsets at which a page of this size starts.
  ghost predicate OnGrid(offset: nat, size: nat) {
    size > 0 && (offset == 0 || (offset >= size && OnGrid(offset - size, size)))
  }

  // Whatever this server answers is right; when it refuses is left open.
  ghost predicate Honest<T>(net: Network<T>, records: seq<T>) {
    forall t: nat, offset: nat, size: nat :: HonestAt(net, records, t, offset, size)
  }

  ghost predicate HonestAt<T>(net: Network<T>, records: seq<T>, t: nat, offset: nat, size: nat) {
    OnGrid(offset, size) && net(t, offset, size).Answered? ==>
      net(t, offset, size) == Answered(Page(records, offset, offset + size), |records|)
  }

  ghost predicate Overlaps(bad: set<nat>, lo: nat, hi: nat) {
    exists i :: i in bad && lo <= i < hi
  }

  // A server whose refusals are a fact about its records: exactly the pages that overlap a bad one.
  ghost predicate Faulty<T>(net: Network<T>, records: seq<T>, bad: set<nat>) {
    && (forall i | i in bad :: i < |records|)
    && (forall t: nat, offset: nat, size: nat :: FaultyAt(net, records, bad, t, offset, size))
  }

  ghost predicate FaultyAt<T>(net: Network<T>, records: seq<T>, bad: set<nat>, t: nat, offset: nat, size: nat) {
    OnGrid(offset, size) ==>
      net(t, offset, size) ==
      if Overlaps(bad, offset, offset + size) then Rejected else Answered(Page(records, offset, offset + size), |records|)
  }

  // ----- The page grid -----

  // What the server is asked: the request number, the page and the page size.
  type Server<T> = (nat, nat, nat) -> Reply<T>

  // fetchRange asks for the page its offset is on.
  function ByPage<T>(server: Server<T>): Network<T> {
    (t: nat, offset: nat, size: nat) => if size > 0 then server(t, offset / size + 1, size) else Broken
  }

  // The server's fixed page grid.
  function PageStart(page: nat, size: nat): nat
    requires page > 0
  {
    (page - 1) * size
  }

  ghost predicate HonestPages<T>(server: Server<T>, records: seq<T>) {
    forall t: nat, page: nat, size: nat :: HonestPage(server, records, t, page, size)
  }

  ghost predicate HonestPage<T>(server: Server<T>, records: seq<T>, t: nat, page: nat, size: nat) {
    page > 0 && server(t, page, size).Answered? ==>
      server(t, page, size) == Answered(Page(records, PageStart(page, size), PageStart(page, size) + size), |records|)
  }

  ghost predicate FaultyPages<T>(server: Server<T>, records: seq<T>, bad: set<nat>) {
    && (forall i | i in bad :: i < |records|)
    && (forall t: nat, page: nat, size: nat :: FaultyPageAt(server, records, bad, t, page, size))
  }

  ghost predicate FaultyPageAt<T>(server: Server<T>, records: seq<T>, bad: set<nat>, t: nat, page: nat, size: nat) {
    page > 0 ==>
      server(t, page, size) ==
      if Overlaps(bad, PageStart(page, size), PageStart(page, size) + size) then Rejected
      else Answered(Page(records, PageStart(page, size), PageStart(page, size) + size), |records|)
  }

  lemma PagesAreHonest<T>(server: Server<T>, records: seq<T>)
    requires HonestPages(server, records)
    ensures Honest(ByPage(server), records)
  {
    forall t: nat, offset: nat, size: nat ensures HonestAt(ByPage(server), records, t, offset, size) {
      if OnGrid(offset, size) {
        PageGrid(offset, size);
        assert HonestPage(server, records, t, offset / size + 1, size);
      }
    }
  }

  lemma PagesAreFaulty<T>(server: Server<T>, records: seq<T>, bad: set<nat>)
    requires FaultyPages(server, records, bad)
    ensures Faulty(ByPage(server), records, bad)
  {
    forall t: nat, offset: nat, size: nat ensures FaultyAt(ByPage(server), records, bad, t, offset, size) {
      if OnGrid(offset, size) {
        PageGrid(offset, size);
        assert FaultyPageAt(server, records, bad, t, offset / size + 1, size);
      }
    }
  }

  // The records of [lo, hi) that are not lost, in order.
  ghost function Except<T>(records: seq<T>, lost: set<nat>, lo: nat, hi: nat): seq<T>
    decreases hi
  {
    if hi <= lo then []
    else Except(records, lost, lo, hi - 1) +
         (if hi - 1 < |records| && hi - 1 !in lost then [records[hi - 1]] else [])
  }

  ghost function Servable<T>(records: seq<T>, lost: set<nat>): seq<T> {
    Except(records, lost, 0, |records|)
  }

  lemma {:induction false} ExceptSplit<T>(records: seq<T>, lost: set<nat>, lo: nat, mid: nat, hi: nat)
    requires lo <= mid <= hi
    ensures Except(records, lost, lo, hi) == Except(records, lost, lo, mid) + Except(records, lost, mid, hi)
    decreases hi
  {
    if mid < hi { ExceptSplit(records, lost, lo, mid, hi - 1); }
  }

  lemma {:induction false} ExceptAgrees<T>(records: seq<T>, a: set<nat>, b: set<nat>, lo: nat, hi: nat)
    requires forall i | lo <= i < hi && i < |records| :: i in a <==> i in b
    ensures Except(records, a, lo, hi) == Except(records, b, lo, hi)
    decreases hi
  {
    if lo < hi { ExceptAgrees(records, a, b, lo, hi - 1); }
  }

  lemma {:induction false} ExceptNothing<T>(records: seq<T>, lost: set<nat>, lo: nat, hi: nat)
    requires lo <= hi
    requires forall i | lo <= i < hi :: i !in lost
    ensures Except(records, lost, lo, hi) == Page(records, lo, hi)
    decreases hi
  {
    if lo < hi {
      ExceptNothing(records, lost, lo, hi - 1);
      PageGrows(records, lo, hi - 1);
    }
  }

  lemma PageGrows<T>(records: seq<T>, lo: nat, hi: nat)
    requires lo <= hi
    ensures Page(records, lo, hi + 1) == Page(records, lo, hi) + if hi < |records| then [records[hi]] else []
  {
  }

  lemma {:induction false} ExceptPastEnd<T>(records: seq<T>, lost: set<nat>, lo: nat, hi: nat)
    requires |records| <= lo
    ensures Except(records, lost, lo, hi) == []
    decreases hi
  {
    if lo < hi { ExceptPastEnd(records, lost, lo, hi - 1); }
  }

  // Halving a range keeps both halves on the page grid.
  lemma {:induction false} HalvesOnGrid(offset: nat, size: nat)
    requires OnGrid(offset, size) && size % 2 == 0
    ensures OnGrid(offset, size / 2) && OnGrid(offset + size / 2, size / 2)
    decreases offset
  {
    if offset >= size {
      var half := size / 2;
      HalvesOnGrid(offset - size, size);
      assert OnGrid(offset - half, half);
    }
  }

  lemma {:induction false} OnesOnGrid(offset: nat)
    ensures OnGrid(offset, 1)
  {
    if offset > 0 { OnesOnGrid(offset - 1); }
  }

  // So every request names exactly its range: the page of an offset on the grid starts there.
  lemma {:induction false} PageGrid(offset: nat, size: nat)
    requires size > 0
    ensures OnGrid(offset, size) <==> offset % size == 0
    ensures OnGrid(offset, size) ==> PageStart(offset / size + 1, size) == offset
    decreases offset
  {
    if offset >= size {
      PageGrid(offset - size, size);
      OneLess(offset, size);
      if OnGrid(offset, size) {
        var k := (offset - size) / size;
        assert (k + 1) * size == k * size + size;
      }
    } else {
      SameQuotient(offset / size, offset % size, 0, offset, size);
    }
  }

  lemma OneLess(a: nat, n: nat)
    requires 0 < n <= a
    ensures a / n == (a - n) / n + 1 && a % n == (a - n) % n
  {
    var q, r := (a - n) / n, (a - n) % n;
    assert (q + 1) * n + r == a;
    SameQuotient(a / n, a % n, q + 1, r, n);
  }

  lemma SameQuotient(q: int, r: int, k: int, s: int, n: int)
    requires 0 <= r < n && 0 <= s < n && q * n + r == k * n + s
    ensures q == k && r == s
  {
    if q < k { Distribute(k, q, n); AtLeastOnce(k - q, n); }
    else if k < q { Distribute(q, k, n); AtLeastOnce(q - k, n); }
  }

  lemma Distribute(a: int, b: int, n: int)
    ensures (a - b) * n == a * n - b * n
  {
  }

  lemma {:induction false} AtLeastOnce(d: nat, n: nat)
    requires d > 0
    ensures d * n >= n
  {
    if d > 1 {
      AtLeastOnce(d - 1, n);
      assert d * n == (d - 1) * n + n;
    }
  }

  // ----- What one range yields -----

  ghost predicate RefusedTwice<T>(net: Network<T>, i: nat, t: nat) {
    net(t, i, 1) == Rejected && net(t + 1, i, 1) == Rejected
  }

  // Index i was refused on a page of its own, and refused again by the very next request.
  ghost predicate RefusedAlone<T>(net: Network<T>, i: nat, from: nat, to: nat) {
    exists t: nat :: from <= t && t + 2 <= to && RefusedTwice(net, i, t)
  }

  // An account of every index of [lo, hi): either its record was returned, or it is in `lost`.
  ghost predicate Accounted<T>(net: Network<T>, records: seq<T>, lost: set<nat>, lo: nat, hi: nat,
                               items: seq<T>, before: Meter, after: Meter) {
    && items == Except(records, lost, lo, hi)
    && (forall i | i in lost :: lo <= i < hi && RefusedAlone(net, i, before.requests, after.requests))
    && after.skipped == before.skipped + |lost|
    && before.requests <= after.requests
  }

  // What an honest server puts on the page that a range asks for first.
  lemma RangePage<T>(net: Network<T>, records: seq<T>, t: nat, offset: nat, size: nat, end: nat)
    requires Honest(net, records)
    requires OnGrid(offset, size) && end == offset + size
    ensures net(t, offset, size).Answered? ==> net(t, offset, size) == Answered(Except(records, {}, offset, end), |records|)
  {
    HonestReply(net, records, t, offset, size, end);
    NothingExcepted(records, offset, end);
  }

  lemma NothingExcepted<T>(records: seq<T>, lo: nat, hi: nat)
    requires lo <= hi
    ensures Except(records, {}, lo, hi) == Page(records, lo, hi)
  {
    ExceptNothing(records, {}, lo, hi);
  }

  lemma HonestReply<T>(net: Network<T>, records: seq<T>, t: nat, offset: nat, size: nat, end: nat)
    requires Honest(net, records) && OnGrid(offset, size) && end == offset + size
    ensures net(t, offset, size).Answered? ==> net(t, offset, size) == Answered(Page(records, offset, end), |records|)
  {
    assert HonestAt(net, records, t, offset, size);
  }

  lemma RefusedAloneWidens<T>(net: Network<T>, lost: set<nat>, from: nat, to: nat, from': nat, to': nat)
    requires from' <= from && to <= to'
    requires forall i | i in lost :: RefusedAlone(net, i, from, to)
    ensures forall i | i in lost :: RefusedAlone(net, i, from', to')
  {
    forall i | i in lost ensures RefusedAlone(net, i, from', to') {
      var t: nat :| from <= t && t + 2 <= to && RefusedTwice(net, i, t);
    }
  }

  // The accounts of two adjoining ranges read one after the other add up.
  lemma AccountsJoin<T>(net: Network<T>, records: seq<T>, a: set<nat>, b: set<nat>, lo: nat, mid: nat, hi: nat,
                        xs: seq<T>, ys: seq<T>, m0: Meter, m1: Meter, m2: Meter)
    requires lo <= mid <= hi
    requires Accounted(net, records, a, lo, mid, xs, m0, m1)
    requires Accounted(net, records, b, mid, hi, ys, m1, m2)
    ensures Accounted(net, records, a + b, lo, hi, xs + ys, m0, m2)
    ensures |a + b| == |a| + |b|
  {
    assert a !! b;
    ExceptSplit(records, a + b, lo, mid, hi);
    ExceptAgrees(records, a + b, a, lo, mid);
    ExceptAgrees(records, a + b, b, mid, hi);
    RefusedAloneWidens(net, a, m0.requests, m1.requests, m0.requests, m2.requests);
    RefusedAloneWidens(net, b, m1.requests, m2.requests, m0.requests, m2.requests);
  }

  // What fetchRange owes its caller about the range [offset, offset + size).
  ghost predicate RangeAccount<T>(net: Network<T>, records: seq<T>, lost: set<nat>, offset: nat, size: nat,
                                  m: Meter, f: Fetch<T>) {
    f.Fetched? ==>
      && Accounted(net, records, lost, offset, offset + size, f.range.items, m, f.meter)
      && f.range.skipped == |lost|
      && (f.range.served <==> |lost| < size)
      && f.range.total == (if f.range.served then |records| else 0)
  }

  // A range writes off index i.
  ghost predicate WrittenOff<T>(net: Network<T>, m: Meter, offset: nat, size: nat, i: nat)
    requires size > 0
    decreases size
  {
    && net(m.requests, offset, size).Rejected?
    && if size == 1 then i == offset && RefusedTwice(net, offset, m.requests)
       else if i < offset + size / 2 then WrittenOff(net, m.Sent(1), offset, size / 2, i)
       else
         var lo := FetchRange(net, m.Sent(1), offset, size / 2);
         lo.Fetched? && WrittenOff(net, lo.meter, offset + size / 2, size / 2, i)
  }

  // The indices a range writes off.
  ghost function Lost<T>(net: Network<T>, m: Meter, offset: nat, size: nat): set<nat>
    requires size > 0
  {
    set i: nat | offset <= i < offset + size && WrittenOff(net, m, offset, size, i)
  }

  lemma NothingLost<T>(net: Network<T>, m: Meter, offset: nat, size: nat)
    requires size > 0 && !net(m.requests, offset, size).Rejected?
    ensures Lost(net, m, offset, size) == {}
  {
  }

  lemma LostOne<T>(net: Network<T>, m: Meter, offset: nat)
    ensures Lost(net, m, offset, 1) == if RefusedTwice(net, offset, m.requests) then {offset} else {}
  {
  }

  lemma SingleRecordAccount<T>(net: Network<T>, records: seq<T>, m: Meter, offset: nat)
    requires Honest(net, records)
    ensures RangeAccount(net, records, Lost(net, m, offset, 1), offset, 1, m, FetchRange(net, m, offset, 1))
  {
    OnesOnGrid(offset);
    LostOne(net, m, offset);
    RangePage(net, records, m.requests, offset, 1, offset + 1);
    RangePage(net, records, m.requests + 1, offset, 1, offset + 1);
    if RefusedTwice(net, offset, m.requests) {
      assert Except(records, {offset}, offset, offset) == [];
    }
  }

  ghost predicate Accounts<T>(net: Network<T>, records: seq<T>, m: Meter, offset: nat, size: nat)
    requires size > 0
  {
    RangeAccount(net, records, Lost(net, m, offset, size), offset, size, m, FetchRange(net, m, offset, size))
  }

  lemma HalvesAccount<T>(net: Network<T>, records: seq<T>, m: Meter, offset: nat, size: nat)
    requires size > 1 && size % 2 == 0 && net(m.requests, offset, size).Rejected?
    requires FetchRange(net, m.Sent(1), offset, size / 2).Fetched?
    requires Accounts(net, records, m.Sent(1), offset, size / 2)
    requires Accounts(net, records, FetchRange(net, m.Sent(1), offset, size / 2).meter, offset + size / 2, size / 2)
    ensures Accounts(net, records, m, offset, size)
  {
    var half := size / 2;
    assert size == half + half;
    var lo := FetchRange(net, m.Sent(1), offset, half);
    var hi := FetchRange(net, lo.meter, offset + half, half);
    RefusedRange(net, m, offset, size);
    HalvesJoin(net, records, m, offset, half, Lost(net, m.Sent(1), offset, half),
               Lost(net, lo.meter, offset + half, half), lo, hi,
               size, Lost(net, m, offset, size), FetchRange(net, m, offset, size));
  }

  lemma HalvesJoin<T>(net: Network<T>, records: seq<T>, m: Meter, offset: nat, half: nat,
                      a: set<nat>, b: set<nat>, lo: Fetch<T>, hi: Fetch<T>,
                      size: nat, lost: set<nat>, f: Fetch<T>)
    requires size == half + half && Both(lost, a, b)
    requires half > 0 && lo.Fetched?
    requires RangeAccount(net, records, a, offset, half, m.Sent(1), lo)
    requires RangeAccount(net, records, b, offset + half, half, lo.meter, hi)
    requires f == if hi.Fetched? then Fetched(Joined(lo.range, hi.range), hi.meter) else hi
    ensures RangeAccount(net, records, lost, offset, size, m, f)
  {
    if hi.Fetched? {
      assert lost == a + b;
      JoinedEnds(net, records, m, offset, offset + half, offset + half + half, a, b, lo, hi, lost);
      JoinedFlags(|records|, half, a, b, lo.range, hi.range);
    }
  }

  lemma RefusedRange<T>(net: Network<T>, m: Meter, offset: nat, size: nat)
    requires size > 1 && size % 2 == 0 && net(m.requests, offset, size).Rejected?
    requires FetchRange(net, m.Sent(1), offset, size / 2).Fetched?
    ensures var lo := FetchRange(net, m.Sent(1), offset, size / 2);
      var hi := FetchRange(net, lo.meter, offset + size / 2, size / 2);
      && FetchRange(net, m, offset, size) ==
           (if hi.Fetched? then Fetched(Joined(lo.range, hi.range), hi.meter) else hi)
      && Both(Lost(net, m, offset, size), Lost(net, m.Sent(1), offset, size / 2), Lost(net, lo.meter, offset + size / 2, size / 2))
  {
  }

  // all has what a has and what b has.
  ghost predicate Both(all: set<nat>, a: set<nat>, b: set<nat>) {
    forall i :: i in all <==> i in a || i in b
  }

  lemma JoinedEnds<T>(net: Network<T>, records: seq<T>, m: Meter, from: nat, mid: nat, end: nat,
                      a: set<nat>, b: set<nat>, lo: Fetch<T>, hi: Fetch<T>, lost: set<nat>)
    requires from <= mid <= end && lost == a + b && lo.Fetched? && hi.Fetched?
    requires Accounted(net, records, a, from, mid, lo.range.items, m.Sent(1), lo.meter)
    requires Accounted(net, records, b, mid, end, hi.range.items, lo.meter, hi.meter)
    ensures Accounted(net, records, lost, from, end, lo.range.items + hi.range.items, m, hi.meter)
    ensures |lost| == |a| + |b| && |a| <= mid - from && |b| <= end - mid
  {
    AccountsJoin(net, records, a, b, from, mid, end, lo.range.items, hi.range.items, m.Sent(1), lo.meter, hi.meter);
    AccountedSooner(net, records, lost, from, end, lo.range.items + hi.range.items, m.Sent(1), m, hi.meter);
    LostInside(a, from, mid - from);
    LostInside(b, mid, end - mid);
  }

  lemma JoinedFlags<T>(total: nat, half: nat, a: set<nat>, b: set<nat>, lo: Range<T>, hi: Range<T>)
    requires |a| <= half && |b| <= half && |a + b| == |a| + |b|
    requires lo.skipped == |a| && (lo.served <==> |a| < half) && lo.total == if lo.served then total else 0
    requires hi.skipped == |b| && (hi.served <==> |b| < half) && hi.total == if hi.served then total else 0
    ensures var r := Joined(lo, hi);
      r.skipped == |a + b| && (r.served <==> |a + b| < half + half) && r.total == if r.served then total else 0
  {
  }

  // An account may begin before the request that opened it.
  lemma AccountedSooner<T>(net: Network<T>, records: seq<T>, lost: set<nat>, lo: nat, hi: nat, items: seq<T>,
                           before: Meter, sooner: Meter, after: Meter)
    requires Accounted(net, records, lost, lo, hi, items, before, after)
    requires sooner.requests <= before.requests && sooner.skipped == before.skipped
    ensures Accounted(net, records, lost, lo, hi, items, sooner, after)
  {
    RefusedAloneWidens(net, lost, before.requests, after.requests, sooner.requests, after.requests);
  }

  // No range loses more records than it has.
  lemma {:induction false} LostInside(lost: set<nat>, lo: nat, size: nat)
    requires forall i | i in lost :: lo <= i < lo + size
    ensures |lost| <= size
    decreases size
  {
    if size == 0 {
      assert lost == {};
    } else {
      var last := lo + size - 1;
      LostInside(lost - {last}, lo, size - 1);
    }
  }

  // However an honest server fails, every record of a range is returned, in order, or was refused
  // alone twice running and counted.
  lemma {:induction false} FetchRangeAccounts<T>(net: Network<T>, records: seq<T>, m: Meter, offset: nat, size: nat)
    requires Honest(net, records)
    requires PowerOfTwo(size) && OnGrid(offset, size)
    ensures Accounts(net, records, m, offset, size)
    decreases size
  {
    if size == 1 {
      SingleRecordAccount(net, records, m, offset);
    } else if !net(m.requests, offset, size).Rejected? {
      AnsweredAccount(net, records, m, offset, size);
    } else {
      HalvesOnGrid(offset, size);
      FetchRangeAccounts(net, records, m.Sent(1), offset, size / 2);
      var lo := FetchRange(net, m.Sent(1), offset, size / 2);
      if lo.Fetched? {
        FetchRangeAccounts(net, records, lo.meter, offset + size / 2, size / 2);
        HalvesAccount(net, records, m, offset, size);
      }
    }
  }

  lemma AnsweredAccount<T>(net: Network<T>, records: seq<T>, m: Meter, offset: nat, size: nat)
    requires Honest(net, records)
    requires size > 1 && OnGrid(offset, size) && !net(m.requests, offset, size).Rejected?
    ensures Accounts(net, records, m, offset, size)
  {
    NothingLost(net, m, offset, size);
    RangePage(net, records, m.requests, offset, size, offset + size);
  }

  // ----- Exact fault isolation -----

  ghost function BadIn(bad: set<nat>, lo: nat, hi: nat): set<nat> {
    set i | i in bad && lo <= i < hi
  }

  lemma FaultyIsHonest<T>(net: Network<T>, records: seq<T>, bad: set<nat>)
    requires Faulty(net, records, bad)
    ensures Honest(net, records)
  {
    forall t: nat, offset: nat, size: nat ensures HonestAt(net, records, t, offset, size) {
      assert FaultyAt(net, records, bad, t, offset, size);
    }
  }

  lemma BadInSplit(bad: set<nat>, lo: nat, mid: nat, hi: nat)
    requires lo <= mid <= hi
    ensures BadIn(bad, lo, hi) == BadIn(bad, lo, mid) + BadIn(bad, mid, hi)
  {
  }

  lemma BadInCount(bad: set<nat>, lo: nat, mid: nat, hi: nat)
    requires lo <= mid <= hi
    ensures |BadIn(bad, lo, hi)| == |BadIn(bad, lo, mid)| + |BadIn(bad, mid, hi)|
  {
    BadInSplit(bad, lo, mid, hi);
    assert BadIn(bad, lo, mid) !! BadIn(bad, mid, hi);
  }

  lemma OverlapsIff(bad: set<nat>, lo: nat, hi: nat)
    ensures Overlaps(bad, lo, hi) <==> BadIn(bad, lo, hi) != {}
  {
    if i :| i in bad && lo <= i < hi {
      assert i in BadIn(bad, lo, hi);
    }
  }

  // The reply of a faulty server to the page a range asks for first.
  lemma FaultyPage<T>(net: Network<T>, records: seq<T>, bad: set<nat>, t: nat, offset: nat, size: nat)
    requires Faulty(net, records, bad)
    requires OnGrid(offset, size)
    ensures net(t, offset, size) ==
      if BadIn(bad, offset, offset + size) != {} then Rejected
      else Answered(Page(records, offset, offset + size), |records|)
  {
    OverlapsIff(bad, offset, offset + size);
    assert FaultyAt(net, records, bad, t, offset, size);
  }

  ghost predicate Isolates<T>(net: Network<T>, bad: set<nat>, m: Meter, offset: nat, size: nat)
    requires size > 0
  {
    && FetchRange(net, m, offset, size).Fetched?
    && Lost(net, m, offset, size) == BadIn(bad, offset, offset + size)
  }

  lemma RecordIsolates<T>(net: Network<T>, records: seq<T>, bad: set<nat>, m: Meter, offset: nat)
    requires Faulty(net, records, bad)
    ensures Isolates(net, bad, m, offset, 1)
  {
    OnesOnGrid(offset);
    FaultyPage(net, records, bad, m.requests, offset, 1);
    FaultyPage(net, records, bad, m.requests + 1, offset, 1);
    LostOne(net, m, offset);
    assert BadIn(bad, offset, offset + 1) == if offset in bad then {offset} else {};
  }

  lemma HalvesIsolate<T>(net: Network<T>, bad: set<nat>, m: Meter, offset: nat, size: nat)
    requires size > 1 && size % 2 == 0 && net(m.requests, offset, size).Rejected?
    requires Isolates(net, bad, m.Sent(1), offset, size / 2)
    requires Isolates(net, bad, FetchRange(net, m.Sent(1), offset, size / 2).meter, offset + size / 2, size / 2)
    ensures Isolates(net, bad, m, offset, size)
  {
    var lo, mid := FetchRange(net, m.Sent(1), offset, size / 2), offset + size / 2;
    RefusedRange(net, m, offset, size);
    BadInSplit(bad, offset, mid, offset + size);
    assert Lost(net, m, offset, size) == Lost(net, m.Sent(1), offset, size / 2) + Lost(net, lo.meter, mid, size / 2);
  }

  // Against a server with fixed bad records, fetchRange never fails and writes off exactly those
  // records: with FetchRangeAccounts this fixes its items, total, served and skipped.
  lemma {:induction false} FetchRangeIsolatesFaults<T>(net: Network<T>, records: seq<T>, bad: set<nat>, m: Meter,
                                                       offset: nat, size: nat)
    requires Faulty(net, records, bad)
    requires PowerOfTwo(size) && OnGrid(offset, size)
    ensures Isolates(net, bad, m, offset, size)
    decreases size
  {
    if size == 1 {
      RecordIsolates(net, records, bad, m, offset);
    } else {
      FaultyPage(net, records, bad, m.requests, offset, size);
      if BadIn(bad, offset, offset + size) == {} {
        NothingLost(net, m, offset, size);
      } else {
        HalvesOnGrid(offset, size);
        FetchRangeIsolatesFaults(net, records, bad, m.Sent(1), offset, size / 2);
        var lo := FetchRange(net, m.Sent(1), offset, size / 2);
        FetchRangeIsolatesFaults(net, records, bad, lo.meter, offset + size / 2, size / 2);
        HalvesIsolate(net, bad, m, offset, size);
      }
    }
  }

  // Requests that k unservable records may cost at `levels` halvings above a single record.
  // 1 + k * (2 * levels + 1)
  ghost function RequestBound(levels: nat, k: nat): nat {
    if k == 0 then 1 else RequestBound(levels, k - 1) + 2 * levels + 1
  }

  lemma {:induction false} RequestBoundIs(levels: nat, k: nat)
    ensures RequestBound(levels, k) == 1 + k * (2 * levels + 1)
  {
    if k > 0 {
      RequestBoundIs(levels, k - 1);
      assert k * (2 * levels + 1) == (k - 1) * (2 * levels + 1) + (2 * levels + 1);
    }
  }

  lemma {:induction false} BoundsAdd(levels: nat, j: nat, k: nat)
    ensures RequestBound(levels, j) + RequestBound(levels, k) == RequestBound(levels, j + k) + 1
  {
    if k > 0 { BoundsAdd(levels, j, k - 1); }
  }

  lemma {:induction false} BoundGrows(levels: nat, k: nat)
    ensures RequestBound(levels, k) + 2 * k <= RequestBound(levels + 1, k)
  {
    if k > 0 { BoundGrows(levels, k - 1); }
  }

  lemma HalvesCost(r: nat, mid: nat, end: nat, levels: nat, j: nat, k: nat)
    requires j + k > 0
    requires mid <= r + 1 + RequestBound(levels, j) && (end == mid || end <= mid + RequestBound(levels, k))
    ensures end <= r + RequestBound(levels + 1, j + k)
  {
    BoundsAdd(levels, j, k);
    BoundGrows(levels, j + k);
  }

  ghost predicate WithinCost<T>(net: Network<T>, bad: set<nat>, m: Meter, offset: nat, size: nat)
    requires size > 0
  {
    FetchRange(net, m, offset, size).meter.requests <=
    m.requests + RequestBound(Log2(size), |BadIn(bad, offset, offset + size)|)
  }

  // Isolating k bad records costs two requests for each halving above each of them.
  lemma {:induction false} FetchRangeIsolationCost<T>(net: Network<T>, records: seq<T>, bad: set<nat>, m: Meter,
                                                      offset: nat, size: nat)
    requires Faulty(net, records, bad)
    requires PowerOfTwo(size) && OnGrid(offset, size)
    ensures WithinCost(net, bad, m, offset, size)
    decreases size, 1
  {
    FaultyPage(net, records, bad, m.requests, offset, size);
    if BadIn(bad, offset, offset + size) == {} {
      assert WithinCost(net, bad, m, offset, size);
    } else if size == 1 {
      SingleCost(net, records, bad, m, offset);
    } else {
      RefusedRangeCost(net, records, bad, m, offset, size);
    }
  }

  lemma {:induction false} RefusedRangeCost<T>(net: Network<T>, records: seq<T>, bad: set<nat>, m: Meter, offset: nat, size: nat)
    requires Faulty(net, records, bad)
    requires PowerOfTwo(size) && OnGrid(offset, size)
    requires size > 1 && BadIn(bad, offset, offset + size) != {} && net(m.requests, offset, size).Rejected?
    ensures WithinCost(net, bad, m, offset, size)
    decreases size, 0
  {
    var half := size / 2;
    var lo := FetchRange(net, m.Sent(1), offset, half);
    HalvesOnGrid(offset, size);
    FetchRangeIsolationCost(net, records, bad, m.Sent(1), offset, half);
    FetchRangeIsolationCost(net, records, bad, lo.meter, offset + half, half);
    RefusedCost(net, bad, m, offset, size, half, lo);
  }

  lemma SingleCost<T>(net: Network<T>, records: seq<T>, bad: set<nat>, m: Meter, offset: nat)
    requires Faulty(net, records, bad) && BadIn(bad, offset, offset + 1) != {}
    ensures WithinCost(net, bad, m, offset, 1)
  {
    OnesOnGrid(offset);
    FaultyPage(net, records, bad, m.requests, offset, 1);
    FaultyPage(net, records, bad, m.requests + 1, offset, 1);
    assert |BadIn(bad, offset, offset + 1)| >= 1;
  }

  lemma RefusedCost<T>(net: Network<T>, bad: set<nat>, m: Meter, offset: nat, size: nat, half: nat, lo: Fetch<T>)
    requires size > 1 && half == size / 2 && size == half + half && BadIn(bad, offset, offset + size) != {}
    requires net(m.requests, offset, size).Rejected? && lo == FetchRange(net, m.Sent(1), offset, half)
    requires WithinCost(net, bad, m.Sent(1), offset, half) && WithinCost(net, bad, lo.meter, offset + half, half)
    ensures WithinCost(net, bad, m, offset, size)
  {
    var mid, end := offset + half, offset + size;
    BadInCount(bad, offset, mid, end);
    assert mid + half == end && Log2(size) == Log2(half) + 1;
    RefusedMeter(net, m, offset, size, lo);
    HalvesCost(m.requests, lo.meter.requests, FetchRange(net, m, offset, size).meter.requests, Log2(half),
               |BadIn(bad, offset, mid)|, |BadIn(bad, mid, end)|);
  }

  lemma RefusedMeter<T>(net: Network<T>, m: Meter, offset: nat, size: nat, lo: Fetch<T>)
    requires size > 1 && net(m.requests, offset, size).Rejected?
    requires lo == FetchRange(net, m.Sent(1), offset, size / 2)
    ensures FetchRange(net, m, offset, size).meter ==
              if lo.Aborted? then lo.meter else FetchRange(net, lo.meter, offset + size / 2, size / 2).meter
  {
  }

  // In numbers: a range of 32 with k bad records takes at most 1 + 11 k requests.
  lemma StandardRangeCost<T>(net: Network<T>, records: seq<T>, bad: set<nat>, m: Meter, offset: nat)
    requires Faulty(net, records, bad) && OnGrid(offset, 32)
    ensures FetchRange(net, m, offset, 32).meter.requests <=
            m.requests + 1 + 11 * |set i | i in bad && offset <= i < offset + 32|
  {
    var k := |BadIn(bad, offset, offset + 32)|;
    assert PowerOfTwo(2) && PowerOfTwo(4) && PowerOfTwo(8) && PowerOfTwo(16) && PowerOfTwo(32);
    assert Log2(2) == 1 && Log2(4) == 2 && Log2(8) == 3 && Log2(16) == 4 && Log2(32) == 5;
    FetchRangeIsolationCost(net, records, bad, m, offset, 32);
    RequestBoundIs(5, k);
    assert BadIn(bad, offset, offset + 32) == set i | i in bad && offset <= i < offset + 32;
  }

  // Whatever the server does, a range costs at most 3 * size - 1 requests, and every refusal it
  // gives up on is counted once.
  lemma {:induction false} FetchRangeCost<T>(net: Network<T>, m: Meter, offset: nat, size: nat)
    requires PowerOfTwo(size)
    ensures var f := FetchRange(net, m, offset, size);
      && m.requests < f.meter.requests <= m.requests + 3 * size - 1
      && (f.Fetched? ==> f.meter.skipped == m.skipped + f.range.skipped)
    decreases size
  {
    if size > 1 {
      FetchRangeCost(net, m.Sent(1), offset, size / 2);
      var lo := FetchRange(net, m.Sent(1), offset, size / 2);
      FetchRangeCost(net, lo.meter, offset + size / 2, size / 2);
    }
  }

  // ----- What a range asks -----

  datatype Request = Request(offset: nat, size: nat)

  // The requests fetchRange sends, in order.
  ghost function Asked<T>(net: Network<T>, m: Meter, offset: nat, size: nat): seq<Request>
    requires size > 0
    decreases size
  {
    var first := [Request(offset, size)];
    if !net(m.requests, offset, size).Rejected? then first
    else if size == 1 then first + [Request(offset, 1)]
    else
      var lo := FetchRange(net, m.Sent(1), offset, size / 2);
      first + Asked(net, m.Sent(1), offset, size / 2) +
      (if lo.Fetched? then Asked(net, lo.meter, offset + size / 2, size / 2) else [])
  }

  ghost function Answer<T>(net: Network<T>, from: nat, asked: seq<Request>, i: nat): Reply<T>
    requires i < |asked|
  {
    net(from + i, asked[i].offset, asked[i].size)
  }

  // One of the requests met a failure that is no refusal.
  ghost predicate Broke<T>(net: Network<T>, from: nat, asked: seq<Request>) {
    exists i | 0 <= i < |asked| :: Answer(net, from, asked, i).Broken?
  }

  // All of them were refused.
  ghost predicate AllRefused<T>(net: Network<T>, from: nat, asked: seq<Request>) {
    forall i | 0 <= i < |asked| :: Answer(net, from, asked, i).Rejected?
  }

  lemma AnswersJoin<T>(net: Network<T>, from: nat, a: seq<Request>, b: seq<Request>)
    ensures Broke(net, from, a + b) <==> Broke(net, from, a) || Broke(net, from + |a|, b)
    ensures AllRefused(net, from, a + b) <==> AllRefused(net, from, a) && AllRefused(net, from + |a|, b)
  {
    var mid := from + |a|;
    forall i | 0 <= i < |a| ensures Answer(net, from, a + b, i) == Answer(net, from, a, i) {}
    forall i | 0 <= i < |b| ensures Answer(net, mid, b, i) == Answer(net, from, a + b, |a| + i) {}
    forall i | |a| <= i < |a + b| ensures Answer(net, from, a + b, i) == Answer(net, mid, b, i - |a|) {}
  }

  // What a fetch came to, told by the requests it sent.
  ghost predicate Told<T>(net: Network<T>, m: Meter, f: Fetch<T>, asked: seq<Request>) {
    && f.meter.requests == m.requests + |asked|
    && (f.Aborted? <==> Broke(net, m.requests, asked))
    && (f.Fetched? && !f.range.served <==> AllRefused(net, m.requests, asked))
  }

  // A range fails exactly when one of its requests broke, and is unserved exactly when all of them
  // were refused.
  lemma {:induction false} AskedTells<T>(net: Network<T>, m: Meter, offset: nat, size: nat)
    requires PowerOfTwo(size)
    ensures Told(net, m, FetchRange(net, m, offset, size), Asked(net, m, offset, size))
    decreases size
  {
    if !net(m.requests, offset, size).Rejected? || size == 1 {
      OneAsked(net, m, offset, size);
    } else {
      var lo := FetchRange(net, m.Sent(1), offset, size / 2);
      AskedTells(net, m.Sent(1), offset, size / 2);
      AskedTells(net, lo.meter, offset + size / 2, size / 2);
      RefusedAsk(net, m, offset, size);
      HalvesTell(net, m, Request(offset, size), lo, Asked(net, m.Sent(1), offset, size / 2),
                 FetchRange(net, lo.meter, offset + size / 2, size / 2), Asked(net, lo.meter, offset + size / 2, size / 2),
                 FetchRange(net, m, offset, size), Asked(net, m, offset, size));
    }
  }

  // A refused range, from its halves.
  function Halves<T>(lo: Fetch<T>, hi: Fetch<T>): Fetch<T> {
    if lo.Aborted? then lo else if hi.Aborted? then hi else Fetched(Joined(lo.range, hi.range), hi.meter)
  }

  lemma RefusedAsk<T>(net: Network<T>, m: Meter, offset: nat, size: nat)
    requires size > 1 && net(m.requests, offset, size).Rejected?
    ensures var lo := FetchRange(net, m.Sent(1), offset, size / 2);
      && FetchRange(net, m, offset, size) == Halves(lo, FetchRange(net, lo.meter, offset + size / 2, size / 2))
      && Asked(net, m, offset, size) == [Request(offset, size)] + Asked(net, m.Sent(1), offset, size / 2)
           + if lo.Fetched? then Asked(net, lo.meter, offset + size / 2, size / 2) else []
  {
  }

  lemma OneAsked<T>(net: Network<T>, m: Meter, offset: nat, size: nat)
    requires size > 0 && (!net(m.requests, offset, size).Rejected? || size == 1)
    ensures Told(net, m, FetchRange(net, m, offset, size), Asked(net, m, offset, size))
  {
    var asked := Asked(net, m, offset, size);
    assert Answer(net, m.requests, asked, 0) == net(m.requests, offset, size);
    if net(m.requests, offset, size).Rejected? {
      assert Answer(net, m.requests, asked, 1) == net(m.requests + 1, offset, 1);
    }
  }

  lemma HalvesTell<T>(net: Network<T>, m: Meter, first: Request, lo: Fetch<T>, a: seq<Request>, hi: Fetch<T>, b: seq<Request>,
                      f: Fetch<T>, asked: seq<Request>)
    requires net(m.requests, first.offset, first.size).Rejected?
    requires Told(net, m.Sent(1), lo, a) && Told(net, lo.meter, hi, b)
    requires asked == [first] + a + if lo.Fetched? then b else []
    requires f == Halves(lo, hi)
    ensures Told(net, m, f, asked)
  {
    assert Answer(net, m.requests, [first], 0).Rejected?;
    AnswersJoin(net, m.requests, [first], a);
    if lo.Fetched? {
      AnswersJoin(net, m.requests, [first] + a, b);
    } else {
      assert [first] + a + [] == [first] + a;
    }
  }

  // ----- A whole search -----

  function Cut<T>(items: seq<T>, cap: nat): seq<T> {
    if cap > 0 && |items| > cap then items[..cap] else items
  }

  // No cap is a cap of 0.
  lemma CutIs<T>(items: seq<T>, cap: nat)
    ensures Cut(items, cap) <= items && |Cut(items, cap)| == if cap == 0 || |items| <= cap then |items| else cap
  {
  }

  // Not one of the first range's indices can be served: the search cannot tell how many results there are.
  ghost predicate Dark(bad: set<nat>, size: nat) {
    forall i: nat | i < size :: i in bad
  }

  ghost predicate LostAlone<T>(net: Network<T>, lost: set<nat>, from: nat, to: nat) {
    forall x | x in lost :: RefusedAlone(net, x, from, to)
  }

  // What a search owes its caller when every answer is right but any request may be refused.
  ghost predicate SearchAccount<T>(net: Network<T>, records: seq<T>, size: nat, cap: nat, r: Result<seq<T>, Error>,
                                   before: Meter, after: Meter)
  {
    match r
    case Success(items) =>
      exists lost: set<nat> ::
        && items == Cut(Servable(records, lost), cap)
        && LostAlone(net, lost, before.requests, after.requests)
        && after.skipped == before.skipped + |lost|
    case Failure(NothingAnswered) =>
      forall i: nat | i < size :: RefusedAlone(net, i, before.requests, after.requests)
    case Failure(RequestFailed) => true
  }

  // Reading stopped at `end`, either past the last record or with the cap already met.
  lemma CutIsComplete<T>(records: seq<T>, lost: set<nat>, end: nat, cap: nat)
    requires |records| <= end || 0 < cap <= |Except(records, lost, 0, end)|
    ensures Cut(Except(records, lost, 0, end), cap) == Cut(Servable(records, lost), cap)
  {
    if |records| <= end {
      ExceptSplit(records, lost, 0, |records|, end);
      ExceptPastEnd(records, lost, |records|, end);
    } else {
      ExceptSplit(records, lost, 0, end, |records|);
    }
  }

  // Losing every index of a range means losing each of them.
  lemma {:induction false} LostAll(lost: set<nat>, lo: nat, size: nat)
    requires forall i | i in lost :: lo <= i < lo + size
    requires |lost| >= size
    ensures forall i: nat | lo <= i < lo + size :: i in lost
    decreases size
  {
    if size > 0 {
      var last := lo + size - 1;
      LostInside(lost - {last}, lo, size - 1);
      assert last in lost by {
        assert last in lost || lost - {last} == lost;
      }
      LostAll(lost - {last}, lo, size - 1);
      forall i: nat | lo <= i < lo + size ensures i in lost {
        if i != last { assert i in lost - {last}; }
      }
    }
  }

  // Where the walk over the ranges stands before it reads [offset, offset + size).
  ghost predicate Walked<T>(net: Network<T>, records: seq<T>, bad: set<nat>, lost: set<nat>, size: nat, offset: nat,
                            out: seq<T>, total: int, before: Meter, now: Meter) {
    && PowerOfTwo(size) && OnGrid(offset, size)
    && (total < 0 <==> offset == 0) && (offset == 0 ==> out == [])
    && (Honest(net, records) ==>
          Accounted(net, records, lost, 0, offset, out, before, now) && (total >= 0 ==> total == |records|))
    && (Faulty(net, records, bad) ==> lost == BadIn(bad, 0, offset) && (offset > 0 ==> !Dark(bad, size)))
  }

  lemma WalkHonestRange<T>(net: Network<T>, records: seq<T>, lost: set<nat>, more: set<nat>, size: nat, offset: nat,
                           out: seq<T>, f: Fetch<T>, before: Meter, now: Meter)
    requires Accounted(net, records, lost, 0, offset, out, before, now)
    requires f.Fetched? && RangeAccount(net, records, more, offset, size, now, f)
    ensures Accounted(net, records, lost + more, 0, offset + size, out + f.range.items, before, f.meter)
    ensures !f.range.served && offset == 0 ==>
      SearchAccount(net, records, size, 0, Failure(NothingAnswered), before, f.meter)
  {
    AccountsJoin(net, records, lost, more, 0, offset, offset + size, out, f.range.items, before, now, f.meter);
    if !f.range.served && offset == 0 {
      LostAll(more, 0, size);
      RefusedAloneWidens(net, more, now.requests, f.meter.requests, before.requests, f.meter.requests);
    }
  }

  lemma WalkFaultyRange<T>(net: Network<T>, records: seq<T>, bad: set<nat>, now: Meter, size: nat, offset: nat)
    requires Faulty(net, records, bad) && PowerOfTwo(size) && OnGrid(offset, size)
    ensures var f := FetchRange(net, now, offset, size);
      && f.Fetched?
      && BadIn(bad, 0, offset) + Lost(net, now, offset, size) == BadIn(bad, 0, offset + size)
      && (offset == 0 ==> (f.range.served <==> !Dark(bad, size)))
  {
    FaultyIsHonest(net, records, bad);
    FetchRangeAccounts(net, records, now, offset, size);
    FetchRangeIsolatesFaults(net, records, bad, now, offset, size);
    BadInSplit(bad, 0, offset, offset + size);
    DarkIff(bad, size);
  }

  lemma DarkIff(bad: set<nat>, size: nat)
    ensures Dark(bad, size) <==> |BadIn(bad, 0, size)| >= size
  {
    if Dark(bad, size) { AllIn(BadIn(bad, 0, size), size); }
    if |BadIn(bad, 0, size)| >= size {
      LostAll(BadIn(bad, 0, size), 0, size);
      forall i: nat | i < size ensures i in bad { assert i in BadIn(bad, 0, size); }
    }
  }

  // What one more range may turn a walk into.
  ghost predicate WalkStep<T>(net: Network<T>, records: seq<T>, bad: set<nat>, lost: set<nat>, more: set<nat>,
                              size: nat, offset: nat, out: seq<T>, total: int, f: Fetch<T>, before: Meter)
  {
    && (f.Aborted? ==> !Faulty(net, records, bad))
    && (f.Fetched? && !f.range.served && total < 0 ==>
          && (Faulty(net, records, bad) ==> Dark(bad, size))
          && (Honest(net, records) ==> SearchAccount(net, records, size, 0, Failure(NothingAnswered), before, f.meter)))
    && (f.Fetched? && (f.range.served || total >= 0) ==>
          Walked(net, records, bad, lost + more, size, offset + size, out + f.range.items,
                 if total < 0 then f.range.total else total, before, f.meter))
  }

  lemma WalkOneRange<T>(net: Network<T>, records: seq<T>, bad: set<nat>, lost: set<nat>, more: set<nat>,
                        size: nat, offset: nat, out: seq<T>, total: int, f: Fetch<T>, before: Meter, now: Meter)
    requires Walked(net, records, bad, lost, size, offset, out, total, before, now)
    requires Honest(net, records) ==> RangeAccount(net, records, more, offset, size, now, f)
    requires Faulty(net, records, bad) ==>
      f.Fetched? && BadIn(bad, 0, offset) + more == BadIn(bad, 0, offset + size) &&
      (offset == 0 ==> (f.range.served <==> !Dark(bad, size)))
    ensures WalkStep(net, records, bad, lost, more, size, offset, out, total, f, before)
  {
    if Honest(net, records) && f.Fetched? {
      WalkHonestRange(net, records, lost, more, size, offset, out, f, before, now);
    }
  }

  lemma WalkFetch<T>(net: Network<T>, records: seq<T>, bad: set<nat>, lost: set<nat>, size: nat, offset: nat,
                     out: seq<T>, total: int, before: Meter, now: Meter)
    requires Walked(net, records, bad, lost, size, offset, out, total, before, now)
    ensures WalkStep(net, records, bad, lost, Lost(net, now, offset, size), size, offset, out, total,
                     FetchRange(net, now, offset, size), before)
  {
    var f, more := FetchRange(net, now, offset, size), Lost(net, now, offset, size);
    if Honest(net, records) {
      FetchRangeAccounts(net, records, now, offset, size);
    }
    if Faulty(net, records, bad) {
      WalkFaultyRange(net, records, bad, now, size, offset);
    }
    WalkOneRange(net, records, bad, lost, more, size, offset, out, total, f, before, now);
  }

  lemma {:induction false} AllIn(s: set<nat>, n: nat)
    requires forall i: nat | i < n :: i in s
    ensures |s| >= n
    decreases n
  {
    if n > 0 { AllIn(s - {n - 1}, n - 1); }
  }

  lemma WalkEnds<T>(net: Network<T>, records: seq<T>, bad: set<nat>, lost: set<nat>, size: nat, offset: nat,
                    out: seq<T>, total: int, cap: nat, before: Meter, now: Meter)
    requires Walked(net, records, bad, lost, size, offset, out, total, before, now)
    requires Honest(net, records) ==> |records| <= offset || 0 < cap <= |out|
    ensures Honest(net, records) ==> SearchAccount(net, records, size, cap, Success(Cut(out, cap)), before, now)
    ensures Faulty(net, records, bad) && offset > 0 ==> Cut(out, cap) == Cut(Servable(records, bad), cap) && !Dark(bad, size)
  {
    if Honest(net, records) {
      CutIsComplete(records, lost, offset, cap);
    }
    if Faulty(net, records, bad) {
      FaultyIsHonest(net, records, bad);
      ExceptAgrees(records, lost, bad, 0, offset);
      CutIsComplete(records, bad, offset, cap);
    }
  }

  // A range that yields neither an item nor a skip lies past the last record.
  lemma EmptyRangeIsTheEnd<T>(net: Network<T>, records: seq<T>, now: Meter, size: nat, offset: nat)
    requires Honest(net, records) && PowerOfTwo(size) && OnGrid(offset, size)
    requires var f := FetchRange(net, now, offset, size);
      f.Fetched? && |f.range.items| + f.range.skipped == 0
    ensures |records| <= offset
  {
    FetchRangeAccounts(net, records, now, offset, size);
    ExceptNothing(records, {}, offset, offset + size);
  }

  // What a failed walk says of an honest server, and of a faulty one.
  ghost predicate Fails<T>(net: Network<T>, records: seq<T>, bad: set<nat>, size: nat, cap: nat, r: Result<seq<T>, Error>,
                           before: Meter, after: Meter) {
    && (Honest(net, records) ==> SearchAccount(net, records, size, cap, r, before, after))
    && (Faulty(net, records, bad) ==> Dark(bad, size) && r == Failure(NothingAnswered))
  }

  // Where a search that sent `asked` stands at `offset`, when none of its requests broke.
  ghost predicate Asking<T>(net: Network<T>, before: Meter, offset: nat, asked: seq<Request>, now: Meter) {
    && now.requests == before.requests + |asked| && !Broke(net, before.requests, asked)
    && (if offset == 0 then asked == [] else !AllRefused(net, before.requests, asked))
  }

  // A search that sent `asked` says how it ended: a request failed exactly when one of them broke, and
  // nothing was answered exactly when all of them were refused.
  ghost predicate Reports<T>(net: Network<T>, before: Meter, asked: seq<Request>, after: Meter, r: Result<seq<T>, Error>) {
    && after.requests == before.requests + |asked|
    && (r == Failure(RequestFailed) <==> Broke(net, before.requests, asked))
    && (r == Failure(NothingAnswered) <==> AllRefused(net, before.requests, asked))
  }

  // What one more range makes of it.
  ghost predicate AskStep<T>(net: Network<T>, before: Meter, size: nat, offset: nat, next: seq<Request>, f: Fetch<T>) {
    && (f.Aborted? ==> Reports(net, before, next, f.meter, Failure(RequestFailed)))
    && (f.Fetched? && !f.range.served && offset == 0 ==> Reports(net, before, next, f.meter, Failure(NothingAnswered)))
    && (f.Fetched? && (f.range.served || offset > 0) ==> Asking(net, before, offset + size, next, f.meter))
  }

  lemma AskNext<T>(net: Network<T>, before: Meter, size: nat, offset: nat, asked: seq<Request>, now: Meter,
                   f: Fetch<T>, more: seq<Request>)
    requires size > 0 && Asking(net, before, offset, asked, now) && Told(net, now, f, more)
    ensures AskStep(net, before, size, offset, asked + more, f)
  {
    AnswersJoin(net, before.requests, asked, more);
    SomeBroke(net, before.requests, asked + more);
  }

  // What the next range is to the walk and to the requests sent.
  lemma RangeRead<T>(net: Network<T>, records: seq<T>, bad: set<nat>, lost: set<nat>, size: nat, offset: nat, out: seq<T>,
                     total: int, before: Meter, now: Meter, f: Fetch<T>) returns (more: set<nat>)
    requires Walked(net, records, bad, lost, size, offset, out, total, before, now)
    requires f == FetchRange(net, now, offset, size)
    ensures WalkStep(net, records, bad, lost, more, size, offset, out, total, f, before)
    ensures Honest(net, records) && f.Fetched? && |f.range.items| + f.range.skipped == 0 ==> |records| <= offset
  {
    more := Lost(net, now, offset, size);
    WalkFetch(net, records, bad, lost, size, offset, out, total, before, now);
    if Honest(net, records) && f.Fetched? && |f.range.items| + f.range.skipped == 0 {
      EmptyRangeIsTheEnd(net, records, now, size, offset);
    }
  }

  lemma Regroup(a: seq<Request>, b: seq<Request>, c: seq<Request>)
    ensures (a + b) + c == a + (b + c)
  {
  }

  lemma SearchReports<T>(net: Network<T>, before: Meter, offset: nat, asked: seq<Request>, now: Meter, items: seq<T>)
    requires offset > 0 && Asking(net, before, offset, asked, now)
    ensures Reports(net, before, asked, now, Success(items))
  {
  }

  lemma SomeBroke<T>(net: Network<T>, from: nat, asked: seq<Request>)
    ensures !(Broke(net, from, asked) && AllRefused(net, from, asked))
  {
  }

  // ----- A search split into windows -----

  // The servable records of the first n windows, in window order.
  ghost function ServableUpTo<T>(records: Window -> seq<T>, bad: Window -> set<nat>, today: Date, n: nat): seq<T> {
    if n == 0 then []
    else ServableUpTo(records, bad, today, n - 1) +
         Servable(records(WindowAt(today, n - 1)), bad(WindowAt(today, n - 1)))
  }

  lemma {:induction false} ServableUpToGrows<T>(records: Window -> seq<T>, bad: Window -> set<nat>, today: Date,
                                                m: nat, n: nat)
    requires m <= n
    ensures ServableUpTo(records, bad, today, m) <= ServableUpTo(records, bad, today, n)
  {
    if m < n { ServableUpToGrows(records, bad, today, m, n - 1); }
  }

  // Window i is searched, with the cap not yet met, and it cannot answer.
  ghost predicate FailsAt<T>(records: Window -> seq<T>, bad: Window -> set<nat>, today: Date, size: nat, cap: nat,
                             i: nat)
  {
    Dark(bad(WindowAt(today, i)), size) && (cap == 0 || |ServableUpTo(records, bad, today, i)| < cap)
  }

  ghost predicate FaultyWindow<T>(server: Window -> Server<T>, records: Window -> seq<T>, bad: Window -> set<nat>,
                                  w: Window) {
    FaultyPages(server(w), records(w), bad(w))
  }

  ghost predicate AllFaulty<T>(server: Window -> Server<T>, records: Window -> seq<T>, bad: Window -> set<nat>) {
    forall w :: FaultyWindow(server, records, bad, w)
  }

  // Where the search stands after n windows.
  ghost predicate Searched<T>(records: Window -> seq<T>, bad: Window -> set<nat>, today: Date, size: nat, cap: nat,
                              n: nat, out: seq<T>)
  {
    && out == Cut(ServableUpTo(records, bad, today, n), cap)
    && (forall j: nat | j < n :: !FailsAt(records, bad, today, size, cap, j))
  }

  lemma WindowSearched<T>(records: Window -> seq<T>, bad: Window -> set<nat>, today: Date, size: nat, cap: nat,
                          n: nat, out: seq<T>, page: seq<T>)
    requires Searched(records, bad, today, size, cap, n, out)
    requires cap == 0 || |out| < cap
    requires var w := WindowAt(today, n);
      !Dark(bad(w), size) && page == Cut(Servable(records(w), bad(w)), if cap == 0 then 0 else cap - |out|)
    ensures Searched(records, bad, today, size, cap, n + 1, out + page)
  {
  }

  lemma CapMet<T>(records: Window -> seq<T>, bad: Window -> set<nat>, today: Date, size: nat, cap: nat,
                  m: nat, n: nat, out: seq<T>)
    requires Searched(records, bad, today, size, cap, m, out) && m <= n && 0 < cap <= |out|
    ensures Searched(records, bad, today, size, cap, n, out)
  {
    forall j: nat | m <= j <= n
      ensures ServableUpTo(records, bad, today, m) <= ServableUpTo(records, bad, today, j)
    {
      ServableUpToGrows(records, bad, today, m, j);
    }
  }

  // ----- Windows under transient failures -----

  ghost predicate HonestWindow<T>(server: Window -> Server<T>, records: Window -> seq<T>, w: Window) {
    HonestPages(server(w), records(w))
  }

  ghost predicate AllHonest<T>(server: Window -> Server<T>, records: Window -> seq<T>) {
    forall w :: HonestWindow(server, records, w)
  }

  ghost function Paged<T>(server: Window -> Server<T>): Window -> Network<T> { (w: Window) => ByPage(server(w)) }

  // The records of the first windows that are not lost, in window order; losts[j] is what window j lost.
  ghost function FoundIn<T>(records: Window -> seq<T>, losts: seq<set<nat>>, today: Date): seq<T> {
    if losts == [] then []
    else FoundIn(records, losts[..|losts| - 1], today) +
         Servable(records(WindowAt(today, |losts| - 1)), losts[|losts| - 1])
  }

  ghost function LostIn(losts: seq<set<nat>>): nat {
    if losts == [] then 0 else LostIn(losts[..|losts| - 1]) + |losts[|losts| - 1]|
  }

  // An account of the windows searched: every record is in `out`, as far as the cap goes, or was
  // refused alone twice running and counted.
  ghost predicate Collected<T>(net: Window -> Network<T>, records: Window -> seq<T>, today: Date, cap: nat,
                               losts: seq<set<nat>>, out: seq<T>, before: Meter, now: Meter) {
    && out == Cut(FoundIn(records, losts, today), cap)
    && (forall j | 0 <= j < |losts| :: LostAlone(net(WindowAt(today, j)), losts[j], before.requests, now.requests))
    && now.skipped == before.skipped + LostIn(losts) && before.requests <= now.requests
  }

  lemma OneMoreLost<T>(records: Window -> seq<T>, losts: seq<set<nat>>, today: Date, lost: set<nat>)
    ensures FoundIn(records, losts + [lost], today) == FoundIn(records, losts, today) + Servable(records(WindowAt(today, |losts|)), lost)
    ensures LostIn(losts + [lost]) == LostIn(losts) + |lost|
  {
    assert (losts + [lost])[..|losts|] == losts;
  }

  lemma CollectOne<T>(net: Window -> Network<T>, records: Window -> seq<T>, today: Date, cap: nat, losts: seq<set<nat>>,
                      out: seq<T>, before: Meter, now: Meter, lost: set<nat>, page: seq<T>, after: Meter)
    requires Collected(net, records, today, cap, losts, out, before, now) && (cap == 0 || |out| < cap)
    requires page == Cut(Servable(records(WindowAt(today, |losts|)), lost), if cap == 0 then 0 else cap - |out|)
    requires LostAlone(net(WindowAt(today, |losts|)), lost, now.requests, after.requests)
    requires now.requests <= after.requests && after.skipped == now.skipped + |lost|
    ensures Collected(net, records, today, cap, losts + [lost], out + page, before, after)
  {
    OneMoreLost(records, losts, today, lost);
    forall j | 0 <= j < |losts + [lost]|
      ensures LostAlone(net(WindowAt(today, j)), (losts + [lost])[j], before.requests, after.requests)
    {
      if j < |losts| {
        RefusedAloneWidens(net(WindowAt(today, j)), losts[j], before.requests, now.requests, before.requests, after.requests);
      } else {
        RefusedAloneWidens(net(WindowAt(today, j)), lost, now.requests, after.requests, before.requests, after.requests);
      }
    }
  }

  // With the cap met, the windows not searched lose nothing that would be returned.
  lemma {:induction false} CollectRest<T>(net: Window -> Network<T>, records: Window -> seq<T>, today: Date, cap: nat,
                                          losts: seq<set<nat>>, out: seq<T>, before: Meter, now: Meter, n: nat)
      returns (all: seq<set<nat>>)
    requires Collected(net, records, today, cap, losts, out, before, now) && 0 < cap <= |out| && |losts| <= n
    ensures |all| == n && Collected(net, records, today, cap, all, out, before, now)
    decreases n - |losts|
  {
    all := losts;
    if |losts| < n {
      OneMoreLost(records, losts, today, {});
      assert Collected(net, records, today, cap, losts + [{}], out, before, now);
      all := CollectRest(net, records, today, cap, losts + [{}], out, before, now, n);
    }
  }

  // Every index of the window's first range was refused alone.
  ghost predicate FirstRangeRefused<T>(net: Network<T>, size: nat, from: nat, to: nat) {
    forall x: nat | x < size :: RefusedAlone(net, x, from, to)
  }

  // What a failed page search says, seen from the whole search.
  ghost predicate FailedIn<T>(net: Window -> Network<T>, today: Date, size: nat, e: Error, before: Meter, after: Meter)
    requires Searchable(today)
  {
    e == NothingAnswered ==> exists i: nat :: i < WindowCount(today) &&
                               FirstRangeRefused(net(WindowAt(today, i)), size, before.requests, after.requests)
  }

  lemma PageFails<T>(net: Window -> Network<T>, records: Window -> seq<T>, today: Date, size: nat, cap: nat, i: nat,
                     e: Error, before: Meter, now: Meter, after: Meter)
    requires Searchable(today) && i < WindowCount(today) && before.requests <= now.requests
    requires SearchAccount(net(WindowAt(today, i)), records(WindowAt(today, i)), size, cap, Failure(e), now, after)
    ensures FailedIn(net, today, size, e, before, after)
  {
    if e == NothingAnswered {
      forall x: nat | x < size ensures RefusedAlone(net(WindowAt(today, i)), x, before.requests, after.requests) {
        RefusedAloneWidens(net(WindowAt(today, i)), {x}, now.requests, after.requests, before.requests, after.requests);
      }
    }
  }

  lemma PageSucceeds<T>(net: Window -> Network<T>, records: Window -> seq<T>, today: Date, size: nat, cap: nat,
                        losts: seq<set<nat>>, out: seq<T>, before: Meter, now: Meter, page: seq<T>, after: Meter)
      returns (lost: set<nat>)
    requires Collected(net, records, today, cap, losts, out, before, now) && (cap == 0 || |out| < cap)
    requires SearchAccount(net(WindowAt(today, |losts|)), records(WindowAt(today, |losts|)), size,
                           if cap == 0 then 0 else cap - |out|, Success(page), now, after)
    requires now.requests <= after.requests
    ensures Collected(net, records, today, cap, losts + [lost], out + page, before, after)
  {
    var w := WindowAt(today, |losts|);
    lost :| && page == Cut(Servable(records(w), lost), if cap == 0 then 0 else cap - |out|)
            && LostAlone(net(w), lost, now.requests, after.requests)
            && after.skipped == now.skipped + |lost|;
    CollectOne(net, records, today, cap, losts, out, before, now, lost, page, after);
  }

  // ----- The requests of a whole search -----

  // legs[j] are the requests of window j; `from` were sent before.
  function LegsLength(legs: seq<seq<Request>>): nat {
    if legs == [] then 0 else LegsLength(legs[..|legs| - 1]) + |legs[|legs| - 1]|
  }

  function Flat(legs: seq<seq<Request>>): seq<Request> {
    if legs == [] then [] else Flat(legs[..|legs| - 1]) + legs[|legs| - 1]
  }

  // One of the windows' requests broke.
  ghost predicate BrokeIn<T>(net: Window -> Network<T>, today: Date, from: nat, legs: seq<seq<Request>>) {
    legs != [] &&
    (|| BrokeIn(net, today, from, legs[..|legs| - 1])
     || Broke(net(WindowAt(today, |legs| - 1)), from + LegsLength(legs[..|legs| - 1]), legs[|legs| - 1]))
  }

  // One of the windows had all its requests refused.
  ghost predicate RefusedIn<T>(net: Window -> Network<T>, today: Date, from: nat, legs: seq<seq<Request>>) {
    legs != [] &&
    (|| RefusedIn(net, today, from, legs[..|legs| - 1])
     || AllRefused(net(WindowAt(today, |legs| - 1)), from + LegsLength(legs[..|legs| - 1]), legs[|legs| - 1]))
  }

  // A search over windows says how it ended.
  ghost predicate SaysHow<T>(net: Window -> Network<T>, today: Date, before: Meter, legs: seq<seq<Request>>, after: Meter,
                             r: Result<seq<T>, Error>) {
    && after.requests == before.requests + LegsLength(legs)
    && (r == Failure(RequestFailed) <==> BrokeIn(net, today, before.requests, legs))
    && (r == Failure(NothingAnswered) <==> RefusedIn(net, today, before.requests, legs))
  }

  // With one more window, a search that had not failed ends as that window does.
  lemma OneMoreLeg<T>(net: Window -> Network<T>, today: Date, before: Meter, legs: seq<seq<Request>>, now: Meter,
                      leg: seq<Request>, after: Meter, r: Result<seq<T>, Error>, so_far: seq<T>, all: seq<T>)
    requires SaysHow(net, today, before, legs, now, Success(so_far))
    requires Reports(net(WindowAt(today, |legs|)), now, leg, after, r)
    ensures SaysHow(net, today, before, legs + [leg], after, if r.Success? then Success(all) else r)
    ensures Flat(legs + [leg]) == Flat(legs) + leg
  {
    assert (legs + [leg])[..|legs|] == legs;
  }

  class Client {
    const size: nat
    var meter: Meter
    // Every request sent, in order.
    ghost var asked: seq<Request>

    constructor ()
      ensures Valid() && size == 32 && meter == Meter(0, 0) && asked == []
    {
      size := ITEMS_PER_PAGE;
      asked := [];
      meter := Meter(0, 0);
    }

    ghost predicate Valid() { PowerOfTwo(size) }

    // fetchRange, sending its requests. It fails exactly when one of them breaks, and is unserved exactly
    // when all of them are refused.
    method Fetch<T>(net: Network<T>, offset: nat) returns (f: Fetch<T>, ghost leg: seq<Request>)
      requires Valid()
      modifies this
      ensures f == FetchRange(net, old(meter), offset, size) && meter == f.meter
      ensures asked == old(asked) + leg && Told(net, old(meter), f, leg)
    {
      AskedTells(net, meter, offset, size);
      f, leg := FetchRange(net, meter, offset, size), Asked(net, meter, offset, size);
      meter, asked := f.meter, asked + leg;
    }

    // One iteration's request for the next range of the walk; `sent` is what the search asked before.
    method ReadRange<T>(net: Network<T>, offset: nat, out: seq<T>, total: int, ghost records: seq<T>,
                        ghost bad: set<nat>, ghost lost: set<nat>, ghost before: Meter, ghost log: seq<Request>,
                        ghost sent: seq<Request>)
        returns (f: Fetch<T>, ghost more: set<nat>, ghost next: seq<Request>)
      requires Walked(net, records, bad, lost, size, offset, out, total, before, meter)
      requires Asking(net, before, offset, sent, meter) && asked == log + sent
      modifies this
      ensures meter == f.meter && asked == log + next
      ensures WalkStep(net, records, bad, lost, more, size, offset, out, total, f, before)
      ensures AskStep(net, before, size, offset, next, f)
      ensures Honest(net, records) && f.Fetched? && |f.range.items| + f.range.skipped == 0 ==> |records| <= offset
    {
      ghost var now := meter;
      ghost var leg;
      f, leg := Fetch(net, offset);
      next := sent + leg;
      more := RangeRead(net, records, bad, lost, size, offset, out, total, before, now, f);
      AskNext(net, before, size, offset, sent, now, f, leg);
      Regroup(log, sent, leg);
    }

    // paginate's loop: walks the ranges until the reported count, or the cap, is reached.
    method Walk<T>(net: Network<T>, cap: nat, ghost records: seq<T>, ghost bad: set<nat>)
        returns (r: Result<seq<T>, Error>, ghost sent: seq<Request>, ghost lost: set<nat>, ghost end: nat, ghost total: int)
      requires Valid()
      modifies this
      ensures asked == old(asked) + sent
      ensures r.Failure? ==> Reports(net, old(meter), sent, meter, r) && Fails(net, records, bad, size, cap, r, old(meter), meter)
      ensures r.Success? ==> end > 0 && Asking(net, old(meter), end, sent, meter)
                             && Walked(net, records, bad, lost, size, end, r.value, total, old(meter), meter)
                             && (Honest(net, records) ==> |records| <= end || 0 < cap <= |r.value|)
    {
      var out: seq<T>, count: int, offset: nat := [], -1, 0;
      lost, sent := {}, [];
      end, total := 0, -1;
      while true
        invariant Walked(net, records, bad, lost, size, offset, out, count, old(meter), meter)
        invariant asked == old(asked) + sent && Asking(net, old(meter), offset, sent, meter)
        decreases if count < 0 then 1 else 0, count - offset
      {
        if cap > 0 && |out| >= cap { break; }
        if count >= 0 && offset >= count { break; }
        var f, more, next := ReadRange(net, offset, out, count, records, bad, lost, old(meter), old(asked), sent);
        sent := next;
        if f.Aborted? { return Failure(RequestFailed), sent, lost, end, total; }
        if count < 0 {
          if !f.range.served { return Failure(NothingAnswered), sent, lost, end, total; }
          count := f.range.total;
        }
        out, lost, offset := out + f.range.items, lost + more, offset + size;
        if |f.range.items| + f.range.skipped == 0 { break; }
      }
      r, end, total := Success(out), offset, count;
    }

    // paginate: the walk over a server's pages, cut at the cap.
    method Paginate<T>(server: Server<T>, cap: nat, ghost records: seq<T>, ghost bad: set<nat>)
        returns (r: Result<seq<T>, Error>, ghost sent: seq<Request>)
      requires Valid()
      modifies this
      ensures asked == old(asked) + sent && Reports(ByPage(server), old(meter), sent, meter, r)
      ensures HonestPages(server, records) ==> SearchAccount(ByPage(server), records, size, cap, r, old(meter), meter)
      ensures FaultyPages(server, records, bad) ==>
        r == if Dark(bad, size) then Failure(NothingAnswered) else Success(Cut(Servable(records, bad), cap))
      ensures r.Success? && cap > 0 ==> |r.value| <= cap
    {
      var net := ByPage(server);
      if HonestPages(server, records) { PagesAreHonest(server, records); }
      if FaultyPages(server, records, bad) {
        PagesAreFaulty(server, records, bad);
        FaultyIsHonest(net, records, bad);
      }
      var walk;
      ghost var lost, end, total;
      walk, sent, lost, end, total := Walk(net, cap, records, bad);
      if walk.Failure? {
        return walk, sent;
      }
      WalkEnds(net, records, bad, lost, size, end, walk.value, total, cap, old(meter), meter);
      SearchReports(net, old(meter), end, sent, meter, Cut(walk.value, cap));
      r := Success(Cut(walk.value, cap));
    }

    // SearchByPartyName: the windows one after the other, under one cap. `legs` are the requests of the
    // windows searched and `losts` what each window lost.
    method SearchByPartyName<T>(server: Window -> Server<T>, today: Date, cap: nat,
                                ghost records: Window -> seq<T>, ghost bad: Window -> set<nat>)
        returns (r: Result<seq<T>, Error>, ghost legs: seq<seq<Request>>, ghost losts: seq<set<nat>>)
      requires Valid() && Searchable(today)
      modifies this
      ensures asked == old(asked) + Flat(legs) && SaysHow(Paged(server), today, old(meter), legs, meter, r)
      ensures AllHonest(server, records) && r.Success? ==>
        |losts| == WindowCount(today) && Collected(Paged(server), records, today, cap, losts, r.value, old(meter), meter)
      ensures AllHonest(server, records) && r.Failure? ==> FailedIn(Paged(server), today, size, r.error, old(meter), meter)
      ensures AllFaulty(server, records, bad) ==>
        && (r.Failure? <==> exists i: nat | i < WindowCount(today) :: FailsAt(records, bad, today, size, cap, i))
        && (r.Success? ==> r.value == Cut(ServableUpTo(records, bad, today, WindowCount(today)), cap))
    {
      var out: seq<T> := [];
      var ws := Windows(today);
      ghost var net := Paged(server);
      legs, losts := [], [];
      for i := 0 to |ws|
        invariant AllFaulty(server, records, bad) ==> Searched(records, bad, today, size, cap, i, out)
        invariant AllHonest(server, records) ==>
          |losts| == i && Collected(net, records, today, cap, losts, out, old(meter), meter)
        invariant |legs| == i && asked == old(asked) + Flat(legs) && SaysHow(net, today, old(meter), legs, meter, Success(out))
      {
        var remaining := 0;
        if cap > 0 {
          if |out| >= cap {
            if AllFaulty(server, records, bad) {
              CapMet(records, bad, today, size, cap, i, |ws|, out);
            }
            if AllHonest(server, records) {
              losts := CollectRest(net, records, today, cap, losts, out, old(meter), meter, |ws|);
            }
            return Success(out), legs, losts;
          }
          remaining := cap - |out|;
        }
        ghost var now := meter;
        var page, leg := PageOfWindow(server, today, ws[i], i, remaining, records, bad);
        ghost var next := if page.Success? then out + page.value else out;
        OneMoreLeg(net, today, old(meter), legs, now, leg, meter, page, out, next);
        Regroup(old(asked), Flat(legs), leg);
        legs := legs + [leg];
        if page.Failure? {
          assert AllFaulty(server, records, bad) ==> FailsAt(records, bad, today, size, cap, i);
          if AllHonest(server, records) { PageFails(net, records, today, size, remaining, i, page.error, old(meter), now, meter); }
          return page, legs, losts;
        }
        if AllFaulty(server, records, bad) {
          WindowSearched(records, bad, today, size, cap, i, out, page.value);
        }
        if AllHonest(server, records) {
          var lost := PageSucceeds(net, records, today, size, cap, losts, out, old(meter), now, page.value, meter);
          losts := losts + [lost];
        }
        out := out + page.value;
      }
      r := Success(out);
    }

    // paginate, on window i.
    method PageOfWindow<T>(server: Window -> Server<T>, today: Date, w: Window, i: nat, cap: nat,
                           ghost records: Window -> seq<T>, ghost bad: Window -> set<nat>)
        returns (r: Result<seq<T>, Error>, ghost leg: seq<Request>)
      requires Valid() && w == WindowAt(today, i)
      modifies this
      ensures asked == old(asked) + leg && Reports(Paged(server)(WindowAt(today, i)), old(meter), leg, meter, r)
      ensures AllHonest(server, records) ==>
        SearchAccount(Paged(server)(WindowAt(today, i)), records(WindowAt(today, i)), size, cap, r, old(meter), meter)
      ensures AllFaulty(server, records, bad) ==>
        r == if Dark(bad(WindowAt(today, i)), size) then Failure(NothingAnswered)
             else Success(Cut(Servable(records(WindowAt(today, i)), bad(WindowAt(today, i))), cap))
    {
      assert AllFaulty(server, records, bad) ==> FaultyWindow(server, records, bad, w);
      assert AllHonest(server, records) ==> HonestWindow(server, records, w);
      r, leg := Paginate(server(w), cap, records(w), bad(w));
    }
  }
}
