/**
 The DataJud watcher's pipeline: a producer hands cases to fetchers over an unbuffered channel,
 fetchers put polls on a bounded channel, and one consumer counts them.

 One transition is one channel operation or one lookup, taken by any goroutine that can take it.
 Runs are not cancelled and the consumer's writes succeed.
 */
module WatcherPipeline {

  const CASE_FETCHERS: nat := 6

  // What one lookup comes to.
  datatype Outcome = FetchError | NotFound | Restricted | Open(concluded: bool)

  datatype Poll = Poll(case_: nat, outcome: Outcome)

  datatype Fetcher = Idle | Fetching(case_: nat) | Holding(poll: Poll) | Exited

  datatype Pipe = Pipe(limit: nat, next: nat, workClosed: bool, fetchers: seq<Fetcher>,
                       buffer: seq<Poll>, capacity: nat, pollsClosed: bool, consumed: seq<Poll>, done: bool)

  datatype Step =
    | Hand(f: nat)                      // producer to an idle fetcher
    | CloseWork
    | Look(f: nat, outcome: Outcome)    // a lookup answers
    | Deliver(f: nat)
    | Exit(f: nat)                      // a fetcher sees the closed work channel
    | ClosePolls
    | Receive
    | Stop                              // the consumer sees the closed poll channel

  function Limit(pollLimit: int, cases: nat): nat {
    if pollLimit <= 0 || pollLimit > cases then cases else pollLimit
  }

  function Start(limit: nat): Pipe {
    Pipe(limit, 0, false, seq(CASE_FETCHERS, _ => Idle), [], CASE_FETCHERS, false, [], false)
  }

  predicate Enabled(s: Pipe, a: Step) {
    match a
    case Hand(f) => s.next < s.limit && f < |s.fetchers| && s.fetchers[f].Idle?
    case CloseWork => s.next == s.limit && !s.workClosed
    case Look(f, _) => f < |s.fetchers| && s.fetchers[f].Fetching?
    case Deliver(f) => f < |s.fetchers| && s.fetchers[f].Holding? && |s.buffer| < s.capacity
    case Exit(f) => f < |s.fetchers| && s.fetchers[f].Idle? && s.workClosed
    case ClosePolls => !s.pollsClosed && forall i | 0 <= i < |s.fetchers| :: s.fetchers[i].Exited?
    case Receive => s.buffer != []
    case Stop => s.buffer == [] && s.pollsClosed && !s.done
  }

  function Next(s: Pipe, a: Step): Pipe
    requires Enabled(s, a)
  {
    match a
    case Hand(f) => s.(next := s.next + 1, fetchers := s.fetchers[f := Fetching(s.next)])
    case CloseWork => s.(workClosed := true)
    case Look(f, outcome) => s.(fetchers := s.fetchers[f := Holding(Poll(s.fetchers[f].case_, outcome))])
    case Deliver(f) => s.(fetchers := s.fetchers[f := Idle], buffer := s.buffer + [s.fetchers[f].poll])
    case Exit(f) => s.(fetchers := s.fetchers[f := Exited])
    case ClosePolls => s.(pollsClosed := true)
    case Receive => s.(buffer := s.buffer[1..], consumed := s.consumed + [s.buffer[0]])
    case Stop => s.(done := true)
  }

  // ----- Conservation -----

  function UpTo(n: nat): multiset<nat> { if n == 0 then multiset{} else UpTo(n - 1) + multiset{n - 1} }

  function Carried(f: Fetcher): multiset<nat> {
    match f
    case Fetching(c) => multiset{c}
    case Holding(p) => multiset{p.case_}
    case _ => multiset{}
  }

  function InFlight(fs: seq<Fetcher>): multiset<nat> {
    if fs == [] then multiset{} else Carried(fs[0]) + InFlight(fs[1..])
  }

  function CasesOf(ps: seq<Poll>): multiset<nat> {
    if ps == [] then multiset{} else multiset{ps[0].case_} + CasesOf(ps[1..])
  }

  function Ledger(s: Pipe): multiset<nat> {
    InFlight(s.fetchers) + CasesOf(s.buffer) + CasesOf(s.consumed)
  }

  // The channels are bounded, and closed in order.
  ghost predicate Orderly(s: Pipe) {
    && s.next <= s.limit
    && |s.buffer| <= s.capacity
    && (s.workClosed ==> s.next == s.limit)
    && (forall i | 0 <= i < |s.fetchers| :: s.fetchers[i].Exited? ==> s.workClosed)
    && (s.pollsClosed ==> forall i | 0 <= i < |s.fetchers| :: s.fetchers[i].Exited?)
    && (s.done ==> s.pollsClosed && s.buffer == [])
    && |s.fetchers| > 0 && s.capacity > 0
  }

  // Every case handed out so far is with a fetcher, in the buffer or consumed, exactly once.
  ghost predicate Conserved(s: Pipe) {
    Orderly(s) && UpTo(s.next) == Ledger(s)
  }

  lemma Cancel(a: multiset<nat>, b: multiset<nat>, c: multiset<nat>)
    requires a + c == b + c
    ensures a == b
  {
    forall x ensures a[x] == b[x] {
      assert (a + c)[x] == a[x] + c[x] && (b + c)[x] == b[x] + c[x];
    }
  }

  lemma {:induction false} InFlightUpdate(fs: seq<Fetcher>, i: nat, f: Fetcher)
    requires i < |fs|
    ensures InFlight(fs[i := f]) + Carried(fs[i]) == InFlight(fs) + Carried(f)
  {
    if i > 0 {
      InFlightUpdate(fs[1..], i - 1, f);
      var tail, tail' := InFlight(fs[1..]), InFlight(fs[1..][i - 1 := f]);
      assert fs[i := f][1..] == fs[1..][i - 1 := f];
      assert tail' + Carried(fs[i]) == tail + Carried(f);
      assert InFlight(fs[i := f]) + Carried(fs[i]) == Carried(fs[0]) + (tail' + Carried(fs[i]));
    } else {
      assert fs[0 := f][1..] == fs[1..];
    }
  }

  lemma {:induction false} CasesOfAppend(ps: seq<Poll>, p: Poll)
    ensures CasesOf(ps + [p]) == CasesOf(ps) + multiset{p.case_}
  {
    if ps == [] {
      assert ps + [p] == [p];
    } else {
      CasesOfAppend(ps[1..], p);
      assert (ps + [p])[1..] == ps[1..] + [p];
    }
  }

  // What `Look` and `Exit` leave with the fetcher is what it already carried.
  lemma LookMovesNothing(s: Pipe, a: Step)
    requires Enabled(s, a) && (a.Look? || a.Exit?)
    ensures Ledger(Next(s, a)) == Ledger(s)
  {
    var t := Next(s, a);
    InFlightUpdate(s.fetchers, a.f, t.fetchers[a.f]);
    Cancel(InFlight(t.fetchers), InFlight(s.fetchers), Carried(s.fetchers[a.f]));
  }

  lemma DeliverMoves(s: Pipe, a: Step)
    requires Enabled(s, a) && a.Deliver?
    ensures Ledger(Next(s, a)) == Ledger(s)
  {
    var p := s.fetchers[a.f].poll;
    InFlightUpdate(s.fetchers, a.f, Idle);
    CasesOfAppend(s.buffer, p);
    var fs, fs' := InFlight(s.fetchers), InFlight(s.fetchers[a.f := Idle]);
    assert fs' + multiset{p.case_} == fs;
    assert fs' + (CasesOf(s.buffer) + multiset{p.case_}) == fs + CasesOf(s.buffer);
  }

  lemma ReceiveMoves(s: Pipe, a: Step)
    requires Enabled(s, a) && a.Receive?
    ensures Ledger(Next(s, a)) == Ledger(s)
  {
    var head, rest := multiset{s.buffer[0].case_}, CasesOf(s.buffer[1..]);
    CasesOfAppend(s.consumed, s.buffer[0]);
    assert rest + (CasesOf(s.consumed) + head) == (head + rest) + CasesOf(s.consumed);
    assert InFlight(s.fetchers) + (rest + (CasesOf(s.consumed) + head))
        == InFlight(s.fetchers) + ((head + rest) + CasesOf(s.consumed));
  }

  lemma HandAdds(s: Pipe, a: Step)
    requires Enabled(s, a) && a.Hand?
    ensures Ledger(Next(s, a)) == Ledger(s) + multiset{s.next}
  {
    InFlightUpdate(s.fetchers, a.f, Fetching(s.next));
    var fs, fs' := InFlight(s.fetchers), InFlight(s.fetchers[a.f := Fetching(s.next)]);
    assert fs' == fs + multiset{s.next};
    assert fs' + CasesOf(s.buffer) + CasesOf(s.consumed)
        == fs + CasesOf(s.buffer) + CasesOf(s.consumed) + multiset{s.next};
  }

  // One step moves a case along, and only a hand-over adds one.
  lemma LedgerStep(s: Pipe, a: Step)
    requires Enabled(s, a)
    ensures Ledger(Next(s, a)) == if a.Hand? then Ledger(s) + multiset{s.next} else Ledger(s)
  {
    match a {
      case Hand(_) => HandAdds(s, a);
      case Look(_, _) => LookMovesNothing(s, a);
      case Exit(_) => LookMovesNothing(s, a);
      case Deliver(_) => DeliverMoves(s, a);
      case Receive => ReceiveMoves(s, a);
      case _ =>
    }
  }

  lemma StepIsOrderly(s: Pipe, a: Step)
    requires Orderly(s) && Enabled(s, a)
    ensures Orderly(Next(s, a))
  {
    match a {
      case Hand(_) =>
      case Look(_, _) =>
      case Deliver(_) =>
      case Exit(_) =>
      case _ =>
    }
  }

  lemma StepConserves(s: Pipe, a: Step)
    requires Conserved(s) && Enabled(s, a)
    ensures Conserved(Next(s, a))
  {
    StepIsOrderly(s, a);
    LedgerStep(s, a);
    StillCounts(s.next, Next(s, a).next, Ledger(s), Ledger(Next(s, a)), a.Hand?);
  }

  lemma StillCounts(n: nat, n': nat, held: multiset<nat>, held': multiset<nat>, handed: bool)
    requires UpTo(n) == held && n' == n + if handed then 1 else 0
    requires held' == if handed then held + multiset{n} else held
    ensures UpTo(n') == held'
  {
    if handed { UpToNext(n); }
  }

  lemma UpToNext(n: nat)
    ensures UpTo(n + 1) == UpTo(n) + multiset{n}
  {
  }

  lemma {:induction false} IdleCarryNothing(fs: seq<Fetcher>)
    requires forall i | 0 <= i < |fs| :: fs[i].Idle? || fs[i].Exited?
    ensures InFlight(fs) == multiset{}
  {
    if fs != [] { IdleCarryNothing(fs[1..]); }
  }

  // ----- Progress -----

  function Weight(f: Fetcher): nat {
    match f case Exited => 0 case Idle => 1 case Holding(_) => 3 case Fetching(_) => 4
  }

  function Weights(fs: seq<Fetcher>): nat {
    if fs == [] then 0 else Weight(fs[0]) + Weights(fs[1..])
  }

  // Transitions left, at most.
  function Fuel(s: Pipe): int {
    5 * (s.limit - s.next) + Weights(s.fetchers) + |s.buffer| +
    (if s.workClosed then 0 else 1) + (if s.pollsClosed then 0 else 1) + (if s.done then 0 else 1)
  }

  lemma {:induction false} WeightsUpdate(fs: seq<Fetcher>, i: nat, f: Fetcher)
    requires i < |fs|
    ensures Weights(fs[i := f]) + Weight(fs[i]) == Weights(fs) + Weight(f)
  {
    if i > 0 {
      WeightsUpdate(fs[1..], i - 1, f);
      assert fs[i := f][1..] == fs[1..][i - 1 := f];
    } else {
      assert fs[0 := f][1..] == fs[1..];
    }
  }

  lemma StepBurnsFuel(s: Pipe, a: Step)
    requires Conserved(s) && Enabled(s, a)
    ensures 0 <= Fuel(Next(s, a)) < Fuel(s)
  {
    StepConserves(s, a);
    match a {
      case Hand(f) => WeightsUpdate(s.fetchers, f, Fetching(s.next));
      case Look(f, outcome) => WeightsUpdate(s.fetchers, f, Holding(Poll(s.fetchers[f].case_, outcome)));
      case Deliver(f) => WeightsUpdate(s.fetchers, f, Idle);
      case Exit(f) => WeightsUpdate(s.fetchers, f, Exited);
      case _ =>
    }
  }

  // No interleaving deadlocks: until the consumer is done, some goroutine can move.
  lemma NeverStuck(s: Pipe)
    requires Conserved(s) && !s.done
    ensures exists a :: Enabled(s, a)
  {
    if s.buffer != [] {
      assert Enabled(s, Receive);
    } else if i :| 0 <= i < |s.fetchers| && s.fetchers[i].Holding? {
      assert Enabled(s, Deliver(i));
    } else if i :| 0 <= i < |s.fetchers| && s.fetchers[i].Fetching? {
      assert Enabled(s, Look(i, NotFound));
    } else if s.next < s.limit {
      assert Enabled(s, Hand(0));
    } else if !s.workClosed {
      assert Enabled(s, CloseWork);
    } else if i :| 0 <= i < |s.fetchers| && s.fetchers[i].Idle? {
      assert Enabled(s, Exit(i));
    } else if !s.pollsClosed {
      assert Enabled(s, ClosePolls);
    } else {
      assert Enabled(s, Stop);
    }
  }

  // ----- Runs -----

  ghost predicate Runs(s: Pipe, steps: seq<Step>, t: Pipe)
    decreases |steps|
  {
    if steps == [] then s == t else Enabled(s, steps[0]) && Runs(Next(s, steps[0]), steps[1..], t)
  }

  lemma {:induction false} RunConserves(s: Pipe, steps: seq<Step>, t: Pipe)
    requires Conserved(s) && Runs(s, steps, t)
    ensures Conserved(t) && 0 <= Fuel(t) && |steps| <= Fuel(s) - Fuel(t)
    ensures t.limit == s.limit
    decreases |steps|
  {
    if steps != [] {
      StepConserves(s, steps[0]);
      StepBurnsFuel(s, steps[0]);
      RunConserves(Next(s, steps[0]), steps[1..], t);
    } else {
      WeightsAreNat(s.fetchers);
    }
  }

  lemma WeightsAreNat(fs: seq<Fetcher>)
    ensures Weights(fs) >= 0
  {
  }

  lemma StartConserved(limit: nat)
    ensures |Start(limit).fetchers| == Start(limit).capacity == 6
    ensures Conserved(Start(limit)) && Fuel(Start(limit)) <= 5 * limit + 9
  {
    IdleCarryNothing(Start(limit).fetchers);
    var idle := Start(limit).fetchers;
    assert idle == [Idle, Idle, Idle, Idle, Idle, Idle];
    assert Weights([Idle, Idle, Idle, Idle, Idle, Idle]) == 6;
  }

  // Whatever the interleaving, a run takes at most 5 * limit + 9 transitions, and when no transition
  // is left the consumer is done and has consumed each of the first `limit` cases exactly once.
  lemma EveryCaseConsumedOnce(limit: nat, steps: seq<Step>, t: Pipe)
    requires Runs(Start(limit), steps, t)
    ensures |steps| <= 5 * limit + 9
    ensures (forall a :: !Enabled(t, a)) ==> t.done
    ensures t.done ==> CasesOf(t.consumed) == UpTo(limit) && |t.consumed| == limit
  {
    StartConserved(limit);
    RunConserves(Start(limit), steps, t);
    if !t.done { NeverStuck(t); }
    if t.done {
      IdleCarryNothing(t.fetchers);
      CasesOfSize(t.consumed);
      UpToSize(limit);
    }
  }

  lemma {:induction false} CasesOfSize(ps: seq<Poll>)
    ensures |CasesOf(ps)| == |ps|
  {
    if ps != [] { CasesOfSize(ps[1..]); }
  }

  lemma {:induction false} UpToSize(n: nat)
    ensures |UpTo(n)| == n
  {
    if n > 0 { UpToSize(n - 1); }
  }

  // ----- What the consumer counts -----

  datatype Stats = Stats(polled: nat, notFound: nat, restricted: nat, updated: nat, concluded: nat, errors: nat)

  datatype Kind = Erred | Polled | Missing | Sealed | Readable | Final

  predicate Is(o: Outcome, k: Kind) {
    match k
    case Erred => o.FetchError?
    case Polled => !o.FetchError?
    case Missing => o.NotFound?
    case Sealed => o.Restricted?
    case Readable => o.Open?
    case Final => o.Open? && o.concluded
  }

  function Count(ps: seq<Poll>, k: Kind): nat {
    if ps == [] then 0 else Count(ps[..|ps| - 1], k) + if Is(ps[|ps| - 1].outcome, k) then 1 else 0
  }

  function Tally(ps: seq<Poll>, writes: bool): Stats {
    Stats(Count(ps, Polled), Count(ps, Missing), Count(ps, Sealed),
          if writes then Count(ps, Readable) else 0, Count(ps, Final), Count(ps, Erred))
  }

  // Which polls a counter counts.
  lemma {:induction false} CountIs(ps: seq<Poll>, k: Kind)
    ensures Count(ps, k) == |set i | 0 <= i < |ps| && Is(ps[i].outcome, k)|
  {
    if ps != [] {
      CountIs(ps[..|ps| - 1], k);
      OneIndexMore(ps[..|ps| - 1], ps[|ps| - 1], k);
      assert ps == ps[..|ps| - 1] + [ps[|ps| - 1]];
    }
  }

  lemma OneIndexMore(ps: seq<Poll>, p: Poll, k: Kind)
    ensures |set i | 0 <= i < |ps + [p]| && Is((ps + [p])[i].outcome, k)| ==
            |set i | 0 <= i < |ps| && Is(ps[i].outcome, k)| + if Is(p.outcome, k) then 1 else 0
  {
    var before := set i | 0 <= i < |ps| && Is(ps[i].outcome, k);
    var after := set i | 0 <= i < |ps + [p]| && Is((ps + [p])[i].outcome, k);
    assert after == if Is(p.outcome, k) then before + {|ps|} else before;
  }

  // Each counter, by the outcomes it counts.
  lemma TallyIs(ps: seq<Poll>, writes: bool)
    ensures var stats := Tally(ps, writes);
      && stats.errors == |set i | 0 <= i < |ps| && ps[i].outcome.FetchError?|
      && stats.polled == |set i | 0 <= i < |ps| && !ps[i].outcome.FetchError?|
      && stats.notFound == |set i | 0 <= i < |ps| && ps[i].outcome.NotFound?|
      && stats.restricted == |set i | 0 <= i < |ps| && ps[i].outcome.Restricted?|
      && stats.concluded == |set i | 0 <= i < |ps| && ps[i].outcome.Open? && ps[i].outcome.concluded|
      && stats.updated == if writes then |set i | 0 <= i < |ps| && ps[i].outcome.Open?| else 0
  {
    forall k: Kind ensures Count(ps, k) == |set i | 0 <= i < |ps| && Is(ps[i].outcome, k)| { CountIs(ps, k); }
    assert (set i | 0 <= i < |ps| && Is(ps[i].outcome, Erred)) == set i | 0 <= i < |ps| && ps[i].outcome.FetchError?;
    assert (set i | 0 <= i < |ps| && Is(ps[i].outcome, Polled)) == set i | 0 <= i < |ps| && !ps[i].outcome.FetchError?;
    assert (set i | 0 <= i < |ps| && Is(ps[i].outcome, Missing)) == set i | 0 <= i < |ps| && ps[i].outcome.NotFound?;
    assert (set i | 0 <= i < |ps| && Is(ps[i].outcome, Sealed)) == set i | 0 <= i < |ps| && ps[i].outcome.Restricted?;
    assert (set i | 0 <= i < |ps| && Is(ps[i].outcome, Readable)) == set i | 0 <= i < |ps| && ps[i].outcome.Open?;
    assert (set i | 0 <= i < |ps| && Is(ps[i].outcome, Final)) == set i | 0 <= i < |ps| && ps[i].outcome.Open? && ps[i].outcome.concluded;
  }

  // The consumer: one poll at a time, in the order the channel yields them.
  method Consume(polls: seq<Poll>, writes: bool) returns (stats: Stats)
    ensures stats == Tally(polls, writes)
  {
    stats := Stats(0, 0, 0, 0, 0, 0);
    for i := 0 to |polls|
      invariant stats == Tally(polls[..i], writes)
    {
      assert polls[..i + 1][..i] == polls[..i];
      var outcome := polls[i].outcome;
      if outcome.FetchError? {
        stats := stats.(errors := stats.errors + 1);
        continue;
      }
      stats := stats.(polled := stats.polled + 1);
      if outcome.NotFound? {
        stats := stats.(notFound := stats.notFound + 1);
        continue;
      }
      if outcome.Restricted? {
        stats := stats.(restricted := stats.restricted + 1);
        continue;
      }
      if outcome.concluded {
        stats := stats.(concluded := stats.concluded + 1);
      }
      if !writes {
        continue;
      }
      stats := stats.(updated := stats.updated + 1);
    }
    assert polls[..|polls|] == polls;
  }

  // The counters add up: every poll is an error or a polled case, and every polled case one of three.
  lemma {:induction false} CountsAddUp(ps: seq<Poll>, writes: bool)
    ensures Tally(ps, writes).polled + Tally(ps, writes).errors == |ps|
    ensures Tally(ps, true).notFound + Tally(ps, true).restricted + Tally(ps, true).updated == Tally(ps, true).polled
    ensures Tally(ps, writes).concluded <= Tally(ps, true).updated
  {
    if ps != [] { CountsAddUp(ps[..|ps| - 1], writes); }
  }

  // ----- Counting does not depend on the interleaving -----

  // The tribunals' answers do not depend on who asks or when: `answers[c]` is what case c's lookup gets.
  predicate Answers(answers: seq<Outcome>, p: Poll) { p.case_ < |answers| && p.outcome == answers[p.case_] }

  ghost predicate Answered(answers: seq<Outcome>, s: Pipe) {
    && (forall i | 0 <= i < |s.fetchers| && s.fetchers[i].Holding? :: Answers(answers, s.fetchers[i].poll))
    && (forall i | 0 <= i < |s.buffer| :: Answers(answers, s.buffer[i]))
    && (forall i | 0 <= i < |s.consumed| :: Answers(answers, s.consumed[i]))
  }

  ghost predicate Faithful(answers: seq<Outcome>, s: Pipe, steps: seq<Step>)
    decreases |steps|
  {
    steps == [] ||
    (&& Enabled(s, steps[0])
     && (steps[0].Look? ==> Answers(answers, Poll(s.fetchers[steps[0].f].case_, steps[0].outcome)))
     && Faithful(answers, Next(s, steps[0]), steps[1..]))
  }

  lemma {:induction false} RunAnswered(answers: seq<Outcome>, s: Pipe, steps: seq<Step>, t: Pipe)
    requires Answered(answers, s) && Runs(s, steps, t) && Faithful(answers, s, steps)
    ensures Answered(answers, t)
    decreases |steps|
  {
    if steps != [] { RunAnswered(answers, Next(s, steps[0]), steps[1..], t); }
  }

  // The polls a serial loop over the cases would have made.
  function Serial(answers: seq<Outcome>, n: nat): seq<Poll>
    requires n <= |answers|
  {
    if n == 0 then [] else Serial(answers, n - 1) + [Poll(n - 1, answers[n - 1])]
  }

  // One poll per answer, in order.
  function InTurn(answers: seq<Outcome>): seq<Poll> { seq(|answers|, i requires 0 <= i < |answers| => Poll(i, answers[i])) }

  lemma {:induction false} SerialIsInTurn(answers: seq<Outcome>, n: nat)
    requires n <= |answers|
    ensures Serial(answers, n) == InTurn(answers[..n])
  {
    if n > 0 { SerialIsInTurn(answers, n - 1); }
  }

  function Without(ps: seq<Poll>, i: nat): seq<Poll>
    requires i < |ps|
  {
    ps[..i] + ps[i + 1..]
  }

  lemma {:induction false} CountWithout(ps: seq<Poll>, i: nat, k: Kind)
    requires i < |ps|
    ensures Count(ps, k) == Count(Without(ps, i), k) + if Is(ps[i].outcome, k) then 1 else 0
  {
    WithoutLast(ps, i);
    if i < |ps| - 1 { CountWithout(ps[..|ps| - 1], i, k); }
  }

  lemma WithoutLast(ps: seq<Poll>, i: nat)
    requires i < |ps|
    ensures var init, rest := ps[..|ps| - 1], Without(ps, i);
            if i == |ps| - 1 then rest == init
            else |rest| == |ps| - 1 && rest[|rest| - 1] == ps[|ps| - 1] && rest[..|rest| - 1] == Without(init, i)
  {
  }

  lemma {:induction false} CasesOfWithout(ps: seq<Poll>, i: nat)
    requires i < |ps|
    ensures CasesOf(ps) == CasesOf(Without(ps, i)) + multiset{ps[i].case_}
  {
    if i > 0 {
      CasesOfWithout(ps[1..], i - 1);
      assert Without(ps, i)[0] == ps[0] && Without(ps, i)[1..] == Without(ps[1..], i - 1);
    } else {
      assert Without(ps, 0) == ps[1..];
    }
  }

  lemma {:induction false} CaseIsThere(ps: seq<Poll>, c: nat) returns (i: nat)
    requires c in CasesOf(ps)
    ensures i < |ps| && ps[i].case_ == c
  {
    if ps[0].case_ == c {
      i := 0;
    } else {
      i := CaseIsThere(ps[1..], c);
      i := i + 1;
    }
  }

  lemma {:induction false} CountIsSerial(answers: seq<Outcome>, ps: seq<Poll>, n: nat, k: Kind)
    requires n <= |answers| && CasesOf(ps) == UpTo(n)
    requires forall i | 0 <= i < |ps| :: Answers(answers, ps[i])
    ensures Count(ps, k) == Count(Serial(answers, n), k)
  {
    if n == 0 {
      CasesOfSize(ps);
    } else {
      assert n - 1 in UpTo(n);
      var i := CaseIsThere(ps, n - 1);
      CasesOfWithout(ps, i);
      CountWithout(ps, i, k);
      Cancel(CasesOf(Without(ps, i)), UpTo(n - 1), multiset{n - 1});
      CountIsSerial(answers, Without(ps, i), n - 1, k);
      assert Serial(answers, n)[..|Serial(answers, n)| - 1] == Serial(answers, n - 1);
    }
  }

  /**
   Six fetchers and a channel count what a serial loop would count: whatever the interleaving, a
   finished run's statistics are those of polling the cases in turn, all of them when there is no limit or
   none that bites and the first pollLimit of them otherwise; and every one of those cases is counted
   once, as polled or as an error.
   */
  lemma ConcurrencyIsInvisible(answers: seq<Outcome>, pollLimit: int, steps: seq<Step>, t: Pipe, writes: bool)
    requires var start := Start(Limit(pollLimit, |answers|)); Runs(start, steps, t) && Faithful(answers, start, steps)
    requires t.done
    ensures var polled := if pollLimit <= 0 || pollLimit >= |answers| then |answers| else pollLimit;
            && Tally(t.consumed, writes) == Tally(InTurn(answers[..polled]), writes)
            && Tally(t.consumed, writes).polled + Tally(t.consumed, writes).errors == polled
    ensures Tally(t.consumed, true).notFound + Tally(t.consumed, true).restricted + Tally(t.consumed, true).updated
         == Tally(t.consumed, true).polled
  {
    var limit := Limit(pollLimit, |answers|);
    EveryCaseConsumedOnce(limit, steps, t);
    RunAnswered(answers, Start(limit), steps, t);
    forall k: Kind ensures Count(t.consumed, k) == Count(Serial(answers, limit), k) {
      CountIsSerial(answers, t.consumed, limit, k);
    }
    SerialIsInTurn(answers, limit);
    CountsAddUp(t.consumed, writes);
  }
}
