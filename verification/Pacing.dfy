/**
 The limiters of the two tribunal clients and the retry loop of the DataJud one. Durations are in
 nanoseconds; the clock is monotonic.
 */
module Pacing {
  import opened Wrappers

  const SECOND: nat := 1_000_000_000

  // ----- The limiter -----

  // Consecutive grants are at least `min` apart.
  ghost predicate Paced(grants: seq<int>, min: int) {
    forall i | 0 <= i < |grants| - 1 :: grants[i] + min <= grants[i + 1]
  }

  class Limiter {
    const min: nat
    var last: Option<int>
    ghost var grants: seq<int>

    ghost predicate Valid()
      reads this
    {
      Paced(grants, min) && last == (if grants == [] then None else Some(grants[|grants| - 1]))
    }

    constructor (min: nat)
      ensures Valid() && this.min == min && grants == []
    {
      this.min := min;
      last, grants := None, [];
    }

    // Called with the lock held: `now` is the clock on entry and `late` how much longer than asked
    // the timer took.
    method Wait(now: int, late: nat) returns (granted: int)
      requires Valid()
      requires last.Some? ==> last.value <= now
      modifies this
      ensures Valid() && grants == old(grants) + [granted] && last == Some(granted)
      ensures old(last).None? ==> granted == now
      ensures old(last).Some? ==> granted >= old(last).value + min
      ensures granted >= now && (old(last).Some? && old(last).value + min <= now ==> granted == now)
      ensures granted > now ==> granted == old(last).value + min + late
    {
      granted := now;
      if last.Some? {
        var d := min - (now - last.value);
        if d > 0 {
          granted := now + d + late;
        }
      }
      last := Some(granted);
      grants := grants + [granted];
    }
  }

  function CountIn(grants: seq<int>, from: int, until: int): nat {
    if grants == [] then 0
    else (if from <= grants[0] < until then 1 else 0) + CountIn(grants[1..], from, until)
  }

  lemma {:induction false} CountInJoins(a: seq<int>, b: seq<int>, from: int, until: int)
    ensures CountIn(a + b, from, until) == CountIn(a, from, until) + CountIn(b, from, until)
    ensures forall g: int :: CountIn([g], from, until) == if from <= g && g < until then 1 else 0
  {
    if a == [] {
      assert a + b == b;
    } else {
      CountInJoins(a[1..], b, from, until);
      assert (a + b)[0] == a[0] && (a + b)[1..] == a[1..] + b;
    }
    forall g: int ensures CountIn([g], from, until) == if from <= g && g < until then 1 else 0 { assert [g][1..] == []; }
  }

  // However callers interleave, at most n requests are let through in any window of n intervals.
  lemma {:induction false} AtMostNInAWindow(grants: seq<int>, min: nat, from: int, n: nat)
    requires Paced(grants, min)
    ensures CountIn(grants, from, from + n * min) <= n
  {
    if grants != [] {
      if grants[0] < from {
        AtMostNInAWindow(grants[1..], min, from, n);
      } else {
        AtMostKFrom(grants, min, from, from + n * min, n);
      }
    }
  }

  lemma {:induction false} AtMostKFrom(grants: seq<int>, min: nat, from: int, until: int, k: nat)
    requires Paced(grants, min) && grants != [] && until - grants[0] <= k * min
    ensures CountIn(grants, from, until) <= k
  {
    if k == 0 {
      NoneAfter(grants, min, from, until);
    } else if |grants| > 1 {
      assert (k - 1) * min == k * min - min;
      AtMostKFrom(grants[1..], min, from, until, k - 1);
    }
  }

  lemma {:induction false} NoneAfter(grants: seq<int>, min: nat, from: int, until: int)
    requires Paced(grants, min) && grants != [] && until <= grants[0]
    ensures CountIn(grants, from, until) == 0
  {
    if |grants| > 1 { NoneAfter(grants[1..], min, from, until); }
  }

  // ----- Backoff -----

  // How often to retry and how long to wait; the delays are variables in the source.
  datatype Policy = Policy(retries: nat, retries429: nat, initial: nat, max: nat, max429: nat)

  const STANDARD := Policy(3, 6, SECOND, 16 * SECOND, 90 * SECOND)

  function Min(a: int, b: int): int { if a <= b then a else b }

  function Pow2(k: nat): nat { if k == 0 then 1 else 2 * Pow2(k - 1) }

  // The k-th rung of a ladder that doubles up to `max`.
  function Rung(initial: nat, max: int, k: nat): int { Min(initial * Pow2(k), max) }

  // The delay now, and the one stored for the next call.
  method NextBackoff(backoff: int, max: int) returns (d: int, next: int)
    ensures d == Min(backoff, max) && next == Min(2 * backoff, max)
  {
    d := backoff;
    if d > max {
      d := max;
    }
    next := backoff * 2;
    if next > max {
      next := max;
    }
  }

  // Doubling the stored value goes from one rung to the next, capped or not.
  lemma RungDoubles(initial: nat, max: nat, k: nat)
    ensures Min(2 * Rung(initial, max, k), max) == Rung(initial, max, k + 1)
    ensures Min(Rung(initial, max, k), max) == Rung(initial, max, k)
    ensures 0 <= Rung(initial, max, k) <= max
  {
    assert initial * Pow2(k + 1) == 2 * (initial * Pow2(k));
  }

  // ----- Retry-After -----

  // A decimal number of seconds, a date that lies `left` ahead, or neither.
  datatype Header = Seconds(secs: int) | Date(left: int) | Other

  predicate Int64(x: int) { -0x8000_0000_0000_0000 <= x < 0x8000_0000_0000_0000 }

  function Wrap64(x: int): (r: int)
    ensures Int64(r) && (Int64(x) ==> r == x)
  {
    (x + 0x8000_0000_0000_0000) % 0x1_0000_0000_0000_0000 - 0x8000_0000_0000_0000
  }

  function CapDuration(p: Policy, d: int): int {
    if d <= 0 then 0 else if d > p.max429 then p.max429 else d
  }

  // Zero means the header gives no usable delay.
  function RetryAfter(p: Policy, h: Header): int {
    match h
    case Seconds(secs) => if secs < 0 || !Int64(secs) then 0 else CapDuration(p, Wrap64(secs * SECOND))
    case Date(left) => CapDuration(p, left)
    case Other => 0
  }

  // The server's own delay is honoured up to 90 seconds, exactly when the number fits in 64 bits
  // and its product with a second in nanoseconds fits too or wraps to a value past the cap.
  lemma RetryAfterIsHonouredIff(secs: nat)
    ensures RetryAfter(STANDARD, Seconds(secs)) == Min(secs * SECOND, STANDARD.max429)
            <==> Int64(secs) && (Int64(secs * SECOND) || Wrap64(secs * SECOND) >= STANDARD.max429)
  {
  }

  // A delay of 584 years is honoured as one of 290 milliseconds.
  lemma RetryAfterWraps()
    ensures RetryAfter(STANDARD, Seconds(18_446_744_074)) == 290_448_384
  {
  }

  // ----- The retry loop -----

  datatype Reply = NoAnswer | Response(status: int, body: string, header: Header)

  datatype PostError = Exhausted | Refused(status: int)

  predicate Limits(r: Reply) { r.Response? && r.status == 429 }

  predicate Fails(r: Reply) { r.NoAnswer? || r.status >= 500 }

  predicate Transient(r: Reply) { Fails(r) || Limits(r) }

  function CountFails(rs: seq<Reply>): nat {
    if rs == [] then 0 else CountFails(rs[..|rs| - 1]) + if Fails(rs[|rs| - 1]) then 1 else 0
  }

  function CountLimits(rs: seq<Reply>): nat {
    if rs == [] then 0 else CountLimits(rs[..|rs| - 1]) + if Limits(rs[|rs| - 1]) then 1 else 0
  }

  // 429s whose header gives no delay: they climb their own ladder.
  function CountSilent(p: Policy, rs: seq<Reply>): nat {
    if rs == [] then 0
    else CountSilent(p, rs[..|rs| - 1]) + if Limits(rs[|rs| - 1]) && RetryAfter(p, rs[|rs| - 1].header) == 0 then 1 else 0
  }

  // What is slept after the transient reply r to a request, when the replies before it were rs.
  function Pause(p: Policy, rs: seq<Reply>, r: Reply): int {
    if Fails(r) then Rung(p.initial, p.max, CountFails(rs))
    else if RetryAfter(p, r.header) > 0 then RetryAfter(p, r.header)
    else Rung(p.initial, p.max429, CountSilent(p, rs))
  }

  function Slept(p: Policy, rs: seq<Reply>): int {
    if rs == [] then 0 else Slept(p, rs[..|rs| - 1]) + Pause(p, rs[..|rs| - 1], rs[|rs| - 1])
  }

  predicate WithinBudget(p: Policy, rs: seq<Reply>) {
    && (forall i | 0 <= i < |rs| :: Transient(rs[i]))
    && CountFails(rs) <= p.retries && CountLimits(rs) <= p.retries429
  }

  // Reply k answers the request, and what came before it was worth waiting out.
  predicate Answers(p: Policy, replies: seq<Reply>, k: nat) {
    k < |replies| && !Transient(replies[k]) && WithinBudget(p, replies[..k])
  }

  lemma {:induction false} CountsGrow(rs: seq<Reply>, i: nat, j: nat)
    requires i <= j <= |rs|
    ensures CountFails(rs[..i]) <= CountFails(rs[..j]) && CountLimits(rs[..i]) <= CountLimits(rs[..j])
    decreases j
  {
    if i < j {
      CountsGrow(rs, i, j - 1);
      assert rs[..j][..j - 1] == rs[..j - 1];
    }
  }

  lemma {:induction false} TransientsAdd(p: Policy, rs: seq<Reply>)
    requires forall i | 0 <= i < |rs| :: Transient(rs[i])
    ensures CountFails(rs) + CountLimits(rs) == |rs| && CountSilent(p, rs) <= CountLimits(rs)
  {
    if rs != [] { TransientsAdd(p, rs[..|rs| - 1]); }
  }

  lemma PauseIsBounded(p: Policy, rs: seq<Reply>, r: Reply, f: nat, l: nat)
    requires Transient(r) && f == CountFails(rs)
    ensures Fails(r) ==> Pause(p, rs, r) + (Pow2(f) - 1) * p.initial <= (Pow2(f + 1) - 1) * p.initial
    ensures Limits(r) ==> Pause(p, rs, r) + l * p.max429 <= (l + 1) * p.max429
  {
    assert (Pow2(f + 1) - 1) * p.initial == (Pow2(f) - 1) * p.initial + p.initial * Pow2(f);
    assert (l + 1) * p.max429 == l * p.max429 + p.max429;
  }

  // Sleeping after f failures and l refusals takes at most (2^f - 1) seconds and 90 seconds each.
  lemma {:induction false} SleepIsBounded(p: Policy, rs: seq<Reply>)
    requires forall i | 0 <= i < |rs| :: Transient(rs[i])
    ensures Slept(p, rs) <= (Pow2(CountFails(rs)) - 1) * p.initial + CountLimits(rs) * p.max429
  {
    if rs != [] {
      var before := rs[..|rs| - 1];
      SleepIsBounded(p, before);
      PauseIsBounded(p, before, rs[|rs| - 1], CountFails(before), CountLimits(before));
    }
  }

  // At most one of the replies answers.
  lemma AnswersOnce(p: Policy, replies: seq<Reply>, j: nat, k: nat)
    requires Answers(p, replies, j) && Answers(p, replies, k)
    ensures j == k
  {
    TransientBefore(p, replies, j);
    TransientBefore(p, replies, k);
  }

  lemma TransientBefore(p: Policy, replies: seq<Reply>, k: nat)
    requires k <= |replies| && WithinBudget(p, replies[..k])
    ensures forall i | 0 <= i < k :: Transient(replies[i])
  {
    assert forall i | 0 <= i < k :: replies[..k][i] == replies[i];
  }

  // Once the budget is spent no reply can answer.
  lemma SpentIsFinal(p: Policy, replies: seq<Reply>, n: nat, k: nat)
    requires 0 < n <= |replies| && !WithinBudget(p, replies[..n]) && WithinBudget(p, replies[..n - 1]) && Transient(replies[n - 1])
    ensures !Answers(p, replies, k)
  {
    if k < n {
      assert k < n - 1 ==> replies[..n - 1][k] == replies[k];
    } else if k < |replies| {
      CountsGrow(replies, n, k);
      assert forall i | 0 <= i < n :: replies[..n][i] == if i < n - 1 then replies[..n - 1][i] else replies[n - 1];
    }
  }

  function Verdict(r: Reply): Result<string, PostError>
    requires r.Response?
  {
    if r.status == 200 then Success(r.body) else Failure(Refused(r.status))
  }

  // A post that sends `sent` requests and returns r ends at the reply that answers, if there is one.
  ghost predicate Settles(p: Policy, replies: seq<Reply>, r: Result<string, PostError>, sent: nat) {
    && (forall k: nat | Answers(p, replies, k) :: sent == k + 1 && r == Verdict(replies[k]))
    && ((forall k: nat :: !Answers(p, replies, k)) ==> r == Failure(Exhausted))
  }

  lemma AnswerSettles(p: Policy, replies: seq<Reply>, j: nat)
    requires Answers(p, replies, j)
    ensures Settles(p, replies, Verdict(replies[j]), j + 1)
  {
    forall k: nat | Answers(p, replies, k) ensures k == j { AnswersOnce(p, replies, j, k); }
  }

  lemma SpentSettles(p: Policy, replies: seq<Reply>, n: nat)
    requires 0 < n <= |replies| && WithinBudget(p, replies[..n - 1]) && Transient(replies[n - 1])
    requires CountFails(replies[..n]) > p.retries || CountLimits(replies[..n]) > p.retries429
    ensures Settles(p, replies, Failure(Exhausted), n)
  {
    forall k: nat ensures !Answers(p, replies, k) { SpentIsFinal(p, replies, n, k); }
  }

  // What one more reply adds to the tallies.
  lemma OneMoreReply(p: Policy, rs: seq<Reply>, r: Reply)
    requires Transient(r)
    ensures CountFails(rs + [r]) == CountFails(rs) + if Fails(r) then 1 else 0
    ensures CountLimits(rs + [r]) == CountLimits(rs) + if Fails(r) then 0 else 1
    ensures CountSilent(p, rs + [r]) == CountSilent(p, rs) + if !Fails(r) && RetryAfter(p, r.header) == 0 then 1 else 0
    ensures Slept(p, rs + [r]) == Slept(p, rs) + Pause(p, rs, r)
  {
    assert (rs + [r])[..|rs|] == rs;
  }

  // Where the loop stands after the replies rs.
  datatype Patience = Patience(fails: nat, rateLimits: nat, backoff: nat, backoff429: nat)

  ghost predicate Stands(p: Policy, rs: seq<Reply>, w: Patience) {
    && w.fails == CountFails(rs) && w.rateLimits == CountLimits(rs)
    && Min(w.backoff, p.max) == Rung(p.initial, p.max, CountFails(rs))
    && Min(w.backoff429, p.max429) == Rung(p.initial, p.max429, CountSilent(p, rs))
  }

  // A failure: count it, and unless that was one too many, wait.
  method AfterFailure(p: Policy, w: Patience, ghost rs: seq<Reply>, r: Reply) returns (next: Patience, spent: bool, wait: int)
    requires Fails(r) && Stands(p, rs, w)
    ensures spent <==> CountFails(rs + [r]) > p.retries
    ensures !spent ==> Stands(p, rs + [r], next) && wait == Pause(p, rs, r)
  {
    OneMoreReply(p, rs, r);
    RungDoubles(p.initial, p.max, CountFails(rs));
    next, spent, wait := w.(fails := w.fails + 1), false, 0;
    if next.fails > p.retries {
      spent := true;
      return;
    }
    var backoff;
    wait, backoff := NextBackoff(w.backoff, p.max);
    next := next.(backoff := backoff);
  }

  // A 429: the server's own delay if it names one, else the next rung of the patient ladder.
  method AfterLimit(p: Policy, w: Patience, ghost rs: seq<Reply>, r: Reply) returns (next: Patience, spent: bool, wait: int)
    requires Limits(r) && Stands(p, rs, w)
    ensures spent <==> CountLimits(rs + [r]) > p.retries429
    ensures !spent ==> Stands(p, rs + [r], next) && wait == Pause(p, rs, r)
  {
    OneMoreReply(p, rs, r);
    RungDoubles(p.initial, p.max429, CountSilent(p, rs));
    wait := RetryAfter(p, r.header);
    next, spent := w.(rateLimits := w.rateLimits + 1), false;
    if next.rateLimits > p.retries429 {
      spent := true;
      return;
    }
    if wait <= 0 {
      var backoff;
      wait, backoff := NextBackoff(w.backoff429, p.max429);
      next := next.(backoff429 := backoff);
    }
  }

  /**
   post: `replies` are what the server and the network would answer to the requests in turn. It sends
   at most retries + retries429 + 1 of them; it succeeds exactly when the first reply that is neither
   a failure nor a 429 is a 200 preceded by at most `retries` failures and `retries429` 429s, in any
   order.
   */
  method Post(p: Policy, replies: seq<Reply>) returns (r: Result<string, PostError>, sent: nat, slept: int)
    requires |replies| > p.retries + p.retries429
    ensures 1 <= sent <= p.retries + p.retries429 + 1
    ensures Settles(p, replies, r, sent)
    ensures WithinBudget(p, replies[..sent - 1]) && slept == Slept(p, replies[..sent - 1])
  {
    var w := Patience(0, 0, p.initial, p.initial);
    sent, slept := 0, 0;
    while true
      invariant sent <= p.retries + p.retries429
      invariant WithinBudget(p, replies[..sent]) && Stands(p, replies[..sent], w)
      invariant slept == Slept(p, replies[..sent])
      decreases p.retries + p.retries429 - sent
    {
      var reply := replies[sent];
      ghost var rs := replies[..sent];
      sent := sent + 1;
      assert replies[..sent] == rs + [reply];
      var spent, wait;
      if Fails(reply) {
        w, spent, wait := AfterFailure(p, w, rs, reply);
      } else if Limits(reply) {
        w, spent, wait := AfterLimit(p, w, rs, reply);
      } else {
        AnswerSettles(p, replies, sent - 1);
        return Verdict(reply), sent, slept;
      }
      if spent {
        SpentSettles(p, replies, sent);
        return Failure(Exhausted), sent, slept;
      }
      slept := slept + wait;
      StillWithin(p, rs, reply);
    }
  }

  lemma StillWithin(p: Policy, rs: seq<Reply>, r: Reply)
    requires WithinBudget(p, rs) && Transient(r)
    ensures Slept(p, rs + [r]) == Slept(p, rs) + Pause(p, rs, r)
    ensures CountFails(rs + [r]) <= p.retries && CountLimits(rs + [r]) <= p.retries429 ==>
              WithinBudget(p, rs + [r]) && |rs| < p.retries + p.retries429
    ensures Fails(r) ==> CountLimits(rs + [r]) == CountLimits(rs)
    ensures Limits(r) ==> CountFails(rs + [r]) == CountFails(rs)
  {
    OneMoreReply(p, rs, r);
    TransientsAdd(p, rs);
    assert forall i | 0 <= i < |rs| :: (rs + [r])[i] == rs[i];
  }

  // With the standing policy a post sends at most ten requests, and sleeps at most 7 seconds over
  // failures and 90 seconds for each 429.
  lemma TotalSleepIsBounded(rs: seq<Reply>)
    requires WithinBudget(STANDARD, rs)
    ensures |rs| + 1 <= 10 && Slept(STANDARD, rs) <= 7 * SECOND + 6 * 90 * SECOND
  {
    TransientsAdd(STANDARD, rs);
    SleepIsBounded(STANDARD, rs);
    SevenSeconds(CountFails(rs));
    SixWaits(CountLimits(rs));
  }

  lemma SevenSeconds(f: nat)
    requires f <= 3
    ensures (Pow2(f) - 1) * SECOND <= 7 * SECOND
  {
    assert f == 3 || f == 2 || f == 1 || f == 0;
  }

  lemma SixWaits(l: nat)
    requires l <= 6
    ensures l * (90 * SECOND) <= 6 * 90 * SECOND
  {
  }

  // ----- The standing policy, in numbers -----

  lemma {:induction false} CountsAre(rs: seq<Reply>)
    ensures CountFails(rs) == |set i | 0 <= i < |rs| && Fails(rs[i])|
    ensures CountLimits(rs) == |set i | 0 <= i < |rs| && Limits(rs[i])|
  {
    if rs != [] {
      var init, r := rs[..|rs| - 1], rs[|rs| - 1];
      CountsAre(init);
      assert rs == init + [r];
      OneReplyMore(init, r);
    }
  }

  lemma OneReplyMore(rs: seq<Reply>, r: Reply)
    ensures |set i | 0 <= i < |rs + [r]| && Fails((rs + [r])[i])| == |set i | 0 <= i < |rs| && Fails(rs[i])| + if Fails(r) then 1 else 0
    ensures |set i | 0 <= i < |rs + [r]| && Limits((rs + [r])[i])| == |set i | 0 <= i < |rs| && Limits(rs[i])| + if Limits(r) then 1 else 0
  {
    var fails, limits := set i | 0 <= i < |rs| && Fails(rs[i]), set i | 0 <= i < |rs| && Limits(rs[i]);
    assert (set i | 0 <= i < |rs + [r]| && Fails((rs + [r])[i])) == if Fails(r) then fails + {|rs|} else fails;
    assert (set i | 0 <= i < |rs + [r]| && Limits((rs + [r])[i])) == if Limits(r) then limits + {|rs|} else limits;
  }

  // Reply k is the first that is neither silence, a 5xx nor a 429, after at most three of the former two
  // and six of the latter.
  ghost predicate FirstAnswer(replies: seq<Reply>, k: nat) {
    && k < |replies| && replies[k].Response? && replies[k].status < 500 && replies[k].status != 429
    && (forall i | 0 <= i < k && replies[i].Response? :: replies[i].status >= 500 || replies[i].status == 429)
    && |set i | 0 <= i < k && (replies[i].NoAnswer? || replies[i].status >= 500)| <= 3
    && |set i | 0 <= i < k && replies[i].Response? && replies[i].status == 429| <= 6
  }

  lemma FirstAnswerIs(replies: seq<Reply>, k: nat)
    ensures FirstAnswer(replies, k) <==> Answers(STANDARD, replies, k)
  {
    if k < |replies| {
      var rs := replies[..k];
      CountsAre(rs);
      assert (set i | 0 <= i < |rs| && Fails(rs[i])) == set i | 0 <= i < k && (replies[i].NoAnswer? || replies[i].status >= 500);
      assert (set i | 0 <= i < |rs| && Limits(rs[i])) == set i | 0 <= i < k && replies[i].Response? && replies[i].status == 429;
      assert forall i | 0 <= i < k :: rs[i] == replies[i];
    }
  }

  // What a post comes to under the standing policy: the body of a 200 that answers first, any other status
  // that does as a refusal, and otherwise exhaustion.
  lemma StandardPost(replies: seq<Reply>, r: Result<string, PostError>, sent: nat)
    requires Settles(STANDARD, replies, r, sent)
    ensures forall k: nat | FirstAnswer(replies, k) ::
              sent == k + 1 && r == if replies[k].status == 200 then Success(replies[k].body) else Failure(Refused(replies[k].status))
    ensures (forall k: nat :: !FirstAnswer(replies, k)) ==> r == Failure(Exhausted)
  {
    forall k: nat ensures FirstAnswer(replies, k) <==> Answers(STANDARD, replies, k) { FirstAnswerIs(replies, k); }
  }

  // How long it waits: 1, 2, 4, 8 and then 16 seconds over failures; over a 429 what the header says, in
  // seconds or until a date, up to 90, and without a delay there 1, 2, 4, ... and then 90 seconds.
  lemma StandardWaits(rs: seq<Reply>, r: Reply)
    ensures r.NoAnswer? || r.status >= 500 ==> Pause(STANDARD, rs, r) == Min(Pow2(CountFails(rs)), 16) * 1_000_000_000
    ensures r.Response? && r.status == 429 && r.header.Date? && r.header.left > 0 ==>
              Pause(STANDARD, rs, r) == Min(r.header.left, 90_000_000_000)
    ensures r.Response? && r.status == 429 && r.header.Seconds? && 0 < r.header.secs <= 9_000_000_000 ==>
              Pause(STANDARD, rs, r) == Min(r.header.secs, 90) * 1_000_000_000
    ensures r.Response? && r.status == 429
            && (r.header.Other? || (r.header.Date? && r.header.left <= 0) || (r.header.Seconds? && r.header.secs <= 0)) ==>
              Pause(STANDARD, rs, r) == Min(Pow2(CountSilent(STANDARD, rs)), 90) * 1_000_000_000
  {
  }
}
