/** The pairing poll loop of client/pair.go. Times are milliseconds; the server, the network and the
    scheduler are an adversary that answers every request as it likes, as slowly as it likes. */
module Pairing {
  import opened Basics

  /** The poll constants. */
  datatype Limits = Limits(interval: nat, maxBackoff: nat, wallClock: nat, maxFailures: nat)

  const LIMITS := Limits(2000, 30000, 600000, 30)

  ghost predicate Sensible(c: Limits) {
    c.interval >= 1 && c.maxBackoff >= 1 && c.maxFailures >= 1
  }

  /** How one request ends. */
  datatype Reply =
    | TransientError       // a net.Error or an expired request deadline
    | OtherError
    | Status(code: nat, bodyDecodes: bool)

  /** One lap of the loop as the environment arranges it: whether the user has cancelled before it and
      during its sleep, how long the request took, how it ended, and how late the sleep woke. */
  datatype Lap = Lap(cancelled: bool, took: nat, reply: Reply, cancelledAsleep: bool, overslept: nat)

  datatype Exit =
    | Claimed | Signal | WallClockTimeout | BudgetExceeded | FatalRuntime | UserCancelled | ExpiredOrNotFound

  /** The wait after so many failures in a row: the interval shifted left, at most six places. */
  function BackoffFor(c: Limits, failures: int): nat {
    var k: nat := if failures < 1 then 0 else failures - 1;
    Min(c.interval * Pow2(if k > 6 then 6 else k), c.maxBackoff)
  }

  /** How a reply is treated: leave the loop, sleep after a failure, or sleep and forget failures. */
  datatype Verdict = Leave(exit: Exit) | Failure | Pending

  function Judge(r: Reply): Verdict {
    match r
    case TransientError => Failure
    case OtherError => Leave(FatalRuntime)
    case Status(code, decodes) =>
      if code == 200 then Leave(if decodes then Claimed else FatalRuntime)
      else if code == 202 then Pending
      else if code == 410 then Leave(UserCancelled)
      else if code == 404 then Leave(ExpiredOrNotFound)
      else if 500 <= code < 600 then Failure
      else Leave(FatalRuntime)
  }

  type Server = nat -> Lap

  /** How a poll ends: the exit, its time, the failure counter then, and the largest value the counter
      had on the way. */
  datatype Ending = Ending(exit: Exit, at: nat, failures: nat, most: nat)

  /** The counter was `n` before an ending's part of the poll. */
  function Seen(e: Ending, n: nat): Ending {
    e.(most := Max(n, e.most))
  }

  function Max(a: nat, b: nat): nat {
    if a < b then b else a
  }

  /** What one lap comes to: the poll ends, or goes on at a later time with a new counter. */
  datatype Outcome = Stop(end: Ending) | GoOn(elapsed: nat, failures: nat)

  function LapOutcome(c: Limits, lap: Lap, elapsed: nat, failures: nat): (o: Outcome)
    requires Sensible(c)
    ensures o.GoOn? ==> elapsed < o.elapsed && elapsed <= c.wallClock
  {
    if lap.cancelled then Stop(Ending(Signal, elapsed, failures, failures))
    else if elapsed > c.wallClock then Stop(Ending(WallClockTimeout, elapsed, failures, failures))
    else
      var now := elapsed + lap.took;
      match Judge(lap.reply)
      case Leave(exit) => Stop(Ending(exit, now, failures, failures))
      case Pending =>
        if lap.cancelledAsleep then Stop(Ending(Signal, now, 0, failures))
        else GoOn(now + c.interval + lap.overslept, 0)
      case Failure =>
        var n := failures + 1;
        if n >= c.maxFailures then Stop(Ending(BudgetExceeded, now, n, n))
        else if lap.cancelledAsleep then Stop(Ending(Signal, now, n, n))
        else
          BackoffPositive(c, n);
          GoOn(now + BackoffFor(c, n) + lap.overslept, n)
  }

  /** The loop from lap i on, `elapsed` after its start. */
  function PollFrom(c: Limits, server: Server, i: nat, elapsed: nat, failures: nat): Ending
    requires Sensible(c)
    decreases if elapsed > c.wallClock then 0 else c.wallClock + 1 - elapsed
  {
    match LapOutcome(c, server(i), elapsed, failures)
    case Stop(end) => end
    case GoOn(later, n) => Seen(PollFrom(c, server, i + 1, later, n), failures)
  }

  lemma BackoffPositive(c: Limits, failures: int)
    requires Sensible(c)
    ensures BackoffFor(c, failures) >= 1
  {
    var k: nat := if failures < 1 then 0 else failures - 1;
    MulAtLeast(c.interval, Pow2(if k > 6 then 6 else k));
  }

  lemma MulAtLeast(a: nat, b: nat)
    requires a >= 1 && b >= 1
    ensures a * b >= a
  {
  }

  lemma SeenTwice(e: Ending, m: nat, n: nat)
    ensures Seen(Seen(e, n), m) == Seen(e, Max(m, n))
  {
  }

  /** pairPoll, with the failure counter it ends with and the largest it had. */
  method PairPoll(c: Limits, server: Server) returns (exit: Exit, elapsed: nat, netFailures: nat, most: nat)
    requires Sensible(c)
    ensures Ending(exit, elapsed, netFailures, most) == PollFrom(c, server, 0, 0, 0)
  {
    ghost var whole := PollFrom(c, server, 0, 0, 0);
    var i := 0;
    elapsed, netFailures, most := 0, 0, 0;
    while true
      invariant whole == Seen(PollFrom(c, server, i, elapsed, netFailures), most)
      decreases if elapsed > c.wallClock then 0 else c.wallClock + 1 - elapsed
    {
      ghost var outcome := LapOutcome(c, server(i), elapsed, netFailures);
      if outcome.GoOn? {
        SeenTwice(PollFrom(c, server, i + 1, outcome.elapsed, outcome.failures), most, netFailures);
      }
      most := Max(most, netFailures);
      var left, exited;
      left, exited, elapsed, netFailures := OneLap(c, server(i), elapsed, netFailures);
      if left {
        most := Max(most, netFailures);
        return exited, elapsed, netFailures, most;
      }
      i := i + 1;
    }
  }

  /** The loop body. */
  method OneLap(c: Limits, lap: Lap, elapsed: nat, failures: nat)
    returns (left: bool, exit: Exit, later: nat, netFailures: nat)
    requires Sensible(c)
    ensures left <==> LapOutcome(c, lap, elapsed, failures).Stop?
    ensures left ==>
              LapOutcome(c, lap, elapsed, failures).end == Ending(exit, later, netFailures, Max(failures, netFailures))
    ensures !left ==> LapOutcome(c, lap, elapsed, failures) == GoOn(later, netFailures)
  {
    left, exit, later, netFailures := true, Signal, elapsed, failures;
    if lap.cancelled {
      return;
    }
    if elapsed > c.wallClock {
      exit := WallClockTimeout;
      return;
    }
    later := elapsed + lap.took;
    match Judge(lap.reply) {
      case Leave(e) =>
        exit := e;
      case Pending =>
        netFailures := 0;
        if !lap.cancelledAsleep {
          left, later := false, later + c.interval + lap.overslept;
        }
      case Failure =>
        netFailures := netFailures + 1;
        if netFailures >= c.maxFailures {
          exit := BudgetExceeded;
        } else if !lap.cancelledAsleep {
          left, later := false, later + BackoffFor(c, netFailures) + lap.overslept;
        }
    }
  }

  /** The time spent backing off over the first n failures in a row. */
  function SumBackoffs(c: Limits, n: nat): nat {
    if n == 0 then 0 else SumBackoffs(c, n - 1) + BackoffFor(c, n)
  }

  // ---------- The documented backoff ----------

  /** The documented min(interval * 2^(failures-1), maxBackoff) for every count, although the code
      stops shifting after six places, because six places already reach the cap. */
  lemma {:induction false} BackoffAsDocumented(failures: nat)
    requires failures >= 1
    ensures BackoffFor(LIMITS, failures) == Min(LIMITS.interval * Pow2(failures - 1), LIMITS.maxBackoff)
  {
    assert Pow2(4) == 16;
    if failures > 4 {
      PowGrows(4, failures - 1);
      PowGrows(4, 6);
    }
  }

  lemma {:induction false} PowGrows(a: nat, b: nat)
    requires a <= b
    ensures Pow2(a) <= Pow2(b)
  {
    if a < b {
      PowGrows(a, b - 1);
    }
  }

  // ---------- How the poll ends ----------

  /** Answers after which the code tries again: a transient network error or a server error. */
  predicate Retryable(r: Reply) {
    r.TransientError? || (r.Status? && 500 <= r.code <= 599)
  }

  predicate StillPending(r: Reply) {
    r.Status? && r.code == 202
  }

  /** Where the loop stands at the start of a lap, unless it has ended before. */
  datatype Point = Ended | At(elapsed: nat, failures: nat)

  function PointAt(c: Limits, server: Server, n: nat): Point
    requires Sensible(c)
  {
    if n == 0 then At(0, 0)
    else
      match PointAt(c, server, n - 1)
      case Ended => Ended
      case At(elapsed, failures) =>
        match LapOutcome(c, server(n - 1), elapsed, failures)
        case Stop(_) => Ended
        case GoOn(later, k) => At(later, k)
  }

  /** The lap sends its request: the user has not cancelled and the wall clock has not run out. */
  predicate InTime(c: Limits, lap: Lap, elapsed: nat) {
    !lap.cancelled && elapsed <= c.wallClock
  }

  /** What must happen in a lap for the poll to end there with this exit. */
  predicate EndsWith(c: Limits, lap: Lap, elapsed: nat, failures: nat, exit: Exit) {
    match exit
    case Signal =>
      lap.cancelled
      || (elapsed <= c.wallClock && lap.cancelledAsleep
          && (StillPending(lap.reply) || (Retryable(lap.reply) && failures + 1 < c.maxFailures)))
    case WallClockTimeout => !lap.cancelled && elapsed > c.wallClock
    case Claimed => InTime(c, lap, elapsed) && lap.reply == Status(200, true)
    case UserCancelled => InTime(c, lap, elapsed) && lap.reply.Status? && lap.reply.code == 410
    case ExpiredOrNotFound => InTime(c, lap, elapsed) && lap.reply.Status? && lap.reply.code == 404
    case BudgetExceeded => InTime(c, lap, elapsed) && Retryable(lap.reply) && failures + 1 >= c.maxFailures
    case FatalRuntime =>
      InTime(c, lap, elapsed)
      && (lap.reply.OtherError? || lap.reply == Status(200, false)
          || (lap.reply.Status? && lap.reply.code !in {200, 202, 404, 410} && !Retryable(lap.reply)))
  }

  lemma LapEndsIff(c: Limits, lap: Lap, elapsed: nat, failures: nat, exit: Exit)
    requires Sensible(c)
    ensures var o := LapOutcome(c, lap, elapsed, failures);
            EndsWith(c, lap, elapsed, failures, exit) <==> o.Stop? && o.end.exit == exit
  {
  }

  /** A lap lets the loop go on exactly when it was in time, the server asked to wait or failed within the
      budget, and the user let it sleep; the next lap starts after the request and the wait. */
  lemma LapGoesOnIff(c: Limits, lap: Lap, elapsed: nat, failures: nat)
    requires Sensible(c)
    ensures var o := LapOutcome(c, lap, elapsed, failures);
            && (o.GoOn? <==>
                  && InTime(c, lap, elapsed) && !lap.cancelledAsleep
                  && (StillPending(lap.reply) || (Retryable(lap.reply) && failures + 1 < c.maxFailures)))
            && (o.GoOn? && StillPending(lap.reply) ==>
                  o == GoOn(elapsed + lap.took + c.interval + lap.overslept, 0))
            && (o.GoOn? && Retryable(lap.reply) ==>
                  o == GoOn(elapsed + lap.took + BackoffFor(c, failures + 1) + lap.overslept, failures + 1))
  {
  }

  /** From any lap the loop reaches, the lap it ends in and how. */
  lemma {:induction false} EndOf(c: Limits, server: Server, i: nat) returns (n: nat, end: Ending)
    requires Sensible(c) && PointAt(c, server, i).At?
    ensures var p := PointAt(c, server, i);
            PollFrom(c, server, i, p.elapsed, p.failures).exit == end.exit
    ensures i <= n && PointAt(c, server, n).At? && PointAt(c, server, n + 1).Ended?
    ensures var p := PointAt(c, server, n); LapOutcome(c, server(n), p.elapsed, p.failures) == Stop(end)
    decreases var elapsed := PointAt(c, server, i).elapsed;
              if elapsed > c.wallClock then 0 else c.wallClock + 1 - elapsed
  {
    var p := PointAt(c, server, i);
    match LapOutcome(c, server(i), p.elapsed, p.failures) {
      case Stop(e) =>
        n, end := i, e;
      case GoOn(_, _) =>
        n, end := EndOf(c, server, i + 1);
    }
  }

  lemma {:induction false} EndedStays(c: Limits, server: Server, m: nat, n: nat)
    requires Sensible(c) && m <= n && PointAt(c, server, m).Ended?
    ensures PointAt(c, server, n).Ended?
  {
    if m < n {
      EndedStays(c, server, m, n - 1);
    }
  }

  /** The loop reaches lap n, and it meets the condition for this exit. */
  predicate EndsAtLap(c: Limits, server: Server, n: nat, exit: Exit)
    requires Sensible(c)
  {
    var p := PointAt(c, server, n);
    p.At? && EndsWith(c, server(n), p.elapsed, p.failures, exit)
  }

  lemma LapIsLast(c: Limits, server: Server, n: nat, exit: Exit)
    requires Sensible(c) && EndsAtLap(c, server, n, exit)
    ensures PointAt(c, server, n).At? && PointAt(c, server, n + 1).Ended?
    ensures var p := PointAt(c, server, n);
            var o := LapOutcome(c, server(n), p.elapsed, p.failures); o.Stop? && o.end.exit == exit
  {
    var p := PointAt(c, server, n);
    LapEndsIff(c, server(n), p.elapsed, p.failures, exit);
  }

  lemma LastLapIsUnique(c: Limits, server: Server, m: nat, n: nat)
    requires Sensible(c)
    requires PointAt(c, server, m).At? && PointAt(c, server, m + 1).Ended?
    requires PointAt(c, server, n).At? && PointAt(c, server, n + 1).Ended?
    ensures m == n
  {
    if m < n {
      EndedStays(c, server, m + 1, n);
    } else if n < m {
      EndedStays(c, server, n + 1, m);
    }
  }

  /** For every server the poll ends with an exit if and only if a lap it reaches meets that exit's
      condition: claimed by a decodable 200, cancelled by a 410, expired by a 404, and so on. */
  lemma {:induction false} ExitIff(c: Limits, server: Server, exit: Exit)
    requires Sensible(c)
    ensures PollFrom(c, server, 0, 0, 0).exit == exit <==> exists n: nat :: EndsAtLap(c, server, n, exit)
  {
    var n, end := EndOf(c, server, 0);
    var p := PointAt(c, server, n);
    LapEndsIff(c, server(n), p.elapsed, p.failures, end.exit);
    assert EndsAtLap(c, server, n, end.exit);
    if m: nat :| EndsAtLap(c, server, m, exit) {
      LapIsLast(c, server, m, exit);
      LastLapIsUnique(c, server, m, n);
    }
  }

  /** The loop went through lap k: it was in time and met a pending or a retryable answer. */
  predicate WentThrough(c: Limits, server: Server, k: nat)
    requires Sensible(c)
  {
    && PointAt(c, server, k).At? && InTime(c, server(k), PointAt(c, server, k).elapsed)
    && !server(k).cancelledAsleep && (StillPending(server(k).reply) || Retryable(server(k).reply))
  }

  lemma StepThrough(c: Limits, server: Server, k: nat)
    requires Sensible(c) && PointAt(c, server, k + 1).At?
    ensures WentThrough(c, server, k)
    ensures PointAt(c, server, k + 1).failures ==
              if StillPending(server(k).reply) then 0 else PointAt(c, server, k).failures + 1
  {
    var p := PointAt(c, server, k);
    LapGoesOnIff(c, server(k), p.elapsed, p.failures);
  }

  /** The loop went through every lap before one that it reaches. */
  lemma {:induction false} LapsBefore(c: Limits, server: Server, n: nat)
    requires Sensible(c) && PointAt(c, server, n).At?
    ensures forall k: nat | k < n :: WentThrough(c, server, k)
  {
    if n > 0 {
      StepThrough(c, server, n - 1);
      LapsBefore(c, server, n - 1);
    }
  }

  /** And its counter is the number of retryable answers since the last pending one. */
  lemma {:induction false} CounterCounts(c: Limits, server: Server, n: nat)
    requires Sensible(c) && PointAt(c, server, n).At?
    ensures var f := PointAt(c, server, n).failures;
            && f <= n
            && (forall k: nat | n - f <= k < n :: Retryable(server(k).reply))
            && (f < n ==> StillPending(server(n - f - 1).reply))
  {
    if n > 0 {
      StepThrough(c, server, n - 1);
      CounterCounts(c, server, n - 1);
    }
  }

  /** With the real constants the next request leaves two seconds after a pending answer, and after the
      n-th failure in a row min(2 s * 2^(n-1), 30 s) later, as far as the scheduler wakes in time. */
  lemma PollSpacing(server: Server, n: nat)
    requires PointAt(LIMITS, server, n + 1).At?
    ensures var p, q, lap := PointAt(LIMITS, server, n), PointAt(LIMITS, server, n + 1), server(n);
            && p.At?
            && q.elapsed == p.elapsed + lap.took + lap.overslept
                 + if StillPending(lap.reply) then 2000 else Min(2000 * Pow2(p.failures), 30000)
  {
    var p := PointAt(LIMITS, server, n);
    LapGoesOnIff(LIMITS, server(n), p.elapsed, p.failures);
    BackoffAsDocumented(p.failures + 1);
  }

  // ---------- The failure counter ----------

  /** The counter never passes its limit, and the budget exit is taken exactly when it gets there. */
  lemma {:induction false} CounterBasics(c: Limits, server: Server, i: nat, elapsed: nat, failures: nat)
    requires Sensible(c) && failures < c.maxFailures
    ensures var e := PollFrom(c, server, i, elapsed, failures);
            && failures <= e.most <= c.maxFailures && e.failures <= e.most
            && (e.exit.BudgetExceeded? <==> e.failures == c.maxFailures)
            && (e.exit.BudgetExceeded? <==> e.most == c.maxFailures)
    decreases if elapsed > c.wallClock then 0 else c.wallClock + 1 - elapsed
  {
    match LapOutcome(c, server(i), elapsed, failures) {
      case Stop(_) =>
      case GoOn(later, n) => CounterBasics(c, server, i + 1, later, n);
    }
  }

  /** One lap keeps what the counter says about the time. */
  lemma LapNeedsTime(c: Limits, lap: Lap, elapsed: nat, failures: nat)
    requires Sensible(c) && failures < c.maxFailures && SumBackoffs(c, failures) <= elapsed
    requires failures > 0 ==> SumBackoffs(c, failures - 1) <= c.wallClock
    ensures match LapOutcome(c, lap, elapsed, failures)
            case Stop(e) => e.most > 0 ==> SumBackoffs(c, e.most - 1) <= c.wallClock
            case GoOn(later, n) =>
              && n < c.maxFailures && SumBackoffs(c, n) <= later
              && (n > 0 ==> SumBackoffs(c, n - 1) <= c.wallClock)
  {
  }

  /** A counter of n took n - 1 completed backoffs in a row, all of them over at a check of the wall
      clock. This holds of the largest value, so of every value on the way, resets or not. */
  lemma {:induction false} CounterNeedsTime(c: Limits, server: Server, i: nat, elapsed: nat, failures: nat)
    requires Sensible(c) && failures < c.maxFailures && SumBackoffs(c, failures) <= elapsed
    requires failures > 0 ==> SumBackoffs(c, failures - 1) <= c.wallClock
    ensures var most := PollFrom(c, server, i, elapsed, failures).most;
            most > 0 ==> SumBackoffs(c, most - 1) <= c.wallClock
    decreases if elapsed > c.wallClock then 0 else c.wallClock + 1 - elapsed
  {
    LapNeedsTime(c, server(i), elapsed, failures);
    match LapOutcome(c, server(i), elapsed, failures) {
      case Stop(_) =>
      case GoOn(later, n) => CounterNeedsTime(c, server, i + 1, later, n);
    }
  }

  /** The adversary that fails every request at once. */
  function Failing(): Server {
    (i: nat) => Lap(false, 0, TransientError, false, 0)
  }

  lemma {:induction false} SumGrows(c: Limits, n: nat, m: nat)
    requires n <= m
    ensures SumBackoffs(c, n) <= SumBackoffs(c, m)
  {
    if n < m {
      SumGrows(c, n, m - 1);
    }
  }

  lemma {:induction false} FailingCounts(c: Limits, i: nat, failures: nat, n: nat)
    requires Sensible(c) && failures < n <= c.maxFailures
    requires SumBackoffs(c, n - 1) <= c.wallClock
    ensures PollFrom(c, Failing(), i, SumBackoffs(c, failures), failures).most >= n
    decreases n - failures
  {
    SumGrows(c, failures, n - 1);
    if failures + 1 < n {
      BackoffPositive(c, failures + 1);
      FailingCounts(c, i + 1, failures + 1, n);
    } else if n < c.maxFailures {
      BackoffPositive(c, n);
      CounterBasics(c, Failing(), i + 1, SumBackoffs(c, n), n);
    }
  }

  /** For any limits: some server drives the counter to n exactly when n - 1 backoffs fit into the wall
      clock. */
  lemma CounterReachableIff(c: Limits, n: nat)
    requires Sensible(c) && 1 <= n <= c.maxFailures
    ensures (exists server: Server :: PollFrom(c, server, 0, 0, 0).most >= n) <==> SumBackoffs(c, n - 1) <= c.wallClock
  {
    if SumBackoffs(c, n - 1) <= c.wallClock {
      FailingCounts(c, 0, 0, n);
    }
    forall server: Server | PollFrom(c, server, 0, 0, 0).most >= n
      ensures SumBackoffs(c, n - 1) <= c.wallClock
    {
      CounterNeedsTime(c, server, 0, 0, 0);
      SumGrows(c, n - 1, PollFrom(c, server, 0, 0, 0).most - 1);
    }
  }

  /** So some server can exhaust the budget exactly when the backoffs between maxFailures failures fit. */
  lemma {:induction false} BudgetReachableIff(c: Limits)
    requires Sensible(c)
    ensures (exists server: Server :: PollFrom(c, server, 0, 0, 0).exit.BudgetExceeded?)
       <==> SumBackoffs(c, c.maxFailures - 1) <= c.wallClock
  {
    CounterReachableIff(c, c.maxFailures);
    forall server: Server
      ensures PollFrom(c, server, 0, 0, 0).exit.BudgetExceeded? <==> PollFrom(c, server, 0, 0, 0).most >= c.maxFailures
    {
      CounterBasics(c, server, 0, 0, 0);
    }
  }

  lemma {:induction false} CappedSum(n: nat)
    requires n >= 4
    ensures SumBackoffs(LIMITS, n) == 30000 + 30000 * (n - 4)
  {
    BackoffAsDocumented(n);
    if n == 4 {
      assert Pow2(3) == 8;
      assert BackoffFor(LIMITS, 1) == 2000 && BackoffFor(LIMITS, 2) == 4000;
      assert BackoffFor(LIMITS, 3) == 8000 && BackoffFor(LIMITS, 4) == 16000;
      assert SumBackoffs(LIMITS, 4) == SumBackoffs(LIMITS, 2) + 8000 + 16000;
    } else {
      CappedSum(n - 1);
      PowGrows(4, n - 1);
      assert Pow2(4) == 16;
    }
  }

  /** With the real constants no server can: 29 backoffs take 780 seconds and the clock stops at 600.
      The budget exits of the code are unreachable. */
  lemma BudgetNeverExhausted(server: Server)
    ensures !PollFrom(LIMITS, server, 0, 0, 0).exit.BudgetExceeded?
  {
    CappedSum(29);
    BudgetReachableIff(LIMITS);
  }

  /** Against every server, at every lap, the counter is at most 24 ... */
  lemma CounterAtMost24(server: Server)
    ensures PollFrom(LIMITS, server, 0, 0, 0).most <= 24
  {
    CappedSum(24);
    CounterReachableIff(LIMITS, 25);
  }

  /** ... and against some server it gets there. */
  lemma CounterReaches24()
    ensures exists server: Server :: PollFrom(LIMITS, server, 0, 0, 0).most == 24
  {
    CappedSum(23);
    CounterReachableIff(LIMITS, 24);
    var server: Server :| PollFrom(LIMITS, server, 0, 0, 0).most >= 24;
    CounterAtMost24(server);
  }

  /** The poll with its real constants. */
  method PairPollByDefault(server: Server) returns (exit: Exit, elapsed: nat, netFailures: nat, most: nat)
    ensures Ending(exit, elapsed, netFailures, most) == PollFrom(LIMITS, server, 0, 0, 0)
    ensures !exit.BudgetExceeded? && netFailures <= most <= 24
  {
    exit, elapsed, netFailures, most := PairPoll(LIMITS, server);
    BudgetNeverExhausted(server);
    CounterAtMost24(server);
    CounterBasics(LIMITS, server, 0, 0, 0);
  }

  /** And no wait is endless: with requests bounded by `took` and wake-ups by `late`, the poll ends
      within the wall clock plus one request and one sleep. */
  lemma {:induction false} PollEndsInTime(c: Limits, server: Server, took: nat, late: nat,
                                          i: nat, elapsed: nat, failures: nat)
    requires Sensible(c) && c.interval <= c.maxBackoff
    requires forall k :: server(k).took <= took && server(k).overslept <= late
    requires elapsed <= c.wallClock + took + c.maxBackoff + late
    ensures PollFrom(c, server, i, elapsed, failures).at <= c.wallClock + took + c.maxBackoff + late
    decreases if elapsed > c.wallClock then 0 else c.wallClock + 1 - elapsed
  {
    match LapOutcome(c, server(i), elapsed, failures) {
      case Stop(_) =>
      case GoOn(later, n) => PollEndsInTime(c, server, took, late, i + 1, later, n);
    }
  }
}
