/** The read deadline of wsToUDP in server/main.go, kept alive by pongs only (pings and pongs as in
    sections 5.5.2 and 5.5.3 of RFC 6455). Times are in any fixed unit. */
module PongDeadline {
  datatype Timing = Timing(pingInterval: nat, pongTimeout: nat)

  /** Something the read loop sees: a pong, or any other frame. */
  datatype Event = Event(time: nat, isPong: bool)

  /** The deadline after the first n events: the last pong's time plus the timeout, or the seed. */
  function Deadline(c: Timing, start: nat, events: seq<Event>, n: nat): nat
    requires n <= |events|
  {
    if n == 0 then start + c.pingInterval + c.pongTimeout
    else if events[n - 1].isPong then events[n - 1].time + c.pongTimeout
    else Deadline(c, start, events, n - 1)
  }

  /** What is seen from `start` to `until`, in order. */
  ghost predicate InOrder(start: nat, events: seq<Event>, until: nat) {
    && start <= until
    && (forall i | 0 <= i < |events| :: start <= events[i].time <= until)
    && (forall i, j | 0 <= i < j < |events| :: events[i].time <= events[j].time)
  }

  /** How far a read has to wait after n events: to the next one, or to the end of the observation. */
  function Next(events: seq<Event>, until: nat, n: nat): nat
    requires n <= |events|
  {
    if n < |events| then events[n].time else until
  }

  /** The reads before the n-th all got their event in time. */
  ghost predicate Survives(c: Timing, start: nat, events: seq<Event>, until: nat, n: nat)
    requires n <= |events|
  {
    forall k | 0 <= k < n :: Next(events, until, k) <= Deadline(c, start, events, k)
  }

  /** The loop ends at time `at`: the first read to time out does so then. */
  ghost predicate EndsAt(c: Timing, start: nat, events: seq<Event>, until: nat, at: nat) {
    exists n: nat :: n <= |events| && Survives(c, start, events, until, n)
                  && at == Deadline(c, start, events, n) < Next(events, until, n)
  }

  /** The read loop, watched until some moment. A read times out when its deadline passes before the
      next event, and also when no further event comes. */
  method ReadLoop(c: Timing, start: nat, events: seq<Event>, until: nat) returns (expired: bool, at: nat)
    requires InOrder(start, events, until)
    ensures expired ==> EndsAt(c, start, events, until, at)
    ensures forall t :: EndsAt(c, start, events, until, t) ==> expired && t == at
    ensures !expired ==> at == Deadline(c, start, events, |events|) >= until
  {
    at := start + c.pingInterval + c.pongTimeout;
    for n := 0 to |events|
      invariant at == Deadline(c, start, events, n)
      invariant Survives(c, start, events, until, n)
    {
      if at < events[n].time {
        assert EndsAt(c, start, events, until, at);
        EndIsUnique(c, start, events, until);
        return true, at;
      }
      if events[n].isPong {
        at := events[n].time + c.pongTimeout;
      }
    }
    expired := at < until;
    if expired {
      assert EndsAt(c, start, events, until, at);
      EndIsUnique(c, start, events, until);
    }
  }

  /** There is at most one end. */
  lemma EndIsUnique(c: Timing, start: nat, events: seq<Event>, until: nat)
    ensures forall s, t :: EndsAt(c, start, events, until, s) && EndsAt(c, start, events, until, t) ==> s == t
  {
    forall s, t | EndsAt(c, start, events, until, s) && EndsAt(c, start, events, until, t)
      ensures s == t
    {
      SameEnd(c, start, events, until, s, t);
    }
  }

  lemma SameEnd(c: Timing, start: nat, events: seq<Event>, until: nat, s: nat, t: nat)
    requires EndsAt(c, start, events, until, s) && EndsAt(c, start, events, until, t)
    ensures s == t
  {
    var m: nat :| m <= |events| && Survives(c, start, events, until, m)
            && s == Deadline(c, start, events, m) < Next(events, until, m);
    var n: nat :| n <= |events| && Survives(c, start, events, until, n)
            && t == Deadline(c, start, events, n) < Next(events, until, n);
  }

  // ---------- Answered pings ----------

  /** Pings leave every pingInterval after `first`, the start of the ping timer, and each that leaves
      while the loop runs is answered within `delay`, as far as the observation reaches. */
  ghost predicate Answered(c: Timing, start: nat, first: nat, delay: nat, events: seq<Event>, until: nat) {
    forall k: nat | k >= 1 && start <= first + k * c.pingInterval && first + k * c.pingInterval + delay < until ::
      exists i :: 0 <= i < |events| && events[i].isPong
               && first + k * c.pingInterval <= events[i].time <= first + k * c.pingInterval + delay
  }

  /** No pong comes before the first ping: pongs only answer. */
  ghost predicate OnlyAnswers(c: Timing, first: nat, events: seq<Event>) {
    forall i | 0 <= i < |events| && events[i].isPong :: first + c.pingInterval <= events[i].time
  }

  /** A connection that answers within `delay`, whose ping timer starts at most `skew` after the deadline
      is seeded. Unless `solicited`, it may also send pongs of its own accord. Other frames come as they like. */
  ghost predicate Lives(c: Timing, skew: nat, delay: nat, solicited: bool,
                        start: nat, first: nat, events: seq<Event>, until: nat) {
    && InOrder(start, events, until) && first <= start + skew
    && Answered(c, start, first, delay, events, until)
    && (solicited ==> OnlyAnswers(c, first, events))
  }

  ghost predicate Expires(c: Timing, start: nat, events: seq<Event>, until: nat) {
    exists t :: EndsAt(c, start, events, until, t)
  }

  /** No such connection is ever closed by its read deadline. */
  ghost predicate AlwaysSafe(c: Timing, skew: nat, delay: nat, solicited: bool) {
    forall start, first, events, until ::
      Lives(c, skew, delay, solicited, start, first, events, until) ==> !Expires(c, start, events, until)
  }

  lemma {:induction false} PongHolds(c: Timing, start: nat, events: seq<Event>, until: nat, i: nat, n: nat)
    requires InOrder(start, events, until) && i < n <= |events| && events[i].isPong
    ensures Deadline(c, start, events, n) >= events[i].time + c.pongTimeout
  {
    if i < n - 1 {
      PongHolds(c, start, events, until, i, n - 1);
    }
  }

  lemma {:induction false} DeadlineAtLeast(c: Timing, start: nat, events: seq<Event>, until: nat, n: nat)
    requires InOrder(start, events, until) && n <= |events|
    ensures Deadline(c, start, events, n) >= start + c.pongTimeout
    ensures (forall i | 0 <= i < n :: !events[i].isPong) ==>
              Deadline(c, start, events, n) == start + c.pingInterval + c.pongTimeout
  {
    if n > 0 {
      DeadlineAtLeast(c, start, events, until, n - 1);
    }
  }

  /** The last multiple of d up to x. */
  lemma {:induction false} LastPing(x: nat, d: nat) returns (k: nat)
    requires 1 <= d <= x
    ensures k >= 1 && k * d <= x < k * d + d
  {
    if x < 2 * d {
      k := 1;
    } else {
      var j := LastPing(x - d, d);
      k := j + 1;
      assert k * d == j * d + d;
    }
  }

  /** At any moment the next ping's answer is not overdue yet, or the last one's pong carries over. */
  lemma {:induction false} ReadInTime(c: Timing, skew: nat, delay: nat, solicited: bool,
                   start: nat, first: nat, events: seq<Event>, until: nat, n: nat)
    requires c.pingInterval >= 1 && n <= |events| && Lives(c, skew, delay, solicited, start, first, events, until)
    requires if solicited then c.pingInterval + delay <= c.pongTimeout && skew + delay <= c.pongTimeout
             else c.pingInterval + delay + skew <= c.pongTimeout
    ensures Next(events, until, n) <= Deadline(c, start, events, n)
  {
    var t := Next(events, until, n);
    DeadlineAtLeast(c, start, events, until, n);
    if t <= first + c.pingInterval + delay {
      if i: nat :| i < n && events[i].isPong {
        PongHolds(c, start, events, until, i, n);
      }
    } else {
      var k := LastPing(t - 1 - delay - first, c.pingInterval);
      if start <= first + k * c.pingInterval {
        var i :| 0 <= i < |events| && events[i].isPong
              && first + k * c.pingInterval <= events[i].time <= first + k * c.pingInterval + delay;
        assert i < n;
        PongHolds(c, start, events, until, i, n);
      }
    }
  }

  lemma LiveConnectionNeverExpires(c: Timing, skew: nat, delay: nat, solicited: bool)
    requires c.pingInterval >= 1
    requires if solicited then c.pingInterval + delay <= c.pongTimeout && skew + delay <= c.pongTimeout
             else c.pingInterval + delay + skew <= c.pongTimeout
    ensures AlwaysSafe(c, skew, delay, solicited)
  {
    forall start, first, events, until | Lives(c, skew, delay, solicited, start, first, events, until)
      ensures !Expires(c, start, events, until)
    {
      forall n: nat | n <= |events|
        ensures Next(events, until, n) <= Deadline(c, start, events, n)
      {
        ReadInTime(c, skew, delay, solicited, start, first, events, until, n);
      }
    }
  }

  /** Every multiple of the interval from the b-th on is at least the b-th. */
  lemma Grows(b: nat, k: nat, d: nat)
    requires b <= k
    ensures b * d <= k * d
  {
  }

  /** A pong at once on the start, then silence until the first answer is overdue. */
  lemma EagerPongExpires(c: Timing, skew: nat, delay: nat)
    requires c.pingInterval >= 1 && c.pingInterval + delay + skew > c.pongTimeout
    ensures !AlwaysSafe(c, skew, delay, false)
  {
    var events, until := [Event(0, true)], skew + c.pingInterval + delay;
    forall k: nat | k >= 1
      ensures skew + k * c.pingInterval + delay >= until
    {
      Grows(1, k, c.pingInterval);
    }
    assert Lives(c, skew, delay, false, 0, skew, events, until);
    assert Deadline(c, 0, events, 1) == c.pongTimeout;
    assert Survives(c, 0, events, until, 1);
    assert EndsAt(c, 0, events, until, c.pongTimeout);
  }

  /** The first ping answered at once, the second as late as allowed. */
  lemma LateSecondAnswerExpires(c: Timing, skew: nat, delay: nat)
    requires c.pingInterval >= 1 && c.pingInterval + delay > c.pongTimeout
    ensures !AlwaysSafe(c, skew, delay, true)
  {
    var events, until := [Event(c.pingInterval, true)], 2 * c.pingInterval + delay;
    forall k: nat | k >= 1 && 0 + k * c.pingInterval + delay < until
      ensures k == 1
    {
      if k >= 2 {
        Grows(2, k, c.pingInterval);
      }
    }
    assert events[0].isPong;
    assert Lives(c, skew, delay, true, 0, 0, events, until);
    assert Deadline(c, 0, events, 1) == c.pingInterval + c.pongTimeout;
    assert Survives(c, 0, events, until, 1);
    assert EndsAt(c, 0, events, until, c.pingInterval + c.pongTimeout);
  }

  /** No answer before the first one is overdue, the ping timer having started as late as allowed. */
  lemma LateFirstAnswerExpires(c: Timing, skew: nat, delay: nat)
    requires c.pingInterval >= 1 && skew + delay > c.pongTimeout
    ensures !AlwaysSafe(c, skew, delay, true)
  {
    var until := skew + c.pingInterval + delay;
    forall k: nat | k >= 1
      ensures skew + k * c.pingInterval + delay >= until
    {
      Grows(1, k, c.pingInterval);
    }
    assert Lives(c, skew, delay, true, 0, skew, [], until);
    assert Deadline(c, 0, [], 0) == c.pingInterval + c.pongTimeout;
    assert EndsAt(c, 0, [], until, c.pingInterval + c.pongTimeout);
  }

  /** The exact bounds. For pongs that only answer pings, interval and delay must fit into the timeout,
      and so must skew and delay; if the peer may also send pongs of its own accord, all three must fit
      together. */
  lemma SafeIff(c: Timing, skew: nat, delay: nat)
    requires c.pingInterval >= 1
    ensures AlwaysSafe(c, skew, delay, true) <==>
              c.pingInterval + delay <= c.pongTimeout && skew + delay <= c.pongTimeout
    ensures AlwaysSafe(c, skew, delay, false) <==> c.pingInterval + delay + skew <= c.pongTimeout
  {
    if c.pingInterval + delay > c.pongTimeout {
      LateSecondAnswerExpires(c, skew, delay);
    } else if skew + delay > c.pongTimeout {
      LateFirstAnswerExpires(c, skew, delay);
    } else {
      LiveConnectionNeverExpires(c, skew, delay, true);
    }
    if c.pingInterval + delay + skew > c.pongTimeout {
      EagerPongExpires(c, skew, delay);
    } else {
      LiveConnectionNeverExpires(c, skew, delay, false);
    }
  }

  // ---------- Silence ----------

  /** The deadline left by the last pong, or by the seed if there was none. */
  function LastDeadline(c: Timing, start: nat, events: seq<Event>, last: nat): nat
    requires last <= |events|
  {
    c.pongTimeout + if last == 0 then start + c.pingInterval else events[last - 1].time
  }

  lemma {:induction false} SilenceKeepsDeadline(c: Timing, start: nat, events: seq<Event>, last: nat, n: nat)
    requires last <= n <= |events|
    requires forall i | last <= i < n :: !events[i].isPong
    requires last == 0 || events[last - 1].isPong
    ensures Deadline(c, start, events, n) == LastDeadline(c, start, events, last)
    decreases n
  {
    if n > last {
      SilenceKeepsDeadline(c, start, events, last, n - 1);
    }
  }

  /** The first read from n on that is not served in time, when the last one is not. */
  lemma FirstMiss(c: Timing, start: nat, events: seq<Event>, until: nat, n: nat) returns (m: nat)
    requires n <= |events| && Survives(c, start, events, until, n)
    requires Deadline(c, start, events, |events|) < until
    ensures n <= m <= |events| && Survives(c, start, events, until, m)
    ensures Deadline(c, start, events, m) < Next(events, until, m)
    decreases |events| - n
  {
    if Deadline(c, start, events, n) < Next(events, until, n) {
      m := n;
    } else {
      m := FirstMiss(c, start, events, until, n + 1);
    }
  }

  /** When pongs stop, the loop ends as soon as the deadline they left passes, however many other frames
      still come: never later than the timeout after the last pong, or the interval and the timeout after
      the start if there was none; and exactly then if it got that far. */
  lemma SilentConnectionExpires(c: Timing, start: nat, events: seq<Event>, until: nat, last: nat)
    requires InOrder(start, events, until) && last <= |events|
    requires forall i | last <= i < |events| :: !events[i].isPong
    requires last == 0 || events[last - 1].isPong
    requires until > LastDeadline(c, start, events, last)
    ensures exists at: nat :: EndsAt(c, start, events, until, at) && at <= LastDeadline(c, start, events, last)
    ensures Survives(c, start, events, until, last) ==>
              EndsAt(c, start, events, until, LastDeadline(c, start, events, last))
  {
    SilenceKeepsDeadline(c, start, events, last, |events|);
    var m := FirstMiss(c, start, events, until, 0);
    if m >= last {
      SilenceKeepsDeadline(c, start, events, last, m);
    }
    assert EndsAt(c, start, events, until, Deadline(c, start, events, m));
    if Survives(c, start, events, until, last) {
      var n := FirstMiss(c, start, events, until, last);
      SilenceKeepsDeadline(c, start, events, last, n);
      assert EndsAt(c, start, events, until, Deadline(c, start, events, n));
    }
  }
}
