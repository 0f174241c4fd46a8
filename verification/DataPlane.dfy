/** The per-session counters and observed states of client/observability.go, and the transition watcher
    of client/main.go. Times are Unix milliseconds. */
module DataPlane {
  datatype State = ControlConnected | LocalPacketSeen | NoReturnTraffic | BidirectionalSeen

  const DEGRADED_AFTER: nat := 90000
  const POLL_INTERVAL: nat := 5000

  /** A time at which a clock can read; 0 stands for "not seen yet" in the counters. */
  type Millis = t: nat | t >= 1 witness 1

  datatype Counters = Counters(framesUp: nat, bytesUp: nat, framesDown: nat, bytesDown: nat,
                               firstUp: nat, firstDown: nat)

  function Observe(m: Counters, now: Millis): State {
    if m.firstUp == 0 then ControlConnected
    else if m.firstDown == 0 then (if now - m.firstUp > DEGRADED_AFTER then NoReturnTraffic else LocalPacketSeen)
    else BidirectionalSeen
  }

  class Metrics {
    var framesUp: nat
    var bytesUp: nat
    var framesDown: nat
    var bytesDown: nat
    var firstUp: nat
    var firstDown: nat

    function Value(): Counters
      reads this
    {
      Counters(framesUp, bytesUp, framesDown, bytesDown, firstUp, firstDown)
    }

    constructor ()
      ensures Value() == Counters(0, 0, 0, 0, 0, 0)
    {
      framesUp, bytesUp, framesDown, bytesDown, firstUp, firstDown := 0, 0, 0, 0, 0, 0;
    }

    method MarkUp(n: nat, now: Millis) returns (first: bool)
      modifies this
      ensures Value() == Marked(old(Value()), Up(n, now))
      ensures first == (old(firstUp) == 0)
    {
      framesUp := framesUp + 1;
      bytesUp := bytesUp + n;
      first := firstUp == 0;
      if first {
        firstUp := now;
      }
    }

    method MarkDown(n: nat, now: Millis) returns (first: bool)
      modifies this
      ensures Value() == Marked(old(Value()), Down(n, now))
      ensures first == (old(firstDown) == 0)
    {
      framesDown := framesDown + 1;
      bytesDown := bytesDown + n;
      first := firstDown == 0;
      if first {
        firstDown := now;
      }
    }
  }

  // ---------- Sessions ----------

  /** One thing that happens in a session: a frame in either direction, or a look of the watcher. */
  datatype Event = Up(n: nat, now: Millis) | Down(n: nat, now: Millis) | Poll(now: Millis)

  function Marked(m: Counters, e: Event): Counters {
    match e
    case Up(n, now) =>
      m.(framesUp := m.framesUp + 1, bytesUp := m.bytesUp + n, firstUp := if m.firstUp == 0 then now else m.firstUp)
    case Down(n, now) =>
      m.(framesDown := m.framesDown + 1, bytesDown := m.bytesDown + n,
         firstDown := if m.firstDown == 0 then now else m.firstDown)
    case Poll(_) => m
  }

  /** The states the watcher logs from counters m on, `last` being the one it logged before. */
  function Logged(m: Counters, last: seq<State>, events: seq<Event>): seq<State>
    decreases |events|
  {
    if events == [] then []
    else if events[0].Poll? && last != [Observe(m, events[0].now)] then
      [Observe(m, events[0].now)] + Logged(m, [Observe(m, events[0].now)], events[1..])
    else Logged(Marked(m, events[0]), last, events[1..])
  }

  /** The watcher's loop body, run over a whole session. */
  method Watch(metrics: Metrics, events: seq<Event>) returns (log: seq<State>)
    modifies metrics
    ensures log == Logged(old(metrics.Value()), [], events)
  {
    log := [];
    var last: seq<State> := [];
    for i := 0 to |events|
      invariant log + Logged(metrics.Value(), last, events[i..]) == Logged(old(metrics.Value()), [], events)
    {
      assert events[i..][1..] == events[i + 1..];
      match events[i] {
        case Up(n, now) => var _ := metrics.MarkUp(n, now);
        case Down(n, now) => var _ := metrics.MarkDown(n, now);
        case Poll(now) =>
          var cur := Observe(metrics.Value(), now);
          if last != [cur] {
            log := log + [cur];
            last := [cur];
          }
      }
    }
  }

  function Rank(s: State): nat {
    match s
    case ControlConnected => 0
    case LocalPacketSeen => 1
    case NoReturnTraffic => 2
    case BidirectionalSeen => 3
  }

  /** The watcher's clock does not go back. */
  ghost predicate ClockFrom(events: seq<Event>, now: nat)
    decreases |events|
  {
    events != [] ==>
      if events[0].Poll? then events[0].now >= now && ClockFrom(events[1..], events[0].now)
      else ClockFrom(events[1..], now)
  }

  /** Every state in the log ranks above the one before it, the first above `floor`. */
  ghost predicate Climbs(log: seq<State>, floor: int) {
    log != [] ==> Rank(log[0]) > floor && Climbs(log[1..], Rank(log[0]))
  }

  /** With a clock that never goes back the observed state only climbs: everything the watcher logs
      ranks above what it logged before. */
  lemma {:induction false} LogClimbs(m: Counters, last: seq<State>, now: Millis, events: seq<Event>)
    requires ClockFrom(events, now)
    requires |last| <= 1 && (last != [] ==> Rank(last[0]) <= Rank(Observe(m, now)))
    ensures Climbs(Logged(m, last, events), if last == [] then -1 else Rank(last[0]))
    decreases |events|
  {
    if events != [] {
      if events[0].Poll? && last != [Observe(m, events[0].now)] {
        var cur := Observe(m, events[0].now);
        LogClimbs(m, [cur], events[0].now, events[1..]);
        assert ([cur] + Logged(m, [cur], events[1..]))[1..] == Logged(m, [cur], events[1..]);
        if last != [] {
          RankInjective(last[0], cur);
        }
      } else {
        LogClimbs(Marked(m, events[0]), last, if events[0].Poll? then events[0].now else now, events[1..]);
      }
    }
  }

  lemma RankInjective(a: State, b: State)
    ensures Rank(a) == Rank(b) <==> a == b
  {
  }

  lemma {:induction false} ClimbIsShort(log: seq<State>, floor: int)
    requires Climbs(log, floor) && floor >= -1
    ensures |log| <= if floor <= 3 then 3 - floor else 0
    decreases |log|
  {
    if log != [] {
      ClimbIsShort(log[1..], Rank(log[0]));
    }
  }

  /** So a session logs at most four transitions. */
  lemma {:induction false} AtMostFourTransitions(events: seq<Event>)
    requires ClockFrom(events, 1)
    ensures |Logged(ZERO, [], events)| <= 4
  {
    LogClimbs(ZERO, [], 1, events);
    ClimbIsShort(Logged(ZERO, [], events), -1);
  }

  function MarkedAll(m: Counters, events: seq<Event>): Counters
    decreases |events|
  {
    if events == [] then m else MarkedAll(Marked(m, events[0]), events[1..])
  }

  /** What the watcher remembers after these events. */
  function LastLogged(m: Counters, last: seq<State>, events: seq<Event>): seq<State> {
    var log := Logged(m, last, events);
    if log == [] then last else [log[|log| - 1]]
  }

  lemma {:induction false} LoggedConcat(m: Counters, last: seq<State>, a: seq<Event>, b: seq<Event>)
    ensures Logged(m, last, a + b) == Logged(m, last, a) + Logged(MarkedAll(m, a), LastLogged(m, last, a), b)
    decreases |a|
  {
    if a == [] {
      assert a + b == b;
    } else {
      assert (a + b)[1..] == a[1..] + b;
      if a[0].Poll? && last != [Observe(m, a[0].now)] {
        LoggedConcat(m, [Observe(m, a[0].now)], a[1..], b);
      } else {
        LoggedConcat(Marked(m, a[0]), last, a[1..], b);
      }
    }
  }

  function Count(events: seq<Event>, up: bool): nat {
    if events == [] then 0
    else Count(events[1..], up) + if InDirection(events[0], up) then 1 else 0
  }

  function Bytes(events: seq<Event>, up: bool): nat {
    if events == [] then 0
    else Bytes(events[1..], up) + if InDirection(events[0], up) then events[0].n else 0
  }

  /** The counters count every frame and its bytes once, each direction apart. */
  lemma {:induction false} CountersAdd(m: Counters, events: seq<Event>)
    ensures var t := MarkedAll(m, events);
            && t.framesUp == m.framesUp + Count(events, true) && t.bytesUp == m.bytesUp + Bytes(events, true)
            && t.framesDown == m.framesDown + Count(events, false) && t.bytesDown == m.bytesDown + Bytes(events, false)
    decreases |events|
  {
    if events != [] {
      CountersAdd(Marked(m, events[0]), events[1..]);
    }
  }

  /** Event i is the session's first frame in this direction. */
  predicate FirstFrame(events: seq<Event>, i: nat, up: bool) {
    i < |events| && InDirection(events[i], up) && !Frames(events[..i], up)
  }

  predicate InDirection(e: Event, up: bool) {
    if up then e.Up? else e.Down?
  }

  predicate Frames(events: seq<Event>, up: bool) {
    exists i :: 0 <= i < |events| && InDirection(events[i], up)
  }

  const ZERO: Counters := Counters(0, 0, 0, 0, 0, 0)

  lemma {:induction false} MarkedSnoc(m: Counters, events: seq<Event>, e: Event)
    ensures MarkedAll(m, events + [e]) == Marked(MarkedAll(m, events), e)
    decreases |events|
  {
    if events == [] {
      assert [e][1..] == [] && events + [e] == [e];
    } else {
      assert (events + [e])[1..] == events[1..] + [e];
      MarkedSnoc(Marked(m, events[0]), events[1..], e);
    }
  }

  /** The counters' first times are those of the first frames, and 0 stands for none. */
  lemma {:induction false} FirstTimes(events: seq<Event>)
    ensures var m := MarkedAll(ZERO, events);
            && (m.firstUp == 0 <==> !Frames(events, true)) && (m.firstDown == 0 <==> !Frames(events, false))
            && (m.firstUp > 0 ==> exists i: nat :: FirstFrame(events, i, true) && events[i].now == m.firstUp)
            && (m.firstDown > 0 ==> exists i: nat :: FirstFrame(events, i, false) && events[i].now == m.firstDown)
    decreases |events|
  {
    if events != [] {
      var n := |events| - 1;
      var init, e := events[..n], events[n];
      FirstTimes(init);
      MarkedSnoc(ZERO, init, e);
      assert events == init + [e];
      FramesSnoc(init, e, true);
      FramesSnoc(init, e, false);
      var m := MarkedAll(ZERO, init);
      if m.firstUp > 0 {
        var i: nat :| FirstFrame(init, i, true) && init[i].now == m.firstUp;
        assert events[..i] == init[..i];
        assert FirstFrame(events, i, true);
      } else if e.Up? {
        assert FirstFrame(events, n, true);
      }
      if m.firstDown > 0 {
        var i: nat :| FirstFrame(init, i, false) && init[i].now == m.firstDown;
        assert events[..i] == init[..i];
        assert FirstFrame(events, i, false);
      } else if e.Down? {
        assert FirstFrame(events, n, false);
      }
    }
  }

  lemma FramesSnoc(init: seq<Event>, e: Event, up: bool)
    ensures Frames(init + [e], up) <==> Frames(init, up) || InDirection(e, up)
  {
    var events := init + [e];
    if Frames(init, up) {
      var i :| 0 <= i < |init| && InDirection(init[i], up);
      assert InDirection(events[i], up);
    }
    if InDirection(e, up) {
      assert InDirection(events[|init|], up);
    }
  }

  /** What a poll observes, in terms of the session's frames: nothing sent; frames both ways; or, with
      nothing returned, whether the first frame is more than 90 seconds old. */
  lemma {:induction false} ObservedIff(events: seq<Event>, now: Millis)
    ensures var s := Observe(MarkedAll(ZERO, events), now);
            && (s == ControlConnected <==> !Frames(events, true))
            && (s == BidirectionalSeen <==> Frames(events, true) && Frames(events, false))
            && (s == NoReturnTraffic <==> !Frames(events, false) && FirstFrameAged(events, now, true))
            && (s == LocalPacketSeen <==> !Frames(events, false) && FirstFrameAged(events, now, false))
  {
    FirstTimes(events);
    if Frames(events, true) {
      var i: nat :| FirstFrame(events, i, true) && events[i].now == MarkedAll(ZERO, events).firstUp;
      FirstFrameAgedIff(events, now, i);
    }
  }

  /** There is a first outbound frame, and at `now` it is or is not more than 90 seconds old. */
  ghost predicate FirstFrameAged(events: seq<Event>, now: Millis, aged: bool) {
    exists i: nat :: FirstFrame(events, i, true) && (now > events[i].now + 90000 <==> aged)
  }

  lemma FirstFrameAgedIff(events: seq<Event>, now: Millis, i: nat)
    requires FirstFrame(events, i, true)
    ensures FirstFrameAged(events, now, true) <==> now > events[i].now + 90000
    ensures FirstFrameAged(events, now, false) <==> now <= events[i].now + 90000
  {
    forall j: nat | FirstFrame(events, j, true)
      ensures i == j
    {
      OneFirstFrame(events, i, j);
    }
  }

  lemma OneFirstFrame(events: seq<Event>, i: nat, j: nat)
    requires FirstFrame(events, i, true) && FirstFrame(events, j, true)
    ensures i == j
  {
    if i < j {
      EarlierFrame(events, i, j);
    } else if j < i {
      EarlierFrame(events, j, i);
    }
  }

  lemma EarlierFrame(events: seq<Event>, i: nat, j: nat)
    requires i < j <= |events| && InDirection(events[i], true)
    ensures Frames(events[..j], true)
  {
    assert InDirection(events[..j][i], true);
  }

  /** Poll i of these events observes x. */
  predicate PollSees(m: Counters, events: seq<Event>, i: nat, x: State) {
    i < |events| && events[i].Poll? && Observe(MarkedAll(m, events[..i]), events[i].now) == x
  }

  lemma {:induction false} LoggedIff(m: Counters, last: seq<State>, events: seq<Event>, x: State)
    requires |last| <= 1
    ensures x in last || x in Logged(m, last, events) <==> x in last || exists i :: PollSees(m, events, i, x)
    decreases |events|
  {
    if events != [] {
      var e, rest := events[0], events[1..];
      var seen := if e.Poll? then [Observe(m, e.now)] else last;
      LoggedIff(Marked(m, e), seen, rest, x);
      forall i: nat
        ensures PollSees(m, events, i + 1, x) <==> PollSees(Marked(m, e), rest, i, x)
      {
        if i < |rest| {
          assert events[..i + 1][0] == e && events[..i + 1][1..] == rest[..i];
        }
      }
      assert PollSees(m, events, 0, x) <==> e.Poll? && Observe(m, e.now) == x;
      if i: nat :| PollSees(m, events, i, x) {
        assert i == 0 || PollSees(Marked(m, e), rest, i - 1, x);
      }
      if i: nat :| PollSees(Marked(m, e), rest, i, x) {
        assert PollSees(m, events, i + 1, x);
      }
    }
  }

  /** A state is in a session's log if and only if some poll observes it. */
  lemma {:induction false} SessionLogIff(events: seq<Event>, x: State)
    ensures x in Logged(ZERO, [], events) <==> exists i :: PollSees(ZERO, events, i, x)
  {
    LoggedIff(ZERO, [], events, x);
  }

  /** So NO_RETURN is logged if and only if a poll comes more than 90 seconds after the first outbound
      frame with none returned before it, and BIDIRECTIONAL if and only if one comes after frames in both
      directions. */
  lemma {:induction false} LoggedStates(events: seq<Event>)
    ensures NoReturnTraffic in Logged(ZERO, [], events) <==>
              exists i :: 0 <= i < |events| && events[i].Poll? && !Frames(events[..i], false)
                       && FirstFrameAged(events[..i], events[i].now, true)
    ensures BidirectionalSeen in Logged(ZERO, [], events) <==>
              exists i :: 0 <= i < |events| && events[i].Poll?
                       && Frames(events[..i], true) && Frames(events[..i], false)
  {
    SessionLogIff(events, NoReturnTraffic);
    SessionLogIff(events, BidirectionalSeen);
    forall i: nat | i < |events| && events[i].Poll?
      ensures PollSees(ZERO, events, i, NoReturnTraffic) <==>
                !Frames(events[..i], false) && FirstFrameAged(events[..i], events[i].now, true)
      ensures PollSees(ZERO, events, i, BidirectionalSeen) <==> Frames(events[..i], true) && Frames(events[..i], false)
    {
      ObservedIff(events[..i], events[i].now);
    }
  }

  /** Every poll comes within one interval of the one before it, the first within one of `previous`. */
  ghost predicate PollsOften(events: seq<Event>, previous: nat)
    decreases |events|
  {
    events != [] ==>
      if events[0].Poll? then
        previous <= events[0].now <= previous + POLL_INTERVAL && PollsOften(events[1..], events[0].now)
      else PollsOften(events[1..], previous)
  }

  ghost predicate NoReturn(events: seq<Event>) {
    forall i | 0 <= i < |events| :: !events[i].Down?
  }

  /** A poll finds the silence outlasting the bound, within one interval of it, and by then the watcher
      has logged it. */
  ghost predicate LoggedInTime(m: Counters, last: seq<State>, events: seq<Event>, k: nat, up: nat) {
    && k < |events| && events[k].Poll?
    && events[k].now <= up + DEGRADED_AFTER + POLL_INTERVAL
    && NoReturnTraffic in Logged(m, last, events[..k + 1])
  }

  lemma LoggedLater(m: Counters, last: seq<State>, events: seq<Event>, k: nat, up: nat)
    requires events != []
    requires var e := events[0];
             LoggedInTime(Marked(m, e), if e.Poll? then [Observe(m, e.now)] else last, events[1..], k, up)
    ensures LoggedInTime(m, last, events, k + 1, up)
  {
    assert events[..k + 2][1..] == events[1..][..k + 1];
  }

  lemma {:induction false} SilenceIsLogged(m: Counters, last: seq<State>, events: seq<Event>, previous: nat, q: nat)
    returns (k: nat)
    requires m.firstUp >= 1 && m.firstDown == 0 && last != [NoReturnTraffic]
    requires PollsOften(events, previous) && previous <= m.firstUp + DEGRADED_AFTER
    requires q < |events| && events[q].Poll? && events[q].now > m.firstUp + DEGRADED_AFTER && NoReturn(events[..q])
    ensures k <= q && LoggedInTime(m, last, events, k, m.firstUp)
    decreases |events|
  {
    var e := events[0];
    if e.Poll? && e.now > m.firstUp + DEGRADED_AFTER {
      k := 0;
      assert Observe(m, e.now) == NoReturnTraffic;
      assert Logged(m, last, events[..1]) == [NoReturnTraffic] + Logged(m, [NoReturnTraffic], events[..1][1..]);
    } else {
      assert q > 0;
      assert e == events[..q][0] && !e.Down?;
      assert events[1..][..q - 1] == events[..q][1..];
      var seen := if e.Poll? then [Observe(m, e.now)] else last;
      var j := SilenceIsLogged(Marked(m, e), seen, events[1..], if e.Poll? then e.now else previous, q - 1);
      LoggedLater(m, last, events, j, m.firstUp);
      k := j + 1;
    }
  }

  lemma {:induction false} IdleBefore(before: seq<Event>, last: seq<State>)
    requires forall i | 0 <= i < |before| :: before[i].Poll?
    requires last == [] || last == [ControlConnected]
    ensures var m := Counters(0, 0, 0, 0, 0, 0);
            MarkedAll(m, before) == m && LastLogged(m, last, before) != [NoReturnTraffic]
    decreases |before|
  {
    var m := Counters(0, 0, 0, 0, 0, 0);
    if before != [] {
      IdleBefore(before[1..], [ControlConnected]);
      if last == [] {
        var rest := Logged(m, [ControlConnected], before[1..]);
        assert Logged(m, last, before) == [ControlConnected] + rest;
      }
    }
  }

  /** Over a whole session: if after its first outbound frame, at `up`, the polls go on at the interval
      and reach past the bound with no frame returned until then, NO_RETURN is in the watcher's log by a
      poll within the bound plus one interval. Frames sent meanwhile make no difference. */
  lemma SilenceIsReported(before: seq<Event>, n: nat, up: Millis, after: seq<Event>, previous: nat, q: nat)
    returns (k: nat)
    requires forall i | 0 <= i < |before| :: before[i].Poll?
    requires PollsOften(after, previous) && previous <= up + DEGRADED_AFTER
    requires q < |after| && after[q].Poll? && after[q].now > up + DEGRADED_AFTER && NoReturn(after[..q])
    ensures k <= q && after[k].Poll? && after[k].now <= up + DEGRADED_AFTER + POLL_INTERVAL
    ensures NoReturnTraffic in Logged(ZERO, [], before + ([Up(n, up)] + after[..k + 1]))
  {
    var m := Counters(0, 0, 0, 0, 0, 0);
    IdleBefore(before, []);
    var last := LastLogged(m, [], before);
    var sent := Marked(m, Up(n, up));
    k := SilenceIsLogged(sent, last, after, previous, q);
    LoggedConcat(m, [], before, [Up(n, up)] + after[..k + 1]);
    assert ([Up(n, up)] + after[..k + 1])[1..] == after[..k + 1];
  }
}
