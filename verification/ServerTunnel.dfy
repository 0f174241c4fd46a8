/** The tunnels of server/main.go: the goroutines of every tunnel in any interleaving, the once-only
    close, and the count of active tunnels. */
module ServerTunnel {
  import opened Basics

  /** The goroutines that defer t.close(). */
  datatype Worker = Ping | WsToUdp | UdpToWs

  /** Where such a goroutine is. Ping: Idle selects, Busy writes a ping. WsToUdp: Idle reads a frame,
      Busy writes the datagram. UdpToWs: Idle checks done, Busy reads a datagram, Writing the frame. */
  datatype Pc = Idle | Busy | Writing | Closing | InBody | Ended

  /** sync.Once: the first caller runs the body, later callers wait for its end. */
  datatype Once = Unused | Running(step: nat) | Finished

  datatype Tunnel = Tunnel(
    once: Once, bodyRuns: nat,
    done: bool, udpOpen: bool, wsOpen: bool, decremented: bool,
    ping: Pc, ws: Pc, udp: Pc,
    buffered: nat,          // frames already read off the WebSocket's connection
    statsRunning: bool, ticks: nat,
    handlerWaiting: bool,
    inward: Relay,          // binary frames to datagrams
    outward: Relay)         // datagrams to frames

  /** What one direction has read, and what it has written. */
  datatype Relay = Relay(read: seq<Bytes>, written: seq<Bytes>)

  function Took(r: Relay, data: Bytes): Relay {
    r.(read := r.read + [data])
  }

  /** Writes what was read last. */
  function Passed(r: Relay): Relay {
    if r.read == [] then r else r.(written := r.written + [r.read[|r.read| - 1]])
  }

  datatype State = State(activeConns: int, tunnels: seq<Tunnel>)

  const INIT := State(0, [])

  /** A tunnel as handleTunnel starts it. Without a statistics interval its statistics loop returns at once. */
  function Opened(stats: bool): Tunnel {
    Tunnel(Unused, 0, false, true, true, false, Idle, Idle, Idle, 0, stats, 0, true, Relay([], []), Relay([], []))
  }

  /** The last step of the close body. */
  const LAST: nat := 4

  datatype PingAct = PingTick | PingMaxAge | PingDone | PingWrite(ok: bool)
  datatype WsAct =
    | WsArrive(n: nat)                   // frames reach the connection
    | WsFrame(binary: bool, data: Bytes) | WsError | WsForward(ok: bool)
  datatype UdpAct = UdpCheck | UdpData(data: Bytes) | UdpTimeout | UdpError | UdpSend(ok: bool)
  datatype CloseAct = EnterClose | BodyStep | PassClose
  datatype OtherAct =
    | StatsTick                          // the ticker fires
    | StatsLog | StatsDone
    | HandlerReturns

  datatype Act =
    | OfPing(p: PingAct)
    | OfWs(s: WsAct)
    | OfUdp(u: UdpAct)
    | OfClose(w: Worker, c: CloseAct)
    | OfOther(o: OtherAct)

  predicate IsTick(a: Act) {
    a.OfOther? && a.o.StatsTick?
  }

  function PcOf(t: Tunnel, w: Worker): Pc {
    match w case Ping => t.ping case WsToUdp => t.ws case UdpToWs => t.udp
  }

  predicate At(t: Tunnel, w: Worker, p: Pc) {
    PcOf(t, w) == p
  }

  function Go(t: Tunnel, w: Worker, p: Pc): Tunnel {
    match w case Ping => t.(ping := p) case WsToUdp => t.(ws := p) case UdpToWs => t.(udp := p)
  }

  // Whether the act is possible now. Operations on a closed socket only fail; a closed WebSocket may
  // still yield frames that were buffered.

  predicate PingPossible(t: Tunnel, a: PingAct) {
    match a
    case PingTick => t.ping == Idle
    case PingMaxAge => t.ping == Idle
    case PingDone => t.ping == Idle && t.done
    case PingWrite(ok) => t.ping == Busy && (ok ==> t.wsOpen)
  }

  predicate WsPossible(t: Tunnel, a: WsAct) {
    match a
    case WsArrive(n) => t.wsOpen && n > 0
    case WsFrame(_, _) => t.ws == Idle && t.buffered > 0
    case WsError => t.ws == Idle
    case WsForward(ok) => t.ws == Busy && (ok ==> t.udpOpen)
  }

  predicate UdpPossible(t: Tunnel, a: UdpAct) {
    match a
    case UdpCheck => t.udp == Idle
    case UdpData(_) => t.udp == Busy && t.udpOpen
    case UdpTimeout => t.udp == Busy && t.udpOpen
    case UdpError => t.udp == Busy
    case UdpSend(ok) => t.udp == Writing && (ok ==> t.wsOpen)
  }

  predicate ClosePossible(t: Tunnel, w: Worker, a: CloseAct) {
    match a
    case EnterClose => At(t, w, Closing) && t.once.Unused?
    case BodyStep => At(t, w, InBody) && t.once.Running? && t.once.step <= LAST
    case PassClose => At(t, w, Closing) && t.once.Finished?
  }

  predicate OtherPossible(t: Tunnel, a: OtherAct) {
    match a
    case StatsTick => t.ticks == 0
    case StatsLog => t.statsRunning && t.ticks > 0
    case StatsDone => t.statsRunning && t.done
    case HandlerReturns => t.handlerWaiting && t.done
  }

  predicate Possible(t: Tunnel, a: Act) {
    match a
    case OfPing(p) => PingPossible(t, p)
    case OfWs(s) => WsPossible(t, s)
    case OfUdp(u) => UdpPossible(t, u)
    case OfClose(w, c) => ClosePossible(t, w, c)
    case OfOther(o) => OtherPossible(t, o)
  }

  function PingEffect(t: Tunnel, a: PingAct): Tunnel {
    match a
    case PingTick => t.(ping := Busy)
    case PingMaxAge => t.(ping := Closing)
    case PingDone => t.(ping := Closing)
    case PingWrite(ok) => t.(ping := if ok then Idle else Closing)
  }

  function WsEffect(t: Tunnel, a: WsAct): Tunnel {
    match a
    case WsArrive(n) => t.(buffered := t.buffered + n)
    case WsFrame(binary, data) =>
      t.(ws := if binary then Busy else Idle, buffered := if t.buffered > 0 then t.buffered - 1 else 0,
         inward := if binary then Took(t.inward, data) else t.inward)
    case WsError => t.(ws := Closing)
    case WsForward(ok) => t.(ws := if ok then Idle else Closing, inward := if ok then Passed(t.inward) else t.inward)
  }

  function UdpEffect(t: Tunnel, a: UdpAct): Tunnel {
    match a
    case UdpCheck => t.(udp := if t.done then Closing else Busy)
    case UdpData(data) => t.(udp := Writing, outward := Took(t.outward, data))
    case UdpTimeout => t.(udp := Idle)
    case UdpError => t.(udp := Closing)
    case UdpSend(ok) => t.(udp := if ok then Idle else Closing, outward := if ok then Passed(t.outward) else t.outward)
  }

  function BodyEffect(t: Tunnel, step: nat): Tunnel {
    if step == 0 then t.(done := true, once := Running(1))
    else if step == 1 then t.(udpOpen := false, once := Running(2))
    else if step == 2 then t.(wsOpen := false, once := Running(3))
    else t.(decremented := true, once := Running(4))
  }

  /** The close body: flag done, close the UDP socket, close the WebSocket, count the tunnel out, return. */
  function CloseEffect(t: Tunnel, w: Worker, a: CloseAct): Tunnel {
    match a
    case EnterClose => Go(t, w, InBody).(once := Running(0), bodyRuns := t.bodyRuns + 1)
    case PassClose => Go(t, w, Ended)
    case BodyStep =>
      if !t.once.Running? then t
      else if t.once.step < LAST then BodyEffect(t, t.once.step)
      else Go(t, w, Ended).(once := Finished)
  }

  function OtherEffect(t: Tunnel, a: OtherAct): Tunnel {
    match a
    case StatsTick => t.(ticks := 1)
    case StatsLog => t.(ticks := 0)
    case StatsDone => t.(statsRunning := false)
    case HandlerReturns => t.(handlerWaiting := false)
  }

  function Effect(t: Tunnel, a: Act): Tunnel {
    match a
    case OfPing(p) => PingEffect(t, p)
    case OfWs(s) => WsEffect(t, s)
    case OfUdp(u) => UdpEffect(t, u)
    case OfClose(w, c) => CloseEffect(t, w, c)
    case OfOther(o) => OtherEffect(t, o)
  }

  /** activeConns.Add(-1) is step 3 of the close body. */
  predicate CountsOut(t: Tunnel, a: Act) {
    a.OfClose? && a.c.BodyStep? && t.once == Running(3)
  }

  datatype Event = Open(stats: bool) | Do(i: nat, act: Act)

  /** One atomic step of the server. Impossible steps change nothing. */
  function Step(st: State, e: Event): State {
    if e.Open? then State(st.activeConns + 1, st.tunnels + [Opened(e.stats)])
    else if e.i >= |st.tunnels| || !Possible(st.tunnels[e.i], e.act) then st
    else
      var t, u := st.tunnels[e.i], Effect(st.tunnels[e.i], e.act);
      State(if CountsOut(t, e.act) then st.activeConns - 1 else st.activeConns,
            st.tunnels[e.i := u])
  }

  function Run(st: State, events: seq<Event>): State
    decreases |events|
  {
    if events == [] then st else Run(Step(st, events[0]), events[1..])
  }

  // ---------- One tunnel ----------

  function Ones(p: Pc, q: Pc): nat {
    if p == q then 1 else 0
  }

  /** How many workers are at q. */
  function CountAt(t: Tunnel, q: Pc): nat {
    Ones(t.ping, q) + Ones(t.ws, q) + Ones(t.udp, q)
  }

  /** How far the close body has come: 0 before it, LAST + 1 after it. */
  function Progress(o: Once): nat {
    match o case Unused => 0 case Running(step) => step case Finished => LAST + 1
  }

  ghost predicate TunnelInv(t: Tunnel) {
    && t.ping != Writing && t.ws != Writing
    && (t.once.Running? ==> t.once.step <= LAST)
    && t.bodyRuns == (if t.once.Unused? then 0 else 1)
    && CountAt(t, InBody) == (if t.once.Running? then 1 else 0)
    && (CountAt(t, Ended) > 0 ==> t.once.Finished?)
    && (t.done <==> Progress(t.once) >= 1)
    && (t.udpOpen <==> Progress(t.once) < 2)
    && (t.wsOpen <==> Progress(t.once) < 3)
    && (t.decremented <==> Progress(t.once) >= 4)
    && (!t.handlerWaiting ==> t.done)
    && t.ticks <= 1
  }

  function PingRank(p: Pc): nat {
    match p case Idle => 3 case Busy => 2 case Closing => 1 case _ => 0
  }

  function UdpRank(p: Pc): nat {
    match p case Idle => 2 case Busy => 2 case Writing => 2 case Closing => 1 case _ => 0
  }

  function WsRank(p: Pc, buffered: nat): nat {
    match p case Idle => 2 * buffered + 2 case Busy => 2 * buffered + 3 case Closing => 1 case _ => 0
  }

  /** How many more steps the workers and the handler of a closed tunnel can take. */
  function WorkRank(t: Tunnel): nat {
    PingRank(t.ping) + WsRank(t.ws, t.buffered) + UdpRank(t.udp) + if t.handlerWaiting then 1 else 0
  }

  /** How many more steps its statistics loop can take, not counting further ticks. */
  function StatsRank(t: Tunnel): nat {
    if t.statsRunning then 1 + t.ticks else 0
  }

  function Rank(t: Tunnel): nat {
    WorkRank(t) + StatsRank(t)
  }

  /** A step of the statistics loop. */
  predicate IsStats(a: Act) {
    a.OfOther? && (a.o.StatsLog? || a.o.StatsDone?)
  }

  lemma CloseKeepsInv(t: Tunnel, w: Worker, a: CloseAct)
    requires TunnelInv(t) && ClosePossible(t, w, a)
    ensures TunnelInv(CloseEffect(t, w, a))
  {
  }

  lemma CloseLowersRank(t: Tunnel, w: Worker, a: CloseAct)
    requires TunnelInv(t) && ClosePossible(t, w, a) && t.once.Finished?
    ensures var u := CloseEffect(t, w, a); u.once.Finished? && WorkRank(u) < WorkRank(t) && StatsRank(u) == StatsRank(t)
  {
    assert a == PassClose;
  }

  lemma PingKeepsInv(t: Tunnel, a: PingAct)
    requires TunnelInv(t) && PingPossible(t, a)
    ensures TunnelInv(PingEffect(t, a))
    ensures t.once.Finished? ==> WorkRank(PingEffect(t, a)) < WorkRank(t)
  {
  }

  lemma WsKeepsInv(t: Tunnel, a: WsAct)
    requires TunnelInv(t) && WsPossible(t, a)
    ensures TunnelInv(WsEffect(t, a))
    ensures t.once.Finished? ==> WorkRank(WsEffect(t, a)) < WorkRank(t)
  {
  }

  lemma UdpKeepsInv(t: Tunnel, a: UdpAct)
    requires TunnelInv(t) && UdpPossible(t, a)
    ensures TunnelInv(UdpEffect(t, a))
    ensures t.once.Finished? ==> WorkRank(UdpEffect(t, a)) < WorkRank(t)
  {
  }

  lemma OtherKeepsInv(t: Tunnel, a: OtherAct)
    requires TunnelInv(t) && OtherPossible(t, a)
    ensures TunnelInv(OtherEffect(t, a))
    ensures var u := OtherEffect(t, a);
            match a
            case StatsTick => WorkRank(u) == WorkRank(t) && StatsRank(u) <= StatsRank(t) + 1
            case HandlerReturns => WorkRank(u) < WorkRank(t) && StatsRank(u) == StatsRank(t)
            case _ => WorkRank(u) == WorkRank(t) && StatsRank(u) < StatsRank(t)
  {
  }

  /** Every act keeps the invariant; and once the close body has run, every step of a worker or of the
      handler brings these closer to their end and leaves the statistics loop alone, every step of the
      statistics loop brings that closer to its end and leaves the others alone, and only a tick of its
      timer allows it one step more. */
  lemma EffectKeepsInv(t: Tunnel, a: Act)
    requires TunnelInv(t) && Possible(t, a)
    ensures TunnelInv(Effect(t, a))
    ensures t.once.Finished? ==>
              var u := Effect(t, a);
              && u.once.Finished?
              && (if IsTick(a) then WorkRank(u) == WorkRank(t) && StatsRank(u) <= StatsRank(t) + 1
                  else if IsStats(a) then WorkRank(u) == WorkRank(t) && StatsRank(u) < StatsRank(t)
                  else WorkRank(u) < WorkRank(t) && StatsRank(u) == StatsRank(t))
  {
    match a {
      case OfPing(p) => PingKeepsInv(t, p);
      case OfWs(s) => WsKeepsInv(t, s);
      case OfUdp(u) => UdpKeepsInv(t, u);
      case OfClose(w, c) =>
        CloseKeepsInv(t, w, c);
        if t.once.Finished? {
          CloseLowersRank(t, w, c);
        }
      case OfOther(o) => OtherKeepsInv(t, o);
    }
  }

  function CountDecremented(ts: seq<Tunnel>): nat {
    if ts == [] then 0 else CountDecremented(ts[..|ts| - 1]) + if ts[|ts| - 1].decremented then 1 else 0
  }

  lemma {:induction false} CountUpdate(ts: seq<Tunnel>, i: nat, u: Tunnel)
    requires i < |ts|
    ensures CountDecremented(ts[i := u])
         == CountDecremented(ts) - (if ts[i].decremented then 1 else 0) + (if u.decremented then 1 else 0)
    decreases |ts|
  {
    var n := |ts| - 1;
    if i < n {
      CountUpdate(ts[..n], i, u);
      assert ts[i := u][..n] == ts[..n][i := u];
    } else {
      assert ts[i := u][..n] == ts[..n];
    }
  }

  lemma {:induction false} CountBound(ts: seq<Tunnel>)
    ensures CountDecremented(ts) <= |ts|
    decreases |ts|
  {
    if ts != [] {
      CountBound(ts[..|ts| - 1]);
    }
  }

  // ---------- All tunnels ----------

  ghost predicate Inv(st: State) {
    && (forall i | 0 <= i < |st.tunnels| :: TunnelInv(st.tunnels[i]))
    && st.activeConns == |st.tunnels| - CountDecremented(st.tunnels)
  }

  lemma CloseDecrements(t: Tunnel, w: Worker, a: CloseAct)
    requires TunnelInv(t) && ClosePossible(t, w, a)
    ensures var u := CloseEffect(t, w, a);
            if a.BodyStep? && t.once == Running(3) then !t.decremented && u.decremented
            else u.decremented == t.decremented
  {
  }

  lemma PingKeepsDecremented(t: Tunnel, a: PingAct)
    ensures PingEffect(t, a).decremented == t.decremented
  {
  }

  lemma WsKeepsDecremented(t: Tunnel, a: WsAct)
    ensures WsEffect(t, a).decremented == t.decremented
  {
  }

  lemma UdpKeepsDecremented(t: Tunnel, a: UdpAct)
    ensures UdpEffect(t, a).decremented == t.decremented
  {
  }

  lemma OtherKeepsDecremented(t: Tunnel, a: OtherAct)
    ensures OtherEffect(t, a).decremented == t.decremented
  {
  }

  lemma OthersDoNotDecrement(t: Tunnel, a: Act)
    requires !a.OfClose?
    ensures Effect(t, a).decremented == t.decremented
  {
    match a {
      case OfPing(p) => PingKeepsDecremented(t, p);
      case OfWs(s) => WsKeepsDecremented(t, s);
      case OfUdp(u) => UdpKeepsDecremented(t, u);
      case OfOther(o) => OtherKeepsDecremented(t, o);
    }
  }

  lemma DecrementStep(t: Tunnel, a: Act)
    requires TunnelInv(t) && Possible(t, a)
    ensures var u := Effect(t, a);
            if CountsOut(t, a) then !t.decremented && u.decremented else u.decremented == t.decremented
  {
    if a.OfClose? {
      CloseDecrements(t, a.w, a.c);
    } else {
      OthersDoNotDecrement(t, a);
    }
  }

  lemma UpdateKeepsInv(st: State, i: nat, u: Tunnel, active: int)
    requires Inv(st) && i < |st.tunnels| && TunnelInv(u)
    requires active == st.activeConns + (if st.tunnels[i].decremented then 1 else 0) - (if u.decremented then 1 else 0)
    ensures Inv(State(active, st.tunnels[i := u]))
  {
    CountUpdate(st.tunnels, i, u);
  }

  lemma IdleInv(t: Tunnel)
    requires t.once == Unused && t.bodyRuns == 0 && t.ticks == 0 && t.handlerWaiting
    requires t.udpOpen && t.wsOpen && !t.done && !t.decremented
    requires t.ping == Idle && t.ws == Idle && t.udp == Idle
    ensures TunnelInv(t)
  {
  }

  lemma OpenedInv(stats: bool)
    ensures TunnelInv(Opened(stats))
  {
    IdleInv(Opened(stats));
  }

  lemma {:induction false} CountAppend(ts: seq<Tunnel>, u: Tunnel)
    requires !u.decremented
    ensures CountDecremented(ts + [u]) == CountDecremented(ts)
  {
    assert (ts + [u])[..|ts|] == ts;
  }

  lemma AppendKeepsInv(st: State, u: Tunnel)
    requires Inv(st) && TunnelInv(u) && !u.decremented
    ensures Inv(State(st.activeConns + 1, st.tunnels + [u]))
  {
    CountAppend(st.tunnels, u);
  }

  lemma OpenKeepsInv(st: State, stats: bool)
    requires Inv(st)
    ensures Inv(State(st.activeConns + 1, st.tunnels + [Opened(stats)]))
  {
    OpenedInv(stats);
    AppendKeepsInv(st, Opened(stats));
  }

  lemma DoKeepsInv(st: State, e: Event, t: Tunnel, u: Tunnel)
    requires Inv(st) && e.Do? && e.i < |st.tunnels| && t == st.tunnels[e.i]
    requires Possible(t, e.act) && u == Effect(t, e.act)
    ensures Inv(Step(st, e))
  {
    EffectKeepsInv(t, e.act);
    DecrementStep(t, e.act);
    var active := if CountsOut(t, e.act) then st.activeConns - 1 else st.activeConns;
    UpdateKeepsInv(st, e.i, u, active);
    assert Step(st, e) == State(active, st.tunnels[e.i := u]);
  }

  lemma StepKeepsInv(st: State, e: Event)
    requires Inv(st)
    ensures Inv(Step(st, e))
  {
    if e.Open? {
      OpenKeepsInv(st, e.stats);
    } else if e.i < |st.tunnels| && Possible(st.tunnels[e.i], e.act) {
      DoKeepsInv(st, e, st.tunnels[e.i], Effect(st.tunnels[e.i], e.act));
    }
  }

  lemma {:induction false} RunKeepsInv(st: State, events: seq<Event>)
    requires Inv(st)
    ensures Inv(Run(st, events))
    decreases |events|
  {
    if events != [] {
      StepKeepsInv(st, events[0]);
      RunKeepsInv(Step(st, events[0]), events[1..]);
    }
  }

  /** Over all interleavings of any number of tunnels: the count of active tunnels is the number opened
      minus the number whose close has run its decrement, never negative; and each tunnel's close body
      has run at most once, and exactly once when a goroutine that called it is past it. */
  lemma {:induction false} ActiveConnsExact(events: seq<Event>, st: State)
    requires st == Run(INIT, events)
    ensures st.activeConns == |st.tunnels| - CountDecremented(st.tunnels) >= 0
    ensures forall i | 0 <= i < |st.tunnels| ::
              && st.tunnels[i].bodyRuns <= 1
              && forall w :: PcOf(st.tunnels[i], w) == Ended ==>
                   st.tunnels[i].bodyRuns == 1 && st.tunnels[i].decremented
  {
    InitInv();
    RunKeepsInv(INIT, events);
    CountBound(st.tunnels);
    assert forall i | 0 <= i < |st.tunnels| :: TunnelInv(st.tunnels[i]);
  }

  lemma InitInv()
    ensures Inv(INIT)
  {
  }

  // ---------- What is relayed ----------

  /** Everything read was written, unchanged and in order, but for the one thing in hand or lost. */
  predicate Relays(r: Relay, idle: bool, holding: bool) {
    && r.written <= r.read && |r.read| <= |r.written| + 1
    && (idle ==> r.written == r.read)
    && (holding ==> |r.read| == |r.written| + 1)
  }

  predicate RelaysInv(t: Tunnel) {
    && Relays(t.inward, t.ws == Idle, t.ws == Busy)
    && Relays(t.outward, t.udp == Idle || t.udp == Busy, t.udp == Writing)
  }

  lemma TookRelays(r: Relay, data: Bytes)
    requires Relays(r, true, false)
    ensures Relays(Took(r, data), false, true)
  {
  }

  lemma PassedRelays(r: Relay)
    requires Relays(r, false, true)
    ensures Relays(Passed(r), true, false)
  {
  }

  lemma WsKeepsRelays(t: Tunnel, a: WsAct)
    requires RelaysInv(t) && WsPossible(t, a)
    ensures RelaysInv(WsEffect(t, a))
  {
    match a {
      case WsFrame(binary, data) => if binary { TookRelays(t.inward, data); }
      case WsForward(ok) => PassedRelays(t.inward);
      case _ =>
    }
  }

  lemma UdpKeepsRelays(t: Tunnel, a: UdpAct)
    requires RelaysInv(t) && UdpPossible(t, a)
    ensures RelaysInv(UdpEffect(t, a))
  {
    match a {
      case UdpData(data) => TookRelays(t.outward, data);
      case UdpSend(ok) => PassedRelays(t.outward);
      case _ =>
    }
  }

  predicate Out(p: Pc) {
    p == Closing || p == InBody || p == Ended
  }

  /** The act leaves both relays alone, and each relaying goroutine where it is or past its loop. */
  predicate SameRelays(t: Tunnel, u: Tunnel) {
    && u.inward == t.inward && u.outward == t.outward
    && (u.ws == t.ws || (Out(t.ws) && Out(u.ws)))
    && (u.udp == t.udp || (Out(t.udp) && Out(u.udp)))
  }

  lemma SameKeepsRelays(t: Tunnel, u: Tunnel)
    requires RelaysInv(t) && SameRelays(t, u)
    ensures RelaysInv(u)
  {
  }

  lemma EnterSameRelays(t: Tunnel, w: Worker)
    requires At(t, w, Closing)
    ensures SameRelays(t, CloseEffect(t, w, EnterClose))
  {
    GoSameRelays(t, w, InBody);
    var u := Go(t, w, InBody);
    assert CloseEffect(t, w, EnterClose) == u.(once := Running(0), bodyRuns := t.bodyRuns + 1);
  }

  lemma BodySameRelays(t: Tunnel, w: Worker)
    requires At(t, w, InBody) && t.once.Running?
    ensures SameRelays(t, CloseEffect(t, w, BodyStep))
  {
    if t.once.step < LAST {
      BodyEffectSameRelays(t, t.once.step);
    } else {
      GoSameRelays(t, w, Ended);
      FinishSameRelays(t, Go(t, w, Ended));
    }
  }

  lemma FinishSameRelays(t: Tunnel, u: Tunnel)
    requires SameRelays(t, u)
    ensures SameRelays(t, u.(once := Finished))
  {
  }

  lemma BodyEffectSameRelays(t: Tunnel, step: nat)
    ensures SameRelays(t, BodyEffect(t, step))
  {
  }

  lemma CloseSameRelays(t: Tunnel, w: Worker, a: CloseAct)
    requires ClosePossible(t, w, a)
    ensures SameRelays(t, CloseEffect(t, w, a))
  {
    match a {
      case EnterClose => EnterSameRelays(t, w);
      case PassClose => GoSameRelays(t, w, Ended);
      case BodyStep => BodySameRelays(t, w);
    }
  }

  lemma GoSameRelays(t: Tunnel, w: Worker, p: Pc)
    requires Out(PcOf(t, w)) && Out(p)
    ensures SameRelays(t, Go(t, w, p))
  {
  }

  lemma PingSameRelays(t: Tunnel, a: PingAct)
    ensures SameRelays(t, PingEffect(t, a))
  {
  }

  lemma OtherSameRelays(t: Tunnel, a: OtherAct)
    ensures SameRelays(t, OtherEffect(t, a))
  {
  }

  lemma EffectKeepsRelays(t: Tunnel, a: Act)
    requires RelaysInv(t) && Possible(t, a)
    ensures RelaysInv(Effect(t, a))
  {
    match a {
      case OfPing(p) =>
        PingSameRelays(t, p);
        SameKeepsRelays(t, PingEffect(t, p));
      case OfWs(s) =>
        WsKeepsRelays(t, s);
      case OfUdp(u) =>
        UdpKeepsRelays(t, u);
      case OfClose(w, c) =>
        CloseSameRelays(t, w, c);
        SameKeepsRelays(t, CloseEffect(t, w, c));
      case OfOther(o) =>
        OtherSameRelays(t, o);
        SameKeepsRelays(t, OtherEffect(t, o));
    }
  }

  lemma {:induction false} RunKeepsRelays(st: State, events: seq<Event>)
    requires forall i | 0 <= i < |st.tunnels| :: RelaysInv(st.tunnels[i])
    ensures forall i | 0 <= i < |Run(st, events).tunnels| :: RelaysInv(Run(st, events).tunnels[i])
    decreases |events|
  {
    if events != [] {
      var e := events[0];
      if e.Do? && e.i < |st.tunnels| && Possible(st.tunnels[e.i], e.act) {
        EffectKeepsRelays(st.tunnels[e.i], e.act);
      }
      RunKeepsRelays(Step(st, e), events[1..]);
    }
  }

  /** In every run, each tunnel's datagrams are the binary frames it read, and its frames the datagrams it
      read, unchanged and in order; at most the last one read is missing, and none while its goroutine is
      waiting for the next. */
  lemma {:induction false} RelaysFaithfully(events: seq<Event>, st: State, i: nat)
    requires st == Run(INIT, events) && i < |st.tunnels|
    ensures var t := st.tunnels[i];
            && t.inward.written <= t.inward.read && |t.inward.read| <= |t.inward.written| + 1
            && t.outward.written <= t.outward.read && |t.outward.read| <= |t.outward.written| + 1
            && (t.ws == Idle ==> t.inward.written == t.inward.read)
            && (t.udp == Idle || t.udp == Busy ==> t.outward.written == t.outward.read)
  {
    RunKeepsRelays(INIT, events);
  }

  lemma RelaysFrame(t: Tunnel, data: Bytes)
    requires t.ws == Idle && t.buffered > 0 && t.udpOpen && t.inward.written == t.inward.read
    ensures var t1 := Effect(t, OfWs(WsFrame(true, data)));
            var t2 := Effect(t1, OfWs(WsForward(true)));
            && Possible(t, OfWs(WsFrame(true, data))) && Possible(t1, OfWs(WsForward(true)))
            && t2 == t.(buffered := t.buffered - 1,
                        inward := Relay(t.inward.read + [data], t.inward.written + [data]))
  {
  }

  /** Only binary frames are relayed: any other is read and dropped. */
  lemma DropsOtherFrames(t: Tunnel, data: Bytes)
    requires t.ws == Idle && t.buffered > 0
    ensures Possible(t, OfWs(WsFrame(false, data)))
    ensures Effect(t, OfWs(WsFrame(false, data))) == t.(buffered := t.buffered - 1)
  {
  }

  lemma RelaysDatagram(t: Tunnel, data: Bytes)
    requires t.udp == Idle && !t.done && t.udpOpen && t.wsOpen && t.outward.written == t.outward.read
    ensures var t1 := Effect(t, OfUdp(UdpCheck));
            var t2 := Effect(t1, OfUdp(UdpData(data)));
            var t3 := Effect(t2, OfUdp(UdpSend(true)));
            && Possible(t, OfUdp(UdpCheck)) && Possible(t1, OfUdp(UdpData(data))) && Possible(t2, OfUdp(UdpSend(true)))
            && t3 == t.(outward := Relay(t.outward.read + [data], t.outward.written + [data]))
  {
  }

  /** An idle UDP side and a quiet ping loop go on: a read timeout and a ping that gets through change
      nothing, so neither silence nor time closes a tunnel before its maximum age. */
  lemma KeepsGoing(t: Tunnel)
    requires t.udp == Idle && t.ping == Idle && !t.done && t.udpOpen && t.wsOpen
    ensures var t1 := Effect(t, OfUdp(UdpCheck));
            Possible(t, OfUdp(UdpCheck)) && Possible(t1, OfUdp(UdpTimeout)) && Effect(t1, OfUdp(UdpTimeout)) == t
    ensures var t1 := Effect(t, OfPing(PingTick));
            && Possible(t, OfPing(PingTick)) && Possible(t1, OfPing(PingWrite(true)))
            && Effect(t1, OfPing(PingWrite(true))) == t
  {
  }

  // ---------- After the close ----------

  /** The possible steps of a schedule: those of the workers and the handler, those of the statistics
      loop, and the ticks of its timer. */
  datatype Tally = Tally(work: nat, stats: nat, ticks: nat)

  function Steps(t: Tunnel, acts: seq<Act>): Tally
    decreases |acts|
  {
    if acts == [] then Tally(0, 0, 0)
    else if !Possible(t, acts[0]) then Steps(t, acts[1..])
    else
      var rest := Steps(Effect(t, acts[0]), acts[1..]);
      if IsTick(acts[0]) then rest.(ticks := rest.ticks + 1)
      else if IsStats(acts[0]) then rest.(stats := rest.stats + 1)
      else rest.(work := rest.work + 1)
  }

  /** After its close every goroutine of a tunnel takes finitely many further steps, whatever the schedule.
      The workers and the handler together take at most their rank, however often the statistics loop is
      preferred; only that loop may take one more step for every tick of its timer that still comes. */
  lemma {:induction false} FinitelyManyStepsAfterClose(t: Tunnel, acts: seq<Act>)
    requires TunnelInv(t) && t.once.Finished?
    ensures Steps(t, acts).work <= WorkRank(t)
    ensures Steps(t, acts).stats <= StatsRank(t) + Steps(t, acts).ticks
    decreases |acts|
  {
    if acts != [] {
      if Possible(t, acts[0]) {
        EffectKeepsInv(t, acts[0]);
        FinitelyManyStepsAfterClose(Effect(t, acts[0]), acts[1..]);
      } else {
        FinitelyManyStepsAfterClose(t, acts[1..]);
      }
    }
  }

  /** So all goroutines together take at most the whole rank, and one more step for every such tick. */
  lemma {:induction false} StepsTogether(t: Tunnel, acts: seq<Act>)
    requires TunnelInv(t) && t.once.Finished?
    ensures var n := Steps(t, acts); n.work + n.stats <= Rank(t) + n.ticks
  {
    FinitelyManyStepsAfterClose(t, acts);
  }

  lemma ClosedWorkerMoves(t: Tunnel, w: Worker) returns (a: Act)
    requires TunnelInv(t) && t.once.Finished? && PcOf(t, w) != Ended
    ensures Possible(t, a) && PcOf(Effect(t, a), w) in {Closing, Ended} - {PcOf(t, w)}
  {
    var p := PcOf(t, w);
    if p == Closing {
      a := OfClose(w, PassClose);
    } else if p == InBody {
      assert false;
    } else {
      a := match w
        case Ping => OfPing(if p == Idle then PingDone else PingWrite(false))
        case WsToUdp => OfWs(if p == Idle then WsError else WsForward(false))
        case UdpToWs => OfUdp(if p == Idle then UdpCheck else if p == Busy then UdpError else UdpSend(false));
    }
  }

  /** And nothing is left waiting: in a closed tunnel each of its five goroutines that has not ended can
      take a step -- a worker towards its end, the statistics loop and the handler to theirs. */
  lemma ClosedTunnelNeverBlocks(t: Tunnel)
    requires TunnelInv(t) && t.once.Finished?
    ensures forall w | PcOf(t, w) != Ended ::
              exists a :: Possible(t, a) && PcOf(Effect(t, a), w) in {Closing, Ended} - {PcOf(t, w)}
    ensures t.statsRunning ==> exists a :: Possible(t, a) && !Effect(t, a).statsRunning
    ensures t.handlerWaiting ==> exists a :: Possible(t, a) && !Effect(t, a).handlerWaiting
  {
    forall w | PcOf(t, w) != Ended
      ensures exists a :: Possible(t, a) && PcOf(Effect(t, a), w) in {Closing, Ended} - {PcOf(t, w)}
    {
      var _ := ClosedWorkerMoves(t, w);
    }
    if t.statsRunning {
      assert Possible(t, OfOther(StatsDone)) && !Effect(t, OfOther(StatsDone)).statsRunning;
    }
    if t.handlerWaiting {
      assert Possible(t, OfOther(HandlerReturns)) && !Effect(t, OfOther(HandlerReturns)).handlerWaiting;
    }
  }
}
