/** The client's reconnecting shovel: runShovel and runOneTunnel of client/main.go, as the atomic steps
    of its goroutines in any interleaving.

    Every session has a goroutine reading the one shared UDP socket and one reading its own WebSocket.
    A session's UDP reader is not stopped when the session ends: it stays blocked in its read, may take
    one more datagram from under the next session, fails to write it, and only then exits. */
module Shovel {
  import opened Basics

  type Payload = Bytes
  type Peer = nat

  /** A datagram taken off the socket, and the session whose reader took it. */
  datatype Arrival = Arrival(payload: Payload, from: Peer, taker: nat)

  /** A binary frame written to a session's WebSocket, and the arrival it carries. */
  datatype Frame = Frame(session: nat, k: nat, payload: Payload)

  /** Where a session's UDP reader is. k is the arrival in its buffer. */
  datatype Reader =
    | Blocked                   // in ReadFromUDP
    | Took(k: nat)              // has read, has not looked at the peer address
    | Offering(k: nat)          // has set the peer address, not yet put it into the channel
    | Ready(k: nat)             // about to write the frame
    | Counting(k: nat)          // has written, not yet counted the frame
    | Gone(lost: Option<nat>)   // exited, with the arrival it could not forward

  /** Where a session's WebSocket reader is. */
  datatype Returner =
    | Reading                   // in ReadMessage
    | Holding                   // has a binary frame, has not looked at the peer address
    | Waiting                   // saw no peer address; selecting on the channel
    | Delivering                // about to write the datagram
    | Recording                 // has written, not yet counted it
    | Stopped

  datatype Reply = Reply(payload: Payload, to: Peer)

  datatype Session = Session(
    base: nat,                  // how many arrivals there were when it opened
    open: bool,                 // its WebSocket
    cancelled: bool,            // its context
    reader: Reader,
    returner: Returner,
    peer: Option<Peer>,         // wgPeer
    channel: Option<Peer>,      // peerCh
    framesUp: nat, bytesUp: nat, framesDown: nat, bytesDown: nat,
    inbound: seq<Payload>,      // binary frames received
    skipped: nat,               // how many of them were dropped for lack of a peer address
    replies: seq<Reply>)        // datagrams written back

  datatype State = State(arrivals: seq<Arrival>, frames: seq<Frame>, sessions: seq<Session>)

  const INIT := State([], [], [])

  function Fresh(base: nat): Session {
    Session(base, true, false, Blocked, Reading, None, None, 0, 0, 0, 0, [], 0, [])
  }

  // ---------- Steps ----------

  datatype Event =
    | Open                                        // a dial succeeded
    | Cancel(s: nat)                              // shutdown, or a goroutine's deferred cancel
    | Close(s: nat)                               // runOneTunnel returns
    | UdpRead(s: nat, payload: Payload, from: Peer)
    | UdpError(s: nat)
    | NotePeer(s: nat)
    | OfferPeer(s: nat)
    | Send(s: nat, ok: bool)                      // the frame write; it fails on a closed WebSocket
    | CountUp(s: nat)
    | WsFrame(s: nat, data: Payload)              // a binary frame; others change nothing
    | WsError(s: nat)
    | CheckPeer(s: nat)
    | TakePeer(s: nat)                            // the channel yields the address
    | GiveUp(s: nat)                              // 30 seconds without one
    | Abandon(s: nat)                             // the context ended first
    | Deliver(s: nat, ok: bool)
    | CountDown(s: nat)

  /** The effect of a UDP reader's step, or of an end of the session, on the session; None when the
      goroutine is not at that point. */
  function LocalUp(x: Session, e: Event, arrivals: seq<Arrival>): Option<Session> {
    match e
    case Cancel(_) => Some(x.(cancelled := true))
    case Close(_) => if x.cancelled && x.open then Some(x.(open := false)) else None
    case UdpRead(_, _, _) => if x.reader.Blocked? then Some(x.(reader := Took(|arrivals|))) else None
    case UdpError(_) => if x.reader.Blocked? then Some(x.(reader := Gone(None), cancelled := true)) else None
    case NotePeer(_) =>
      if !x.reader.Took? || x.reader.k >= |arrivals| then None
      else if x.peer.Some? then Some(x.(reader := Ready(x.reader.k)))
      else Some(x.(reader := Offering(x.reader.k), peer := Some(arrivals[x.reader.k].from)))
    case OfferPeer(_) =>
      if !x.reader.Offering? then None
      else Some(x.(reader := Ready(x.reader.k), channel := if x.channel.None? then x.peer else x.channel))
    case Send(_, ok) =>
      if !x.reader.Ready? || (ok && !x.open) then None
      else if ok then Some(x.(reader := Counting(x.reader.k)))
      else Some(x.(reader := Gone(Some(x.reader.k)), cancelled := true))
    case CountUp(_) =>
      if !x.reader.Counting? || x.reader.k >= |arrivals| then None
      else Some(x.(reader := Blocked, framesUp := x.framesUp + 1,
                   bytesUp := x.bytesUp + |arrivals[x.reader.k].payload|))
    case _ => None
  }

  /** The same for the WebSocket reader. */
  function LocalDown(x: Session, e: Event): Option<Session> {
    match e
    case WsFrame(_, data) =>
      if x.returner.Reading? then Some(x.(returner := Holding, inbound := x.inbound + [data])) else None
    case WsError(_) => if x.returner.Reading? then Some(x.(returner := Stopped, cancelled := true)) else None
    case CheckPeer(_) =>
      if x.returner.Holding? then Some(x.(returner := if x.peer.Some? then Delivering else Waiting)) else None
    case TakePeer(_) =>
      if x.returner.Waiting? && x.channel.Some? then
        Some(x.(returner := Delivering, peer := x.channel, channel := None))
      else None
    case GiveUp(_) =>
      if x.returner.Waiting? then Some(x.(returner := Reading, skipped := x.skipped + 1)) else None
    case Abandon(_) =>
      if x.returner.Waiting? && x.cancelled then Some(x.(returner := Stopped)) else None
    case Deliver(_, ok) =>
      if !x.returner.Delivering? || x.peer.None? || x.inbound == [] then None
      else if ok then
        Some(x.(returner := Recording, replies := x.replies + [Reply(x.inbound[|x.inbound| - 1], x.peer.value)]))
      else Some(x.(returner := Stopped, cancelled := true))
    case CountDown(_) =>
      if !x.returner.Recording? || x.inbound == [] then None
      else Some(x.(returner := Reading, framesDown := x.framesDown + 1,
                   bytesDown := x.bytesDown + |x.inbound[|x.inbound| - 1]|))
    case _ => None
  }

  function Local(x: Session, e: Event, st: State): Option<Session> {
    var up := LocalUp(x, e, st.arrivals);
    if up.Some? then up else LocalDown(x, e)
  }

  /** One step of the system. A step that is not possible changes nothing. A new session opens only
      after the one before it has returned. */
  function Step(st: State, e: Event): State {
    if e.Open? then
      if st.sessions != [] && st.sessions[|st.sessions| - 1].open then st
      else st.(sessions := st.sessions + [Fresh(|st.arrivals|)])
    else if e.s >= |st.sessions| then st
    else
      var x := st.sessions[e.s];
      var after := Local(x, e, st);
      if after.None? then st
      else
        var arrivals := if e.UdpRead? then st.arrivals + [Arrival(e.payload, e.from, e.s)] else st.arrivals;
        var frames :=
          if e.Send? && e.ok && x.reader.k < |st.arrivals| then
            st.frames + [Frame(e.s, x.reader.k, st.arrivals[x.reader.k].payload)]
          else st.frames;
        State(arrivals, frames, st.sessions[e.s := after.value])
  }

  function Run(st: State, events: seq<Event>): State
    decreases |events|
  {
    if events == [] then st else Run(Step(st, events[0]), events[1..])
  }

  // ---------- The upward direction ----------

  /** The arrival a session has taken and not forwarded: in its reader's buffer, or lost. */
  function Owed(r: Reader): Option<nat> {
    match r
    case Blocked => None
    case Took(k) => Some(k)
    case Offering(k) => Some(k)
    case Ready(k) => Some(k)
    case Counting(_) => None
    case Gone(lost) => lost
  }

  /** Frames carry arrivals unchanged, each written by the session that took it, in arrival order. */
  ghost predicate FramesInOrder(st: State) {
    && (forall i | 0 <= i < |st.frames| ::
          && st.frames[i].k < |st.arrivals|
          && st.frames[i].payload == st.arrivals[st.frames[i].k].payload
          && st.frames[i].session == st.arrivals[st.frames[i].k].taker)
    && (forall i, j | 0 <= i < j < |st.frames| :: st.frames[i].k < st.frames[j].k)
  }

  ghost predicate Forwarded(st: State, k: nat) {
    exists i :: 0 <= i < |st.frames| && st.frames[i].k == k
  }

  /** Every arrival is either forwarded or owed by the session that took it, never both. */
  ghost predicate EveryArrivalAccounted(st: State) {
    forall k | 0 <= k < |st.arrivals| ::
      && st.arrivals[k].taker < |st.sessions|
      && (Forwarded(st, k) <==> Owed(st.sessions[st.arrivals[k].taker].reader) != Some(k))
  }

  /** What a session owes is the last arrival it took. */
  ghost predicate OwesLast(st: State, s: nat)
    requires s < |st.sessions|
  {
    var owed := Owed(st.sessions[s].reader);
    owed.Some? ==>
      && owed.value < |st.arrivals|
      && st.arrivals[owed.value].taker == s
      && forall k | owed.value < k < |st.arrivals| :: st.arrivals[k].taker != s
  }

  /** A session takes only what arrives after it opened, and earlier sessions forward nothing of that. */
  ghost predicate SessionsInOrder(st: State) {
    && (forall k | 0 <= k < |st.arrivals| ::
          st.arrivals[k].taker < |st.sessions| && st.sessions[st.arrivals[k].taker].base <= k)
    && (forall i, s | 0 <= i < |st.frames| && st.frames[i].session < s < |st.sessions| ::
          st.frames[i].k < st.sessions[s].base)
    && (forall s | 0 <= s < |st.sessions| - 1 :: !st.sessions[s].open)
    && (forall s | 0 <= s < |st.sessions| :: st.sessions[s].base <= |st.arrivals|)
  }

  ghost predicate LossEndsSession(x: Session) {
    && (x.reader.Gone? ==> x.cancelled)
    && (!x.open ==> x.cancelled)
  }

  function CountFrames(frames: seq<Frame>, s: nat): nat {
    if frames == [] then 0
    else CountFrames(frames[..|frames| - 1], s) + if frames[|frames| - 1].session == s then 1 else 0
  }

  function CountBytes(frames: seq<Frame>, s: nat): nat {
    if frames == [] then 0
    else
      var last := frames[|frames| - 1];
      CountBytes(frames[..|frames| - 1], s) + if last.session == s then |last.payload| else 0
  }

  /** The counters lag the frames by the one frame that is written and not yet counted. */
  ghost predicate CountersExact(st: State, s: nat)
    requires s < |st.sessions|
  {
    var x := st.sessions[s];
    if x.reader.Counting? then
      && x.reader.k < |st.arrivals|
      && x.framesUp + 1 == CountFrames(st.frames, s)
      && x.bytesUp + |st.arrivals[x.reader.k].payload| == CountBytes(st.frames, s)
    else x.framesUp == CountFrames(st.frames, s) && x.bytesUp == CountBytes(st.frames, s)
  }

  ghost predicate UpInv(st: State) {
    && FramesInOrder(st) && EveryArrivalAccounted(st) && SessionsInOrder(st)
    && (forall s | 0 <= s < |st.sessions| :: OwesLast(st, s))
    && (forall s | 0 <= s < |st.sessions| :: LossEndsSession(st.sessions[s]))
    && (forall s | 0 <= s < |st.sessions| :: CountersExact(st, s))
  }

  // ---------- The peer address and the downward direction ----------

  /** a is the source of the first datagram that session s took. */
  ghost predicate FirstSource(st: State, s: nat, a: Peer) {
    exists k :: 0 <= k < |st.arrivals| && st.arrivals[k].taker == s && st.arrivals[k].from == a
             && forall j | 0 <= j < k :: st.arrivals[j].taker != s
  }

  ghost predicate TookOnly(st: State, s: nat, only: Option<nat>) {
    forall k | 0 <= k < |st.arrivals| && only != Some(k) :: st.arrivals[k].taker != s
  }

  ghost predicate PeerInv(st: State, s: nat)
    requires s < |st.sessions|
  {
    var x := st.sessions[s];
    && (x.peer.Some? ==> FirstSource(st, s, x.peer.value))
    && (x.channel.Some? ==> x.channel == x.peer)
    && (x.peer.None? ==>
          (x.reader.Blocked? || x.reader.Took? || x.reader == Gone(None)) && TookOnly(st, s, Owed(x.reader)))
  }

  /** The frames the WebSocket reader has in hand: received, neither skipped nor delivered. */
  function InHand(x: Session): nat {
    if x.returner.Holding? || x.returner.Waiting? || x.returner.Delivering? then 1 else 0
  }

  ghost predicate DownInv(x: Session) {
    && x.skipped + |x.replies| + InHand(x) <= |x.inbound|
    && (!x.returner.Stopped? ==> x.skipped + |x.replies| + InHand(x) == |x.inbound|)
    && |x.inbound| <= x.skipped + |x.replies| + 1
    && (forall i | 0 <= i < |x.replies| :: x.replies[i] == Reply(x.inbound[x.skipped + i], x.replies[0].to))
    && (x.replies != [] ==> x.peer == Some(x.replies[0].to))
    && (x.returner.Delivering? || x.returner.Recording? ==> x.peer.Some?)
    && (x.returner.Recording? ==> x.replies != [])
    && (x.returner.Waiting? ==> x.replies == [])
    && x.framesDown + (if x.returner.Recording? then 1 else 0) == |x.replies|
    && x.bytesDown + (if x.returner.Recording? then |x.replies[|x.replies| - 1].payload| else 0)
       == ReplyBytes(x.replies)
  }

  function ReplyBytes(rs: seq<Reply>): nat {
    if rs == [] then 0 else ReplyBytes(rs[..|rs| - 1]) + |rs[|rs| - 1].payload|
  }

  ghost predicate Inv(st: State) {
    && UpInv(st)
    && (forall s | 0 <= s < |st.sessions| :: PeerInv(st, s))
    && (forall s | 0 <= s < |st.sessions| :: DownInv(st.sessions[s]))
  }

  // ---------- Preservation ----------

  /** State t is st with one more session. */
  ghost predicate AfterOpen(st: State, t: State) {
    && (st.sessions != [] ==> !st.sessions[|st.sessions| - 1].open)
    && t.arrivals == st.arrivals && t.frames == st.frames
    && |t.sessions| == |st.sessions| + 1
    && (forall s | 0 <= s < |st.sessions| :: t.sessions[s] == st.sessions[s])
    && t.sessions[|st.sessions|] == Fresh(|st.arrivals|)
  }

  lemma OpenKeepsFrames(st: State, t: State)
    requires UpInv(st) && AfterOpen(st, t)
    ensures FramesInOrder(t) && EveryArrivalAccounted(t) && SessionsInOrder(t)
  {
    forall k | 0 <= k < |t.arrivals|
      ensures t.arrivals[k].taker < |t.sessions|
      ensures Forwarded(t, k) <==> Owed(t.sessions[t.arrivals[k].taker].reader) != Some(k)
    {
      SameForwarded(st, t, k);
      assert st.arrivals[k].taker < |st.sessions|;
    }
    OpenKeepsSessions(st, t);
  }

  lemma OpenKeepsSessions(st: State, t: State)
    requires FramesInOrder(st) && SessionsInOrder(st) && AfterOpen(st, t)
    ensures SessionsInOrder(t)
  {
  }

  lemma OpenKeepsUp(st: State, t: State)
    requires UpInv(st) && AfterOpen(st, t)
    ensures UpInv(t)
  {
    OpenKeepsFrames(st, t);
    var n := |st.sessions|;
    forall i | 0 <= i < |st.frames|
      ensures st.frames[i].session != n
    {
      assert st.frames[i].session == st.arrivals[st.frames[i].k].taker;
    }
    CountNone(st.frames, n);
    forall s | 0 <= s < n + 1
      ensures OwesLast(t, s) && CountersExact(t, s) && LossEndsSession(t.sessions[s])
    {
      if s < n {
        assert OwesLast(st, s) && CountersExact(st, s) && LossEndsSession(st.sessions[s]);
      }
    }
  }

  lemma SameForwarded(st: State, t: State, k: nat)
    requires t.frames == st.frames
    ensures Forwarded(t, k) <==> Forwarded(st, k)
  {
  }

  lemma OpenKeepsPeer(st: State, t: State, s: nat)
    requires AfterOpen(st, t) && s < |t.sessions|
    requires SessionsInOrder(st) && (s < |st.sessions| ==> PeerInv(st, s))
    ensures PeerInv(t, s)
  {
    if s < |st.sessions| && st.sessions[s].peer.Some? {
      FirstSourceStays(st, t, s, st.sessions[s].peer.value);
    }
  }

  lemma OpenKeepsInv(st: State)
    requires Inv(st)
    ensures Inv(Step(st, Open))
  {
    var t := Step(st, Open);
    if t != st {
      OpenKeepsUp(st, t);
      forall s | 0 <= s < |t.sessions|
        ensures PeerInv(t, s) && DownInv(t.sessions[s])
      {
        OpenKeepsPeer(st, t, s);
      }
    }
  }

  lemma {:induction false} CountNone(frames: seq<Frame>, s: nat)
    requires forall i | 0 <= i < |frames| :: frames[i].session != s
    ensures CountFrames(frames, s) == 0 && CountBytes(frames, s) == 0
    decreases |frames|
  {
    if frames != [] {
      CountNone(frames[..|frames| - 1], s);
    }
  }

  lemma {:induction false} CountAppend(frames: seq<Frame>, f: Frame, s: nat)
    ensures CountFrames(frames + [f], s) == CountFrames(frames, s) + if f.session == s then 1 else 0
    ensures CountBytes(frames + [f], s) == CountBytes(frames, s) + if f.session == s then |f.payload| else 0
  {
    assert (frames + [f])[..|frames|] == frames;
  }

  /** A step of session s that leaves the reader where it is, or moves it without changing what it owes. */
  ghost predicate Quiet(x: Session, y: Session) {
    && y.base == x.base && y.framesUp == x.framesUp && y.bytesUp == x.bytesUp
    && (y.reader == x.reader || (Owed(y.reader) == Owed(x.reader) && !x.reader.Counting? && !y.reader.Counting?))
    && (y.open ==> x.open)
    && LossEndsSession(y)
  }

  lemma QuietKeepsUp(st: State, s: nat, y: Session)
    requires UpInv(st) && s < |st.sessions| && Quiet(st.sessions[s], y)
    ensures UpInv(st.(sessions := st.sessions[s := y]))
  {
    var t := st.(sessions := st.sessions[s := y]);
    forall k ensures Forwarded(t, k) <==> Forwarded(st, k) {
    }
    forall r | 0 <= r < |t.sessions|
      ensures OwesLast(t, r) && CountersExact(t, r) && LossEndsSession(t.sessions[r])
    {
      assert OwesLast(st, r) && CountersExact(st, r) && LossEndsSession(st.sessions[r]);
    }
  }

  /** State t is st after session s counted the frame it wrote. */
  ghost predicate AfterCount(st: State, t: State, s: nat) {
    && s < |st.sessions| && st.sessions[s].reader.Counting? && st.sessions[s].reader.k < |st.arrivals|
    && t.arrivals == st.arrivals && t.frames == st.frames
    && t.sessions == st.sessions[s := st.sessions[s].(
         reader := Blocked,
         framesUp := st.sessions[s].framesUp + 1,
         bytesUp := st.sessions[s].bytesUp + |st.arrivals[st.sessions[s].reader.k].payload|)]
  }

  lemma CountKeepsAccounts(st: State, t: State, s: nat)
    requires UpInv(st) && AfterCount(st, t, s)
    ensures FramesInOrder(t) && EveryArrivalAccounted(t) && SessionsInOrder(t)
  {
    forall k | 0 <= k < |st.arrivals|
      ensures Forwarded(t, k) <==> Owed(t.sessions[t.arrivals[k].taker].reader) != Some(k)
    {
      SameForwarded(st, t, k);
    }
    assert SessionsInOrder(st);
    assert forall r | 0 <= r < |st.sessions| :: st.sessions[r].base == t.sessions[r].base;
  }

  lemma CountKeepsUp(st: State, t: State, s: nat)
    requires UpInv(st) && AfterCount(st, t, s)
    ensures UpInv(t)
  {
    CountKeepsAccounts(st, t, s);
    forall r | 0 <= r < |t.sessions|
      ensures OwesLast(t, r) && CountersExact(t, r) && LossEndsSession(t.sessions[r])
    {
      assert OwesLast(st, r) && CountersExact(st, r) && LossEndsSession(st.sessions[r]);
    }
  }

  /** State t is st after session s took a datagram. */
  ghost predicate AfterRead(st: State, t: State, s: nat) {
    && s < |st.sessions| && st.sessions[s].reader.Blocked?
    && |t.arrivals| == |st.arrivals| + 1
    && (forall k | 0 <= k < |st.arrivals| :: t.arrivals[k] == st.arrivals[k])
    && t.arrivals[|st.arrivals|].taker == s
    && t.frames == st.frames
    && t.sessions == st.sessions[s := st.sessions[s].(reader := Took(|st.arrivals|))]
  }

  lemma ReadKeepsAccounts(st: State, t: State, s: nat)
    requires UpInv(st) && AfterRead(st, t, s)
    ensures FramesInOrder(t) && EveryArrivalAccounted(t)
  {
    forall k | 0 <= k < |t.arrivals|
      ensures t.arrivals[k].taker < |t.sessions|
      ensures Forwarded(t, k) <==> Owed(t.sessions[t.arrivals[k].taker].reader) != Some(k)
    {
      SameForwarded(st, t, k);
    }
  }

  lemma ReadKeepsUp(st: State, t: State, s: nat)
    requires UpInv(st) && AfterRead(st, t, s)
    ensures UpInv(t)
  {
    ReadKeepsAccounts(st, t, s);
    ReadKeepsSessions(st, t, s);
    forall r | 0 <= r < |t.sessions|
      ensures OwesLast(t, r) && CountersExact(t, r) && LossEndsSession(t.sessions[r])
    {
      assert OwesLast(st, r) && CountersExact(st, r) && LossEndsSession(st.sessions[r]);
      ReadKeepsSession(st, t, s, r);
    }
  }

  lemma ReadKeepsSessions(st: State, t: State, s: nat)
    requires SessionsInOrder(st) && AfterRead(st, t, s)
    ensures SessionsInOrder(t)
  {
    assert forall r | 0 <= r < |st.sessions| :: st.sessions[r].base == t.sessions[r].base;
  }

  lemma ReadKeepsSession(st: State, t: State, s: nat, r: nat)
    requires AfterRead(st, t, s) && r < |st.sessions|
    requires OwesLast(st, r) && CountersExact(st, r) && LossEndsSession(st.sessions[r])
    ensures OwesLast(t, r) && CountersExact(t, r) && LossEndsSession(t.sessions[r])
  {
  }

  /** State t is st after session s wrote the datagram in its buffer as a frame. */
  ghost predicate AfterSend(st: State, t: State, s: nat) {
    && s < |st.sessions| && st.sessions[s].reader.Ready? && st.sessions[s].open
    && st.sessions[s].reader.k < |st.arrivals|
    && t.arrivals == st.arrivals
    && t.frames == st.frames + [Frame(s, st.sessions[s].reader.k, st.arrivals[st.sessions[s].reader.k].payload)]
    && t.sessions == st.sessions[s := st.sessions[s].(reader := Counting(st.sessions[s].reader.k))]
  }

  lemma SendIsNewest(st: State, t: State, s: nat, i: nat)
    requires UpInv(st) && AfterSend(st, t, s) && i < |st.frames|
    ensures st.frames[i].k < st.sessions[s].reader.k
  {
    var k := st.sessions[s].reader.k;
    assert OwesLast(st, s);
    assert !Forwarded(st, k);
    assert s == |st.sessions| - 1;
    assert st.frames[i].session == st.arrivals[st.frames[i].k].taker;
    assert st.sessions[s].base <= k;
  }

  lemma SendKeepsFrames(st: State, t: State, s: nat)
    requires UpInv(st) && AfterSend(st, t, s)
    ensures FramesInOrder(t)
  {
    assert OwesLast(st, s);
    forall i | 0 <= i < |st.frames|
      ensures t.frames[i] == st.frames[i] && st.frames[i].k < st.sessions[s].reader.k
    {
      SendIsNewest(st, t, s, i);
    }
  }

  lemma SendForwards(st: State, t: State, s: nat, j: nat)
    requires AfterSend(st, t, s)
    ensures Forwarded(t, j) <==> Forwarded(st, j) || j == st.sessions[s].reader.k
  {
    if Forwarded(st, j) {
      var i :| 0 <= i < |st.frames| && st.frames[i].k == j;
      assert t.frames[i].k == j;
    }
    assert t.frames[|st.frames|].k == st.sessions[s].reader.k;
  }

  lemma SendKeepsAccounts(st: State, t: State, s: nat)
    requires UpInv(st) && AfterSend(st, t, s)
    ensures EveryArrivalAccounted(t)
  {
    assert OwesLast(st, s);
    forall j | 0 <= j < |t.arrivals|
      ensures Forwarded(t, j) <==> Owed(t.sessions[t.arrivals[j].taker].reader) != Some(j)
    {
      SendForwards(st, t, s, j);
    }
  }

  lemma SendKeepsUp(st: State, t: State, s: nat)
    requires UpInv(st) && AfterSend(st, t, s)
    ensures UpInv(t)
  {
    SendKeepsFrames(st, t, s);
    SendKeepsAccounts(st, t, s);
    SendKeepsSessions(st, t, s);
    forall r | 0 <= r < |t.sessions|
      ensures OwesLast(t, r) && CountersExact(t, r) && LossEndsSession(t.sessions[r])
    {
      assert OwesLast(st, r) && CountersExact(st, r) && LossEndsSession(st.sessions[r]);
      SendKeepsCounters(st, t, s, r);
    }
  }

  lemma SendKeepsSessions(st: State, t: State, s: nat)
    requires UpInv(st) && AfterSend(st, t, s)
    ensures SessionsInOrder(t)
  {
    assert SessionsInOrder(st);
    assert forall r | 0 <= r < |st.sessions| :: st.sessions[r].base == t.sessions[r].base;
  }

  lemma SendKeepsCounters(st: State, t: State, s: nat, r: nat)
    requires AfterSend(st, t, s) && r < |st.sessions| && CountersExact(st, r)
    ensures CountersExact(t, r)
  {
    CountAppend(st.frames, t.frames[|st.frames|], r);
  }

  lemma ReadStep(st: State, e: Event)
    requires e.UdpRead? && e.s < |st.sessions| && LocalUp(st.sessions[e.s], e, st.arrivals).Some?
    ensures AfterRead(st, Step(st, e), e.s)
  {
  }

  lemma SendStep(st: State, e: Event)
    requires e.Send? && e.ok && e.s < |st.sessions| && LocalUp(st.sessions[e.s], e, st.arrivals).Some?
    requires OwesLast(st, e.s)
    ensures AfterSend(st, Step(st, e), e.s)
  {
  }

  lemma QuietStep(st: State, e: Event)
    requires !e.Open? && !e.UdpRead? && !(e.Send? && e.ok) && !e.CountUp? && e.s < |st.sessions|
    requires LossEndsSession(st.sessions[e.s])
    ensures var y := Local(st.sessions[e.s], e, st);
            y.Some? ==> Quiet(st.sessions[e.s], y.value) && Step(st, e) == st.(sessions := st.sessions[e.s := y.value])
  {
  }

  /** Every step keeps the upward invariant. */
  lemma StepKeepsUp(st: State, e: Event)
    requires UpInv(st) && !e.Open?
    ensures UpInv(Step(st, e))
  {
    if e.s < |st.sessions| && Local(st.sessions[e.s], e, st).Some? {
      assert OwesLast(st, e.s) && LossEndsSession(st.sessions[e.s]);
      if e.UdpRead? {
        ReadStep(st, e);
        ReadKeepsUp(st, Step(st, e), e.s);
      } else if e.Send? && e.ok {
        SendStep(st, e);
        SendKeepsUp(st, Step(st, e), e.s);
      } else if e.CountUp? {
        CountKeepsUp(st, Step(st, e), e.s);
      } else {
        QuietStep(st, e);
        QuietKeepsUp(st, e.s, Local(st.sessions[e.s], e, st).value);
      }
    }
  }

  /** Nothing of the downward direction changed, except that a peer address may have become known. */
  ghost predicate SameDown(x: Session, y: Session) {
    && y.returner == x.returner && y.inbound == x.inbound && y.skipped == x.skipped && y.replies == x.replies
    && y.framesDown == x.framesDown && y.bytesDown == x.bytesDown
    && (x.peer.Some? ==> y.peer == x.peer)
  }

  lemma DeliverKeepsDown(x: Session, y: Session)
    requires DownInv(x) && x.returner.Delivering? && x.peer.Some? && x.inbound != []
    requires y == x.(returner := Recording, replies := x.replies + [Reply(x.inbound[|x.inbound| - 1], x.peer.value)])
    ensures DownInv(y)
  {
    assert y.replies[..|y.replies| - 1] == x.replies;
    forall i | 0 <= i < |y.replies|
      ensures y.replies[i] == Reply(y.inbound[y.skipped + i], y.replies[0].to)
    {
      if i < |x.replies| {
        assert x.replies[i] == Reply(x.inbound[x.skipped + i], x.replies[0].to);
      }
    }
  }

  lemma CountDownKeepsDown(x: Session, y: Session)
    requires DownInv(x) && x.returner.Recording? && x.inbound != []
    requires y == x.(returner := Reading, framesDown := x.framesDown + 1,
                     bytesDown := x.bytesDown + |x.inbound[|x.inbound| - 1]|)
    ensures DownInv(y)
  {
    var last := |x.replies| - 1;
    assert x.replies[last] == Reply(x.inbound[x.skipped + last], x.replies[0].to);
  }

  lemma FrameKeepsDown(x: Session, y: Session, data: Payload)
    requires DownInv(x) && x.returner.Reading?
    requires y == x.(returner := Holding, inbound := x.inbound + [data])
    ensures DownInv(y)
  {
    forall i | 0 <= i < |y.replies|
      ensures y.replies[i] == Reply(y.inbound[y.skipped + i], y.replies[0].to)
    {
      assert x.replies[i] == Reply(x.inbound[x.skipped + i], x.replies[0].to);
    }
  }

  /** The WebSocket reader moved on without receiving or delivering. */
  lemma MoveKeepsDown(x: Session, y: Session)
    requires DownInv(x)
    requires y.inbound == x.inbound && y.replies == x.replies
    requires y.framesDown == x.framesDown && y.bytesDown == x.bytesDown
    requires x.peer.Some? ==> y.peer == x.peer
    requires !x.returner.Recording? && !y.returner.Recording? && !x.returner.Stopped?
    requires y.returner.Delivering? ==> y.peer.Some?
    requires y.returner.Waiting? || x.returner.Waiting? ==> x.peer.None? || x.returner.Waiting?
    requires y.returner.Stopped? ==> y.skipped == x.skipped
    requires !y.returner.Stopped? ==> y.skipped + InHand(y) == x.skipped + InHand(x)
    requires x.replies != [] ==> y.skipped == x.skipped
    ensures DownInv(y)
  {
  }

  lemma LocalKeepsDown(x: Session, e: Event, st: State)
    requires DownInv(x) && (x.channel.Some? ==> x.channel == x.peer)
    ensures var y := Local(x, e, st); y.Some? ==> DownInv(y.value)
  {
    LocalDownKeepsDown(x, e);
    var y := LocalUp(x, e, st.arrivals);
    if y.Some? {
      LocalUpKeepsDown(x, e, st.arrivals);
      SameDownKeepsDown(x, y.value);
    }
  }

  lemma LocalUpKeepsDown(x: Session, e: Event, arrivals: seq<Arrival>)
    requires LocalUp(x, e, arrivals).Some?
    ensures SameDown(x, LocalUp(x, e, arrivals).value)
  {
  }

  lemma SameDownKeepsDown(x: Session, y: Session)
    requires DownInv(x) && SameDown(x, y)
    ensures DownInv(y)
  {
  }

  lemma LocalDownKeepsDown(x: Session, e: Event)
    requires DownInv(x) && (x.channel.Some? ==> x.channel == x.peer)
    ensures var y := LocalDown(x, e); y.Some? ==> DownInv(y.value)
  {
    var y := LocalDown(x, e);
    if y.Some? {
      if e.Deliver? && e.ok {
        DeliverKeepsDown(x, y.value);
      } else if e.CountDown? {
        CountDownKeepsDown(x, y.value);
      } else if e.WsFrame? {
        FrameKeepsDown(x, y.value, e.data);
      } else {
        MoveKeepsDown(x, y.value);
      }
    }
  }

  lemma FirstSourceStays(st: State, t: State, s: nat, a: Peer)
    requires FirstSource(st, s, a)
    requires |st.arrivals| <= |t.arrivals| && t.arrivals[..|st.arrivals|] == st.arrivals
    ensures FirstSource(t, s, a)
  {
    var k :| 0 <= k < |st.arrivals| && st.arrivals[k].taker == s && st.arrivals[k].from == a
          && forall j | 0 <= j < k :: st.arrivals[j].taker != s;
    assert forall j | 0 <= j <= k :: t.arrivals[j] == t.arrivals[..|st.arrivals|][j];
  }

  lemma NotePeerKeepsPeer(st: State, s: nat)
    requires s < |st.sessions| && PeerInv(st, s) && OwesLast(st, s)
    requires st.sessions[s].reader.Took? && st.sessions[s].peer.None?
    ensures FirstSource(st, s, st.arrivals[st.sessions[s].reader.k].from)
  {
  }

  /** A step that leaves session s as it is and lets it take nothing. */
  lemma OthersKeepPeer(st: State, t: State, s: nat)
    requires s < |st.sessions| && PeerInv(st, s)
    requires s < |t.sessions| && t.sessions[s] == st.sessions[s]
    requires |st.arrivals| <= |t.arrivals| && t.arrivals[..|st.arrivals|] == st.arrivals
    requires forall k | |st.arrivals| <= k < |t.arrivals| :: t.arrivals[k].taker != s
    ensures PeerInv(t, s)
  {
    if st.sessions[s].peer.Some? {
      FirstSourceStays(st, t, s, st.sessions[s].peer.value);
    } else {
      assert forall k | 0 <= k < |st.arrivals| :: t.arrivals[k] == t.arrivals[..|st.arrivals|][k];
    }
  }

  /** How a step of its own changes what a session knows of its peer. */
  lemma LocalPeer(x: Session, e: Event, st: State)
    requires Local(x, e, st).Some? && (x.channel.Some? ==> x.channel == x.peer)
    requires x.peer.None? ==> x.reader.Blocked? || x.reader.Took? || x.reader == Gone(None)
    ensures var y := Local(x, e, st).value;
            && (x.peer.Some? ==> y.peer == x.peer)
            && (y.channel.Some? ==> y.channel == y.peer)
            && (x.peer.None? && y.peer.Some? ==>
                  e.NotePeer? && x.reader.Took? && x.reader.k < |st.arrivals|
                  && y.peer.value == st.arrivals[x.reader.k].from)
            && (y.peer.None? ==>
                  if e.UdpRead? then x.reader.Blocked? && y.reader == Took(|st.arrivals|)
                  else y.reader == x.reader || (x.reader.Blocked? && y.reader == Gone(None)))
  {
  }

  lemma OwnStep(st: State, e: Event, s: nat)
    requires !e.Open? && e.s == s < |st.sessions| && Local(st.sessions[s], e, st).Some?
    ensures var t := Step(st, e);
            && |t.sessions| == |st.sessions| && t.sessions[s] == Local(st.sessions[s], e, st).value
            && t.arrivals == if e.UdpRead? then st.arrivals + [Arrival(e.payload, e.from, s)] else st.arrivals
  {
  }

  lemma OwnStepKeepsPeer(st: State, e: Event, s: nat)
    requires !e.Open? && e.s == s < |st.sessions| && PeerInv(st, s) && OwesLast(st, s)
    requires Local(st.sessions[s], e, st).Some?
    ensures PeerInv(Step(st, e), s)
  {
    var x, t := st.sessions[s], Step(st, e);
    OwnStep(st, e, s);
    LocalPeer(x, e, st);
    assert t.arrivals[..|st.arrivals|] == st.arrivals;
    if x.peer.Some? {
      FirstSourceStays(st, t, s, x.peer.value);
    } else if t.sessions[s].peer.Some? {
      NotePeerKeepsPeer(st, s);
      FirstSourceStays(st, t, s, st.arrivals[x.reader.k].from);
    }
  }

  lemma OtherStep(st: State, e: Event, s: nat)
    requires !e.Open? && s < |st.sessions| && (e.s != s || Local(st.sessions[s], e, st).None?)
    ensures var t := Step(st, e);
            && |t.sessions| == |st.sessions| && t.sessions[s] == st.sessions[s]
            && (t.arrivals == st.arrivals ||
                (e.UdpRead? && e.s != s && t.arrivals == st.arrivals + [Arrival(e.payload, e.from, e.s)]))
  {
  }

  lemma StepKeepsPeer(st: State, e: Event, s: nat)
    requires !e.Open? && s < |st.sessions| && PeerInv(st, s) && OwesLast(st, s)
    ensures PeerInv(Step(st, e), s)
  {
    if e.s == s && Local(st.sessions[s], e, st).Some? {
      OwnStepKeepsPeer(st, e, s);
    } else {
      OtherStep(st, e, s);
      OthersKeepPeer(st, Step(st, e), s);
    }
  }

  lemma StepIsLocal(st: State, e: Event, s: nat)
    requires !e.Open? && s < |st.sessions|
    ensures var x, y := st.sessions[s], Step(st, e).sessions;
            |y| == |st.sessions| && (y[s] == x || (Local(x, e, st).Some? && y[s] == Local(x, e, st).value))
  {
  }

  lemma StepKeepsDown(st: State, e: Event, s: nat)
    requires !e.Open? && s < |st.sessions| && DownInv(st.sessions[s])
    requires st.sessions[s].channel.Some? ==> st.sessions[s].channel == st.sessions[s].peer
    ensures s < |Step(st, e).sessions| && DownInv(Step(st, e).sessions[s])
  {
    StepIsLocal(st, e, s);
    LocalKeepsDown(st.sessions[s], e, st);
  }

  /** Every step of any goroutine keeps the whole invariant. */
  lemma StepKeepsInv(st: State, e: Event)
    requires Inv(st)
    ensures Inv(Step(st, e))
  {
    if e.Open? {
      OpenKeepsInv(st);
    } else {
      StepKeepsUp(st, e);
      forall s | 0 <= s < |st.sessions|
        ensures PeerInv(Step(st, e), s) && DownInv(Step(st, e).sessions[s])
      {
        assert OwesLast(st, s) && PeerInv(st, s) && DownInv(st.sessions[s]);
        StepKeepsPeer(st, e, s);
        StepKeepsDown(st, e, s);
      }
    }
  }

  lemma {:induction false} RunKeepsInv(st: State, events: seq<Event>)
    requires Inv(st)
    ensures Inv(Run(st, events))
    decreases |events|
  {
    if events != [] {
      StepKeepsInv(st, events[0]);
      RunKeepsInv(Step(st, events[0]), events[1..]);
    }
  }

  // ---------- What every run promises ----------

  function Unit(r: Reader, lostOnly: bool): nat {
    if Owed(r).Some? && (lostOnly ==> r.Gone?) then 1 else 0
  }

  /** How many arrivals the sessions owe, or how many of those are lost for good. */
  function SumOwed(xs: seq<Session>, lostOnly: bool): nat {
    if xs == [] then 0 else SumOwed(xs[..|xs| - 1], lostOnly) + Unit(xs[|xs| - 1].reader, lostOnly)
  }

  function SumCancelled(xs: seq<Session>): nat {
    if xs == [] then 0 else SumCancelled(xs[..|xs| - 1]) + if xs[|xs| - 1].cancelled then 1 else 0
  }

  lemma {:induction false} SumOwedUpdate(xs: seq<Session>, s: nat, y: Session)
    requires s < |xs|
    ensures SumOwed(xs[s := y], false) == SumOwed(xs, false) - Unit(xs[s].reader, false) + Unit(y.reader, false)
    decreases |xs|
  {
    var n := |xs| - 1;
    if s < n {
      SumOwedUpdate(xs[..n], s, y);
      assert xs[s := y][..n] == xs[..n][s := y];
    } else {
      assert xs[s := y][..n] == xs[..n];
    }
  }

  lemma {:induction false} LostAtMostCancelled(xs: seq<Session>)
    requires forall s | 0 <= s < |xs| :: LossEndsSession(xs[s])
    ensures SumOwed(xs, true) <= SumCancelled(xs)
    decreases |xs|
  {
    if xs != [] {
      LostAtMostCancelled(xs[..|xs| - 1]);
      assert LossEndsSession(xs[|xs| - 1]);
    }
  }

  lemma LocalOwes(x: Session, e: Event, st: State)
    requires x.reader.Counting? ==> x.reader.k < |st.arrivals|
    requires Local(x, e, st).Some?
    ensures Unit(Local(x, e, st).value.reader, false)
         == Unit(x.reader, false) + (if e.UdpRead? then 1 else 0) - (if e.Send? && e.ok then 1 else 0)
  {
  }

  lemma StepConserves(st: State, e: Event)
    requires Inv(st) && |st.arrivals| == |st.frames| + SumOwed(st.sessions, false)
    ensures var t := Step(st, e); |t.arrivals| == |t.frames| + SumOwed(t.sessions, false)
  {
    var t := Step(st, e);
    if e.Open? {
      if t != st {
        assert t.sessions[..|st.sessions|] == st.sessions;
      }
    } else if t != st {
      var x := st.sessions[e.s];
      assert OwesLast(st, e.s) && CountersExact(st, e.s);
      LocalOwes(x, e, st);
      SumOwedUpdate(st.sessions, e.s, Local(x, e, st).value);
    }
  }

  lemma {:induction false} RunConserves(st: State, events: seq<Event>)
    requires Inv(st) && |st.arrivals| == |st.frames| + SumOwed(st.sessions, false)
    ensures var t := Run(st, events); |t.arrivals| == |t.frames| + SumOwed(t.sessions, false)
    decreases |events|
  {
    if events != [] {
      StepConserves(st, events[0]);
      StepKeepsInv(st, events[0]);
      RunConserves(Step(st, events[0]), events[1..]);
    }
  }

  /** A state some run of the client gets to. */
  ghost predicate Reachable(st: State) {
    exists events :: st == Run(INIT, events)
  }

  lemma ReachableInv(st: State)
    requires Reachable(st)
    ensures Inv(st) && |st.arrivals| == |st.frames| + SumOwed(st.sessions, false)
  {
    var events :| st == Run(INIT, events);
    StartedInv(INIT, events);
  }

  lemma {:induction false} StartedInv(init: State, events: seq<Event>)
    requires init.arrivals == [] && init.frames == [] && init.sessions == []
    ensures var st := Run(init, events); Inv(st) && |st.arrivals| == |st.frames| + SumOwed(st.sessions, false)
  {
    InitInv(init);
    RunKeepsInv(init, events);
    RunConserves(init, events);
  }

  lemma InitInv(st: State)
    requires st.arrivals == [] && st.frames == [] && st.sessions == []
    ensures Inv(st) && |st.arrivals| == |st.frames| + SumOwed(st.sessions, false)
  {
    assert FramesInOrder(st);
    assert EveryArrivalAccounted(st);
    assert SessionsInOrder(st);
    assert UpInv(st);
  }

  /** Over any run, with any number of reconnects in any interleaving: every datagram read is a frame
      written, or in some reader's buffer, or lost; and no more are lost than sessions ended. */
  lemma DatagramsConserved(st: State)
    requires Reachable(st)
    ensures |st.arrivals| == |st.frames| + SumOwed(st.sessions, false)
    ensures SumOwed(st.sessions, true) <= SumCancelled(st.sessions)
  {
    ReachableInv(st);
    LostAtMostCancelled(st.sessions);
  }

  /** The frames are the datagrams, unchanged and in order of arrival, leaving out only what a session
      owes: at most one datagram each, the last one its reader took. */
  lemma FramesAreArrivals(st: State)
    requires Reachable(st)
    ensures FramesInOrder(st)
    ensures forall k | 0 <= k < |st.arrivals| && !Forwarded(st, k) ::
              && st.arrivals[k].taker < |st.sessions|
              && Owed(st.sessions[st.arrivals[k].taker].reader) == Some(k)
              && forall j | k < j < |st.arrivals| :: st.arrivals[j].taker != st.arrivals[k].taker
  {
    ReachableInv(st);
    forall k | 0 <= k < |st.arrivals| && !Forwarded(st, k)
      ensures forall j | k < j < |st.arrivals| :: st.arrivals[j].taker != st.arrivals[k].taker
    {
      assert OwesLast(st, st.arrivals[k].taker);
    }
  }

  /** In each session all replies go to the source of the first datagram its reader took, and they are
      a contiguous run of the received frames, in order: those before it were skipped, and at most one
      frame after it is undelivered. */
  lemma RepliesAreContiguous(st: State, s: nat)
    requires Reachable(st) && s < |st.sessions|
    ensures var x := st.sessions[s];
            && |x.inbound| - 1 <= x.skipped + |x.replies| <= |x.inbound|
            && forall i | 0 <= i < |x.replies| ::
                 x.replies[i].payload == x.inbound[x.skipped + i] && FirstSource(st, s, x.replies[i].to)
  {
    ReachableInv(st);
    SessionReplies(st, s);
  }

  lemma SessionReplies(st: State, s: nat)
    requires s < |st.sessions| && PeerInv(st, s) && DownInv(st.sessions[s])
    ensures var x := st.sessions[s];
            && |x.inbound| - 1 <= x.skipped + |x.replies| <= |x.inbound|
            && forall i | 0 <= i < |x.replies| ::
                 x.replies[i].payload == x.inbound[x.skipped + i] && FirstSource(st, s, x.replies[i].to)
  {
    var x := st.sessions[s];
    forall i | 0 <= i < |x.replies|
      ensures x.replies[i].payload == x.inbound[x.skipped + i] && FirstSource(st, s, x.replies[i].to)
    {
      assert x.replies[i] == Reply(x.inbound[x.skipped + i], x.replies[0].to);
    }
  }

  /** The counters count exactly the frames and the replies, but for one not yet counted. */
  lemma {:induction false} CountersCount(st: State, s: nat)
    requires Reachable(st) && s < |st.sessions|
    ensures var x := st.sessions[s];
            && x.framesUp + (if x.reader.Counting? then 1 else 0) == CountFrames(st.frames, s)
            && x.framesDown + (if x.returner.Recording? then 1 else 0) == |x.replies|
            && (x.reader.Counting? ==> x.reader.k < |st.arrivals|)
            && x.bytesUp + (if x.reader.Counting? then |st.arrivals[x.reader.k].payload| else 0)
               == CountBytes(st.frames, s)
            && (x.returner.Recording? ==> x.replies != [])
            && x.bytesDown + (if x.returner.Recording? then |x.replies[|x.replies| - 1].payload| else 0)
               == ReplyBytes(x.replies)
  {
    ReachableInv(st);
    assert CountersExact(st, s) && DownInv(st.sessions[s]);
  }

  lemma StepFixesPeer(st: State, e: Event, s: nat)
    requires s < |st.sessions| && st.sessions[s].peer.Some? && PeerInv(st, s)
    ensures s < |Step(st, e).sessions| && Step(st, e).sessions[s].peer == st.sessions[s].peer
  {
  }

  /** A peer address once known never changes. */
  lemma {:induction false} PeerIsFixed(st: State, events: seq<Event>, s: nat)
    requires Inv(st) && s < |st.sessions| && st.sessions[s].peer.Some?
    ensures s < |Run(st, events).sessions| && Run(st, events).sessions[s].peer == st.sessions[s].peer
    decreases |events|
  {
    if events != [] {
      assert PeerInv(st, s);
      var next := Step(st, events[0]);
      StepFixesPeer(st, events[0], s);
      StepKeepsInv(st, events[0]);
      PeerIsFixed(next, events[1..], s);
    }
  }

  // ---------- What the goroutines get done ----------

  lemma {:induction false} RunSnoc(st: State, events: seq<Event>, e: Event)
    ensures Run(st, events + [e]) == Step(Run(st, events), e)
    decreases |events|
  {
    if events == [] {
      assert events + [e] == [e] && [e][1..] == [];
      assert Run(st, [e]) == Run(Step(st, e), []);
    } else {
      assert (events + [e])[1..] == events[1..] + [e];
      RunSnoc(Step(st, events[0]), events[1..], e);
    }
  }

  /** A possible step of session s does what its goroutine does, and nothing to other sessions. */
  lemma StepDoes(st: State, e: Event, s: nat, y: Session)
    requires !e.Open? && e.s == s < |st.sessions| && Local(st.sessions[s], e, st) == Some(y)
    ensures var t := Step(st, e);
            && t.sessions == st.sessions[s := y]
            && t.arrivals == (if e.UdpRead? then st.arrivals + [Arrival(e.payload, e.from, s)] else st.arrivals)
            && (!(e.Send? && e.ok) ==> t.frames == st.frames)
  {
  }

  /** A session's UDP reader holds arrival k, the last one, and has not looked at the peer address. */
  ghost predicate Holds(st: State, s: nat, k: nat)
    requires s < |st.sessions|
  {
    st.sessions[s].reader == Took(k) && k < |st.arrivals|
  }

  lemma ReadTakes(st: State, s: nat, p: Payload, a: Peer)
    requires s < |st.sessions| && st.sessions[s].reader.Blocked?
    ensures var t := Step(st, UdpRead(s, p, a));
            && t.arrivals == st.arrivals + [Arrival(p, a, s)] && t.frames == st.frames
            && t.sessions == st.sessions[s := st.sessions[s].(reader := Took(|st.arrivals|))]
  {
  }

  /** After noting and offering the peer address the reader is ready to write, and the address is known. */
  lemma ReaderGetsReady(st: State, s: nat, k: nat)
    requires s < |st.sessions| && Holds(st, s, k)
    ensures var t := Step(Step(st, NotePeer(s)), OfferPeer(s));
            var x := st.sessions[s];
            && t.arrivals == st.arrivals && t.frames == st.frames && |t.sessions| == |st.sessions|
            && t.sessions[s] == x.(reader := Ready(k),
                 peer := if x.peer.Some? then x.peer else Some(st.arrivals[k].from),
                 channel := if x.peer.Some? || x.channel.Some? then x.channel else Some(st.arrivals[k].from))
  {
    var x := st.sessions[s];
    if x.peer.Some? {
      StepDoes(st, NotePeer(s), s, x.(reader := Ready(k)));
    } else {
      var y := x.(reader := Offering(k), peer := Some(st.arrivals[k].from));
      StepDoes(st, NotePeer(s), s, y);
      StepDoes(Step(st, NotePeer(s)), OfferPeer(s), s,
               y.(reader := Ready(k), channel := if y.channel.None? then y.peer else y.channel));
    }
  }

  lemma SendWrites(st: State, s: nat, k: nat)
    requires s < |st.sessions| && st.sessions[s].reader == Ready(k) && k < |st.arrivals| && st.sessions[s].open
    ensures var t := Step(st, Send(s, true));
            && t.arrivals == st.arrivals
            && t.frames == st.frames + [Frame(s, k, st.arrivals[k].payload)]
            && t.sessions == st.sessions[s := st.sessions[s].(reader := Counting(k))]
  {
  }

  lemma CountCounts(st: State, s: nat, k: nat)
    requires s < |st.sessions| && st.sessions[s].reader == Counting(k) && k < |st.arrivals|
    ensures var t := Step(st, CountUp(s));
            var x := st.sessions[s];
            && t.arrivals == st.arrivals && t.frames == st.frames
            && t.sessions == st.sessions[s := x.(reader := Blocked, framesUp := x.framesUp + 1,
                                                bytesUp := x.bytesUp + |st.arrivals[k].payload|)]
  {
  }

  /** The steps that take one datagram from the socket to the WebSocket. */
  function ForwardSteps(s: nat, p: Payload, a: Peer): seq<Event> {
    [UdpRead(s, p, a)] + [NotePeer(s)] + [OfferPeer(s)] + [Send(s, true)] + [CountUp(s)]
  }

  /** In an open session the reader forwards every datagram it takes and is then ready for the next one,
      however many it forwarded before. */
  lemma {:induction false} ForwardsDatagram(st: State, s: nat, p: Payload, a: Peer)
    requires s < |st.sessions| && st.sessions[s].open && st.sessions[s].reader.Blocked?
    ensures var t, x := Run(st, ForwardSteps(s, p, a)), st.sessions[s];
            && t.arrivals == st.arrivals + [Arrival(p, a, s)]
            && t.frames == st.frames + [Frame(s, |st.arrivals|, p)]
            && |t.sessions| == |st.sessions|
            && t.sessions[s].open && t.sessions[s].reader.Blocked?
            && t.sessions[s].peer == (if x.peer.Some? then x.peer else Some(a))
            && t.sessions[s].framesUp == x.framesUp + 1 && t.sessions[s].bytesUp == x.bytesUp + |p|
  {
    var k := |st.arrivals|;
    RunSnoc(st, [], UdpRead(s, p, a));
    assert [] + [UdpRead(s, p, a)] == [UdpRead(s, p, a)];
    RunSnoc(st, [UdpRead(s, p, a)], NotePeer(s));
    RunSnoc(st, [UdpRead(s, p, a)] + [NotePeer(s)], OfferPeer(s));
    RunSnoc(st, [UdpRead(s, p, a)] + [NotePeer(s)] + [OfferPeer(s)], Send(s, true));
    RunSnoc(st, [UdpRead(s, p, a)] + [NotePeer(s)] + [OfferPeer(s)] + [Send(s, true)], CountUp(s));
    ReadTakes(st, s, p, a);
    var st1 := Step(st, UdpRead(s, p, a));
    ReaderGetsReady(st1, s, k);
    var st3 := Step(Step(st1, NotePeer(s)), OfferPeer(s));
    SendWrites(st3, s, k);
    CountCounts(Step(st3, Send(s, true)), s, k);
  }

  /** So a whole stream of datagrams is forwarded, all of it and in order. */
  function StreamSteps(s: nat, ps: seq<Payload>, a: Peer): seq<Event> {
    if ps == [] then [] else ForwardSteps(s, ps[0], a) + StreamSteps(s, ps[1..], a)
  }

  lemma {:induction false} RunConcat(st: State, a: seq<Event>, b: seq<Event>)
    ensures Run(st, a + b) == Run(Run(st, a), b)
    decreases |a|
  {
    if a == [] {
      assert a + b == b;
    } else {
      assert (a + b)[1..] == a[1..] + b;
      RunConcat(Step(st, a[0]), a[1..], b);
    }
  }

  function Payloads(frames: seq<Frame>): seq<Payload> {
    seq(|frames|, i requires 0 <= i < |frames| => frames[i].payload)
  }

  lemma {:induction false} ForwardsStream(st: State, s: nat, ps: seq<Payload>, a: Peer)
    requires s < |st.sessions| && st.sessions[s].open && st.sessions[s].reader.Blocked?
    ensures var t := Run(st, StreamSteps(s, ps, a));
            && Payloads(t.frames) == Payloads(st.frames) + ps
            && s < |t.sessions| && t.sessions[s].open && t.sessions[s].reader.Blocked?
    decreases |ps|
  {
    if ps != [] {
      ForwardsDatagram(st, s, ps[0], a);
      var t := Run(st, ForwardSteps(s, ps[0], a));
      RunConcat(st, ForwardSteps(s, ps[0], a), StreamSteps(s, ps[1..], a));
      ForwardsStream(t, s, ps[1..], a);
      assert Payloads(t.frames) == Payloads(st.frames) + [ps[0]];
      assert Payloads(st.frames) + ps == Payloads(st.frames) + [ps[0]] + ps[1..];
    }
  }

  /** A session's WebSocket reader has received `data` and has not looked at the peer address. */
  lemma FrameReceived(st: State, s: nat, data: Payload)
    requires s < |st.sessions| && st.sessions[s].returner.Reading?
    ensures var t := Step(Step(st, WsFrame(s, data)), CheckPeer(s));
            var x := st.sessions[s];
            && t.arrivals == st.arrivals && t.frames == st.frames && |t.sessions| == |st.sessions|
            && t.sessions[s] == x.(inbound := x.inbound + [data],
                                   returner := if x.peer.Some? then Delivering else Waiting)
  {
    var x := st.sessions[s];
    var y := x.(returner := Holding, inbound := x.inbound + [data]);
    StepDoes(st, WsFrame(s, data), s, y);
    StepDoes(Step(st, WsFrame(s, data)), CheckPeer(s), s,
             y.(returner := if x.peer.Some? then Delivering else Waiting));
  }

  lemma Delivers(st: State, s: nat, data: Payload, to: Peer)
    requires s < |st.sessions| && st.sessions[s].returner.Delivering? && st.sessions[s].peer == Some(to)
    requires st.sessions[s].inbound != [] && st.sessions[s].inbound[|st.sessions[s].inbound| - 1] == data
    ensures var t := Step(Step(st, Deliver(s, true)), CountDown(s));
            var x := st.sessions[s];
            && |t.sessions| == |st.sessions|
            && t.sessions[s] == x.(returner := Reading, replies := x.replies + [Reply(data, to)],
                                   framesDown := x.framesDown + 1, bytesDown := x.bytesDown + |data|)
  {
    var x := st.sessions[s];
    var y := x.(returner := Recording, replies := x.replies + [Reply(data, to)]);
    StepDoes(st, Deliver(s, true), s, y);
    StepDoes(Step(st, Deliver(s, true)), CountDown(s), s,
             y.(returner := Reading, framesDown := x.framesDown + 1, bytesDown := x.bytesDown + |data|));
  }

  /** A frame received once the peer address is known is delivered to it, and the reader goes on reading. */
  lemma DeliversFrame(st: State, s: nat, data: Payload, to: Peer)
    requires s < |st.sessions| && st.sessions[s].returner.Reading? && st.sessions[s].peer == Some(to)
    ensures var x := st.sessions[s];
            var t := Step(Step(Step(Step(st, WsFrame(s, data)), CheckPeer(s)), Deliver(s, true)), CountDown(s));
            && s < |t.sessions| && t.sessions[s].returner.Reading?
            && t.sessions[s].replies == x.replies + [Reply(data, to)] && t.sessions[s].skipped == x.skipped
            && t.sessions[s].framesDown == x.framesDown + 1 && t.sessions[s].bytesDown == x.bytesDown + |data|
  {
    FrameReceived(st, s, data);
    Delivers(Step(Step(st, WsFrame(s, data)), CheckPeer(s)), s, data, to);
  }

  /** A frame received before is held until the first datagram makes the address known, and then
      delivered to its source. */
  lemma DeliversWaitingFrame(st: State, s: nat, data: Payload, p: Payload, a: Peer)
    requires s < |st.sessions| && st.sessions[s].returner.Reading? && st.sessions[s].reader.Blocked?
    requires st.sessions[s].peer.None? && st.sessions[s].channel.None?
    ensures var x := st.sessions[s];
            var held := Step(Step(st, WsFrame(s, data)), CheckPeer(s));
            var known := Step(Step(Step(held, UdpRead(s, p, a)), NotePeer(s)), OfferPeer(s));
            var t := Step(Step(Step(known, TakePeer(s)), Deliver(s, true)), CountDown(s));
            && s < |t.sessions| && t.sessions[s].returner.Reading?
            && t.sessions[s].replies == x.replies + [Reply(data, a)] && t.sessions[s].skipped == x.skipped
  {
    FrameReceived(st, s, data);
    var held := Step(Step(st, WsFrame(s, data)), CheckPeer(s));
    ReadTakes(held, s, p, a);
    ReaderGetsReady(Step(held, UdpRead(s, p, a)), s, |held.arrivals|);
    var known := Step(Step(Step(held, UdpRead(s, p, a)), NotePeer(s)), OfferPeer(s));
    var x := known.sessions[s];
    StepDoes(known, TakePeer(s), s, x.(returner := Delivering, peer := x.channel, channel := None));
    Delivers(Step(known, TakePeer(s)), s, data, a);
  }

  /** Nothing is lost otherwise: a reader loses a datagram only in a failing write of it, and a received
      frame is skipped only when thirty seconds bring no peer address. */
  lemma OnlyFailedSendLoses(st: State, e: Event, s: nat)
    requires !e.Open? && s < |st.sessions|
    ensures var x, y := st.sessions[s], Step(st, e).sessions;
            && |y| == |st.sessions|
            && (y[s].reader.Gone? && y[s].reader.lost.Some? && x.reader != y[s].reader ==>
                  e == Send(s, false) && x.reader == Ready(y[s].reader.lost.value))
            && (y[s].skipped != x.skipped ==> e == GiveUp(s) && x.returner.Waiting? && y[s].skipped == x.skipped + 1)
            && (y[s].returner.Stopped? && !x.returner.Stopped? ==>
                  e == WsError(s) || (e == Abandon(s) && x.cancelled) || e == Deliver(s, false))
  {
    if e.s != s {
      SameSession(st, e, s);
    } else {
      StepIsLocal(st, e, s);
      if Local(st.sessions[s], e, st).Some? {
        LocalLoses(st.sessions[s], e, st);
      }
    }
  }

  lemma LocalLoses(x: Session, e: Event, st: State)
    requires !e.Open? && Local(x, e, st).Some?
    ensures var y := Local(x, e, st).value;
            && (y.reader.Gone? && y.reader.lost.Some? && x.reader != y.reader ==>
                  e.Send? && !e.ok && x.reader == Ready(y.reader.lost.value))
            && (y.skipped != x.skipped ==> e.GiveUp? && x.returner.Waiting? && y.skipped == x.skipped + 1)
            && (y.returner.Stopped? && !x.returner.Stopped? ==>
                  e.WsError? || (e.Abandon? && x.cancelled) || (e.Deliver? && !e.ok))
  {
  }

  lemma SameSession(st: State, e: Event, s: nat)
    requires !e.Open? && s < |st.sessions| && e.s != s
    ensures |Step(st, e).sessions| == |st.sessions| && Step(st, e).sessions[s] == st.sessions[s]
  {
  }

  /** A frame that waits for a peer address can at any time be given up after thirty seconds, however many
      were before, and the reader goes on; and once the session is cancelled it can always be abandoned. */
  lemma WaitingEnds(st: State, s: nat)
    requires s < |st.sessions| && st.sessions[s].returner.Waiting?
    ensures var x := st.sessions[s];
            && Step(st, GiveUp(s)).sessions == st.sessions[s := x.(returner := Reading, skipped := x.skipped + 1)]
            && (x.cancelled ==> Step(st, Abandon(s)).sessions == st.sessions[s := x.(returner := Stopped)])
  {
    var x := st.sessions[s];
    StepDoes(st, GiveUp(s), s, x.(returner := Reading, skipped := x.skipped + 1));
    if x.cancelled {
      StepDoes(st, Abandon(s), s, x.(returner := Stopped));
    }
  }

  /** A failure ends the goroutine that meets it, and with it the session. */
  lemma FailuresEnd(st: State, s: nat)
    requires s < |st.sessions|
    ensures var x := st.sessions[s];
            && (x.reader.Blocked? ==>
                  Step(st, UdpError(s)).sessions == st.sessions[s := x.(reader := Gone(None), cancelled := true)])
            && (x.reader.Ready? ==>
                  Step(st, Send(s, false)).sessions
                    == st.sessions[s := x.(reader := Gone(Some(x.reader.k)), cancelled := true)])
            && (x.returner.Reading? ==>
                  Step(st, WsError(s)).sessions == st.sessions[s := x.(returner := Stopped, cancelled := true)])
            && (x.returner.Delivering? && x.peer.Some? && x.inbound != [] ==>
                  Step(st, Deliver(s, false)).sessions == st.sessions[s := x.(returner := Stopped, cancelled := true)])
  {
    var x := st.sessions[s];
    if x.reader.Blocked? {
      StepDoes(st, UdpError(s), s, x.(reader := Gone(None), cancelled := true));
    }
    if x.reader.Ready? {
      StepDoes(st, Send(s, false), s, x.(reader := Gone(Some(x.reader.k)), cancelled := true));
    }
    if x.returner.Reading? {
      StepDoes(st, WsError(s), s, x.(returner := Stopped, cancelled := true));
    }
    if x.returner.Delivering? && x.peer.Some? && x.inbound != [] {
      StepDoes(st, Deliver(s, false), s, x.(returner := Stopped, cancelled := true));
    }
  }

  /** A session whose reader or returner ends is cancelled by that. */
  lemma EndingCancels(st: State, e: Event, s: nat)
    requires !e.Open? && s < |st.sessions|
    ensures var x, y := st.sessions[s], Step(st, e).sessions;
            && |y| == |st.sessions|
            && (y[s].reader.Gone? && !x.reader.Gone? ==> y[s].cancelled)
            && (y[s].returner.Stopped? && !x.returner.Stopped? ==> y[s].cancelled)
            && (x.cancelled ==> y[s].cancelled)
            && (x.reader.Gone? ==> y[s].reader == x.reader)
            && (x.returner.Stopped? ==> y[s].returner.Stopped?)
  {
    StepIsLocal(st, e, s);
    if e.s != s {
      SameSession(st, e, s);
    }
  }

  /** The reader of an ended session, still blocked in its read, takes one more datagram, writes nothing,
      and is gone with it. */
  lemma StaleReaderTakesOne(st: State, s: nat, p: Payload, a: Peer)
    requires s < |st.sessions| && !st.sessions[s].open && st.sessions[s].reader.Blocked?
    ensures var ready := Step(Step(Step(st, UdpRead(s, p, a)), NotePeer(s)), OfferPeer(s));
            var t := Step(ready, Send(s, false));
            && Step(ready, Send(s, true)) == ready
            && t.frames == st.frames && t.arrivals == st.arrivals + [Arrival(p, a, s)]
            && s < |t.sessions| && t.sessions[s].reader == Gone(Some(|st.arrivals|))
  {
    ReadTakes(st, s, p, a);
    ReaderGetsReady(Step(st, UdpRead(s, p, a)), s, |st.arrivals|);
    var ready := Step(Step(Step(st, UdpRead(s, p, a)), NotePeer(s)), OfferPeer(s));
    var x := ready.sessions[s];
    StepDoes(ready, Send(s, false), s, x.(reader := Gone(Some(|st.arrivals|)), cancelled := true));
  }

  /** An ended session makes room for the next: cancelled, it returns, and a fresh one opens. */
  lemma Reconnects(st: State)
    requires st.sessions != []
    ensures var s := |st.sessions| - 1;
            var t := Step(Step(Step(st, Cancel(s)), Close(s)), Open);
            && t.arrivals == st.arrivals && t.frames == st.frames
            && |t.sessions| == |st.sessions| + 1 && t.sessions[|st.sessions|] == Fresh(|st.arrivals|)
            && !t.sessions[s].open
  {
    var s := |st.sessions| - 1;
    var x := st.sessions[s].(cancelled := true);
    StepDoes(st, Cancel(s), s, x);
    var st1 := Step(st, Cancel(s));
    if x.open {
      StepDoes(st1, Close(s), s, x.(open := false));
    }
  }
}
