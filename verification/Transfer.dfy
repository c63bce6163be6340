/**
 A one-directional transfer between two endpoints over links that keep order but lose
 packets.  The state holds the writing application, the send ring, the sender thread
 with its sliding window, both channels, the receive ring and the reading application;
 every atomic action of any of them is one step.
 */
module Transfer {
  import opened Options
  import opened Ring
  import opened ReadBuffers
  import opened WriteBuffers
  import opened SlidingWindows

  datatype Seg = Seg(seqNum: nat, payload: seq<Byte>)

  datatype AckMsg = AckMsg(num: nat, window: nat)

  /** Where the sender thread is; `Jammed` after it blocked for good, with its segment on the wire or not. */
  datatype Thread = Idle | Got(lbw: nat) | Sliding(sl: Slide) | Jammed(out: bool)

  /**
   `requested`, `stream`, `handed` and `delivered` record history: all VWrite messages, the
   bytes copied into the ring, how many of them the sender thread has taken over, and all
   VRead results.
   */
  datatype State = State(
    requested: seq<Byte>, stream: seq<Byte>, handed: nat, delivered: seq<Byte>,
    todo: seq<Byte>, newMessage: bool, offered: Option<nat>,
    wbuf: seq<Byte>, lbw: nat, tx: Tx, thread: Thread,
    data: seq<Seg>, acks: seq<AckMsg>, ackChan: seq<AckMsg>, stray: bool,
    recv: Recv, early: multiset<Seg>)

  datatype Event =
    | WriteCall(message: seq<Byte>)   // VWrite is called
    | WriteStep                       // one round of VWrite's loop
    | Handoff                         // rendezvous on writeChan
    | TakeOut                         // the sender thread copies the chunk and opens a window
    | SendStep                        // the loop's sending branch
    | AckStep                         // the loop drains one acknowledgement
    | Resend                          // the retransmission timer
    | GiveUp                          // the timer's tenth expiry for one segment
    | Finish                          // slidingWindow returns
    | LoseData(i: nat)
    | LoseAck(i: nat)
    | DeliverData                     // the peer's receiver thread handles a segment
    | DeliverAck                      // the sender's receiver thread handles an acknowledgement
    | ReadStep(n: nat)                // VRead

  ghost function WRingOf(s: State): (w: WRing) {
    WRing(s.wbuf, s.tx.una, s.tx.nxt, s.lbw)
  }

  ghost function Without<T>(q: seq<T>, i: nat): (r: seq<T>)
    requires i < |q|
    ensures |r| == |q| - 1 && (forall x :: x in r ==> x in q)
    ensures forall k :: 0 <= k < |r| ==> r[k] == q[if k < i then k else k + 1]
  {
    q[..i] + q[i + 1..]
  }

  // ---------- The receiver ----------

  ghost predicate Earliest(x: Seg, early: multiset<Seg>) {
    x in early && forall y :: y in early ==> x.seqNum <= y.seqNum
  }

  /** Queued segments move in, in order of sequence numbers, until the earliest lies beyond. */
  ghost predicate Drains(r: Recv, early: multiset<Seg>, r': Recv, early': multiset<Seg>)
    requires r.Valid()
    decreases |early|
  {
    if forall x :: x in early ==> x.seqNum > r.cum then
      r' == r && early' == early
    else
      exists x :: Earliest(x, early) &&
        var rest := early - multiset{x};
        if x.seqNum < r.cum then Drains(r, rest, r', early')
        else Drains(Insert(r, x.seqNum, x.payload), rest, r', early')
  }

  ghost predicate Received(s: State, f: Seg, s': State)
    requires s.recv.Valid()
  {
    if f.seqNum > s.recv.cum then
      s' == s.(data := s'.data, early := s.early + multiset{f})
    else if s.recv.Free() == 0 then
      s' == s.(data := s'.data)
    else
      && Drains(Insert(s.recv, f.seqNum, f.payload), s.early, s'.recv, s'.early)
      && s' == s.(data := s'.data, recv := s'.recv, early := s'.early, acks := s.acks + [AckMsg(s'.recv.cum, s'.recv.Free())])
  }

  // ---------- Steps ----------

  ghost predicate Valid(s: State) {
    WRingOf(s).Valid() && s.recv.Valid()
  }

  ghost predicate WriteCalled(s: State, message: seq<Byte>, s': State) {
    && s.todo == [] && s.offered == None
    && s' == s.(todo := message, newMessage := true, requested := s.requested + message)
  }

  ghost predicate ChunkWritten(s: State, s': State)
    requires Valid(s)
  {
    && s.todo != [] && s.offered == None
    && var n := ChunkSize(s.tx.una, s.lbw, |s.todo|, s.newMessage);
       var w := AfterWrite(WRingOf(s), s.todo[..n]);
       s' == s.(wbuf := w.buf, lbw := w.lbw, offered := Some(w.lbw), newMessage := false,
                stream := s.stream + s.todo[..n], todo := s.todo[n..])
  }

  ghost predicate HandedOver(s: State, s': State) {
    && s.offered.Some? && s.thread == Idle
    && s' == s.(offered := None, thread := Got(s.offered.value), handed := |s.stream|)
  }

  ghost predicate TakenOut(s: State, s': State)
    requires Valid(s)
  {
    && s.thread.Got?
    && s' == s.(thread := if Dist(s.thread.lbw, s.tx.una) >= Dist(s.tx.nxt, s.tx.una)
                          then Sliding(Open(s.tx, Outgoing(WRingOf(s), s.thread.lbw))) else Idle)
  }

  /** With the map of acknowledgement numbers locked, NXT has moved when the thread blocks for good. */
  ghost predicate SegmentSent(s: State, s': State) {
    && s.thread.Sliding? && CanSend(s.tx, s.thread.sl)
    && var sl := s.thread.sl;
       if s.tx.locked then
         s' == s.(tx := s.tx.(nxt := NewNxt(s.tx, sl)), thread := Jammed(false))
       else
         s' == s.(tx := SendTx(s.tx, sl), thread := Sliding(SendSlide(s.tx, sl)),
                  data := s.data + [Seg(Tail(sl).seqNum, Tail(sl).payload)])
  }

  ghost predicate AckTaken(s: State, s': State) {
    && s.thread.Sliding? && !s.tx.locked && s.ackChan != []
    && var ack := s.ackChan[0];
       s' == s.(tx := AckTx(s.tx, ack.num, ack.window), thread := Sliding(AckSlide(s.tx, s.thread.sl, ack.num)),
                ackChan := s.ackChan[1..])
  }

  ghost predicate Resent(s: State, s': State) {
    && s.thread.Sliding? && CanResend(s.tx, s.thread.sl)
    && var n := s.thread.sl.nodes[Oldest(s.thread.sl)];
       s' == s.(thread := Sliding(ResendSlide(s.thread.sl)), data := s.data + [Seg(n.seqNum, n.payload)])
  }

  ghost predicate GivenUp(s: State, s': State) {
    s.thread.Sliding? && CanResend(s.tx, s.thread.sl) && s' == s.(thread := Jammed(true))
  }

  ghost predicate Finished(s: State, s': State) {
    s.thread.Sliding? && s.thread.sl.bytesSent >= s.thread.sl.size && s' == s.(thread := Idle)
  }

  ghost predicate DataDelivered(s: State, s': State)
    requires Valid(s)
  {
    s.data != [] && s'.data == s.data[1..] && Received(s, s.data[0], s')
  }

  ghost predicate AckDelivered(s: State, s': State) {
    && s.acks != []
    && var ack := s.acks[0];
       var s1 := s.(acks := s.acks[1..], tx := s.tx.(cws := ack.window));
       if s.tx.locked then s' == s1
       else if ack.num in s.tx.unacked then s' == s1.(ackChan := s.ackChan + [ack])
       else s' == s1.(stray := true)
  }

  ghost predicate BytesRead(s: State, n: nat, s': State)
    requires Valid(s)
  {
    && s.recv.Buffered() > 0
    && s' == s.(delivered := s.delivered + ReadBytes(s.recv, n), recv := AfterRead(s.recv, n))
  }

  ghost predicate Step(s: State, ev: Event, s': State)
    requires Valid(s)
  {
    match ev
    case WriteCall(message) => WriteCalled(s, message, s')
    case WriteStep => ChunkWritten(s, s')
    case Handoff => HandedOver(s, s')
    case TakeOut => TakenOut(s, s')
    case SendStep => SegmentSent(s, s')
    case AckStep => AckTaken(s, s')
    case Resend => Resent(s, s')
    case GiveUp => GivenUp(s, s')
    case Finish => Finished(s, s')
    case LoseData(i) => i < |s.data| && s' == s.(data := Without(s.data, i))
    case LoseAck(i) => i < |s.acks| && s' == s.(acks := Without(s.acks, i))
    case DeliverData => DataDelivered(s, s')
    case DeliverAck => AckDelivered(s, s')
    case ReadStep(n) => BytesRead(s, n, s')
  }

  /** Both ends as the handshake leaves them, with the sender's initial sequence number `isn`. */
  ghost predicate Init(s: State, isn: nat) {
    && isn + 1 < UINT32
    && s.requested == s.stream == s.delivered == s.todo == [] && s.handed == 0 && s.offered == None
    && |s.wbuf| == WINDOW_SIZE && s.lbw == 0
    && s.tx == Tx(1, 1, isn + 1, isn, WINDOW_SIZE - 1, map[], false) && s.thread == Idle
    && s.data == [] && s.acks == s.ackChan == [] && !s.stray
    && |s.recv.buf| == WINDOW_SIZE && s.recv == Recv(s.recv.buf, 0, 1, isn + 1, isn) && s.early == multiset{}
  }

  /** The reader keeps up: at least one maximal segment fits into the receive ring. */
  ghost predicate Roomy(s: State) {
    s.recv.Free() >= CHUNK
  }

  /** Any run of the two endpoints whose sequence numbers stay below 2^32. */
  ghost predicate AnyRun(states: seq<State>, events: seq<Event>, isn: nat) {
    && |states| == |events| + 1 && Init(states[0], isn)
    && (forall i :: 0 <= i < |states| ==> Valid(states[i]) && isn + 1 + |states[i].stream| < UINT32)
    && (forall i :: 0 <= i < |events| ==> Step(states[i], events[i], states[i + 1]))
  }

  /** A run in which the reader keeps up. */
  ghost predicate Run(states: seq<State>, events: seq<Event>, isn: nat) {
    AnyRun(states, events, isn) && forall i :: 0 <= i < |states| ==> Roomy(states[i])
  }
}
