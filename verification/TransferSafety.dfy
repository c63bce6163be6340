/**
 End-to-end safety of a transfer: in every run, whatever is lost and resent and however
 the threads interleave, what the reading application has received is a prefix of what
 the writing application has sent.

 Each chunk travels as one segment, and the next one starts only when the previous one is
 acknowledged.  The invariant says what can be in flight: repeats of the chunk before,
 then copies of the chunk in the air, and acknowledgements of either.
 */
module TransferSafety {
  import opened Options
  import opened Ring
  import opened ReadBuffers
  import opened WriteBuffers
  import opened SlidingWindows
  import opened Transfer

  // ---------- Offsets into the stream ----------

  ghost predicate Numbered(s: State, isn: nat) {
    && s.tx.base == isn && s.recv.base == isn && isn + 1 + |s.stream| < UINT32
    && isn < s.tx.cumUna && isn < s.recv.cum
    && s.tx.cumUna - isn - 1 <= s.handed <= |s.stream|
    && s.recv.cum - isn - 1 <= s.handed
    && |s.delivered| <= s.recv.cum - isn - 1
  }

  /** Bytes acknowledged to the sender. */
  ghost function Acked(s: State, isn: nat): (a: nat)
    requires Numbered(s, isn)
    ensures a <= s.handed
  {
    s.tx.cumUna - isn - 1
  }

  /** Bytes accepted by the receiver. */
  ghost function Accepted(s: State, isn: nat): (r: nat)
    requires Numbered(s, isn)
    ensures r <= s.handed
  {
    s.recv.cum - isn - 1
  }

  /** The chunk the sender thread has taken over and not seen acknowledged. */
  ghost function Chunk(s: State, isn: nat): (c: seq<Byte>)
    requires Numbered(s, isn)
  {
    s.stream[Acked(s, isn)..s.handed]
  }

  // ---------- Phases of the sender thread ----------

  ghost predicate OneNode(s: State, isn: nat, sent: bool)
    requires Numbered(s, isn)
  {
    && s.thread.Sliding?
    && var sl := s.thread.sl;
       && sl.size == |Chunk(s, isn)| && sl.rest == [] && sl.bytesSent == 0 && |sl.nodes| == 2 && sl.nodes[0] == Dummy
       && var n := sl.nodes[1];
          n.seqNum == s.tx.cumUna && n.payload == Chunk(s, isn) && n.expectedAck == s.tx.cumUna + |Chunk(s, isn)| && n.sent == sent && n.payloadIndex == 0
  }

  ghost predicate BeforeSend(s: State, isn: nat)
    requires Numbered(s, isn)
  {
    OneNode(s, isn, false) && s.thread.sl.toSend == |Chunk(s, isn)|
  }

  ghost predicate AwaitingAck(s: State, isn: nat)
    requires Numbered(s, isn)
  {
    OneNode(s, isn, true) && s.thread.sl.toSend <= 0 && |Chunk(s, isn)| > 0
  }

  ghost predicate AllAcked(s: State, isn: nat)
    requires Numbered(s, isn)
  {
    s.thread.Sliding? && s.thread.sl.nodes == [] && s.thread.sl.toSend <= 0 && Chunk(s, isn) == []
  }

  /** The chunk is on the wire. */
  ghost predicate InAir(s: State, isn: nat)
    requires Numbered(s, isn)
  {
    (AwaitingAck(s, isn) || s.thread == Jammed(true)) && |Chunk(s, isn)| > 0
  }

  ghost predicate SenderAt(s: State, isn: nat)
    requires Numbered(s, isn)
  {
    match s.thread
    case Idle => Chunk(s, isn) == []
    case Got(lbw) => lbw == s.handed % WINDOW_SIZE
    case Sliding(_) => BeforeSend(s, isn) || AwaitingAck(s, isn) || AllAcked(s, isn)
    case Jammed(_) => true
  }

  /** How far NXT has moved. */
  ghost function SentUpTo(s: State, isn: nat): (k: nat)
    requires Numbered(s, isn)
  {
    if AwaitingAck(s, isn) || s.thread.Jammed? then s.handed else Acked(s, isn)
  }

  ghost predicate WindowKnown(s: State, isn: nat)
    requires Numbered(s, isn)
  {
    s.tx.cws < WINDOW_SIZE && (!AwaitingAck(s, isn) && !s.thread.Jammed? ==> s.tx.cws >= CHUNK)
  }

  // ---------- The writing side ----------

  ghost predicate Written(requested: seq<Byte>, stream: seq<Byte>, todo: seq<Byte>, handed: nat, offered: Option<nat>, a: nat) {
    && requested == stream + todo
    && a <= handed <= |stream| && handed - a <= CHUNK && |stream| - handed <= CHUNK
    && (offered == None ==> handed == |stream|)
    && (offered.Some? ==> offered.value == |stream| % WINDOW_SIZE)
  }

  // ---------- What is in flight ----------

  /** A repeat of the chunk before: it ends where the acknowledged data ends. */
  ghost predicate Previous(f: Seg, cumUna: nat) {
    0 < |f.payload| <= CHUNK && f.seqNum + |f.payload| == cumUna
  }

  /** The packets on the wire: repeats of the chunk before, then copies `cur` of the chunk in the air. */
  ghost predicate Flying(data: seq<Seg>, unacked: map<nat, nat>, cumUna: nat, air: bool, cur: Seg, ahead: bool) {
    && (forall f :: f in data ==> f.seqNum + |f.payload| in unacked && (Previous(f, cumUna) || (air && f == cur)))
    && (forall i, j :: 0 <= i < j < |data| && data[i] == cur ==> data[j] == cur)
    && (ahead ==> forall f :: f in data ==> f == cur)
  }

  /** An acknowledgement of old data, or, if `done`, of everything handed over. */
  ghost predicate GoodAck(ack: AckMsg, unacked: map<nat, nat>, cumUna: nat, done: bool, last: nat) {
    && CHUNK <= ack.window < WINDOW_SIZE && ack.num in unacked
    && (ack.num > cumUna ==> done && ack.num == last)
  }

  ghost predicate Acking(acks: seq<AckMsg>, unacked: map<nat, nat>, cumUna: nat, done: bool, last: nat) {
    forall k :: k in acks ==> GoodAck(k, unacked, cumUna, done, last)
  }

  // ---------- The receiving side ----------

  ghost predicate Receiving(early: multiset<Seg>, delivered: seq<Byte>, stream: seq<Byte>, r: nat) {
    && early == multiset{}
    && r <= |stream| && |delivered| <= r && delivered == stream[..|delivered|]
  }

  // ---------- The invariant ----------

  ghost function Cur(s: State, isn: nat): (f: Seg)
    requires Numbered(s, isn)
  {
    Seg(s.tx.cumUna, Chunk(s, isn))
  }

  ghost predicate Done(s: State, isn: nat)
    requires Numbered(s, isn)
  {
    InAir(s, isn) && Accepted(s, isn) == s.handed
  }

  /** Threads, counters and packets. */
  ghost predicate Core(s: State, isn: nat) {
    && Numbered(s, isn)
    && SenderAt(s, isn) && WindowKnown(s, isn)
    && Written(s.requested, s.stream, s.todo, s.handed, s.offered, Acked(s, isn))
    && Flying(s.data, s.tx.unacked, s.tx.cumUna, InAir(s, isn), Cur(s, isn), Accepted(s, isn) != Acked(s, isn))
    && Acking(s.acks, s.tx.unacked, s.tx.cumUna, Done(s, isn), isn + 1 + s.handed)
    && Acking(s.ackChan, s.tx.unacked, s.tx.cumUna, Done(s, isn), isn + 1 + s.handed)
    && (AwaitingAck(s, isn) ==> isn + 1 + s.handed in s.tx.unacked)
    && !s.stray
    && Receiving(s.early, s.delivered, s.stream, Accepted(s, isn))
    && (Accepted(s, isn) == Acked(s, isn) || Done(s, isn))
  }

  /** Both rings store the right bytes of the stream. */
  ghost predicate Rings(s: State, isn: nat)
    requires Numbered(s, isn)
  {
    && Carrying(WRingOf(s), s.stream, Acked(s, isn), SentUpTo(s, isn))
    && Represents(s.recv, s.stream[..Accepted(s, isn)], |s.delivered|)
  }

  ghost predicate Inv(s: State, isn: nat) {
    Core(s, isn) && Rings(s, isn)
  }

  lemma InitCore(s: State, isn: nat)
    requires Init(s, isn)
    ensures Core(s, isn) && Acked(s, isn) == SentUpTo(s, isn) == Accepted(s, isn) == 0
  {
  }

  lemma InitInv(s: State, isn: nat)
    requires Init(s, isn) && Valid(s)
    ensures Inv(s, isn)
  {
    InitCore(s, isn);
    assert s.stream[..0] == [];
  }

  /** What the phases look at. */
  ghost predicate SameSender(s: State, s': State, isn: nat) {
    && Numbered(s, isn) && Numbered(s', isn)
    && s'.thread == s.thread && s'.tx.cumUna == s.tx.cumUna && s'.handed == s.handed && Chunk(s', isn) == Chunk(s, isn)
  }

  lemma SamePhase(s: State, s': State, isn: nat)
    requires SameSender(s, s', isn)
    ensures AwaitingAck(s', isn) == AwaitingAck(s, isn) && InAir(s', isn) == InAir(s, isn)
    ensures SenderAt(s', isn) == SenderAt(s, isn) && SentUpTo(s', isn) == SentUpTo(s, isn) && Cur(s', isn) == Cur(s, isn)
  {
  }

  /** Nothing the rings depend on has changed. */
  ghost predicate SameRings(s: State, s': State, isn: nat)
    requires Numbered(s, isn) && Numbered(s', isn)
  {
    && WRingOf(s') == WRingOf(s) && s'.stream == s.stream && s'.recv == s.recv && s'.delivered == s.delivered
    && Acked(s', isn) == Acked(s, isn) && SentUpTo(s', isn) == SentUpTo(s, isn)
  }

  // ---------- The writer and the hand-over ----------

  lemma WriteCallInv(s: State, message: seq<Byte>, s': State, isn: nat)
    requires Inv(s, isn) && WriteCalled(s, message, s')
    ensures Inv(s', isn)
  {
    SamePhase(s, s', isn);
    assert s'.requested == s'.stream + s'.todo;
  }

  lemma WrittenGrows(requested: seq<Byte>, stream: seq<Byte>, todo: seq<Byte>, handed: nat, a: nat, n: nat)
    requires Written(requested, stream, todo, handed, None, a) && n <= |todo| && n <= CHUNK
    ensures Written(requested, stream + todo[..n], todo[n..], handed, Some((|stream| % WINDOW_SIZE + n) % WINDOW_SIZE), a)
  {
    assert todo == todo[..n] + todo[n..];
    ModAdd(|stream|, n);
  }

  lemma WriteStepCore(s: State, s': State, isn: nat)
    requires Core(s, isn) && Valid(s) && ChunkWritten(s, s') && isn + 1 + |s'.stream| < UINT32 && s.lbw == |s.stream| % WINDOW_SIZE
    ensures Core(s', isn) && SameSender(s, s', isn)
  {
    var n := ChunkSize(s.tx.una, s.lbw, |s.todo|, s.newMessage);
    WrittenGrows(s.requested, s.stream, s.todo, s.handed, Acked(s, isn), n);
    assert Numbered(s', isn);
    assert Chunk(s', isn) == Chunk(s, isn);
    SamePhase(s, s', isn);
  }

  lemma LastWritten(s: State, isn: nat)
    requires Inv(s, isn)
    ensures s.lbw == |s.stream| % WINDOW_SIZE && (s.offered == None ==> |s.stream| - Acked(s, isn) <= CHUNK)
  {
  }

  lemma WriteCarried(s: State, s': State, a: nat, sent: nat)
    requires Valid(s) && ChunkWritten(s, s') && Carrying(WRingOf(s), s.stream, a, sent) && |s.stream| - a <= CHUNK
    ensures Carrying(WRingOf(s'), s'.stream, a, sent)
  {
    var data := s.todo[..ChunkSize(s.tx.una, s.lbw, |s.todo|, s.newMessage)];
    WriteCarries(WRingOf(s), s.stream, a, sent, data);
    assert WRingOf(s') == AfterWrite(WRingOf(s), data);
  }

  lemma WriteRings(s: State, s': State, isn: nat)
    requires Numbered(s, isn) && Rings(s, isn) && Valid(s) && ChunkWritten(s, s') && SameSender(s, s', isn)
    requires |s.stream| - Acked(s, isn) <= CHUNK
    ensures Rings(s', isn)
  {
    SamePhase(s, s', isn);
    WriteCarried(s, s', Acked(s, isn), SentUpTo(s, isn));
    assert s'.stream[..Accepted(s, isn)] == s.stream[..Accepted(s, isn)];
  }

  lemma WriteStepInv(s: State, s': State, isn: nat)
    requires Inv(s, isn) && Valid(s) && ChunkWritten(s, s') && isn + 1 + |s'.stream| < UINT32
    ensures Inv(s', isn)
  {
    LastWritten(s, isn);
    WriteStepCore(s, s', isn);
    WriteRings(s, s', isn);
  }

  lemma HandoffCore(s: State, s': State, isn: nat)
    requires Core(s, isn) && HandedOver(s, s')
    ensures Core(s', isn) && SentUpTo(s', isn) == SentUpTo(s, isn)
  {
  }

  lemma HandoffInv(s: State, s': State, isn: nat)
    requires Inv(s, isn) && HandedOver(s, s')
    ensures Inv(s', isn)
  {
    HandoffCore(s, s', isn);
  }

  lemma TakeOutCore(s: State, s': State, isn: nat)
    requires Core(s, isn) && s.thread.Got? && Dist(s.tx.nxt, s.tx.una) == 0
    requires s' == s.(thread := Sliding(Open(s.tx, Chunk(s, isn))))
    ensures Core(s', isn) && BeforeSend(s', isn) && SentUpTo(s', isn) == SentUpTo(s, isn)
  {
    OpensWhole(s, s', isn);
  }

  /** The payload copied out is exactly the chunk VWrite added since the last hand-over. */
  lemma TakeOutInv(s: State, s': State, isn: nat)
    requires Inv(s, isn) && Valid(s) && TakenOut(s, s')
    ensures Inv(s', isn)
    ensures Outgoing(WRingOf(s), s.thread.lbw) == Chunk(s, isn) && BeforeSend(s', isn)
  {
    OutgoingIsChunk(WRingOf(s), s.stream, Acked(s, isn), SentUpTo(s, isn), s.handed);
    assert Dist(s.tx.nxt, s.tx.una) == 0;
    TakeOutCore(s, s', isn);
  }

  lemma OpensWhole(s: State, s': State, isn: nat)
    requires Numbered(s, isn) && |Chunk(s, isn)| <= CHUNK <= s.tx.cws && Dist(s.tx.nxt, s.tx.una) == 0
    requires s' == s.(thread := Sliding(Open(s.tx, Chunk(s, isn))))
    ensures BeforeSend(s', isn) && !AwaitingAck(s', isn)
  {
    assert Chunk(s, isn)[..|Chunk(s, isn)|] == Chunk(s, isn);
  }

  // ---------- The window ----------

  lemma AckingMonotone(acks: seq<AckMsg>, unacked: map<nat, nat>, unacked': map<nat, nat>, cumUna: nat, cumUna': nat, done: bool, done': bool, last: nat)
    requires Acking(acks, unacked, cumUna, done, last) && unacked.Keys <= unacked'.Keys && cumUna <= cumUna'
    requires done ==> done' || cumUna' == last
    ensures Acking(acks, unacked', cumUna', done', last)
  {
    forall k | k in acks ensures GoodAck(k, unacked', cumUna', done', last) {
      assert GoodAck(k, unacked, cumUna, done, last);
    }
  }

  lemma FlyingAppend(data: seq<Seg>, unacked: map<nat, nat>, unacked': map<nat, nat>, cumUna: nat, air: bool, cur: Seg, ahead: bool)
    requires Flying(data, unacked, cumUna, air, cur, ahead) && unacked.Keys <= unacked'.Keys
    requires cur.seqNum + |cur.payload| in unacked'
    ensures Flying(data + [cur], unacked', cumUna, true, cur, ahead)
  {
  }

  /** Sending the only node: NXT moves to the end of the chunk and nothing is left to allocate. */
  lemma SendWhole(tx: Tx, sl: Slide, a: nat, k: nat)
    requires k > 0 && k <= CHUNK && sl.toSend == k && sl.size == k && sl.rest == [] && |sl.nodes| == 2
    requires |sl.nodes[1].payload| == k && sl.nodes[1].payloadIndex == 0
    requires tx.una == Idx(a) && tx.nxt == Idx(a) && tx.cumUna + k < UINT32 && k <= tx.cws < WINDOW_SIZE
    ensures var tx' := SendTx(tx, sl);
            && tx' == tx.(nxt := Idx(a + k), unacked := tx.unacked[tx.cumUna + k := 0], cws := tx.cws - k)
            && NewNxt(tx, sl) == Idx(a + k)
    ensures var n := sl.nodes[1];
            SendSlide(tx, sl) == sl.(toSend := 0, nodes := [sl.nodes[0], n.(sent := true, retrans := false, copies := n.copies + 1)])
  {
    ModAdd(1 + a, k);
    IdxDist(a + k, a);
  }

  /** The window as it is sent: phase, numbers and the one segment. */
  lemma SendNumbersStep(s: State, s': State, isn: nat)
    requires Core(s, isn) && SegmentSent(s, s') && s.tx.una == Idx(Acked(s, isn)) && s.tx.nxt == Idx(SentUpTo(s, isn))
    ensures BeforeSend(s, isn) && !InAir(s, isn) && Accepted(s, isn) == Acked(s, isn)
    ensures Numbered(s', isn) && Chunk(s', isn) == Chunk(s, isn) && |Chunk(s, isn)| > 0
    ensures s'.tx.una == s.tx.una && s'.tx.nxt == Idx(s.handed) && s'.tx.cumUna == s.tx.cumUna && s'.tx.cws < WINDOW_SIZE
    ensures s.tx.locked ==> s' == s.(tx := s'.tx, thread := Jammed(false)) && s'.tx.unacked == s.tx.unacked
    ensures !s.tx.locked ==>
              && s' == s.(tx := s'.tx, thread := s'.thread, data := s.data + [Cur(s, isn)])
              && AwaitingAck(s', isn) && s'.tx.unacked == s.tx.unacked[isn + 1 + s.handed := 0]
  {
    assert BeforeSend(s, isn);
    SendWhole(s.tx, s.thread.sl, Acked(s, isn), |Chunk(s, isn)|);
  }

  lemma SendStepCore(s: State, s': State, isn: nat)
    requires Core(s, isn) && SegmentSent(s, s') && s.tx.una == Idx(Acked(s, isn)) && s.tx.nxt == Idx(SentUpTo(s, isn))
    ensures Core(s', isn) && SentUpTo(s', isn) == s.handed && Acked(s', isn) == Acked(s, isn)
    ensures s'.tx.una == s.tx.una && s'.tx.nxt == Idx(s.handed)
  {
    SendNumbersStep(s, s', isn);
    if s.tx.locked {
      assert !InAir(s', isn);
    } else {
      FlyingAppend(s.data, s.tx.unacked, s'.tx.unacked, s.tx.cumUna, false, Cur(s, isn), false);
      AckingMonotone(s.acks, s.tx.unacked, s'.tx.unacked, s.tx.cumUna, s.tx.cumUna, false, false, isn + 1 + s.handed);
      AckingMonotone(s.ackChan, s.tx.unacked, s'.tx.unacked, s.tx.cumUna, s.tx.cumUna, false, false, isn + 1 + s.handed);
    }
  }

  lemma SendStepInv(s: State, s': State, isn: nat)
    requires Inv(s, isn) && SegmentSent(s, s')
    ensures Inv(s', isn)
  {
    SendStepCore(s, s', isn);
  }

  /** All copies of the chunk in the air become repeats of the chunk before. */
  lemma FlyingAcked(data: seq<Seg>, unacked: map<nat, nat>, unacked': map<nat, nat>, cumUna: nat, cur: Seg, cur': Seg)
    requires Flying(data, unacked, cumUna, true, cur, true) && unacked.Keys <= unacked'.Keys
    requires 0 < |cur.payload| <= CHUNK && cur'.payload == []
    ensures Flying(data, unacked', cur.seqNum + |cur.payload|, false, cur', false)
  {
  }

  lemma AckWhole(tx: Tx, sl: Slide, num: nat, window: nat)
    requires |sl.nodes| == 2 && sl.nodes[0] == Dummy && sl.nodes[1].expectedAck == num && FirstSeen(tx, num) && num > tx.cumUna
    ensures AckTx(tx, num, window) == tx.(unacked := tx.unacked[num := 1], cws := window, cumUna := num, una := Dist(num, tx.base))
    ensures AckSlide(tx, sl, num) == sl.(bytesSent := sl.bytesSent + (num - tx.cumUna), nodes := [])
  {
    var rest := sl.nodes[1..];
    assert rest[1..] == [];
    assert DropAcked(rest, num) == DropAcked(rest[1..], num);
    assert DropAcked(sl.nodes, num) == DropAcked(rest, num);
  }

  lemma CarryingAcked(w: WRing, stream: seq<Byte>, a: nat, h: nat)
    requires Carrying(w, stream, a, h)
    ensures Carrying(w.(una := Idx(h)), stream, h, h)
  {
    HoldsFrom(w.buf, stream, a, h);
  }

  lemma NewAckCore(s: State, s': State, isn: nat)
    requires Core(s, isn) && AckTaken(s, s') && FirstSeen(s.tx, s.ackChan[0].num) && s.ackChan[0].num > s.tx.cumUna
    ensures Core(s', isn) && SentUpTo(s, isn) == s.handed && SentUpTo(s', isn) == s.handed && Acked(s', isn) == s.handed
    ensures WRingOf(s') == WRingOf(s).(una := Idx(s.handed))
  {
    var ack := s.ackChan[0];
    assert ack in s.ackChan && GoodAck(ack, s.tx.unacked, s.tx.cumUna, Done(s, isn), isn + 1 + s.handed);
    assert AwaitingAck(s, isn);
    AckWhole(s.tx, s.thread.sl, ack.num, ack.window);
    assert Dist(ack.num, s.tx.base) == Idx(s.handed);
    assert Numbered(s', isn) && Acked(s', isn) == s.handed && Chunk(s', isn) == [];
    assert AllAcked(s', isn) && !AwaitingAck(s', isn);
    FlyingAcked(s.data, s.tx.unacked, s'.tx.unacked, s.tx.cumUna, Cur(s, isn), Cur(s', isn));
    AckingMonotone(s.acks, s.tx.unacked, s'.tx.unacked, s.tx.cumUna, ack.num, true, false, isn + 1 + s.handed);
    AckingMonotone(s.ackChan, s.tx.unacked, s'.tx.unacked, s.tx.cumUna, ack.num, true, false, isn + 1 + s.handed);
  }

  lemma NewAckInv(s: State, s': State, isn: nat)
    requires Inv(s, isn) && AckTaken(s, s') && FirstSeen(s.tx, s.ackChan[0].num) && s.ackChan[0].num > s.tx.cumUna
    ensures Inv(s', isn)
  {
    NewAckCore(s, s', isn);
    CarryingAcked(WRingOf(s), s.stream, Acked(s, isn), s.handed);
  }

  lemma FlyingKeys(data: seq<Seg>, unacked: map<nat, nat>, unacked': map<nat, nat>, cumUna: nat, air: bool, cur: Seg, ahead: bool)
    requires Flying(data, unacked, cumUna, air, cur, ahead) && unacked.Keys <= unacked'.Keys
    ensures Flying(data, unacked', cumUna, air, cur, ahead)
  {
  }

  lemma OldAckCore(s: State, s': State, isn: nat)
    requires Core(s, isn) && AckTaken(s, s') && !(FirstSeen(s.tx, s.ackChan[0].num) && s.ackChan[0].num > s.tx.cumUna)
    ensures Core(s', isn) && SameRings(s, s', isn)
  {
    var ack := s.ackChan[0];
    assert ack in s.ackChan && GoodAck(ack, s.tx.unacked, s.tx.cumUna, Done(s, isn), isn + 1 + s.handed);
    assert Numbered(s', isn) && Chunk(s', isn) == Chunk(s, isn);
    SamePhase(s, s', isn);
    FlyingKeys(s.data, s.tx.unacked, s'.tx.unacked, s.tx.cumUna, InAir(s, isn), Cur(s, isn), Accepted(s, isn) != Acked(s, isn));
    AckingMonotone(s.acks, s.tx.unacked, s'.tx.unacked, s.tx.cumUna, s.tx.cumUna, Done(s, isn), Done(s, isn), isn + 1 + s.handed);
    AckingMonotone(s.ackChan, s.tx.unacked, s'.tx.unacked, s.tx.cumUna, s.tx.cumUna, Done(s, isn), Done(s, isn), isn + 1 + s.handed);
    assert WRingOf(s') == WRingOf(s);
  }

  lemma OldAckInv(s: State, s': State, isn: nat)
    requires Inv(s, isn) && AckTaken(s, s') && !(FirstSeen(s.tx, s.ackChan[0].num) && s.ackChan[0].num > s.tx.cumUna)
    ensures Inv(s', isn)
  {
    OldAckCore(s, s', isn);
  }

  lemma ResendCore(s: State, s': State, isn: nat)
    requires Core(s, isn) && Resent(s, s')
    ensures Core(s', isn) && SameRings(s, s', isn)
  {
    assert AwaitingAck(s, isn);
    assert Numbered(s', isn) && Chunk(s', isn) == Chunk(s, isn);
    assert AwaitingAck(s', isn);
    FlyingAppend(s.data, s.tx.unacked, s.tx.unacked, s.tx.cumUna, true, Cur(s, isn), Accepted(s, isn) != Acked(s, isn));
  }

  lemma ResendInv(s: State, s': State, isn: nat)
    requires Inv(s, isn) && Resent(s, s')
    ensures Inv(s', isn)
  {
    ResendCore(s, s', isn);
  }

  lemma GiveUpCore(s: State, s': State, isn: nat)
    requires Core(s, isn) && GivenUp(s, s')
    ensures Core(s', isn) && SameRings(s, s', isn)
  {
    assert AwaitingAck(s, isn);
    assert Numbered(s', isn) && Chunk(s', isn) == Chunk(s, isn);
    assert InAir(s, isn) && InAir(s', isn);
  }

  lemma GiveUpInv(s: State, s': State, isn: nat)
    requires Inv(s, isn) && GivenUp(s, s')
    ensures Inv(s', isn)
  {
    GiveUpCore(s, s', isn);
  }

  lemma FinishCore(s: State, s': State, isn: nat)
    requires Core(s, isn) && Finished(s, s')
    ensures Core(s', isn) && SameRings(s, s', isn)
  {
    assert !AwaitingAck(s, isn) && Chunk(s, isn) == [];
    assert Numbered(s', isn) && Chunk(s', isn) == Chunk(s, isn);
  }

  lemma FinishInv(s: State, s': State, isn: nat)
    requires Inv(s, isn) && Finished(s, s')
    ensures Inv(s', isn)
  {
    FinishCore(s, s', isn);
  }

  // ---------- The links ----------

  lemma LoseDataCore(s: State, i: nat, s': State, isn: nat)
    requires Core(s, isn) && i < |s.data| && s' == s.(data := Without(s.data, i))
    ensures Core(s', isn) && SameRings(s, s', isn)
  {
    SamePhase(s, s', isn);
  }

  lemma LoseDataInv(s: State, i: nat, s': State, isn: nat)
    requires Inv(s, isn) && i < |s.data| && s' == s.(data := Without(s.data, i))
    ensures Inv(s', isn)
  {
    LoseDataCore(s, i, s', isn);
  }

  lemma LoseAckCore(s: State, i: nat, s': State, isn: nat)
    requires Core(s, isn) && i < |s.acks| && s' == s.(acks := Without(s.acks, i))
    ensures Core(s', isn) && SameRings(s, s', isn)
  {
    SamePhase(s, s', isn);
  }

  lemma LoseAckInv(s: State, i: nat, s': State, isn: nat)
    requires Inv(s, isn) && i < |s.acks| && s' == s.(acks := Without(s.acks, i))
    ensures Inv(s', isn)
  {
    LoseAckCore(s, i, s', isn);
  }

  lemma AckingTail(acks: seq<AckMsg>, unacked: map<nat, nat>, cumUna: nat, done: bool, last: nat)
    requires Acking(acks, unacked, cumUna, done, last) && acks != []
    ensures GoodAck(acks[0], unacked, cumUna, done, last) && Acking(acks[1..], unacked, cumUna, done, last)
  {
    assert acks[0] in acks;
  }

  lemma DeliverAckCore(s: State, s': State, isn: nat)
    requires Core(s, isn) && AckDelivered(s, s')
    ensures Core(s', isn) && SameRings(s, s', isn)
  {
    AckingTail(s.acks, s.tx.unacked, s.tx.cumUna, Done(s, isn), isn + 1 + s.handed);
    assert s'.ackChan == s.ackChan || s'.ackChan == s.ackChan + [s.acks[0]];
    assert Numbered(s', isn) && Chunk(s', isn) == Chunk(s, isn);
    SamePhase(s, s', isn);
    assert Done(s', isn) == Done(s, isn) && WRingOf(s') == WRingOf(s);
  }

  lemma DeliverAckInv(s: State, s': State, isn: nat)
    requires Inv(s, isn) && AckDelivered(s, s')
    ensures Inv(s', isn)
  {
    DeliverAckCore(s, s', isn);
  }

  /** With an empty queue the segment is copied in and nothing follows it. */
  lemma ReceivedAlone(s: State, f: Seg, s': State)
    requires Valid(s) && Received(s, f, s') && s.early == multiset{} && f.seqNum <= s.recv.cum && s.recv.Free() > 0
    ensures s' == s.(data := s'.data, recv := Insert(s.recv, f.seqNum, f.payload), acks := s.acks + [AckMsg(s'.recv.cum, s'.recv.Free())])
  {
    assert forall x :: x in s.early ==> x.seqNum > Insert(s.recv, f.seqNum, f.payload).cum;
  }

  lemma FlyingRest(data: seq<Seg>, unacked: map<nat, nat>, cumUna: nat, air: bool, cur: Seg, ahead: bool, ahead': bool)
    requires Flying(data, unacked, cumUna, air, cur, ahead) && data != []
    requires ahead' ==> ahead || data[0] == cur
    ensures Flying(data[1..], unacked, cumUna, air, cur, ahead')
  {
    var rest := data[1..];
    forall f | f in rest ensures f in data && (ahead' ==> f == cur) {
      var i :| 0 <= i < |rest| && rest[i] == f;
      assert data[i + 1] == f;
    }
    forall i, j | 0 <= i < j < |rest| && rest[i] == cur ensures rest[j] == cur {
      assert data[i + 1] == cur;
    }
  }

  /** The next chunk is accepted. */
  lemma AcceptCore(s: State, s': State, isn: nat, recv': Recv)
    requires Core(s, isn) && s.data != [] && CHUNK <= recv'.Free() < WINDOW_SIZE
    requires s' == s.(data := s.data[1..], recv := recv', acks := s.acks + [AckMsg(recv'.cum, recv'.Free())])
    requires InAir(s, isn) && s.data[0] == Cur(s, isn) && Accepted(s, isn) == Acked(s, isn)
    requires recv'.cum == isn + 1 + s.handed && recv'.base == isn
    ensures Core(s', isn) && SameSender(s, s', isn) && Accepted(s', isn) == s.handed
  {
    assert s.data[0] in s.data;
    assert Numbered(s', isn) && Chunk(s', isn) == Chunk(s, isn);
    SamePhase(s, s', isn);
    FlyingRest(s.data, s.tx.unacked, s.tx.cumUna, true, s.data[0], false, true);
    AckingMonotone(s.acks, s.tx.unacked, s.tx.unacked, s.tx.cumUna, s.tx.cumUna, false, true, isn + 1 + s.handed);
    AckingMonotone(s.ackChan, s.tx.unacked, s.tx.unacked, s.tx.cumUna, s.tx.cumUna, false, true, isn + 1 + s.handed);
  }

  lemma AcceptedValue(s: State, s': State, isn: nat)
    requires Numbered(s, isn) && Rings(s, isn) && Valid(s) && Roomy(s) && DataDelivered(s, s') && s.early == multiset{}
    requires s.data[0] == Cur(s, isn) && |Chunk(s, isn)| <= CHUNK && Accepted(s, isn) == Acked(s, isn)
    ensures s' == s.(data := s.data[1..], recv := s'.recv, acks := s.acks + [AckMsg(s'.recv.cum, s'.recv.Free())])
    ensures s'.recv.cum == isn + 1 + s.handed && s'.recv.base == isn && Represents(s'.recv, s.stream[..s.handed], |s.delivered|)
  {
    var f := s.data[0];
    var a := Acked(s, isn);
    ReceivedAlone(s, f, s');
    InsertNext(s.recv, s.stream[..a], |s.delivered|, f.payload);
    assert s.stream[..a] + f.payload == s.stream[..s.handed];
  }

  lemma AcceptRings(s: State, s': State, isn: nat)
    requires Numbered(s, isn) && Rings(s, isn) && SameSender(s, s', isn) && Accepted(s', isn) == s.handed
    requires s' == s.(data := s'.data, recv := s'.recv, acks := s'.acks) && Represents(s'.recv, s.stream[..s.handed], |s.delivered|)
    ensures Rings(s', isn)
  {
    SamePhase(s, s', isn);
    assert WRingOf(s') == WRingOf(s);
  }

  lemma AcceptInv(s: State, s': State, isn: nat)
    requires Inv(s, isn) && Valid(s) && Roomy(s) && Roomy(s') && DataDelivered(s, s')
    requires InAir(s, isn) && s.data[0] == Cur(s, isn) && Accepted(s, isn) == Acked(s, isn)
    ensures Inv(s', isn)
  {
    AcceptedValue(s, s', isn);
    AcceptCore(s, s', isn, s'.recv);
    AcceptRings(s, s', isn);
  }

  /** A repeat, of the chunk before or of the chunk in the air, changes nothing but the ring beyond NXT. */
  lemma RepeatCore(s: State, s': State, isn: nat, recv': Recv)
    requires Core(s, isn) && s.data != [] && CHUNK <= recv'.Free() < WINDOW_SIZE
    requires s' == s.(data := s.data[1..], recv := recv', acks := s.acks + [AckMsg(recv'.cum, recv'.Free())])
    requires s.data[0].seqNum + |s.data[0].payload| == s.recv.cum && recv'.cum == s.recv.cum && recv'.base == isn
    ensures Core(s', isn) && SameSender(s, s', isn) && Accepted(s', isn) == Accepted(s, isn)
  {
    assert s.data[0] in s.data;
    assert Numbered(s', isn) && Chunk(s', isn) == Chunk(s, isn);
    SamePhase(s, s', isn);
    FlyingRest(s.data, s.tx.unacked, s.tx.cumUna, InAir(s, isn), Cur(s, isn), Accepted(s, isn) != Acked(s, isn), Accepted(s, isn) != Acked(s, isn));
  }

  lemma RepeatInv(s: State, s': State, isn: nat)
    requires Inv(s, isn) && Valid(s) && Roomy(s) && Roomy(s') && DataDelivered(s, s')
    requires s.data[0].seqNum + |s.data[0].payload| == s.recv.cum && |s.data[0].payload| <= CHUNK
    ensures Inv(s', isn)
  {
    var f := s.data[0];
    ReceivedAlone(s, f, s');
    InsertRepeat(s.recv, s.stream[..Accepted(s, isn)], |s.delivered|, f.seqNum, f.payload);
    assert s'.recv.cum == s.recv.cum;
    RepeatCore(s, s', isn, s'.recv);
    SamePhase(s, s', isn);
    assert WRingOf(s') == WRingOf(s);
  }

  lemma DeliverDataInv(s: State, s': State, isn: nat)
    requires Inv(s, isn) && Valid(s) && Roomy(s) && Roomy(s') && DataDelivered(s, s')
    ensures Inv(s', isn)
  {
    var f := s.data[0];
    assert f in s.data;
    if Accepted(s, isn) == Acked(s, isn) && InAir(s, isn) && f == Cur(s, isn) {
      AcceptInv(s, s', isn);
    } else {
      RepeatInv(s, s', isn);
    }
  }

  lemma ReadCore(s: State, s': State, isn: nat, bytes: seq<Byte>, recv': Recv)
    requires Core(s, isn) && s' == s.(delivered := s.delivered + bytes, recv := recv')
    requires recv'.cum == s.recv.cum && recv'.base == isn
    requires |s.delivered| + |bytes| <= Accepted(s, isn) && bytes == s.stream[|s.delivered|..|s.delivered| + |bytes|]
    ensures Core(s', isn) && SameSender(s, s', isn) && Accepted(s', isn) == Accepted(s, isn)
  {
    assert s'.delivered == s.stream[..|s'.delivered|];
    assert Numbered(s', isn) && Chunk(s', isn) == Chunk(s, isn);
    SamePhase(s, s', isn);
  }

  lemma ReadInv(s: State, n: nat, s': State, isn: nat)
    requires Inv(s, isn) && Valid(s) && BytesRead(s, n, s')
    ensures Inv(s', isn)
  {
    var r := s.stream[..Accepted(s, isn)];
    ReadOldest(s.recv, r, |s.delivered|, n);
    ReadCore(s, s', isn, ReadBytes(s.recv, n), s'.recv);
    SamePhase(s, s', isn);
    assert WRingOf(s') == WRingOf(s);
  }

  // ---------- Whole runs ----------

  lemma StepInv(s: State, ev: Event, s': State, isn: nat)
    requires Inv(s, isn) && Valid(s) && Roomy(s) && Roomy(s') && isn + 1 + |s'.stream| < UINT32 && Step(s, ev, s')
    ensures Inv(s', isn)
  {
    match ev
    case WriteCall(message) => WriteCallInv(s, message, s', isn);
    case WriteStep => WriteStepInv(s, s', isn);
    case Handoff => HandoffInv(s, s', isn);
    case TakeOut => TakeOutInv(s, s', isn);
    case SendStep => SendStepInv(s, s', isn);
    case AckStep =>
      if FirstSeen(s.tx, s.ackChan[0].num) && s.ackChan[0].num > s.tx.cumUna {
        NewAckInv(s, s', isn);
      } else {
        OldAckInv(s, s', isn);
      }
    case Resend => ResendInv(s, s', isn);
    case GiveUp => GiveUpInv(s, s', isn);
    case Finish => FinishInv(s, s', isn);
    case LoseData(i) => LoseDataInv(s, i, s', isn);
    case LoseAck(i) => LoseAckInv(s, i, s', isn);
    case DeliverData => DeliverDataInv(s, s', isn);
    case DeliverAck => DeliverAckInv(s, s', isn);
    case ReadStep(n) => ReadInv(s, n, s', isn);
  }

  lemma {:induction false} RunInv(states: seq<State>, events: seq<Event>, isn: nat, i: nat)
    requires Run(states, events, isn) && i < |states|
    ensures Inv(states[i], isn)
  {
    if i == 0 {
      InitInv(states[0], isn);
    } else {
      RunInv(states, events, isn, i - 1);
      assert Step(states[i - 1], events[i - 1], states[i]);
      StepInv(states[i - 1], events[i - 1], states[i], isn);
    }
  }

  /**
   End-to-end safety: in every state of every run, the bytes returned by all reads are a
   prefix of the bytes passed to all writes, and at most two chunks are unacknowledged.
   */
  lemma DeliveredIsPrefix(states: seq<State>, events: seq<Event>, isn: nat, i: nat)
    requires Run(states, events, isn) && i < |states|
    ensures states[i].delivered <= states[i].requested
    ensures |states[i].delivered| <= states[i].recv.cum - isn - 1 <= |states[i].requested|
    ensures states[i].tx.cumUna <= states[i].recv.cum
    ensures |states[i].stream| - (states[i].tx.cumUna - isn - 1) <= 2 * CHUNK
  {
    RunInv(states, events, isn, i);
  }

  /** The zero-window probe never starts: NXT equals UNA with bytes left only while the window is open. */
  lemma NeverProbes(states: seq<State>, events: seq<Event>, isn: nat, i: nat)
    requires Run(states, events, isn) && i < |states| && states[i].thread.Sliding?
    requires states[i].thread.sl.bytesSent < states[i].thread.sl.size && states[i].tx.nxt == states[i].tx.una
    ensures states[i].tx.cws > 0
  {
    var s := states[i];
    RunInv(states, events, isn, i);
    if AwaitingAck(s, isn) {
      IdxDist(s.handed, Acked(s, isn));
    }
  }
}
