/**
 The sending side of a transfer, whatever the peer does: in every run, with any window the
 peer announces, the send ring keeps every unacknowledged byte, each payload the sender
 thread copies out is the chunk written since the last hand-over, and every segment on the
 wire is a piece of the written stream at its own sequence number.
 */
module SendRing {
  import opened Options
  import opened Ring
  import opened ReadBuffers
  import opened WriteBuffers
  import opened SlidingWindows
  import opened Transfer
  import opened TransferSafety

  // ---------- Acknowledgement numbers mark the ends of segments ----------

  /** No number that may be acknowledged lies strictly between the two. */
  ghost predicate NoneBetween(unacked: map<nat, nat>, from: nat, to: nat) {
    forall k :: k in unacked ==> !(from < k < to)
  }

  ghost predicate AtMost(unacked: map<nat, nat>, top: nat) {
    forall k :: k in unacked ==> k <= top
  }

  ghost predicate KeyedAt(live: seq<WNode>, unacked: map<nat, nat>, i: nat)
    requires i < |live|
  {
    live[i].sent ==> live[i].expectedAck in unacked && NoneBetween(unacked, live[i].seqNum, live[i].expectedAck)
  }

  /** Every listed segment that was sent ends at such a number and contains no other. */
  ghost predicate Keyed(live: seq<WNode>, unacked: map<nat, nat>) {
    forall i {:trigger KeyedAt(live, unacked, i)} :: 0 <= i < |live| ==> KeyedAt(live, unacked, i)
  }

  /** A window on message m with its acknowledgement numbers. */
  ghost predicate Windowed(tx: Tx, sl: Slide, m: seq<Byte>, s0: nat) {
    Conserved(tx, sl, m, s0) && Keyed(Live(sl), tx.unacked)
  }

  /** Nothing unsent has a number yet. */
  lemma KeysBelow(tx: Tx, sl: Slide, m: seq<Byte>, s0: nat)
    requires Conserved(tx, sl, m, s0)
    ensures var u := Unsent(Live(sl), sl.toSend, tx.cumUna); tx.cumUna <= u <= s0 + |m| && AtMost(tx.unacked, u)
  {
    var live, to := Live(sl), s0 + |m| - |sl.rest|;
    if live != [] {
      LinkedOrder(live, m, s0, tx.cumUna, to, 0, |live| - 1);
      assert Carries(live[0], m, s0) && Carries(live[|live| - 1], m, s0);
    }
    forall k | k in tx.unacked && k > tx.cumUna ensures k <= Unsent(live, sl.toSend, tx.cumUna) {
      var i :| 0 <= i < |live| && AckedAt(live, i, k);
      LinkedOrder(live, m, s0, tx.cumUna, to, i, |live| - 1);
    }
  }

  lemma OpenWindowed(tx: Tx, m: seq<Byte>)
    requires 0 < |m| < WINDOW_SIZE && tx.cws > 0 && tx.base < tx.cumUna && tx.cumUna + |m| < UINT32
    requires tx.una == Dist(tx.cumUna, tx.base) && tx.nxt == tx.una && AtMost(tx.unacked, tx.cumUna)
    ensures Windowed(tx, Open(tx, m), m, tx.cumUna)
  {
    OpenConserved(tx, m);
    var sl := Open(tx, m);
    assert Live(sl) == [sl.nodes[1]];
  }

  lemma KeyedSend(live: seq<WNode>, live': seq<WNode>, unacked: map<nat, nat>, m: seq<Byte>, s0: nat, from: nat, to: nat)
    requires Keyed(live, unacked) && Linked(live, m, s0, from, to) && live != [] && |live| <= |live'|
    requires AtMost(unacked, live[|live| - 1].seqNum)
    requires forall i :: 0 <= i < |live| - 1 ==> live'[i] == live[i]
    requires var t, t' := live[|live| - 1], live'[|live| - 1]; t'.seqNum == t.seqNum && t'.expectedAck == t.expectedAck
    requires forall i :: |live| <= i < |live'| ==> !live'[i].sent
    ensures Keyed(live', unacked[live[|live| - 1].expectedAck := 0])
  {
    var unacked' := unacked[live[|live| - 1].expectedAck := 0];
    forall i | 0 <= i < |live'| ensures KeyedAt(live', unacked', i) {
      if i < |live| - 1 {
        assert KeyedAt(live, unacked, i);
        LinkedOrder(live, m, s0, from, to, i, |live| - 1);
      }
    }
  }

  lemma SendWindowed(tx: Tx, sl: Slide, m: seq<Byte>, s0: nat)
    requires Windowed(tx, sl, m, s0) && sl.toSend > 0 && sl.nodes != []
    ensures Windowed(SendTx(tx, sl), SendSlide(tx, sl), m, s0)
    ensures Carries(Tail(sl), m, s0) && NewAck(tx, sl) == Tail(sl).expectedAck && AtMost(tx.unacked, Tail(sl).seqNum)
  {
    var live, live' := Live(sl), Live(SendSlide(tx, sl));
    TailOf(tx, sl, m, s0);
    SendNumbers(tx, sl, m, s0);
    SendListing(tx, sl, m, s0);
    KeysBelow(tx, sl, m, s0);
    AllocatedUnsent(tx, sl, m, s0);
    KeyedSend(live, live', tx.unacked, m, s0, tx.cumUna, s0 + |m| - |sl.rest|);
    SendConserved(tx, sl, m, s0);
  }

  /** What is allocated behind the tail has not been sent. */
  lemma AllocatedUnsent(tx: Tx, sl: Slide, m: seq<Byte>, s0: nat)
    requires Conserved(tx, sl, m, s0) && sl.toSend > 0 && sl.nodes != [] && Live(sl) != []
    ensures var sl' := SendSlide(tx, sl);
            (sl'.bytesSent == 0 ==> sl'.nodes != []) && forall i :: |Live(sl)| <= i < |Live(sl')| ==> !Live(sl')[i].sent
  {
    var live, k := Live(sl), Min(Min(MSS, sl.size - Tail(sl).payloadIndex), |sl.rest|);
    BehindDummy(tx, sl, m, s0);
    NextSize(tx, sl, m, s0);
    if sl.rest == [] {
      SendShapeLast(tx, sl, live);
    } else {
      SendShapeNext(tx, sl, live, k, WNode(NewAck(tx, sl), sl.rest[..k], (NewAck(tx, sl) + k) % UINT32, Tail(sl).index + 1,
                                           (Tail(sl).payloadIndex + MSS) % WINDOW_SIZE, false, false, 0));
    }
  }

  lemma KeyedRest(live: seq<WNode>, unacked: map<nat, nat>, unacked': map<nat, nat>, cut: nat)
    requires Keyed(live, unacked) && cut <= |live| && unacked'.Keys == unacked.Keys
    ensures Keyed(live[cut..], unacked')
  {
    var live' := live[cut..];
    forall i | 0 <= i < |live'| ensures KeyedAt(live', unacked', i) {
      assert KeyedAt(live, unacked, cut + i);
    }
  }

  /** An acknowledgement cuts the list somewhere, or nowhere. */
  lemma AckRest(tx: Tx, sl: Slide, m: seq<Byte>, s0: nat, num: nat) returns (cut: nat)
    requires Conserved(tx, sl, m, s0) && num in tx.unacked
    requires AckSlide(tx, sl, num).bytesSent == 0 ==> AckSlide(tx, sl, num).nodes != []
    ensures cut <= |Live(sl)| && Live(AckSlide(tx, sl, num)) == Live(sl)[cut..]
  {
    cut := 0;
    if FirstSeen(tx, num) && num > tx.cumUna {
      var i := AckCut(tx, sl, m, s0, num);
      cut := i + 1;
    }
  }

  lemma AckWindowed(tx: Tx, sl: Slide, m: seq<Byte>, s0: nat, num: nat, window: nat)
    requires Windowed(tx, sl, m, s0) && num in tx.unacked
    ensures Windowed(AckTx(tx, num, window), AckSlide(tx, sl, num), m, s0)
  {
    AckConserved(tx, sl, m, s0, num, window);
    var cut := AckRest(tx, sl, m, s0, num);
    AckKeys(tx, num, window);
    KeyedRest(Live(sl), tx.unacked, AckTx(tx, num, window).unacked, cut);
  }

  lemma AckKeys(tx: Tx, num: nat, window: nat)
    requires num in tx.unacked
    ensures AckTx(tx, num, window).unacked.Keys == tx.unacked.Keys
  {
  }

  lemma ResendWindowed(tx: Tx, sl: Slide, m: seq<Byte>, s0: nat)
    requires Windowed(tx, sl, m, s0) && CanResend(tx, sl)
    ensures Windowed(tx, ResendSlide(sl), m, s0)
    ensures var n := sl.nodes[Oldest(sl)]; Carries(n, m, s0) && n.expectedAck in tx.unacked && NoneBetween(tx.unacked, n.seqNum, n.expectedAck)
  {
    ResendConserved(tx, sl, m, s0);
    var live, live' := Live(sl), Live(ResendSlide(sl));
    assert KeyedAt(live, tx.unacked, 0) && Carries(live[0], m, s0);
    forall i | 0 <= i < |live'| ensures KeyedAt(live', tx.unacked, i) {
      assert KeyedAt(live, tx.unacked, i);
    }
  }

  // ---------- Segments on the wire ----------

  /** f is a piece of the stream, at its sequence number, between two neighbouring acknowledgement numbers. */
  ghost predicate Whole(f: Seg, unacked: map<nat, nat>, stream: seq<Byte>, isn: nat) {
    var end := f.seqNum + |f.payload|;
    && isn < f.seqNum < end <= isn + 1 + |stream| && f.payload == stream[f.seqNum - isn - 1..end - isn - 1]
    && end in unacked && NoneBetween(unacked, f.seqNum, end)
  }

  lemma WholeLater(f: Seg, unacked: map<nat, nat>, unacked': map<nat, nat>, stream: seq<Byte>, stream': seq<Byte>, isn: nat)
    requires Whole(f, unacked, stream, isn) && stream <= stream' && unacked.Keys <= unacked'.Keys
    requires forall k :: k in unacked' && k !in unacked ==> forall j :: j in unacked ==> j < k
    ensures Whole(f, unacked', stream', isn)
  {
  }

  lemma NodeWhole(n: WNode, unacked: map<nat, nat>, stream: seq<Byte>, isn: nat, s0: nat, handed: nat)
    requires isn < s0 <= isn + 1 + handed && handed <= |stream| && Carries(n, stream[s0 - isn - 1..handed], s0)
    requires n.expectedAck in unacked && NoneBetween(unacked, n.seqNum, n.expectedAck)
    ensures Whole(Seg(n.seqNum, n.payload), unacked, stream, isn)
  {
    PayloadOf(n, stream, isn, s0, handed);
  }

  // ---------- The sender thread ----------

  /** Everything sent is acknowledged. */
  ghost predicate Rested(tx: Tx) {
    tx.nxt == tx.una && AtMost(tx.unacked, tx.cumUna)
  }

  /** A window of n bytes that sends nothing: it is empty, or was opened with a closed peer window. */
  ghost predicate Inert(tx: Tx, sl: Slide, n: int) {
    && Rested(tx) && sl.size == n && sl.toSend <= 0 && sl.bytesSent == 0
    && |sl.nodes| == 2 && sl.nodes[0] == Dummy && !sl.nodes[1].sent
  }

  /** The window of the bytes handed over last, which start at s0. */
  ghost predicate Sending(tx: Tx, sl: Slide, stream: seq<Byte>, handed: nat, isn: nat, s0: nat) {
    isn < s0 <= isn + 1 + handed && handed <= |stream| && Windowed(tx, sl, stream[s0 - isn - 1..handed], s0)
  }

  ghost predicate ThreadAt(tx: Tx, thread: Thread, stream: seq<Byte>, handed: nat, isn: nat) {
    match thread
    case Idle => Rested(tx) && tx.cumUna == isn + 1 + handed
    case Got(lbw) => Rested(tx) && lbw == handed % WINDOW_SIZE
    case Sliding(sl) => Inert(tx, sl, isn + 1 + handed - tx.cumUna) || exists s0: nat :: Sending(tx, sl, stream, handed, isn, s0)
    case Jammed(_) => true
  }

  /** Messages, ring and counters. */
  ghost predicate RingAt(s: State, isn: nat) {
    && s.tx.base == isn < s.tx.cumUna && isn + 1 + |s.stream| < UINT32 && s.tx.una == Dist(s.tx.cumUna, isn)
    && Written(s.requested, s.stream, s.todo, s.handed, s.offered, s.tx.cumUna - isn - 1)
    && Holds(s.wbuf, s.stream, s.tx.cumUna - isn - 1, |s.stream|) && s.lbw == |s.stream| % WINDOW_SIZE
  }

  ghost predicate Wire(data: seq<Seg>, unacked: map<nat, nat>, stream: seq<Byte>, isn: nat) {
    forall f :: f in data ==> Whole(f, unacked, stream, isn)
  }

  ghost predicate Heard(acks: seq<AckMsg>, unacked: map<nat, nat>) {
    forall k :: k in acks ==> k.num in unacked
  }

  ghost predicate SendInv(s: State, isn: nat) {
    && RingAt(s, isn) && ThreadAt(s.tx, s.thread, s.stream, s.handed, isn)
    && Heard(s.ackChan, s.tx.unacked) && Wire(s.data, s.tx.unacked, s.stream, isn)
  }

  lemma InitSend(s: State, isn: nat)
    requires Init(s, isn)
    ensures SendInv(s, isn)
  {
    CumIdx(isn, 0);
  }

  // ---------- Writing ----------

  /** A chunk written behind the stream overwrites no unacknowledged byte and moves nothing else. */
  lemma WriteRing(s: State, s': State, isn: nat)
    requires RingAt(s, isn) && Valid(s) && ChunkWritten(s, s') && isn + 1 + |s'.stream| < UINT32
    ensures RingAt(s', isn)
  {
    var a, n := s.tx.cumUna - isn - 1, ChunkSize(s.tx.una, s.lbw, |s.todo|, s.newMessage);
    ModAdd(|s.stream|, 1);
    ModAdd(|s.stream|, n);
    PutExtends(s.wbuf, s.stream, a, s.todo[..n]);
    WrittenGrows(s.requested, s.stream, s.todo, s.handed, a, n);
  }

  lemma ThreadLater(tx: Tx, thread: Thread, stream: seq<Byte>, stream': seq<Byte>, handed: nat, isn: nat)
    requires ThreadAt(tx, thread, stream, handed, isn) && stream <= stream'
    ensures ThreadAt(tx, thread, stream', handed, isn)
  {
    if thread.Sliding? && !Inert(tx, thread.sl, isn + 1 + handed - tx.cumUna) {
      var s0: nat :| Sending(tx, thread.sl, stream, handed, isn, s0);
      assert stream'[s0 - isn - 1..handed] == stream[s0 - isn - 1..handed];
      assert Sending(tx, thread.sl, stream', handed, isn, s0);
    }
  }

  lemma WireLater(data: seq<Seg>, unacked: map<nat, nat>, stream: seq<Byte>, stream': seq<Byte>, isn: nat)
    requires Wire(data, unacked, stream, isn) && stream <= stream'
    ensures Wire(data, unacked, stream', isn)
  {
    forall f | f in data ensures Whole(f, unacked, stream', isn) {
      WholeLater(f, unacked, unacked, stream, stream', isn);
    }
  }

  lemma WriteSend(s: State, s': State, isn: nat)
    requires SendInv(s, isn) && Valid(s) && ChunkWritten(s, s') && isn + 1 + |s'.stream| < UINT32
    ensures SendInv(s', isn)
  {
    WriteRing(s, s', isn);
    ThreadLater(s.tx, s.thread, s.stream, s'.stream, s.handed, isn);
    WireLater(s.data, s.tx.unacked, s.stream, s'.stream, isn);
  }

  // ---------- Hand-over ----------

  /** What the sender thread copies out is the chunk written since the last hand-over. */
  lemma TakesChunk(s: State, isn: nat)
    requires RingAt(s, isn) && Valid(s) && Rested(s.tx) && s.thread == Got(s.handed % WINDOW_SIZE)
    ensures Outgoing(WRingOf(s), s.thread.lbw) == s.stream[s.tx.cumUna - isn - 1..s.handed]
  {
    var a := s.tx.cumUna - isn - 1;
    CumIdx(isn, a);
    assert Carrying(WRingOf(s), s.stream, a, a);
    OutgoingIsChunk(WRingOf(s), s.stream, a, a, s.handed);
  }

  lemma TakeSend(s: State, s': State, isn: nat)
    requires SendInv(s, isn) && Valid(s) && TakenOut(s, s')
    ensures SendInv(s', isn)
  {
    TakesChunk(s, isn);
    assert Dist(s.tx.nxt, s.tx.una) == 0;
    assert s'.thread == Sliding(Open(s.tx, s.stream[s.tx.cumUna - isn - 1..s.handed]));
    OpenThread(s.tx, s.stream, s.handed, isn);
  }

  lemma OpenThread(tx: Tx, stream: seq<Byte>, handed: nat, isn: nat)
    requires tx.base == isn < tx.cumUna <= isn + 1 + handed && handed <= |stream| && isn + 1 + |stream| < UINT32
    requires Rested(tx) && tx.una == Dist(tx.cumUna, isn) && isn + 1 + handed - tx.cumUna <= CHUNK
    ensures ThreadAt(tx, Sliding(Open(tx, stream[tx.cumUna - isn - 1..handed])), stream, handed, isn)
  {
    var m := stream[tx.cumUna - isn - 1..handed];
    if m != [] && tx.cws > 0 {
      OpenWindowed(tx, m);
      assert Sending(tx, Open(tx, m), stream, handed, isn, tx.cumUna);
    } else {
      assert Inert(tx, Open(tx, m), |m|);
    }
  }

  // ---------- The window ----------

  lemma SentRing(s: State, s': State, isn: nat)
    requires RingAt(s, isn) && s'.tx.una == s.tx.una && s'.tx.cumUna == s.tx.cumUna && s'.tx.base == s.tx.base
    requires s' == s.(tx := s'.tx, thread := s'.thread, data := s'.data)
    ensures RingAt(s', isn)
  {
  }

  /** The wire gains a segment whose end is the newest number. */
  lemma WireGrows(data: seq<Seg>, unacked: map<nat, nat>, stream: seq<Byte>, isn: nat, f: Seg)
    requires Wire(data, unacked, stream, isn) && AtMost(unacked, f.seqNum)
    requires isn < f.seqNum && |f.payload| > 0 && f.seqNum + |f.payload| <= isn + 1 + |stream|
    requires f.payload == stream[f.seqNum - isn - 1..f.seqNum + |f.payload| - isn - 1]
    ensures Wire(data + [f], unacked[f.seqNum + |f.payload| := 0], stream, isn)
  {
    var unacked' := unacked[f.seqNum + |f.payload| := 0];
    forall g | g in data + [f] ensures Whole(g, unacked', stream, isn) {
      if g != f {
        WholeLater(g, unacked, unacked', stream, stream, isn);
      }
    }
  }

  /** A window that can send or resend is the window of the bytes handed over last. */
  lemma Active(s: State, isn: nat) returns (s0: nat)
    requires SendInv(s, isn) && s.thread.Sliding? && (CanSend(s.tx, s.thread.sl) || CanResend(s.tx, s.thread.sl))
    ensures Sending(s.tx, s.thread.sl, s.stream, s.handed, isn, s0)
  {
    s0 :| Sending(s.tx, s.thread.sl, s.stream, s.handed, isn, s0);
  }

  lemma SegmentSend(s: State, s': State, isn: nat)
    requires SendInv(s, isn) && SegmentSent(s, s') && !s.tx.locked
    ensures SendInv(s', isn)
  {
    var s0 := Active(s, isn);
    SendSending(s.tx, s.thread.sl, s.stream, s.handed, isn, s0);
    assert ThreadAt(s'.tx, s'.thread, s.stream, s.handed, isn);
    SentRing(s, s', isn);
    SentWire(s.data, s.tx, s.thread.sl, s.stream, s.handed, isn, s0);
    SentKeys(s.ackChan, s.tx.unacked, NewAck(s.tx, s.thread.sl));
  }

  lemma SentKeys(acks: seq<AckMsg>, unacked: map<nat, nat>, key: nat)
    requires Heard(acks, unacked)
    ensures Heard(acks, unacked[key := 0])
  {
  }

  lemma SendSending(tx: Tx, sl: Slide, stream: seq<Byte>, handed: nat, isn: nat, s0: nat)
    requires Sending(tx, sl, stream, handed, isn, s0) && sl.toSend > 0 && sl.nodes != []
    ensures Sending(SendTx(tx, sl), SendSlide(tx, sl), stream, handed, isn, s0)
  {
    SendWindowed(tx, sl, stream[s0 - isn - 1..handed], s0);
  }

  /** The tail about to be sent: its end is a new number, above all others. */
  lemma TailFresh(tx: Tx, sl: Slide, stream: seq<Byte>, handed: nat, isn: nat, s0: nat)
    requires Sending(tx, sl, stream, handed, isn, s0) && sl.toSend > 0 && sl.nodes != []
    ensures var t := Tail(sl);
            && AtMost(tx.unacked, t.seqNum) && NewAck(tx, sl) == t.expectedAck == t.seqNum + |t.payload| <= isn + 1 + |stream|
            && isn < t.seqNum && |t.payload| > 0 && t.payload == stream[t.seqNum - isn - 1..t.seqNum + |t.payload| - isn - 1]
  {
    var m := stream[s0 - isn - 1..handed];
    TailOf(tx, sl, m, s0);
    SendNumbers(tx, sl, m, s0);
    KeysBelow(tx, sl, m, s0);
    PayloadOf(Tail(sl), stream, isn, s0, handed);
  }

  lemma SentWire(data: seq<Seg>, tx: Tx, sl: Slide, stream: seq<Byte>, handed: nat, isn: nat, s0: nat)
    requires Sending(tx, sl, stream, handed, isn, s0) && sl.toSend > 0 && sl.nodes != [] && Wire(data, tx.unacked, stream, isn)
    ensures Wire(data + [Seg(Tail(sl).seqNum, Tail(sl).payload)], SendTx(tx, sl).unacked, stream, isn)
  {
    TailFresh(tx, sl, stream, handed, isn, s0);
    WireGrows(data, tx.unacked, stream, isn, Seg(Tail(sl).seqNum, Tail(sl).payload));
  }

  lemma PayloadOf(n: WNode, stream: seq<Byte>, isn: nat, s0: nat, handed: nat)
    requires isn < s0 <= isn + 1 + handed && handed <= |stream| && Carries(n, stream[s0 - isn - 1..handed], s0)
    ensures isn < n.seqNum && |n.payload| > 0 && n.seqNum + |n.payload| == n.expectedAck <= isn + 1 + |stream|
    ensures n.payload == stream[n.seqNum - isn - 1..n.seqNum + |n.payload| - isn - 1]
  {
    SliceOfSlice(stream, s0 - isn - 1, handed, n.seqNum - s0, n.expectedAck - s0);
  }

  lemma SliceOfSlice(s: seq<Byte>, a: nat, b: nat, i: nat, j: nat)
    requires a <= b <= |s| && i <= j <= b - a
    ensures s[a..b][i..j] == s[a + i..a + j]
  {
    var l, r := s[a..b][i..j], s[a + i..a + j];
    forall k | 0 <= k < |l| ensures l[k] == r[k] {
      assert l[k] == s[a..b][i + k] == s[a + i + k];
    }
  }

  lemma ResendSend(s: State, s': State, isn: nat)
    requires SendInv(s, isn) && Resent(s, s')
    ensures SendInv(s', isn)
  {
    var s0 := Active(s, isn);
    ResendSending(s.tx, s.thread.sl, s.stream, s.handed, isn, s0);
    assert ThreadAt(s.tx, s'.thread, s.stream, s.handed, isn);
  }

  lemma ResendSending(tx: Tx, sl: Slide, stream: seq<Byte>, handed: nat, isn: nat, s0: nat)
    requires Sending(tx, sl, stream, handed, isn, s0) && CanResend(tx, sl)
    ensures Sending(tx, ResendSlide(sl), stream, handed, isn, s0)
    ensures var n := sl.nodes[Oldest(sl)]; Whole(Seg(n.seqNum, n.payload), tx.unacked, stream, isn)
  {
    ResendWindowed(tx, sl, stream[s0 - isn - 1..handed], s0);
    NodeWhole(sl.nodes[Oldest(sl)], tx.unacked, stream, isn, s0, handed);
  }

  /** The ring after an acknowledgement: fewer bytes have to be kept. */
  lemma AckedRing(s: State, s': State, isn: nat)
    requires RingAt(s, isn) && s' == s.(tx := s'.tx, thread := s'.thread, ackChan := s'.ackChan)
    requires s'.tx.base == isn && s.tx.cumUna <= s'.tx.cumUna <= isn + 1 + s.handed && s'.tx.una == Dist(s'.tx.cumUna, isn)
    ensures RingAt(s', isn)
  {
    HoldsFrom(s.wbuf, s.stream, s.tx.cumUna - isn - 1, s'.tx.cumUna - isn - 1);
  }

  lemma AckSending(tx: Tx, sl: Slide, stream: seq<Byte>, handed: nat, isn: nat, s0: nat, num: nat, window: nat)
    requires Sending(tx, sl, stream, handed, isn, s0) && num in tx.unacked
    ensures Sending(AckTx(tx, num, window), AckSlide(tx, sl, num), stream, handed, isn, s0)
    ensures tx.cumUna <= AckTx(tx, num, window).cumUna <= isn + 1 + handed
  {
    var m := stream[s0 - isn - 1..handed];
    AckWindowed(tx, sl, m, s0, num, window);
    KeysBelow(AckTx(tx, num, window), AckSlide(tx, sl, num), m, s0);
  }

  lemma AckSend(s: State, s': State, isn: nat)
    requires SendInv(s, isn) && AckTaken(s, s')
    ensures SendInv(s', isn)
  {
    var sl, ack := s.thread.sl, s.ackChan[0];
    assert ack in s.ackChan;
    AckKeys(s.tx, ack.num, ack.window);
    if Inert(s.tx, sl, isn + 1 + s.handed - s.tx.cumUna) {
      assert s'.thread == s.thread && Inert(s'.tx, sl, isn + 1 + s.handed - s.tx.cumUna);
    } else {
      var s0: nat :| Sending(s.tx, sl, s.stream, s.handed, isn, s0);
      AckSending(s.tx, sl, s.stream, s.handed, isn, s0, ack.num, ack.window);
    }
    assert ThreadAt(s'.tx, s'.thread, s.stream, s.handed, isn);
    AckedRing(s, s', isn);
    SameKeys(s.data, s.ackChan, s.tx.unacked, s'.tx.unacked, s.stream, isn);
  }

  lemma SameKeys(data: seq<Seg>, acks: seq<AckMsg>, unacked: map<nat, nat>, unacked': map<nat, nat>, stream: seq<Byte>, isn: nat)
    requires Wire(data, unacked, stream, isn) && Heard(acks, unacked) && acks != [] && unacked'.Keys == unacked.Keys
    ensures Wire(data, unacked', stream, isn) && Heard(acks[1..], unacked')
  {
    forall f | f in data ensures Whole(f, unacked', stream, isn) {
      WholeLater(f, unacked, unacked', stream, stream, isn);
    }
  }

  lemma FinishSend(s: State, s': State, isn: nat)
    requires SendInv(s, isn) && Finished(s, s')
    ensures SendInv(s', isn)
  {
    var sl := s.thread.sl;
    if !Inert(s.tx, sl, isn + 1 + s.handed - s.tx.cumUna) {
      var s0: nat :| Sending(s.tx, sl, s.stream, s.handed, isn, s0);
      var m := s.stream[s0 - isn - 1..s.handed];
      Conservation(s.tx, sl, m, s0);
      KeysBelow(s.tx, sl, m, s0);
    }
  }

  // ---------- Whole runs ----------

  /** The steps that leave the sender's own state alone, but for the announced window and the channel. */
  lemma OtherSend(s: State, ev: Event, s': State, isn: nat)
    requires SendInv(s, isn) && Valid(s) && Step(s, ev, s')
    requires ev.WriteCall? || ev.Handoff? || ev.GiveUp? || ev.LoseData? || ev.LoseAck? || ev.DeliverData? || ev.DeliverAck? || ev.ReadStep?
    ensures SendInv(s', isn)
  {
    match ev
    case WriteCall(message) =>
      CallSend(s, message, s', isn);
    case Handoff =>
      HandSend(s, s', isn);
    case DeliverAck =>
      HearsSend(s, s', isn);
    case GiveUp =>
    case _ =>
      AsideSend(s, s', isn);
  }

  /** The sender's own state is untouched and nothing is added to the wire. */
  lemma AsideSend(s: State, s': State, isn: nat)
    requires SendInv(s, isn) && s' == s.(data := s'.data, acks := s'.acks, recv := s'.recv, early := s'.early, delivered := s'.delivered)
    requires forall f :: f in s'.data ==> f in s.data
    ensures SendInv(s', isn)
  {
  }

  lemma CallSend(s: State, message: seq<Byte>, s': State, isn: nat)
    requires SendInv(s, isn) && WriteCalled(s, message, s')
    ensures SendInv(s', isn)
  {
    assert s.stream + s.todo == s.stream;
  }

  lemma HandSend(s: State, s': State, isn: nat)
    requires SendInv(s, isn) && HandedOver(s, s')
    ensures SendInv(s', isn)
  {
  }

  lemma HearsSend(s: State, s': State, isn: nat)
    requires SendInv(s, isn) && AckDelivered(s, s')
    ensures SendInv(s', isn)
  {
    if s.thread.Sliding? && !Inert(s.tx, s.thread.sl, isn + 1 + s.handed - s.tx.cumUna) {
      var s0: nat :| Sending(s.tx, s.thread.sl, s.stream, s.handed, isn, s0);
      assert Sending(s'.tx, s.thread.sl, s.stream, s.handed, isn, s0);
    }
  }

  /** A send that blocks on the lock moves NXT only. */
  lemma BlockedSend(s: State, s': State, isn: nat)
    requires SendInv(s, isn) && SegmentSent(s, s') && s.tx.locked
    ensures SendInv(s', isn)
  {
    SentRing(s, s', isn);
  }

  lemma StepSend(s: State, ev: Event, s': State, isn: nat)
    requires SendInv(s, isn) && Valid(s) && isn + 1 + |s'.stream| < UINT32 && Step(s, ev, s')
    ensures SendInv(s', isn)
  {
    match ev
    case WriteStep => WriteSend(s, s', isn);
    case TakeOut => TakeSend(s, s', isn);
    case SendStep =>
      if s.tx.locked {
        BlockedSend(s, s', isn);
      } else {
        SegmentSend(s, s', isn);
      }
    case AckStep => AckSend(s, s', isn);
    case Resend => ResendSend(s, s', isn);
    case Finish => FinishSend(s, s', isn);
    case _ => OtherSend(s, ev, s', isn);
  }

  lemma {:induction false} RunSend(states: seq<State>, events: seq<Event>, isn: nat, i: nat)
    requires AnyRun(states, events, isn) && i < |states|
    ensures SendInv(states[i], isn)
  {
    if i == 0 {
      InitSend(states[0], isn);
    } else {
      RunSend(states, events, isn, i - 1);
      StepSend(states[i - 1], events[i - 1], states[i], isn);
    }
  }

  /**
   The rendezvous ring, in every state of every run and whatever window the peer announces:
   at most two chunks are unacknowledged, the ring still holds every unacknowledged byte, and
   what the sender thread copies out is exactly the chunk written since the last hand-over.
   */
  lemma NothingOverwritten(states: seq<State>, events: seq<Event>, isn: nat, i: nat)
    requires AnyRun(states, events, isn) && i < |states|
    ensures var s := states[i];
            && isn < s.tx.cumUna && var a := s.tx.cumUna - isn - 1;
            && a <= s.handed <= |s.stream| <= a + 2 * CHUNK && s.requested == s.stream + s.todo
            && Holds(s.wbuf, s.stream, a, |s.stream|)
            && (s.thread.Got? ==> Outgoing(WRingOf(s), s.thread.lbw) == s.stream[a..s.handed])
  {
    RunSend(states, events, isn, i);
    if states[i].thread.Got? {
      TakesChunk(states[i], isn);
    }
  }

  /** Every segment on the wire carries the written stream's bytes at its sequence number. */
  lemma WireIsStream(states: seq<State>, events: seq<Event>, isn: nat, i: nat, f: Seg)
    requires AnyRun(states, events, isn) && i < |states| && f in states[i].data
    ensures isn < f.seqNum && 0 < |f.payload| && f.seqNum + |f.payload| <= isn + 1 + |states[i].stream|
    ensures f.payload == states[i].stream[f.seqNum - isn - 1..f.seqNum + |f.payload| - isn - 1]
  {
    RunSend(states, events, isn, i);
    assert Whole(f, states[i].tx.unacked, states[i].stream, isn);
  }
}
