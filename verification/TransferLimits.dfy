/**
 Where end-to-end safety ends.  The sender cuts the first segment of a chunk to the peer's
 window but not the next one, and the receiver only asks whether the window is zero.  Once
 less than a maximal segment fits into the receive ring, a segment can overwrite bytes that
 were never read.
 */
module TransferLimits {
  import opened Options
  import opened Ring
  import opened ReadBuffers
  import opened WriteBuffers
  import opened SlidingWindows
  import opened Transfer
  import opened TransferSafety

  ghost predicate Reached(s: State, isn: nat) {
    Valid(s) && exists states, events :: AnyRun(states, events, isn) && states[|events|] == s
  }

  lemma Advance(s: State, ev: Event, s': State, isn: nat)
    requires Reached(s, isn) && Valid(s') && Step(s, ev, s') && isn + 1 + |s'.stream| < UINT32
    ensures Reached(s', isn)
  {
    var states, events :| AnyRun(states, events, isn) && states[|events|] == s;
    var ss, es := states + [s'], events + [ev];
    forall i | 0 <= i < |ss| ensures Valid(ss[i]) && isn + 1 + |ss[i].stream| < UINT32 {
      assert i < |states| ==> ss[i] == states[i];
    }
    forall i | 0 <= i < |es| ensures Step(ss[i], es[i], ss[i + 1]) {
      if i < |events| {
        assert ss[i] == states[i] && es[i] == events[i] && ss[i + 1] == states[i + 1];
      }
    }
    assert ss[|es|] == s';
  }

  /** Both ends agree on a bytes of the stream, d of them are read, and nothing is in flight. */
  ghost predicate Level(s: State, isn: nat, a: nat, d: nat) {
    && isn + 1 + |s.stream| < UINT32 && a <= |s.stream| && |s.delivered| == d
    && Carrying(WRingOf(s), s.stream, a, a)
    && Represents(s.recv, s.stream[..a], d) && s.recv.base == isn
    && s.tx.base == isn && s.tx.cumUna == isn + 1 + a && s.tx.cws == s.recv.Free() && !s.tx.locked
    && s.data == [] && s.acks == s.ackChan == [] && s.early == multiset{}
  }

  /** What the passage of a chunk leaves alone. */
  ghost predicate SameApplications(s: State, s': State) {
    && s'.requested == s.requested && s'.stream == s.stream && s'.handed == s.handed && s'.delivered == s.delivered
    && s'.todo == s.todo && s'.newMessage == s.newMessage && s'.offered == s.offered && s'.wbuf == s.wbuf && s'.lbw == s.lbw
  }

  // ---------- A chunk that fits ----------

  /** The sender thread has taken over the chunk from a to h. */
  ghost predicate Taken(s: State, isn: nat, a: nat, h: nat, d: nat) {
    Level(s, isn, a, d) && s.thread == Got(h % WINDOW_SIZE) && s.handed == h && a < h <= |s.stream| && h - a <= CHUNK
  }

  /** A window on the chunk from a to h has been opened. */
  ghost predicate Opened(s: State, isn: nat, a: nat, h: nat) {
    && isn + 1 + |s.stream| < UINT32 && a < h <= |s.stream| && h - a <= CHUNK
    && s.tx.una == s.tx.nxt == Idx(a) && s.tx.base == isn && s.tx.cumUna == isn + 1 + a && s.tx.cws < WINDOW_SIZE && !s.tx.locked
    && s.thread == Sliding(Open(s.tx, s.stream[a..h]))
    && s.data == [] && s.acks == s.ackChan == [] && s.early == multiset{}
  }

  lemma TakesOut(s: State, isn: nat, a: nat, h: nat, d: nat) returns (s': State)
    requires Reached(s, isn) && Taken(s, isn, a, h, d)
    ensures Reached(s', isn) && s' == s.(thread := Sliding(Open(s.tx, s.stream[a..h]))) && Opened(s', isn, a, h)
  {
    OutgoingIsChunk(WRingOf(s), s.stream, a, a, h);
    s' := s.(thread := Sliding(Open(s.tx, s.stream[a..h])));
    assert Dist(s.tx.nxt, s.tx.una) == 0;
    Advance(s, TakeOut, s', isn);
  }

  /** The tail of the window is sent. */
  lemma Sends(s: State, isn: nat) returns (s': State)
    requires Reached(s, isn) && s.thread.Sliding? && CanSend(s.tx, s.thread.sl) && !s.tx.locked && s.data == [] && isn + 1 + |s.stream| < UINT32
    ensures var sl := s.thread.sl;
            s' == s.(tx := SendTx(s.tx, sl), thread := Sliding(SendSlide(s.tx, sl)), data := [Seg(Tail(sl).seqNum, Tail(sl).payload)])
    ensures Reached(s', isn)
  {
    var sl := s.thread.sl;
    s' := s.(tx := SendTx(s.tx, sl), thread := Sliding(SendSlide(s.tx, sl)), data := [Seg(Tail(sl).seqNum, Tail(sl).payload)]);
    assert s.data + [Seg(Tail(sl).seqNum, Tail(sl).payload)] == s'.data;
    Advance(s, SendStep, s', isn);
  }

  lemma OpenAll(tx: Tx, chunk: seq<Byte>)
    requires |chunk| <= MSS && |chunk| <= tx.cws && tx.nxt == tx.una && tx.cumUna + |chunk| < UINT32
    ensures Open(tx, chunk) ==
            Slide(|chunk|, [], |chunk|, 0, [Dummy, WNode(tx.cumUna, chunk, tx.cumUna + |chunk|, 0, 0, false, false, 0)])
  {
    assert chunk[..|chunk|] == chunk;
  }

  /** The one segment of a chunk that fits the window is sent. */
  lemma SendsWhole(s: State, isn: nat, a: nat, h: nat) returns (s': State)
    requires Reached(s, isn) && Opened(s, isn, a, h) && h - a <= s.tx.cws
    ensures Reached(s', isn) && s' == s.(tx := s'.tx, thread := s'.thread, data := [Seg(isn + 1 + a, s.stream[a..h])])
    ensures s'.tx == s.tx.(nxt := Idx(h), unacked := s.tx.unacked[isn + 1 + h := 0], cws := s.tx.cws - (h - a))
    ensures s'.thread.Sliding? && var sl := s'.thread.sl;
              && sl.size == h - a && sl.bytesSent == 0 && |sl.nodes| == 2 && sl.nodes[0] == Dummy && sl.nodes[1].expectedAck == isn + 1 + h
  {
    var chunk := s.stream[a..h];
    OpenAll(s.tx, chunk);
    SendWhole(s.tx, s.thread.sl, a, |chunk|);
    s' := Sends(s, isn);
  }

  /** The oldest segment on the wire is the next expected one; it is copied in and acknowledged. */
  lemma Lands(s: State, isn: nat) returns (s': State)
    requires Reached(s, isn) && |s.data| == 1 && s.early == multiset{} && isn + 1 + |s.stream| < UINT32
    requires s.data[0].seqNum == s.recv.cum && s.recv.Free() > 0 && s.acks == []
    ensures Reached(s', isn)
    ensures var r := Insert(s.recv, s.recv.cum, s.data[0].payload);
            s' == s.(data := [], recv := r, acks := [AckMsg(r.cum, r.Free())])
  {
    var r := Insert(s.recv, s.recv.cum, s.data[0].payload);
    s' := s.(data := [], recv := r, acks := [AckMsg(r.cum, r.Free())]);
    assert s.acks + [AckMsg(r.cum, r.Free())] == s'.acks;
    assert forall x :: x in s.early ==> x.seqNum > r.cum;
    assert s.data[1..] == [];
    Advance(s, DeliverData, s', isn);
  }

  /** The acknowledgement of an outstanding number reaches the channel. */
  lemma Hears(s: State, isn: nat, ack: AckMsg) returns (s': State)
    requires Reached(s, isn) && s.acks == [ack] && s.ackChan == [] && !s.tx.locked && isn + 1 + |s.stream| < UINT32 && ack.num in s.tx.unacked
    ensures Reached(s', isn) && s' == s.(acks := [], tx := s.tx.(cws := ack.window), ackChan := [ack])
  {
    s' := s.(acks := [], tx := s.tx.(cws := ack.window), ackChan := [ack]);
    assert s.acks[1..] == [] && s.ackChan + [ack] == [ack];
    assert WRingOf(s') == WRingOf(s);
    Advance(s, DeliverAck, s', isn);
  }

  /** The acknowledgement of an outstanding number arrives and is taken from the channel. */
  lemma Acknowledged(s: State, isn: nat, ack: AckMsg) returns (s': State)
    requires Reached(s, isn) && s.acks == [ack] && s.ackChan == [] && s.thread.Sliding? && !s.tx.locked && isn + 1 + |s.stream| < UINT32
    requires ack.num in s.tx.unacked
    ensures Reached(s', isn)
    ensures var tx := s.tx.(cws := ack.window);
            s' == s.(tx := AckTx(tx, ack.num, ack.window), thread := Sliding(AckSlide(tx, s.thread.sl, ack.num)), acks := [])
  {
    var s1 := Hears(s, isn, ack);
    s' := s1.(tx := AckTx(s1.tx, ack.num, ack.window), thread := Sliding(AckSlide(s1.tx, s.thread.sl, ack.num)), ackChan := []);
    assert s1.ackChan[1..] == [];
    Advance(s1, AckStep, s', isn);
  }

  /** A chunk that fits the window passes from hand-over to acknowledgement. */
  lemma Passes(s: State, isn: nat, a: nat, h: nat, d: nat) returns (s': State)
    requires Reached(s, isn) && Taken(s, isn, a, h, d) && h - a <= s.tx.cws
    ensures Reached(s', isn) && Level(s', isn, h, d) && s'.thread == Idle && SameApplications(s, s')
  {
    var r := Insert(s.recv, s.recv.cum, s.stream[a..h]);
    RingsPass(s, isn, a, h, d, r);
    var s1 := TakesOut(s, isn, a, h, d);
    s' := Travels(s1, isn, a, h);
    assert WRingOf(s') == WRingOf(s).(una := Idx(h), nxt := Idx(h));
  }

  /** The one segment is sent, copied in and acknowledged. */
  lemma Travels(s: State, isn: nat, a: nat, h: nat) returns (s': State)
    requires Reached(s, isn) && Opened(s, isn, a, h) && h - a <= s.tx.cws && s.recv.cum == isn + 1 + a && s.recv.Free() > 0
    ensures Reached(s', isn) && s' == s.(tx := s'.tx, thread := Idle, recv := Insert(s.recv, s.recv.cum, s.stream[a..h]))
    ensures s'.tx.una == s'.tx.nxt == Idx(h) && s'.tx.base == isn && s'.tx.cumUna == isn + 1 + h && s'.tx.cws == s'.recv.Free() && !s'.tx.locked
  {
    var s1 := Arrives(s, isn, a, h);
    s' := WindowCloses(s1, isn, a, h);
  }

  /** The one segment is sent and copied in. */
  lemma Arrives(s: State, isn: nat, a: nat, h: nat) returns (s': State)
    requires Reached(s, isn) && Opened(s, isn, a, h) && h - a <= s.tx.cws && s.recv.cum == isn + 1 + a && s.recv.Free() > 0
    ensures Reached(s', isn) && s' == s.(tx := s'.tx, thread := s'.thread, recv := Insert(s.recv, s.recv.cum, s.stream[a..h]), acks := s'.acks)
    ensures s'.acks == [AckMsg(isn + 1 + h, s'.recv.Free())]
    ensures s'.tx == s.tx.(nxt := Idx(h), unacked := s.tx.unacked[isn + 1 + h := 0], cws := s.tx.cws - (h - a))
    ensures s'.thread.Sliding? && var sl := s'.thread.sl;
              && sl.size == h - a && sl.bytesSent == 0 && |sl.nodes| == 2 && sl.nodes[0] == Dummy && sl.nodes[1].expectedAck == isn + 1 + h
  {
    var s1 := SendsWhole(s, isn, a, h);
    InsertCum(s.recv, s.stream[a..h]);
    s' := Lands(s1, isn);
  }

  lemma InsertCum(r: Recv, payload: seq<Byte>)
    requires r.Valid() && r.cum + |payload| < UINT32
    ensures Insert(r, r.cum, payload).cum == r.cum + |payload|
  {
  }

  /** Both rings after the chunk from a to h. */
  lemma RingsPass(s: State, isn: nat, a: nat, h: nat, d: nat, r: Recv)
    requires Taken(s, isn, a, h, d) && h - a <= s.tx.cws && r == Insert(s.recv, s.recv.cum, s.stream[a..h])
    ensures s.recv.Free() > 0 && s.recv.cum == isn + 1 + a && r.cum == isn + 1 + h && r.base == isn
    ensures Represents(r, s.stream[..h], d) && Carrying(WRingOf(s).(una := Idx(h), nxt := Idx(h)), s.stream, h, h)
  {
    BufferedPlusWindow(s.recv, s.stream[..a], d);
    InsertNext(s.recv, s.stream[..a], d, s.stream[a..h]);
    assert s.stream[..a] + s.stream[a..h] == s.stream[..h];
    CarryingTo(WRingOf(s), s.stream, a, h, WRingOf(s).(una := Idx(h), nxt := Idx(h)));
  }

  /** The acknowledgement of the whole chunk closes the window. */
  lemma WindowCloses(s: State, isn: nat, a: nat, h: nat) returns (s': State)
    requires Reached(s, isn) && isn + 1 + |s.stream| < UINT32 && a < h && s.acks == [AckMsg(isn + 1 + h, s.recv.Free())] && s.ackChan == []
    requires s.tx.base == isn && s.tx.cumUna == isn + 1 + a && isn + 1 + h in s.tx.unacked && s.tx.unacked[isn + 1 + h] == 0 && !s.tx.locked
    requires s.thread.Sliding? && var sl := s.thread.sl;
               && sl.size == h - a && sl.bytesSent == 0 && |sl.nodes| == 2 && sl.nodes[0] == Dummy && sl.nodes[1].expectedAck == isn + 1 + h
    ensures Reached(s', isn) && s' == s.(tx := s'.tx, thread := Idle, acks := [])
    ensures s'.tx.una == Idx(h) && s'.tx.nxt == s.tx.nxt && s'.tx.base == isn && s'.tx.cumUna == isn + 1 + h && s'.tx.cws == s.recv.Free() && !s'.tx.locked
  {
    var ack := s.acks[0];
    AckWhole(s.tx.(cws := ack.window), s.thread.sl, ack.num, ack.window);
    CumIdx(isn, h);
    var s1 := Acknowledged(s, isn, ack);
    s' := s1.(thread := Idle);
    assert WRingOf(s') == WRingOf(s1);
    Advance(s1, Finish, s', isn);
  }

  lemma CarryingTo(w: WRing, stream: seq<Byte>, a: nat, h: nat, w': WRing)
    requires Carrying(w, stream, a, a) && a <= h <= |stream| && w' == w.(una := Idx(h), nxt := Idx(h))
    ensures Carrying(w', stream, h, h)
  {
  }

  // ---------- Filling the receive ring ----------

  lemma HandsOver(s: State, isn: nat, a: nat, d: nat) returns (s': State)
    requires Reached(s, isn) && Level(s, isn, a, d) && s.thread == Idle && s.offered == Some(|s.stream| % WINDOW_SIZE)
    requires a < |s.stream| <= a + CHUNK
    ensures Reached(s', isn) && Taken(s', isn, a, |s.stream|, d) && s' == s.(offered := None, thread := Got(|s.stream| % WINDOW_SIZE), handed := |s.stream|)
  {
    s' := s.(offered := None, thread := Got(s.offered.value), handed := |s.stream|);
    Advance(s, Handoff, s', isn);
  }

  /** One round of VWrite's loop copies n bytes. */
  lemma WritesChunk(s: State, isn: nat, a: nat, d: nat, n: nat) returns (s': State)
    requires Reached(s, isn) && Level(s, isn, a, d) && s.offered == None && |s.stream| - a <= CHUNK && 0 < n <= |s.todo|
    requires ChunkSize(s.tx.una, s.lbw, |s.todo|, s.newMessage) == n && isn + 1 + |s.stream| + n < UINT32
    ensures Reached(s', isn) && Level(s', isn, a, d)
    ensures s'.stream == s.stream + s.todo[..n] && s'.todo == s.todo[n..] && s'.offered == Some(|s'.stream| % WINDOW_SIZE) && !s'.newMessage
    ensures s'.requested == s.requested && s'.delivered == s.delivered && s'.handed == s.handed && s'.thread == s.thread && s'.recv == s.recv
  {
    var w := AfterWrite(WRingOf(s), s.todo[..n]);
    s' := s.(wbuf := w.buf, lbw := w.lbw, offered := Some(w.lbw), newMessage := false, stream := s.stream + s.todo[..n], todo := s.todo[n..]);
    WriteCarries(WRingOf(s), s.stream, a, a, s.todo[..n]);
    assert WRingOf(s') == w && s'.stream[..a] == s.stream[..a];
    Advance(s, WriteStep, s', isn);
  }

  /** Idle with everything passed on and nothing read. */
  ghost predicate Filled(s: State, isn: nat, filler: seq<Byte>) {
    && Level(s, isn, |filler|, 0) && s.thread == Idle && s.handed == |filler|
    && s.requested == s.stream == filler && s.todo == [] && s.offered == None
  }

  /** One message of one chunk is written, passed on and left unread. */
  lemma FillsOn(s: State, isn: nat, filler: seq<Byte>, message: seq<Byte>) returns (s': State)
    requires Reached(s, isn) && Filled(s, isn, filler) && 0 < |message| <= CHUNK
    requires |filler| + |message| < WINDOW_SIZE && isn + 1 + |filler| + |message| < UINT32
    ensures Reached(s', isn) && Filled(s', isn, filler + message)
  {
    BufferedPlusWindow(s.recv, s.stream[..|filler|], 0);
    var s1 := s.(todo := message, newMessage := true, requested := s.requested + message);
    assert WRingOf(s1) == WRingOf(s);
    Advance(s, WriteCall(message), s1, isn);
    var s2 := WritesChunk(s1, isn, |filler|, 0, |message|);
    assert message[..|message|] == message;
    var s3 := HandsOver(s2, isn, |filler|, 0);
    s' := Passes(s3, isn, |filler|, |s3.stream|, 0);
  }

  ghost function Zeros(n: nat): (z: seq<Byte>)
    ensures |z| == n && forall i :: 0 <= i < n ==> z[i] == 0
  {
    seq(n, i => 0)
  }

  lemma {:induction false} FillsTo(s0: State, isn: nat, k: nat) returns (s: State)
    requires Init(s0, isn) && Valid(s0) && isn + 1 + WINDOW_SIZE < UINT32 && k * CHUNK < WINDOW_SIZE
    ensures Reached(s, isn) && Filled(s, isn, Zeros(k * CHUNK))
  {
    if k == 0 {
      s := s0;
      assert AnyRun([s0], [], isn) && [s0][0] == s0;
      assert Zeros(0) == [];
    } else {
      s := FillsTo(s0, isn, k - 1);
      s := FillsOn(s, isn, Zeros((k - 1) * CHUNK), Zeros(CHUNK));
      assert Zeros((k - 1) * CHUNK) + Zeros(CHUNK) == Zeros(k * CHUNK);
    }
  }

  // ---------- A segment that does not fit ----------

  /** A chunk larger than the window: the first segment is cut to the window, the rest becomes the next one. */
  lemma OpenPart(tx: Tx, chunk: seq<Byte>)
    requires 0 < tx.cws < |chunk| <= MSS && tx.nxt == tx.una && tx.cumUna + |chunk| < UINT32
    ensures Open(tx, chunk) ==
            Slide(|chunk|, chunk[tx.cws..], tx.cws, 0, [Dummy, WNode(tx.cumUna, chunk[..tx.cws], tx.cumUna + tx.cws, 0, 0, false, false, 0)])
  {
  }

  lemma SendPart(tx: Tx, chunk: seq<Byte>, a: nat)
    requires 0 < tx.cws < |chunk| <= MSS && tx.una == tx.nxt == Idx(a) && tx.cumUna + |chunk| < UINT32
    ensures var w, sl := tx.cws, Open(tx, chunk);
            && CanSend(tx, sl) && Tail(sl).seqNum == tx.cumUna && Tail(sl).payload == chunk[..w]
            && SendTx(tx, sl) == tx.(nxt := Idx(a + w), unacked := tx.unacked[tx.cumUna + w := 0], cws := 0)
            && SendSlide(tx, sl) == Slide(|chunk|, [], |chunk| - w, 0,
                 [Dummy, WNode(tx.cumUna, chunk[..w], tx.cumUna + w, 0, 0, true, false, 1),
                  WNode(tx.cumUna + w, chunk[w..], tx.cumUna + |chunk|, 1, MSS, false, false, 0)])
  {
    var w := tx.cws;
    OpenPart(tx, chunk);
    ModAdd(1 + a, w);
    IdxDist(a + w, a);
    assert chunk[w..][..|chunk| - w] == chunk[w..] && chunk[w..][|chunk| - w..] == [];
  }

  lemma AckPart(tx: Tx, sl: Slide, num: nat, window: nat)
    requires |sl.nodes| == 3 && sl.nodes[0] == Dummy && sl.nodes[1].expectedAck == num < sl.nodes[2].expectedAck
    requires FirstSeen(tx, num) && num > tx.cumUna
    ensures AckTx(tx, num, window) == tx.(unacked := tx.unacked[num := 1], cws := window, cumUna := num, una := Dist(num, tx.base))
    ensures AckSlide(tx, sl, num) == sl.(bytesSent := sl.bytesSent + (num - tx.cumUna), nodes := [sl.nodes[2]])
  {
    var rest := sl.nodes[1..];
    assert rest[1..] == [sl.nodes[2]];
    assert DropAcked(rest, num) == DropAcked(rest[1..], num) == [sl.nodes[2]];
    assert DropAcked(sl.nodes, num) == DropAcked(rest, num);
  }

  /** The window after the first w bytes of a chunk that starts at `from` were sent. */
  ghost predicate PartWindow(tx: Tx, sl: Slide, chunk: seq<Byte>, isn: nat, from: nat, w: nat) {
    && 0 < w < |chunk| <= MSS
    && tx.base == isn && tx.cumUna == from && from + w in tx.unacked && tx.unacked[from + w] == 0 && !tx.locked
    && sl == Slide(|chunk|, [], |chunk| - w, 0,
         [Dummy, WNode(from, chunk[..w], from + w, 0, 0, true, false, 1),
          WNode(from + w, chunk[w..], from + |chunk|, 1, MSS, false, false, 0)])
  }

  /** The first part of a chunk larger than the window is on the wire. */
  ghost predicate PartSent(s: State, isn: nat, a: nat, h: nat, w: nat) {
    && isn + 1 + |s.stream| < UINT32 && a <= h <= |s.stream|
    && s.acks == s.ackChan == [] && s.early == multiset{}
    && s.thread.Sliding? && PartWindow(s.tx, s.thread.sl, s.stream[a..h], isn, isn + 1 + a, w)
  }

  lemma SendsPart(s: State, isn: nat, a: nat, h: nat) returns (s': State)
    requires Reached(s, isn) && Opened(s, isn, a, h) && 0 < s.tx.cws < h - a
    ensures Reached(s', isn) && PartSent(s', isn, a, h, s.tx.cws)
    ensures s' == s.(tx := s'.tx, thread := s'.thread, data := [Seg(isn + 1 + a, s.stream[a..h][..s.tx.cws])])
  {
    PartSends(s.tx, s.stream[a..h], isn, a);
    s' := Sends(s, isn);
  }

  lemma PartSends(tx: Tx, chunk: seq<Byte>, isn: nat, a: nat)
    requires 0 < tx.cws < |chunk| <= MSS && tx.una == tx.nxt == Idx(a) && isn + 1 + a + |chunk| < UINT32
    requires tx.base == isn && tx.cumUna == isn + 1 + a && !tx.locked
    ensures var sl := Open(tx, chunk);
            && CanSend(tx, sl) && Tail(sl).seqNum == isn + 1 + a && Tail(sl).payload == chunk[..tx.cws]
            && PartWindow(SendTx(tx, sl), SendSlide(tx, sl), chunk, isn, isn + 1 + a, tx.cws)
  {
    SendPart(tx, chunk, a);
  }

  /** Once the first part is acknowledged with a window that is open at all, the whole rest goes out. */
  lemma SendsRest(s: State, isn: nat, a: nat, h: nat, w: nat, ack: AckMsg) returns (s': State)
    requires Reached(s, isn) && PartSent(s.(acks := []), isn, a, h, w) && s.data == [] && s.acks == [ack]
    requires ack.num == isn + 1 + a + w && 0 < ack.window < WINDOW_SIZE
    ensures Reached(s', isn) && s'.data == [Seg(isn + 1 + a + w, s.stream[a..h][w..])] && s'.recv == s.recv && s'.early == s.early
    ensures s'.stream == s.stream && s'.requested == s.requested && s'.delivered == s.delivered && s'.acks == []
  {
    var s1 := FirstPartAcked(s, isn, a, h, w, ack);
    s' := Sends(s1, isn);
  }

  /** The acknowledgement of the first part leaves the rest as the only segment, ready to go out. */
  lemma FirstPartAcked(s: State, isn: nat, a: nat, h: nat, w: nat, ack: AckMsg) returns (s': State)
    requires Reached(s, isn) && PartSent(s.(acks := []), isn, a, h, w) && s.data == [] && s.acks == [ack]
    requires ack.num == isn + 1 + a + w && 0 < ack.window < WINDOW_SIZE
    ensures Reached(s', isn) && s' == s.(tx := s'.tx, thread := s'.thread, acks := []) && !s'.tx.locked && s'.tx.cws == ack.window
    ensures s'.thread.Sliding? && CanSend(s'.tx, s'.thread.sl)
    ensures Tail(s'.thread.sl).seqNum == isn + 1 + a + w && Tail(s'.thread.sl).payload == s.stream[a..h][w..]
  {
    AckPart(s.tx.(cws := ack.window), s.thread.sl, ack.num, ack.window);
    s' := Acknowledged(s, isn, ack);
    assert s'.thread.sl.nodes == [s.thread.sl.nodes[2]];
  }

  lemma Reads(s: State, isn: nat, n: nat) returns (s': State)
    requires Reached(s, isn) && s.recv.Buffered() > 0 && isn + 1 + |s.stream| < UINT32
    ensures Reached(s', isn) && s' == s.(delivered := s.delivered + ReadBytes(s.recv, n), recv := AfterRead(s.recv, n))
  {
    s' := s.(delivered := s.delivered + ReadBytes(s.recv, n), recv := AfterRead(s.recv, n));
    assert WRingOf(s') == WRingOf(s);
    Advance(s, ReadStep(n), s', isn);
  }

  /** A ring that is full but for one byte, one byte read, takes a segment that runs over the oldest unread bytes. */
  lemma Overrun(r: Recv, stream: seq<Byte>, payload: seq<Byte>)
    requires Represents(r, stream, 1) && |stream| == WINDOW_SIZE - 1 && |payload| == 385 && r.cum + |payload| < UINT32
    ensures r.Free() == 1
    ensures var r' := Insert(r, r.cum, payload); r'.Buffered() > 0 && ReadBytes(r', 1) == [payload[2]]
  {
    var r' := Insert(r, r.cum, payload);
    assert r.nxt == 0 && r.lbr == 1;
    CumIdx(r.base, |stream| + |payload|);
    assert r'.nxt == 385;
  }

  /** Bytes passed on and bytes written when the window is down to 255. */
  const FILLED: nat := 48 * CHUNK
  const WRITTEN: nat := 47 * CHUNK + 2000

  /** The first chunk of a message behind the filler is handed over. */
  lemma FirstChunk(s: State, isn: nat, filler: seq<Byte>, message: seq<Byte>) returns (s': State)
    requires Reached(s, isn) && Filled(s, isn, filler) && |filler| == 47 * CHUNK && |message| == 2000
    requires isn + 1 + 2 * WINDOW_SIZE < UINT32
    ensures Reached(s', isn) && Taken(s', isn, |filler|, FILLED, 0) && s'.recv == s.recv && !s'.newMessage && s'.offered == None
    ensures s'.stream == filler + message[..CHUNK] && s'.todo == message[CHUNK..] && s'.requested == filler + message
  {
    var s1 := s.(todo := message, newMessage := true, requested := s.requested + message);
    assert WRingOf(s1) == WRingOf(s);
    Advance(s, WriteCall(message), s1, isn);
    var s2 := WritesChunk(s1, isn, |filler|, 0, CHUNK);
    s' := HandsOver(s2, isn, |filler|, 0);
  }

  lemma BothChunks(filler: seq<Byte>, message: seq<Byte>)
    requires |message| == 2000
    ensures filler + message[..CHUNK] + message[CHUNK..][..640] == filler + message
  {
  }

  /** While it is under way the second chunk is written; the first passes and leaves a window of 255. */
  lemma SecondChunk(s: State, isn: nat, filler: seq<Byte>, message: seq<Byte>) returns (s': State)
    requires Reached(s, isn) && Taken(s, isn, |filler|, FILLED, 0) && !s.newMessage && s.offered == None
    requires |filler| == 47 * CHUNK && |message| == 2000 && isn + 1 + 2 * WINDOW_SIZE < UINT32
    requires s.stream == filler + message[..CHUNK] && s.todo == message[CHUNK..] && s.requested == filler + message
    ensures Reached(s', isn) && Level(s', isn, FILLED, 0) && s'.tx.cws == 255 && s'.thread == Idle
    ensures s'.stream == s'.requested == filler + message && s'.offered == Some(WRITTEN % WINDOW_SIZE)
  {
    BufferedPlusWindow(s.recv, s.stream[..|filler|], 0);
    assert ChunkSize(s.tx.una, s.lbw, |s.todo|, false) == 640;
    var s1 := WritesChunk(s, isn, |filler|, 0, 640);
    BothChunks(filler, message);
    s' := Passes(s1, isn, |filler|, FILLED, 0);
    BufferedPlusWindow(s'.recv, s'.stream[..FILLED], 0);
  }

  /** One byte is read, and the first part lands; the acknowledgement announces a window of 1. */
  lemma FirstPartLands(s: State, isn: nat) returns (s': State)
    requires Reached(s, isn) && PartSent(s, isn, FILLED, WRITTEN, 255)
    requires s.data == [Seg(isn + 1 + FILLED, s.stream[FILLED..WRITTEN][..255])] && s.delivered == []
    requires Represents(s.recv, s.stream[..FILLED], 0) && s.recv.base == isn
    ensures Reached(s', isn) && PartSent(s'.(acks := []), isn, FILLED, WRITTEN, 255)
    ensures s'.data == [] && s'.acks == [AckMsg(isn + 1 + FILLED + 255, 1)]
    ensures s'.stream == s.stream && s'.requested == s.requested && s'.delivered == [s.stream[0]]
    ensures Represents(s'.recv, s.stream[..65535], 1) && s'.recv.base == isn
  {
    OneReadOnePart(s.recv, s.stream, s.stream[FILLED..WRITTEN][..255]);
    var s1 := Reads(s, isn, 1);
    s' := Lands(s1, isn);
  }

  /** The receive ring through one read byte and the first part. */
  lemma OneReadOnePart(r: Recv, stream: seq<Byte>, part: seq<Byte>)
    requires |stream| >= WRITTEN && Represents(r, stream[..FILLED], 0) && part == stream[FILLED..WRITTEN][..255] && r.base + 1 + WRITTEN < UINT32
    ensures r.Buffered() > 0 && ReadBytes(r, 1) == [stream[0]]
    ensures var r1 := AfterRead(r, 1); var r2 := Insert(r1, r1.cum, part);
            && r1.cum == r.cum == r.base + 1 + FILLED && r1.Free() > 0 && r1.base == r.base
            && Represents(r2, stream[..65535], 1) && r2.cum == r.base + 1 + 65535 && r2.Free() == 1
  {
    var r1 := AfterRead(r, 1);
    BufferedPlusWindow(r, stream[..FILLED], 0);
    ReadOldest(r, stream[..FILLED], 0, 1);
    assert stream[..FILLED][0..1] == [stream[0]];
    BufferedPlusWindow(r1, stream[..FILLED], 1);
    InsertNext(r1, stream[..FILLED], 1, part);
    assert stream[..FILLED] + part == stream[..65535];
    BufferedPlusWindow(Insert(r1, r1.cum, part), stream[..65535], 1);
  }

  /** The rest goes out, lands on unread bytes, and one more byte is read. */
  lemma RestOverruns(s: State, isn: nat) returns (s': State)
    requires Reached(s, isn) && PartSent(s.(acks := []), isn, FILLED, WRITTEN, 255)
    requires s.data == [] && s.acks == [AckMsg(isn + 1 + FILLED + 255, 1)]
    requires Represents(s.recv, s.stream[..65535], 1) && s.recv.base == isn && isn + 1 + WRITTEN < UINT32
    ensures Reached(s', isn) && s'.requested == s.requested && s'.delivered == s.delivered + [s.stream[65537]]
  {
    var rest := s.stream[FILLED..WRITTEN][255..];
    Overrun(s.recv, s.stream[..65535], rest);
    var s1 := SendsRest(s, isn, FILLED, WRITTEN, 255, s.acks[0]);
    var s2 := Lands(s1, isn);
    s' := Reads(s2, isn, 1);
    assert rest[2] == s.stream[65537];
  }

  lemma PrefixAt(delivered: seq<Byte>, requested: seq<Byte>, i: nat)
    requires i < |delivered| && i < |requested| && delivered[i] != requested[i]
    ensures !(delivered <= requested)
  {
  }

  /**
   Without room for a maximal segment the reader can get bytes that are not the next ones:
   47 unread messages of 1360 bytes and one of 2000 bytes leave one byte of room for a
   segment of 385.
   */
  lemma UnsafeWithoutRoom(s0: State, isn: nat) returns (s: State)
    requires Init(s0, isn) && Valid(s0) && isn + 1 + 2 * WINDOW_SIZE < UINT32
    ensures Reached(s, isn) && !(s.delivered <= s.requested)
  {
    var filler, ones: seq<Byte> := Zeros(47 * CHUNK), seq(2000, _ => 1);
    s := FillsTo(s0, isn, 47);
    s := FirstChunk(s, isn, filler, ones);
    s := SecondChunk(s, isn, filler, ones);
    s := SplitChunk(s, isn);
    assert (filler + ones)[1] == 0 && (filler + ones)[65537] == 1;
    PrefixAt(s.delivered, s.requested, 1);
  }

  /** The second chunk is taken over, cut, and runs over unread bytes. */
  lemma SplitChunk(s: State, isn: nat) returns (s': State)
    requires Reached(s, isn) && Level(s, isn, FILLED, 0) && s.tx.cws == 255 && s.thread == Idle
    requires |s.stream| == WRITTEN && s.offered == Some(WRITTEN % WINDOW_SIZE)
    ensures Reached(s', isn) && s'.requested == s.requested && s'.delivered == [s.stream[0], s.stream[65537]]
  {
    var s1 := HandsOver(s, isn, FILLED, 0);
    var s2 := TakesOut(s1, isn, FILLED, WRITTEN, 0);
    var s3 := SendsPart(s2, isn, FILLED, WRITTEN);
    var s4 := FirstPartLands(s3, isn);
    s' := RestOverruns(s4, isn);
  }
}
