/**
 End-to-end safety without a standing reserve: whatever windows are announced and however
 segments are cut, resent and reordered by loss, the reader gets a prefix of what was
 written as long as each delivered segment fits the receive ring and does not end behind
 the reader, and what is queued lies within one window of the reader.  These are conditions
 on the state before the delivery.
 */
module TransferFits {
  import opened Options
  import opened Ring
  import opened ReadBuffers
  import opened WriteBuffers
  import opened SlidingWindows
  import opened Transfer
  import opened TransferSafety
  import opened SendRing

  /** The queued segment ends within one window of the reader. */
  ghost predicate InWindow(x: Seg, isn: nat, d: nat) {
    x.seqNum + |x.payload| - isn - 1 - d < WINDOW_SIZE
  }

  /** The segment about to be delivered does no harm. */
  ghost predicate Fits(s: State, isn: nat) {
    && (s.data != [] && s.data[0].seqNum <= s.recv.cum && s.recv.Free() > 0 ==>
         && |s.data[0].payload| <= s.recv.Free()
         && s.data[0].seqNum + |s.data[0].payload| >= isn + 1 + |s.delivered|)
    && (forall x :: x in s.early ==> InWindow(x, isn, |s.delivered|))
  }

  /** The ring stands for the stream up to cumReadNXT, which is the end of a segment. */
  ghost predicate RecvAt(r: Recv, unacked: map<nat, nat>, stream: seq<Byte>, isn: nat, d: nat) {
    && r.base == isn && isn < r.cum <= isn + 1 + |stream| && (r.cum == isn + 1 || r.cum in unacked)
    && Represents(r, stream[..r.cum - isn - 1], d)
  }

  ghost predicate Queue(early: multiset<Seg>, unacked: map<nat, nat>, stream: seq<Byte>, isn: nat) {
    forall x :: x in early ==> Whole(x, unacked, stream, isn)
  }

  ghost predicate RecvInv(s: State, isn: nat) {
    && RecvAt(s.recv, s.tx.unacked, s.stream, isn, |s.delivered|)
    && |s.delivered| <= |s.stream| && s.delivered == s.stream[..|s.delivered|]
    && Queue(s.early, s.tx.unacked, s.stream, isn)
  }

  ghost predicate BothInv(s: State, isn: nat) {
    SendInv(s, isn) && RecvInv(s, isn)
  }

  // ---------- Receiving ----------

  /** The next expected segment. */
  lemma NextRecv(r: Recv, unacked: map<nat, nat>, stream: seq<Byte>, isn: nat, d: nat, f: Seg)
    requires RecvAt(r, unacked, stream, isn, d) && Whole(f, unacked, stream, isn) && f.seqNum == r.cum && isn + 1 + |stream| < UINT32
    requires InWindow(f, isn, d)
    ensures RecvAt(Insert(r, f.seqNum, f.payload), unacked, stream, isn, d)
  {
    var k, e := r.cum - isn - 1, r.cum + |f.payload| - isn - 1;
    NextPiece(stream, k, e, f.payload);
    NextAccepted(r, stream, k, e, d, f.payload);
    InsertNumbers(r, r.cum, f.payload, e);
    RecvFrom(Insert(r, r.cum, f.payload), unacked, stream, isn, d, e);
  }

  lemma RecvFrom(r: Recv, unacked: map<nat, nat>, stream: seq<Byte>, isn: nat, d: nat, e: nat)
    requires r.base == isn && r.cum == isn + 1 + e && e <= |stream| && r.cum in unacked && Represents(r, stream[..e], d)
    ensures RecvAt(r, unacked, stream, isn, d)
  {
  }

  lemma NextPiece(stream: seq<Byte>, k: nat, e: nat, payload: seq<Byte>)
    requires k <= e <= |stream| && payload == stream[k..e]
    ensures stream[..k] + payload == stream[..e]
  {
  }

  lemma NextAccepted(r: Recv, stream: seq<Byte>, k: nat, e: nat, d: nat, payload: seq<Byte>)
    requires k <= e <= |stream| && stream[..k] + payload == stream[..e] && r.base + 1 + e < UINT32
    requires Represents(r, stream[..k], d) && e - d < WINDOW_SIZE
    ensures Represents(Insert(r, r.cum, payload), stream[..e], d)
  {
    assert |stream[..k]| == k && |stream[..e]| == e;
    BufferedPlusWindow(r, stream[..k], d);
    InsertNext(r, stream[..k], d, payload);
  }

  /** An older segment: cumReadNXT, which ends a segment, is not inside it. */
  lemma OlderRecv(r: Recv, unacked: map<nat, nat>, stream: seq<Byte>, isn: nat, d: nat, f: Seg)
    requires RecvAt(r, unacked, stream, isn, d) && Whole(f, unacked, stream, isn) && f.seqNum < r.cum && isn + 1 + |stream| < UINT32
    requires |f.payload| <= r.Free() && f.seqNum + |f.payload| >= isn + 1 + d
    ensures RecvAt(Insert(r, f.seqNum, f.payload), unacked, stream, isn, d)
  {
    var k, e := r.cum - isn - 1, f.seqNum + |f.payload| - isn - 1;
    OlderSegmentIff(r, stream[..k], d, f.seqNum, f.payload, e);
    assert stream[..k][..e] == stream[..e];
    InsertNumbers(r, f.seqNum, f.payload, e);
    RecvFrom(Insert(r, f.seqNum, f.payload), unacked, stream, isn, d, e);
  }

  /** A segment that is not early and fits. */
  lemma InsertRecv(r: Recv, unacked: map<nat, nat>, stream: seq<Byte>, isn: nat, d: nat, f: Seg)
    requires RecvAt(r, unacked, stream, isn, d) && Whole(f, unacked, stream, isn) && f.seqNum <= r.cum && isn + 1 + |stream| < UINT32
    requires |f.payload| <= r.Free() && f.seqNum + |f.payload| >= isn + 1 + d
    ensures RecvAt(Insert(r, f.seqNum, f.payload), unacked, stream, isn, d)
  {
    if f.seqNum == r.cum {
      BufferedPlusWindow(r, stream[..r.cum - isn - 1], d);
      NextRecv(r, unacked, stream, isn, d, f);
    } else {
      OlderRecv(r, unacked, stream, isn, d, f);
    }
  }

  lemma {:induction false} DrainRecv(r: Recv, early: multiset<Seg>, r': Recv, early': multiset<Seg>,
                                     unacked: map<nat, nat>, stream: seq<Byte>, isn: nat, d: nat)
    requires RecvAt(r, unacked, stream, isn, d) && Drains(r, early, r', early') && isn + 1 + |stream| < UINT32
    requires Queue(early, unacked, stream, isn) && forall x :: x in early ==> InWindow(x, isn, d)
    ensures RecvAt(r', unacked, stream, isn, d) && early' <= early
    decreases |early|
  {
    if !Beyond(r, early) {
      var x := Drained(r, early, r', early');
      var rest := early - multiset{x};
      if x.seqNum < r.cum {
        DrainRecv(r, rest, r', early', unacked, stream, isn, d);
      } else {
        NextRecv(r, unacked, stream, isn, d, x);
        DrainRecv(Insert(r, x.seqNum, x.payload), rest, r', early', unacked, stream, isn, d);
      }
    }
  }

  ghost predicate Beyond(r: Recv, early: multiset<Seg>) {
    forall x :: x in early ==> x.seqNum > r.cum
  }

  /** The segment that comes off the queue next. */
  lemma Drained(r: Recv, early: multiset<Seg>, r': Recv, early': multiset<Seg>) returns (x: Seg)
    requires r.Valid() && Drains(r, early, r', early') && !Beyond(r, early)
    ensures x in early && x.seqNum <= r.cum
    ensures var rest := early - multiset{x};
            if x.seqNum < r.cum then Drains(r, rest, r', early') else Drains(Insert(r, x.seqNum, x.payload), rest, r', early')
  {
    x :| Earliest(x, early) &&
      var rest := early - multiset{x};
      if x.seqNum < r.cum then Drains(r, rest, r', early') else Drains(Insert(r, x.seqNum, x.payload), rest, r', early');
  }

  lemma DeliverBoth(s: State, s': State, isn: nat)
    requires BothInv(s, isn) && Valid(s) && DataDelivered(s, s') && Fits(s, isn)
    ensures RecvInv(s', isn)
  {
    var f := s.data[0];
    assert f in s.data && Whole(f, s.tx.unacked, s.stream, isn);
    if f.seqNum <= s.recv.cum && s.recv.Free() > 0 {
      InsertRecv(s.recv, s.tx.unacked, s.stream, isn, |s.delivered|, f);
      DrainRecv(Insert(s.recv, f.seqNum, f.payload), s.early, s'.recv, s'.early, s.tx.unacked, s.stream, isn, |s.delivered|);
    }
  }

  // ---------- Reading, writing and sending ----------

  lemma ReadBoth(s: State, n: nat, s': State, isn: nat)
    requires RecvInv(s, isn) && Valid(s) && BytesRead(s, n, s')
    ensures RecvInv(s', isn)
  {
    var r, d := s.recv.cum - isn - 1, |s.delivered|;
    var k := Min(r - d, n);
    ReadOldest(s.recv, s.stream[..r], d, n);
    ReadOn(s.stream, r, d, k);
  }

  lemma ReadOn(stream: seq<Byte>, r: nat, d: nat, k: nat)
    requires d + k <= r <= |stream|
    ensures stream[..d] + stream[..r][d..d + k] == stream[..d + k]
  {
    SliceOfSlice(stream, 0, r, d, d + k);
  }

  /** The stream and the acknowledgement numbers may grow, the latter only upwards. */
  lemma RecvLater(s: State, s': State, isn: nat)
    requires RecvInv(s, isn) && s'.recv == s.recv && s'.delivered == s.delivered && s'.early == s.early
    requires s.stream <= s'.stream && s.tx.unacked.Keys <= s'.tx.unacked.Keys
    requires forall k :: k in s'.tx.unacked && k !in s.tx.unacked ==> forall j :: j in s.tx.unacked ==> j < k
    ensures RecvInv(s', isn)
  {
    var r := s.recv.cum - isn - 1;
    assert s'.stream[..r] == s.stream[..r];
    forall x | x in s'.early ensures Whole(x, s'.tx.unacked, s'.stream, isn) {
      WholeLater(x, s.tx.unacked, s'.tx.unacked, s.stream, s'.stream, isn);
    }
  }

  lemma SendBoth(s: State, s': State, isn: nat)
    requires BothInv(s, isn) && SegmentSent(s, s')
    ensures RecvInv(s', isn)
  {
    if !s.tx.locked {
      var s0 := Active(s, isn);
      TailFresh(s.tx, s.thread.sl, s.stream, s.handed, isn, s0);
    }
    RecvLater(s, s', isn);
  }

  lemma AckBoth(s: State, s': State, isn: nat)
    requires BothInv(s, isn) && AckTaken(s, s')
    ensures RecvInv(s', isn)
  {
    assert s.ackChan[0] in s.ackChan;
    AckKeys(s.tx, s.ackChan[0].num, s.ackChan[0].window);
    RecvLater(s, s', isn);
  }

  // ---------- Whole runs ----------

  lemma StepBoth(s: State, ev: Event, s': State, isn: nat)
    requires BothInv(s, isn) && Valid(s) && isn + 1 + |s'.stream| < UINT32 && Step(s, ev, s') && (ev == DeliverData ==> Fits(s, isn))
    ensures BothInv(s', isn)
  {
    StepSend(s, ev, s', isn);
    match ev
    case SendStep => SendBoth(s, s', isn);
    case AckStep => AckBoth(s, s', isn);
    case DeliverData => DeliverBoth(s, s', isn);
    case ReadStep(n) => ReadBoth(s, n, s', isn);
    case _ => RecvLater(s, s', isn);
  }

  lemma {:induction false} RunBoth(states: seq<State>, events: seq<Event>, isn: nat, i: nat)
    requires AnyRun(states, events, isn) && i < |states|
    requires forall j :: 0 <= j < i && events[j] == DeliverData ==> Fits(states[j], isn)
    ensures BothInv(states[i], isn)
  {
    if i == 0 {
      InitSend(states[0], isn);
      assert states[0].stream[..0] == [];
    } else {
      RunBoth(states, events, isn, i - 1);
      StepBoth(states[i - 1], events[i - 1], states[i], isn);
    }
  }

  /**
   In every run in which each delivered segment fits, whatever the windows, losses, cuts,
   resends and queued segments: the bytes of all reads are a prefix of the bytes of all
   writes, and the receive ring stands for the accepted part of the stream.
   */
  lemma PrefixWhileFitting(states: seq<State>, events: seq<Event>, isn: nat, i: nat)
    requires AnyRun(states, events, isn) && i < |states|
    requires forall j :: 0 <= j < i && events[j] == DeliverData ==> Fits(states[j], isn)
    ensures states[i].delivered <= states[i].stream <= states[i].requested
    ensures var s := states[i]; isn < s.recv.cum <= isn + 1 + |s.stream| && Represents(s.recv, s.stream[..s.recv.cum - isn - 1], |s.delivered|)
  {
    RunBoth(states, events, isn, i);
    var s := states[i];
    assert s.requested == s.stream + s.todo;
  }

  /** A standing reserve of one maximal segment is one way to meet the condition. */
  lemma RoomyFits(states: seq<State>, events: seq<Event>, isn: nat, i: nat)
    requires Run(states, events, isn) && i < |states|
    ensures Fits(states[i], isn)
  {
    RunInv(states, events, isn, i);
    var s := states[i];
    if s.data != [] {
      assert s.data[0] in s.data;
    }
  }
}
