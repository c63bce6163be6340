/**
 The receive buffer: a ring with the last byte read (LBR), the next byte expected
 (NXT) and the cumulative number cumReadNXT, seen as a queue of bytes.
 */
module ReadBuffers {
  import opened Ring

  /** Value of a receive buffer and of the socket numbers kept beside it. */
  datatype Recv = Recv(buf: seq<Byte>, lbr: nat, nxt: nat, cum: nat, base: nat) {
    ghost predicate Valid() {
      |buf| == WINDOW_SIZE && lbr < WINDOW_SIZE && nxt < WINDOW_SIZE && cum < UINT32 && base < UINT32
    }

    /** The advertised window. */
    function Free(): (w: nat) {
      Dist(lbr, nxt)
    }

    function Buffered(): (k: nat) {
      Dist(nxt - 1, lbr)
    }
  }

  datatype ReadResult = Data(bytes: seq<Byte>) | Waits | SockClosed

  /** A segment copied at NXT; cumReadNXT and NXT are then set from the segment's own numbers. */
  ghost function Insert(r: Recv, seqNum: nat, payload: seq<Byte>): (r': Recv)
    requires r.Valid()
    ensures r'.Valid()
  {
    var cum := (seqNum + |payload|) % UINT32;
    Recv(Put(r.buf, r.nxt, payload), r.lbr, Dist(cum, r.base), cum, r.base)
  }

  /** At most n of the oldest unread bytes. */
  ghost function ReadBytes(r: Recv, n: nat): (b: seq<Byte>)
    requires r.Valid()
  {
    Get(r.buf, (r.lbr + 1) % WINDOW_SIZE, Min(r.Buffered(), n))
  }

  ghost function AfterRead(r: Recv, n: nat): (r': Recv)
    requires r.Valid()
    ensures r'.Valid()
  {
    r.(lbr := (r.lbr + Min(r.Buffered(), n)) % WINDOW_SIZE)
  }

  // ---------- The queue it refines ----------

  /** All of `stream` has been accepted and its first d bytes have been read. */
  ghost predicate Represents(r: Recv, stream: seq<Byte>, d: nat) {
    && r.Valid()
    && Holds(r.buf, stream, d, |stream|)
    && |stream| - d < WINDOW_SIZE
    && r.lbr == d % WINDOW_SIZE
    && r.nxt == Idx(|stream|)
    && r.cum == r.base + 1 + |stream|
  }

  /** Ring index and cumulative number agree, and buffered bytes plus window fill the ring less one. */
  lemma BufferedPlusWindow(r: Recv, stream: seq<Byte>, d: nat)
    requires Represents(r, stream, d)
    ensures r.Buffered() == |stream| - d
    ensures r.Buffered() + r.Free() == WINDOW_SIZE - 1
    ensures r.nxt == Dist(r.cum, r.base)
  {
    var n := |stream| - d;
    ModAdd(d, n + 1);
    assert r.nxt == (r.lbr + n + 1) % WINDOW_SIZE;
  }

  /** The next expected segment is appended. */
  lemma InsertNext(r: Recv, stream: seq<Byte>, d: nat, payload: seq<Byte>)
    requires Represents(r, stream, d) && |payload| <= r.Free() && r.cum + |payload| < UINT32
    ensures Represents(Insert(r, r.cum, payload), stream + payload, d)
  {
    BufferedPlusWindow(r, stream, d);
    PutExtends(r.buf, stream, d, payload);
    InsertNumbers(r, r.cum, payload, |stream + payload|);
  }

  /**
   An older segment that ends at stream byte e takes cumReadNXT back to e.  The buffer then
   still stands for what was accepted up to there if and only if the reader is not past e.
   */
  lemma OlderSegmentIff(r: Recv, stream: seq<Byte>, d: nat, seqNum: nat, payload: seq<Byte>, e: nat)
    requires Represents(r, stream, d) && |payload| <= r.Free() && r.base < seqNum + |payload| <= r.cum
    requires e == seqNum + |payload| - r.base - 1
    ensures Represents(Insert(r, seqNum, payload), stream[..e], d) <==> d <= e
  {
    if d <= e {
      OlderSegmentKeeps(r, stream, d, seqNum, payload, e);
    }
  }

  lemma OlderSegmentKeeps(r: Recv, stream: seq<Byte>, d: nat, seqNum: nat, payload: seq<Byte>, e: nat)
    requires Represents(r, stream, d) && |payload| <= r.Free() && r.base < seqNum + |payload| <= r.cum
    requires e == seqNum + |payload| - r.base - 1 && d <= e
    ensures Represents(Insert(r, seqNum, payload), stream[..e], d)
  {
    BufferedPlusWindow(r, stream, d);
    PutBeyond(r.buf, stream, d, |stream|, payload);
    HoldsPrefix(Put(r.buf, r.nxt, payload), stream, d, e);
    InsertNumbers(r, seqNum, payload, e);
  }

  lemma CumIdx(base: nat, e: nat)
    ensures Dist(base + 1 + e, base) == Idx(e)
  {
  }

  /** The numbers after a segment that ends at stream byte e. */
  lemma InsertNumbers(r: Recv, seqNum: nat, payload: seq<Byte>, e: nat)
    requires r.Valid() && seqNum + |payload| == r.base + 1 + e < UINT32
    ensures var r' := Insert(r, seqNum, payload); r'.cum == r.base + 1 + e && r'.nxt == Idx(e) && r'.lbr == r.lbr && r'.base == r.base
  {
    CumIdx(r.base, e);
  }

  lemma HoldsPrefix(buf: seq<Byte>, stream: seq<Byte>, d: nat, e: nat)
    requires Holds(buf, stream, d, |stream|) && d <= e <= |stream|
    ensures Holds(buf, stream[..e], d, e)
  {
  }

  /** Once the reader is past e, the buffer offers ring bytes that were never accepted after d. */
  lemma OlderSegmentMisleads(r: Recv, stream: seq<Byte>, d: nat, seqNum: nat, payload: seq<Byte>, e: nat)
    requires Represents(r, stream, d) && r.base < seqNum + |payload| <= r.cum
    requires e == seqNum + |payload| - r.base - 1 && e < d < e + WINDOW_SIZE
    ensures Insert(r, seqNum, payload).Buffered() == WINDOW_SIZE - (d - e)
  {
    InsertNumbers(r, seqNum, payload, e);
    DistBack(e, d);
  }

  /** Ring distance from d back to an earlier e. */
  lemma DistBack(e: nat, d: nat)
    requires e < d < e + WINDOW_SIZE
    ensures Dist(Idx(e) - 1, d % WINDOW_SIZE) == WINDOW_SIZE - (d - e)
  {
    ModAdd(1 + e, -1 - d % WINDOW_SIZE);
    var q := d / WINDOW_SIZE;
    assert e - d % WINDOW_SIZE == q * WINDOW_SIZE - (d - e);
  }

  /** An exact repeat of the latest segment leaves accepted and readable bytes as they were. */
  lemma InsertRepeat(r: Recv, stream: seq<Byte>, d: nat, seqNum: nat, payload: seq<Byte>)
    requires Represents(r, stream, d) && |payload| <= r.Free() && seqNum + |payload| == r.cum
    ensures Represents(Insert(r, seqNum, payload), stream, d)
  {
    OlderSegmentIff(r, stream, d, seqNum, payload, |stream|);
    assert stream[..|stream|] == stream;
  }

  /** The next expected segment is accepted as it is if and only if it fits the advertised window. */
  lemma NextSegmentIff(r: Recv, stream: seq<Byte>, d: nat, payload: seq<Byte>)
    requires Represents(r, stream, d) && r.cum + |payload| < UINT32
    ensures Represents(Insert(r, r.cum, payload), stream + payload, d) <==> |payload| <= r.Free()
  {
    BufferedPlusWindow(r, stream, d);
    if |payload| <= r.Free() {
      InsertNext(r, stream, d, payload);
    }
  }

  /** A read returns the oldest bytes in order and leaves the rest. */
  lemma ReadOldest(r: Recv, stream: seq<Byte>, d: nat, n: nat)
    requires Represents(r, stream, d)
    ensures var k := Min(|stream| - d, n);
            ReadBytes(r, n) == stream[d..d + k] && Represents(AfterRead(r, n), stream, d + k)
  {
    var k := Min(|stream| - d, n);
    BufferedPlusWindow(r, stream, d);
    ModAdd(d, k);
    ModAdd(d, 1);
    GetHolds(r.buf, stream, d, |stream|, k);
  }

  // ---------- The buffer itself ----------

  class ReadBuffer {
    var buffer: array<Byte>
    var LBR: nat
    var NXT: nat
    var cumReadNXT: nat
    var baseAck: nat

    ghost predicate Valid()
      reads this, buffer
    {
      Abs().Valid()
    }

    ghost function Abs(): (r: Recv)
      reads this, buffer
    {
      Recv(buffer[..], LBR, NXT, cumReadNXT, baseAck)
    }

    /** As both VConnect and VAccept set it up, for a peer whose SYN carried `isn`. */
    constructor (isn: nat)
      requires isn + 1 < UINT32
      ensures Valid() && fresh(buffer) && baseAck == isn
      ensures Represents(Abs(), [], 0)
    {
      buffer := new Byte[WINDOW_SIZE](_ => 0);
      LBR := 0;
      NXT := 1;
      cumReadNXT := isn + 1;
      baseAck := isn;
    }

    method Window() returns (w: nat)
      requires Valid()
      ensures w == Abs().Free()
    {
      w := (LBR - NXT + WINDOW_SIZE) % WINDOW_SIZE;
    }

    /** One round of the copy loop: as much as fits before the ring wraps. */
    method CopyPart(rest: seq<Byte>, ghost was: seq<Byte>, ghost at: nat, ghost payload: seq<Byte>, ghost done: nat) returns (curr: nat)
      requires buffer.Length == WINDOW_SIZE && NXT < WINDOW_SIZE && |was| == WINDOW_SIZE && at < WINDOW_SIZE
      requires rest != [] && done + |rest| == |payload| <= WINDOW_SIZE && rest == payload[done..]
      requires NXT == (at + done) % WINDOW_SIZE && buffer[..] == Put(was, at, payload[..done])
      modifies this`NXT, buffer
      ensures 0 < curr <= |rest| && NXT == (at + (done + curr)) % WINDOW_SIZE
      ensures buffer[..] == Put(was, at, payload[..done + curr])
    {
      curr := Min(WINDOW_SIZE - NXT, |rest|);
      CopySegment(NXT, rest[..curr]);
      PutSegment(was, at, payload, done, curr);
      ModAdd(at + done, curr);
      NXT := (NXT + curr) % WINDOW_SIZE;
    }

    /** The copy loop of the receiver: at most two rounds, split where the ring wraps. */
    method CopyIn(seqNum: nat, payload: seq<Byte>)
      requires Valid() && |payload| <= WINDOW_SIZE
      modifies this`NXT, this`cumReadNXT, buffer
      ensures Valid() && Abs() == Insert(old(Abs()), seqNum, payload)
    {
      ghost var was, at := buffer[..], NXT;
      var toAdd, rest := |payload|, payload;
      cumReadNXT := (seqNum + |payload|) % UINT32;
      while toAdd > 0
        invariant 0 <= toAdd <= |payload| && rest == payload[|payload| - toAdd..]
        invariant NXT < WINDOW_SIZE && NXT == (at + (|payload| - toAdd)) % WINDOW_SIZE
        invariant cumReadNXT == (seqNum + |payload|) % UINT32
        invariant buffer[..] == Put(was, at, payload[..|payload| - toAdd])
        decreases toAdd
      {
        var curr := CopyPart(rest, was, at, payload, |payload| - toAdd);
        toAdd := toAdd - curr;
        rest := rest[curr..];
      }
      assert payload[..|payload|] == payload;
      NXT := (cumReadNXT - baseAck + WINDOW_SIZE) % WINDOW_SIZE;
    }

    /** copy(buffer[at:at+n], data) without wrap. */
    method CopySegment(at: nat, data: seq<Byte>)
      requires buffer.Length == WINDOW_SIZE && at + |data| <= WINDOW_SIZE
      modifies buffer
      ensures buffer[..] == old(buffer[..at]) + data + old(buffer[at + |data|..])
    {
      for i := 0 to |data|
        invariant buffer[..] == old(buffer[..at]) + data[..i] + old(buffer[at + i..])
      {
        buffer[at + i] := data[i];
      }
    }

    method Pending() returns (k: nat)
      requires Valid()
      ensures k == Abs().Buffered()
    {
      k := (NXT - 1 - LBR + WINDOW_SIZE) % WINDOW_SIZE;
    }

    /** VRead: refused in CLOSE_WAIT and LAST_ACK, which `closing` stands for; otherwise it waits until there is a byte. */
    method VRead(numbytes: nat, closing: bool) returns (r: ReadResult)
      requires Valid()
      modifies this`LBR
      ensures Valid()
      ensures closing ==> r == SockClosed && Abs() == old(Abs())
      ensures !closing && old(Abs()).Buffered() == 0 ==> r == Waits && Abs() == old(Abs())
      ensures !closing && old(Abs()).Buffered() > 0 ==> r == Data(ReadBytes(old(Abs()), numbytes)) && Abs() == AfterRead(old(Abs()), numbytes)
    {
      if closing {
        return SockClosed;
      }
      var numBuf := Pending();
      if numBuf == 0 {
        return Waits;
      }
      var bytes := TakeBytes(numbytes);
      r := Data(bytes);
    }

    /** The oldest bytes, at most `numbytes`, in two pieces where the ring wraps. */
    method TakeBytes(numbytes: nat) returns (toRead: seq<Byte>)
      requires Valid() && Abs().Buffered() > 0
      modifies this`LBR
      ensures Valid()
      ensures toRead == ReadBytes(old(Abs()), numbytes) && Abs() == AfterRead(old(Abs()), numbytes)
    {
      var numBuf := Pending();
      var numRead := Min(numBuf, numbytes);
      var firstSeg := Min(LBR + numRead, WINDOW_SIZE - 1);
      var secondSeg := numRead - (firstSeg - LBR);
      // The first part ends at the end of the ring whenever bytes follow it, so
      // appending them cannot write into the ring behind the first part.
      assert secondSeg == 0 || firstSeg + 1 == WINDOW_SIZE;
      toRead := buffer[LBR + 1..firstSeg + 1] + buffer[0..secondSeg];
      ghost var r := Abs();
      assert toRead == r.buf[r.lbr + 1..firstSeg + 1] + r.buf[0..secondSeg];
      TwoPieces(r.buf, r.lbr, numRead, toRead);
      LBR := (LBR + numRead) % WINDOW_SIZE;
    }
  }

  lemma TwoPieces(buf: seq<Byte>, lbr: nat, n: nat, pieces: seq<Byte>)
    requires |buf| == WINDOW_SIZE && lbr < WINDOW_SIZE && n < WINDOW_SIZE
    requires var first := Min(lbr + n, WINDOW_SIZE - 1); pieces == buf[lbr + 1..first + 1] + buf[0..n - (first - lbr)]
    ensures pieces == Get(buf, (lbr + 1) % WINDOW_SIZE, n)
  {
    var first := Min(lbr + n, WINDOW_SIZE - 1);
    var at := (lbr + 1) % WINDOW_SIZE;
    forall k | 0 <= k < n ensures pieces[k] == buf[(at + k) % WINDOW_SIZE] {
      if k < first - lbr {
        assert (at + k) % WINDOW_SIZE == lbr + 1 + k;
      } else {
        assert (at + k) % WINDOW_SIZE == k - (first - lbr);
      }
    }
  }

  lemma PutSegment(was: seq<Byte>, at: nat, payload: seq<Byte>, done: nat, curr: nat)
    requires |was| == WINDOW_SIZE && at < WINDOW_SIZE && done + curr <= |payload| <= WINDOW_SIZE
    requires var nxt := (at + done) % WINDOW_SIZE; nxt + curr <= WINDOW_SIZE
    ensures var nxt := (at + done) % WINDOW_SIZE;
            var mid := Put(was, at, payload[..done]);
            Put(was, at, payload[..done + curr]) == mid[..nxt] + payload[done..][..curr] + mid[nxt + curr..]
  {
    var nxt := (at + done) % WINDOW_SIZE;
    var mid := Put(was, at, payload[..done]);
    var l := Put(was, at, payload[..done + curr]);
    var r := mid[..nxt] + payload[done..][..curr] + mid[nxt + curr..];
    forall j | 0 <= j < WINDOW_SIZE ensures l[j] == r[j] {
      if nxt <= j < nxt + curr {
        assert Dist(j, at) == done + (j - nxt);
      } else {
        assert Dist(j, at) < done || Dist(j, at) >= done + curr;
      }
    }
  }
}
