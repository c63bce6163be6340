/**
 The send buffer: VWrite copies a message into the ring chunk by chunk and hands the
 new LBW to the sender thread, which copies the chunk out again.
 */
module WriteBuffers {
  import opened Ring

  /** MaxMessageSize less the IP and TCP headers. */
  const CHUNK: nat := 1360

  datatype WRing = WRing(buf: seq<Byte>, una: nat, nxt: nat, lbw: nat) {
    ghost predicate Valid() {
      |buf| == WINDOW_SIZE && una < WINDOW_SIZE && nxt < WINDOW_SIZE && lbw < WINDOW_SIZE
    }
  }

  /** Room as VWrite computes it: to the end of the ring for the first chunk of a message, around it later. */
  function Space(una: nat, lbw: nat, newMessage: bool): (k: int) {
    if newMessage then WINDOW_SIZE - 1 - lbw else Dist(una - 1, lbw)
  }

  function ChunkSize(una: nat, lbw: nat, left: nat, newMessage: bool): (k: int)
    ensures k <= left && k <= CHUNK
    ensures lbw < WINDOW_SIZE ==> k >= 0
  {
    Min(Min(left, Space(una, lbw, newMessage)), CHUNK)
  }

  ghost function AfterWrite(w: WRing, data: seq<Byte>): (w': WRing)
    requires w.Valid()
    ensures w'.Valid()
  {
    w.(buf := Put(w.buf, (w.lbw + 1) % WINDOW_SIZE, data), lbw := (w.lbw + |data|) % WINDOW_SIZE)
  }

  /** What the sender thread copies out after receiving `lbw` from the channel. */
  ghost function Outgoing(w: WRing, lbw: nat): (payload: seq<Byte>)
    requires w.Valid()
  {
    Get(w.buf, w.nxt, Dist(lbw + 1, w.nxt))
  }

  // ---------- The stream it carries ----------

  /** All of `stream` was written, its first `a` bytes are acknowledged and its first `s` bytes are sent. */
  ghost predicate Carrying(w: WRing, stream: seq<Byte>, a: nat, s: nat) {
    && w.Valid() && a <= s <= |stream|
    && Holds(w.buf, stream, a, |stream|)
    && |stream| - a <= 2 * CHUNK
    && w.una == Idx(a) && w.nxt == Idx(s) && w.lbw == |stream| % WINDOW_SIZE
  }

  /** A chunk written while at most one chunk is unacknowledged overwrites no unacknowledged byte. */
  lemma WriteCarries(w: WRing, stream: seq<Byte>, a: nat, s: nat, data: seq<Byte>)
    requires Carrying(w, stream, a, s) && |stream| - a <= CHUNK && |data| <= CHUNK
    ensures Carrying(AfterWrite(w, data), stream + data, a, s)
  {
    ModAdd(|stream|, 1);
    ModAdd(|stream|, |data|);
    PutExtends(w.buf, stream, a, data);
  }

  /** What is copied out is exactly what was written between NXT and the handed-over LBW. */
  lemma OutgoingIsChunk(w: WRing, stream: seq<Byte>, a: nat, s: nat, h: nat)
    requires Carrying(w, stream, a, s) && s <= h <= |stream|
    ensures Outgoing(w, h % WINDOW_SIZE) == stream[s..h]
  {
    ModAdd(h, 1);
    assert Dist(h % WINDOW_SIZE + 1, w.nxt) == h - s by {
      IdxDist(h, s);
      ModAdd(h, 1 - w.nxt);
      var back: int := w.nxt;
      ModAdd(1 + h, -back);
    }
    HoldsFrom(w.buf, stream, a, s);
    GetHolds(w.buf, stream, s, |stream|, h - s);
  }

  lemma HoldsFrom(buf: seq<Byte>, stream: seq<Byte>, a: nat, s: nat)
    requires Holds(buf, stream, a, |stream|) && a <= s <= |stream|
    ensures Holds(buf, stream, s, |stream|)
  {
  }

  // ---------- The buffer itself ----------

  class WriteBuffer {
    var buffer: array<Byte>
    var UNA: nat
    var NXT: nat
    var LBW: nat

    ghost function Abs(): (w: WRing)
      reads this, buffer
    {
      WRing(buffer[..], UNA, NXT, LBW)
    }

    ghost predicate Valid()
      reads this, buffer
    {
      Abs().Valid()
    }

    constructor ()
      ensures Valid() && fresh(buffer) && Carrying(Abs(), [], 0, 0)
    {
      buffer := new Byte[WINDOW_SIZE](_ => 0);
      UNA, NXT, LBW := 1, 1, 0;
    }

    /** Copies a chunk in behind LBW, in two parts where the ring wraps. */
    method CopyAround(data: seq<Byte>)
      requires Valid() && |data| <= CHUNK
      modifies buffer
      ensures buffer[..] == Put(old(buffer[..]), (LBW + 1) % WINDOW_SIZE, data)
    {
      var firstSeg := Min(WINDOW_SIZE - LBW - 1, |data|);
      ghost var was := buffer[..];
      CopySegment(LBW + 1, data[..firstSeg]);
      CopySegment(0, data[firstSeg..]);
      TwoSegments(was, LBW, data, firstSeg, buffer[..]);
    }

    method Room(newMessage: bool) returns (space: nat)
      requires Valid()
      ensures space == Space(UNA, LBW, newMessage)
    {
      space := if newMessage then WINDOW_SIZE - 1 - LBW else (UNA - 1 - LBW + WINDOW_SIZE) % WINDOW_SIZE;
    }

    /** One round of VWrite's loop; the returned LBW goes into the channel. */
    method WriteChunk(message: seq<Byte>, bytesSent: nat, newMessage: bool) returns (n: nat)
      requires Valid() && bytesSent <= |message|
      modifies this`LBW, buffer
      ensures Valid() && n == ChunkSize(UNA, old(LBW), |message| - bytesSent, newMessage)
      ensures Abs() == AfterWrite(old(Abs()), message[bytesSent..bytesSent + n])
    {
      var space := Room(newMessage);
      n := Min(Min(|message| - bytesSent, space), CHUNK);
      ghost var w := Abs();
      CopyAround(message[bytesSent..bytesSent + n]);
      LBW := (LBW + n) % WINDOW_SIZE;
      assert Abs() == AfterWrite(w, message[bytesSent..bytesSent + n]);
    }

    method CopySegment(at: nat, data: seq<Byte>)
      requires buffer.Length == WINDOW_SIZE && at + |data| <= WINDOW_SIZE
      modifies buffer
      ensures forall j :: 0 <= j < WINDOW_SIZE ==> buffer[j] == if at <= j < at + |data| then data[j - at] else old(buffer[j])
    {
      for i := 0 to |data|
        invariant forall j :: 0 <= j < WINDOW_SIZE ==> buffer[j] == if at <= j < at + i then data[j - at] else old(buffer[j])
      {
        buffer[at + i] := data[i];
      }
    }

    /** The sender thread's copy after it received `lbw`. */
    method CopyOut(lbw: nat) returns (payload: seq<Byte>)
      requires Valid() && lbw < WINDOW_SIZE
      ensures payload == Outgoing(Abs(), lbw)
    {
      var amount := (lbw - NXT + 1 + WINDOW_SIZE) % WINDOW_SIZE;
      var firstSeg := Min(WINDOW_SIZE - NXT, amount);
      var secondSeg := amount - firstSeg;
      payload := buffer[NXT..NXT + firstSeg] + buffer[..secondSeg];
      ghost var w := Abs();
      assert amount == Dist(lbw + 1, NXT);
      assert payload == w.buf[NXT..NXT + firstSeg] + w.buf[..secondSeg];
      OutInPieces(w.buf, NXT, amount, payload);
    }
  }

  lemma OutInPieces(buf: seq<Byte>, nxt: nat, n: nat, pieces: seq<Byte>)
    requires |buf| == WINDOW_SIZE && nxt < WINDOW_SIZE && n < WINDOW_SIZE
    requires var first := Min(WINDOW_SIZE - nxt, n); pieces == buf[nxt..nxt + first] + buf[..n - first]
    ensures pieces == Get(buf, nxt, n)
  {
    var first := Min(WINDOW_SIZE - nxt, n);
    forall k | 0 <= k < n ensures pieces[k] == buf[(nxt + k) % WINDOW_SIZE] {
      assert (nxt + k) % WINDOW_SIZE == if k < first then nxt + k else k - first;
    }
  }

  lemma TwoSegments(was: seq<Byte>, lbw: nat, data: seq<Byte>, first: nat, now: seq<Byte>)
    requires |was| == |now| == WINDOW_SIZE && lbw < WINDOW_SIZE && |data| <= CHUNK
    requires first == Min(WINDOW_SIZE - lbw - 1, |data|)
    requires forall j :: 0 <= j < WINDOW_SIZE ==>
               now[j] == if j < |data| - first then data[first + j] else if lbw + 1 <= j < lbw + 1 + first then data[j - lbw - 1] else was[j]
    ensures now == Put(was, (lbw + 1) % WINDOW_SIZE, data)
  {
    var at := (lbw + 1) % WINDOW_SIZE;
    forall j | 0 <= j < WINDOW_SIZE ensures now[j] == Put(was, at, data)[j] {
      if lbw + 1 <= j {
        assert Dist(j, at) == j - lbw - 1;
      } else {
        assert Dist(j, at) == j + WINDOW_SIZE - lbw - 1;
      }
    }
  }
}
