/**
 Circular buffers of WINDOW_SIZE bytes.  Byte i of a connection's stream lives at ring
 index (1+i) mod WINDOW_SIZE, because both buffers start with the index of the first
 byte equal to 1.
 */
module Ring {

  type Byte = b: int | 0 <= b < 256

  const WINDOW_SIZE: nat := 0x1_0000
  const UINT32: nat := 0x1_0000_0000

  function Min(a: int, b: int): (m: int) {
    if a < b then a else b
  }

  /** a - b in uint32 arithmetic, then modulo the ring size. */
  function Dist(a: int, b: int): (d: nat)
    ensures d < WINDOW_SIZE
  {
    (a - b) % WINDOW_SIZE
  }

  /** Ring index of stream byte i. */
  function Idx(i: nat): (x: nat)
    ensures x < WINDOW_SIZE
  {
    (1 + i) % WINDOW_SIZE
  }

  /** The ring after `data` is copied in at `at`, wrapping at the end. */
  function Put(buf: seq<Byte>, at: nat, data: seq<Byte>): (r: seq<Byte>)
    requires |buf| == WINDOW_SIZE && at < WINDOW_SIZE
    ensures |r| == WINDOW_SIZE
    ensures forall j :: 0 <= j < WINDOW_SIZE ==> r[j] == if Dist(j, at) < |data| then data[Dist(j, at)] else buf[j]
  {
    seq(WINDOW_SIZE, j requires 0 <= j < WINDOW_SIZE => if Dist(j, at) < |data| then data[Dist(j, at)] else buf[j])
  }

  /** The n bytes of the ring from `at` on, wrapping at the end. */
  function Get(buf: seq<Byte>, at: nat, n: nat): (r: seq<Byte>)
    requires |buf| == WINDOW_SIZE && at < WINDOW_SIZE
    ensures |r| == n
    ensures forall k :: 0 <= k < n ==> r[k] == buf[(at + k) % WINDOW_SIZE]
  {
    seq(n, k requires 0 <= k < n => buf[(at + k) % WINDOW_SIZE])
  }

  /** The ring stores bytes [from, to) of the stream. */
  ghost predicate Holds(buf: seq<Byte>, stream: seq<Byte>, from: nat, to: nat) {
    && |buf| == WINDOW_SIZE
    && from <= to <= |stream|
    && forall i :: from <= i < to ==> buf[Idx(i)] == stream[i]
  }

  /** Ring distance of two stream bytes less than one ring apart. */
  lemma IdxDist(i: nat, j: nat)
    requires j <= i < j + WINDOW_SIZE
    ensures Dist(Idx(i), Idx(j)) == i - j
  {
  }

  lemma IdxDistBack(i: nat, j: nat)
    requires i < j <= i + WINDOW_SIZE
    ensures Dist(Idx(i), Idx(j)) == WINDOW_SIZE - (j - i)
  {
  }

  lemma ModAdd(a: int, k: int)
    ensures (a % WINDOW_SIZE + k) % WINDOW_SIZE == (a + k) % WINDOW_SIZE
  {
    var q := a / WINDOW_SIZE;
    assert a + k == q * WINDOW_SIZE + (a % WINDOW_SIZE + k);
  }

  /** Copying in at the end of what is stored, within one ring, extends it. */
  lemma PutExtends(buf: seq<Byte>, stream: seq<Byte>, from: nat, data: seq<Byte>)
    requires Holds(buf, stream, from, |stream|) && |stream| - from + |data| <= WINDOW_SIZE
    ensures Holds(Put(buf, Idx(|stream|), data), stream + data, from, |stream| + |data|)
  {
    var to := |stream|;
    forall i | from <= i < to + |data| ensures Put(buf, Idx(to), data)[Idx(i)] == (stream + data)[i] {
      if i < to {
        IdxDistBack(i, to);
      } else {
        IdxDist(i, to);
      }
    }
  }

  /** Copying in beyond what is stored, within one ring, does not disturb it. */
  lemma PutBeyond(buf: seq<Byte>, stream: seq<Byte>, from: nat, to: nat, data: seq<Byte>)
    requires Holds(buf, stream, from, to) && to - from + |data| <= WINDOW_SIZE
    ensures Holds(Put(buf, Idx(to), data), stream, from, to)
  {
    forall i | from <= i < to ensures Put(buf, Idx(to), data)[Idx(i)] == stream[i] {
      IdxDistBack(i, to);
    }
  }

  lemma GetHolds(buf: seq<Byte>, stream: seq<Byte>, from: nat, to: nat, n: nat)
    requires Holds(buf, stream, from, to) && n <= to - from
    ensures Get(buf, Idx(from), n) == stream[from..from + n]
  {
    forall k | 0 <= k < n ensures Get(buf, Idx(from), n)[k] == stream[from + k] {
      ModAdd(1 + from, k);
    }
  }
}
