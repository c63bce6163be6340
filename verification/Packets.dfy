/**
 Packet assembly and acceptance: makePacket fills in the header checksum, handlePackets
 recomputes it.  A packet is accepted exactly when its stored checksum is not zero.
 */
module Packets {
  import opened Ring
  import opened Ipv4

  // ---------- Ones' complement sums (RFC 1071) ----------

  /** Sum of big-endian 16-bit words; a last odd byte counts as a high byte. */
  ghost function WordSum(b: seq<Byte>): (n: nat) {
    if b == [] then 0
    else if |b| == 1 then b[0] as int * 0x100
    else Word(b, 0) + WordSum(b[2..])
  }

  /** Carries folded back twice. */
  function Fold(v: nat): (r: nat)
    ensures r < 0x1_0000
  {
    var w := v % 0x1_0000 + v / 0x1_0000;
    (w + w / 0x1_0000) % 0x1_0000
  }

  ghost function Checksum(b: seq<Byte>, initial: nat): (c: nat)
    ensures c < 0x1_0000
  {
    Fold(WordSum(b) + initial)
  }

  lemma {:induction false} WordSumConcat(a: seq<Byte>, b: seq<Byte>)
    requires |a| % 2 == 0
    ensures WordSum(a + b) == WordSum(a) + WordSum(b)
    decreases |a|
  {
    if a == [] {
      assert a + b == b;
    } else {
      assert (a + b)[2..] == a[2..] + b;
      WordSumConcat(a[2..], b);
    }
  }

  lemma {:induction false} WordSumBound(b: seq<Byte>)
    requires |b| % 2 == 0
    ensures WordSum(b) <= |b| * 0x8000
    decreases |b|
  {
    if b != [] {
      WordSumBound(b[2..]);
    }
  }

  /** Folding keeps the value modulo 0xffff and yields zero only for zero. */
  lemma FoldResidue(v: nat)
    requires v < 0x1_0000_0000
    ensures Fold(v) % 0xffff == v % 0xffff && (Fold(v) == 0 <==> v == 0)
  {
    var a, b := v / 0x1_0000, v % 0x1_0000;
    var w := a + b;
    assert v == w + 0xffff * a;
    Residue(w, a);
    if w >= 0x1_0000 {
      assert Fold(v) == w - 0xffff;
      Residue(w - 0xffff, 1);
    }
  }

  lemma Residue(x: int, k: int)
    ensures (x + 0xffff * k) % 0xffff == x % 0xffff
  {
    var q := x / 0xffff;
    assert x + 0xffff * k == 0xffff * (q + k) + x % 0xffff;
    Quotient(q + k, x % 0xffff);
  }

  lemma Quotient(q: int, r: int)
    requires 0 <= r < 0xffff
    ensures (0xffff * q + r) % 0xffff == r
  {
  }

  // ---------- makePacket ----------

  /** The header makePacket fills in; no options, no fragmentation. */
  function Plain(src: seq<Byte>, dst: seq<Byte>, protocol: nat, ttl: nat, length: nat, checksum: nat): (h: Header) {
    Header(4, HEADER_LEN, 0, HEADER_LEN + length, 0, 0, 0, ttl, protocol, checksum, src, dst, [])
  }

  ghost function StoredChecksum(src: seq<Byte>, dst: seq<Byte>, protocol: nat, ttl: nat, length: nat): (c: nat)
    requires Is4(src) && Is4(dst)
    ensures c < 0x1_0000
  {
    0xffff - Checksum(HeaderBytes(Plain(src, dst, protocol, ttl, length, 0)), 0)
  }

  ghost function MakePacket(src: seq<Byte>, dst: seq<Byte>, protocol: nat, ttl: nat, data: seq<Byte>): (b: seq<Byte>)
    requires Is4(src) && Is4(dst)
  {
    HeaderBytes(Plain(src, dst, protocol, ttl, |data|, StoredChecksum(src, dst, protocol, ttl, |data|))) + data
  }

  /** Arguments that fit their header fields. */
  ghost predicate Sendable(src: seq<Byte>, dst: seq<Byte>, protocol: nat, ttl: nat, data: seq<Byte>) {
    Is4(src) && Is4(dst) && protocol < 0x100 && ttl < 0x100 && HEADER_LEN + |data| < 0x1_0000
  }

  /** The receiver's test of a buffer. */
  ghost predicate ChecksumOk(b: seq<Byte>)
    requires Parsed(b).Ok?
  {
    var h := Parsed(b).value;
    h.len <= |b| && Checksum(b[..h.len], h.checksum) == h.checksum
  }

  /** Two headers that differ in the checksum field only. */
  lemma ChecksumField(h: Header, c: nat)
    requires Is4(h.src) && Is4(h.dst) && h.options == [] && c < 0x1_0000
    ensures var g, z := HeaderBytes(h.(checksum := c)), HeaderBytes(h.(checksum := 0));
            |g| == |z| == HEADER_LEN && g[..10] == z[..10] && g[12..] == z[12..] && g[10] == Hi(c) && g[11] == Lo(c) && z[10] == z[11] == 0 && z[0] == 0x45
  {
  }

  lemma SumDiffers(g: seq<Byte>, z: seq<Byte>, c: nat)
    requires |g| == |z| == HEADER_LEN && g[..10] == z[..10] && g[12..] == z[12..] && c < 0x1_0000
    requires g[10] == Hi(c) && g[11] == Lo(c) && z[10] == z[11] == 0
    ensures WordSum(g) == WordSum(z) + c
  {
    var front, back := z[..10], z[12..];
    assert g == front + ([Hi(c), Lo(c)] + back) && z == front + ([0, 0] + back);
    WordSumMiddle(front, Hi(c), Lo(c), back);
    WordSumMiddle(front, 0, 0, back);
    WordBytes(c);
  }

  lemma WordSumMiddle(front: seq<Byte>, x: Byte, y: Byte, back: seq<Byte>)
    requires |front| % 2 == 0
    ensures WordSum(front + ([x, y] + back)) == WordSum(front) + (x as int * 0x100 + y as int) + WordSum(back)
  {
    WordSumConcat(front, [x, y] + back);
    WordSumConcat([x, y], back);
    SumOfTwo(x, y);
  }

  /** Storing a checksum adds it to the header's sum. */
  lemma SumWithChecksum(h: Header, c: nat)
    requires Is4(h.src) && Is4(h.dst) && h.options == [] && c < 0x1_0000
    ensures WordSum(HeaderBytes(h.(checksum := c))) == WordSum(HeaderBytes(h.(checksum := 0))) + c
    ensures 0 < WordSum(HeaderBytes(h.(checksum := 0))) <= HEADER_LEN * 0x8000
  {
    var g, z := HeaderBytes(h.(checksum := c)), HeaderBytes(h.(checksum := 0));
    ChecksumField(h, c);
    SumDiffers(g, z, c);
    WordSumBound(z);
    assert Word(z, 0) > 0;
  }

  lemma SumOfTwo(x: Byte, y: Byte)
    ensures WordSum([x, y]) == x as int * 0x100 + y as int
  {
    assert [x, y][2..] == [];
  }

  lemma ComplementResidue(s: nat, f: nat, c: nat)
    requires f % 0xffff == s % 0xffff && c == 0xffff - f
    ensures (s + c + c) % 0xffff == c % 0xffff
  {
    var q, k := s / 0xffff, f / 0xffff;
    assert s + c + c == c + 0xffff * (q + 1 - k);
    Residue(c, q + 1 - k);
  }

  /** The arithmetic of the test: with complement c of sum s, folding s + 2c gives c unless c is zero. */
  lemma ComplementTest(s: nat, c: nat)
    requires 0 < s <= HEADER_LEN * 0x8000 && c == 0xffff - Fold(s)
    ensures Fold(s + c + c) == c <==> c != 0
  {
    var f, g := Fold(s), Fold(s + c + c);
    FoldResidue(s);
    FoldResidue(s + c + c);
    ComplementResidue(s, f, c);
    SameResidue(g, c);
  }

  /** Two values in range with one residue differ only as 0 and 0xffff do. */
  lemma SameResidue(g: nat, c: nat)
    requires g < 0x1_0000 && c < 0xffff && g % 0xffff == c % 0xffff
    ensures g == c || (c == 0 && g == 0xffff)
  {
  }

  /** The header of a made packet comes back field by field. */
  lemma MadePacketParses(src: seq<Byte>, dst: seq<Byte>, protocol: nat, ttl: nat, data: seq<Byte>)
    requires Sendable(src, dst, protocol, ttl, data)
    ensures var b := MakePacket(src, dst, protocol, ttl, data);
            && Parsed(b) == Ok(Plain(src, dst, protocol, ttl, |data|, StoredChecksum(src, dst, protocol, ttl, |data|)))
            && |b| == HEADER_LEN + |data| && b[HEADER_LEN..] == data
  {
    var h := Plain(src, dst, protocol, ttl, |data|, StoredChecksum(src, dst, protocol, ttl, |data|));
    RoundTripInRange(h, data);
    assert (HeaderBytes(h) + data)[HEADER_LEN..] == data;
  }

  /** A packet from makePacket passes the receiver's test if and only if its stored checksum is not zero. */
  lemma AcceptedIff(src: seq<Byte>, dst: seq<Byte>, protocol: nat, ttl: nat, data: seq<Byte>)
    requires Sendable(src, dst, protocol, ttl, data)
    ensures Parsed(MakePacket(src, dst, protocol, ttl, data)).Ok?
    ensures ChecksumOk(MakePacket(src, dst, protocol, ttl, data)) <==> StoredChecksum(src, dst, protocol, ttl, |data|) != 0
  {
    var c := StoredChecksum(src, dst, protocol, ttl, |data|);
    var h := Plain(src, dst, protocol, ttl, |data|, c);
    var b := MakePacket(src, dst, protocol, ttl, data);
    MadePacketParses(src, dst, protocol, ttl, data);
    assert b[..HEADER_LEN] == HeaderBytes(h);
    SumWithChecksum(h, c);
    assert h.(checksum := 0) == Plain(src, dst, protocol, ttl, |data|, 0) && h.(checksum := c) == h;
    ComplementTest(WordSum(HeaderBytes(h.(checksum := 0))), c);
  }

  lemma SumsToOnes(src: seq<Byte>, dst: seq<Byte>)
    requires src == [10, 0, 0, 1] && dst == [10, 0, 150, 30]
    ensures WordSum(HeaderBytes(Plain(src, dst, 200, 16, 4, 0))) == 0xffff
  {
    var front, back: seq<Byte> := [0x45, 0, 0, 24, 0, 0, 0, 0, 16, 200], [0, 0, 10, 0, 0, 1, 10, 0, 150, 30];
    RequestHeader(src, dst, front, back);
    WordSumConcat(front, back);
    FiveWords(front);
    FiveWords(back);
  }

  lemma RequestHeader(src: seq<Byte>, dst: seq<Byte>, front: seq<Byte>, back: seq<Byte>)
    requires src == [10, 0, 0, 1] && dst == [10, 0, 150, 30]
    requires front == [0x45, 0, 0, 24, 0, 0, 0, 0, 16, 200] && back == [0, 0, 10, 0, 0, 1, 10, 0, 150, 30]
    ensures HeaderBytes(Plain(src, dst, 200, 16, 4, 0)) == front + back
  {
  }

  /** Headers whose words add up to 0xffff are never accepted. */
  lemma RejectedWhenOnes(src: seq<Byte>, dst: seq<Byte>, protocol: nat, ttl: nat, data: seq<Byte>)
    requires Sendable(src, dst, protocol, ttl, data)
    requires WordSum(HeaderBytes(Plain(src, dst, protocol, ttl, |data|, 0))) == 0xffff
    ensures Parsed(MakePacket(src, dst, protocol, ttl, data)).Ok? && !ChecksumOk(MakePacket(src, dst, protocol, ttl, data))
  {
    AcceptedIff(src, dst, protocol, ttl, data);
    FoldOnes(0xffff);
  }

  lemma FoldOnes(v: nat)
    requires v == 0xffff
    ensures Fold(v) == 0xffff
  {
  }

  /** One such packet: the start-up request from 10.0.0.1 to its RIP neighbour 10.0.150.30. */
  lemma NeverAccepted(src: seq<Byte>, dst: seq<Byte>, protocol: nat, ttl: nat, data: seq<Byte>)
    requires src == [10, 0, 0, 1] && dst == [10, 0, 150, 30] && protocol == 200 && ttl == 16 && data == [0, 1, 0, 0]
    ensures Parsed(MakePacket(src, dst, protocol, ttl, data)).Ok? && !ChecksumOk(MakePacket(src, dst, protocol, ttl, data))
  {
    SumsToOnes(src, dst);
    RejectedWhenOnes(src, dst, protocol, ttl, data);
  }

  lemma FiveWords(b: seq<Byte>)
    requires |b| == 10
    ensures WordSum(b) == Word(b, 0) + Word(b, 2) + Word(b, 4) + Word(b, 6) + Word(b, 8)
  {
    var b1 := b[2..];
    var b2 := b1[2..];
    var b3 := b2[2..];
    var b4 := b3[2..];
    assert b4[2..] == [];
    assert WordSum(b4) == Word(b4, 0) == Word(b, 8);
    assert WordSum(b3) == Word(b3, 0) + WordSum(b4) && Word(b3, 0) == Word(b, 6);
    assert WordSum(b2) == Word(b2, 0) + WordSum(b3) && Word(b2, 0) == Word(b, 4);
    assert WordSum(b1) == Word(b1, 0) + WordSum(b2) && Word(b1, 0) == Word(b, 2);
  }
}
