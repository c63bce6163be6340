/**
 The RIP wire format: a command, a count, and twelve bytes per entry; prefixes travel as
 an address and a mask, and come back through a bit count and a bitwise AND.
 */
module RipCodec {
  import opened Options
  import opened Ring
  import opened RipCore
  import opened RipNodes

  /** One entry on the wire; all three fields are uint32. */
  datatype RipUpdate = RipUpdate(cost: nat, address: nat, mask: nat)

  datatype RipPacket = RipPacket(command: nat, numEntries: nat, entries: seq<RipUpdate>)

  ghost predicate InRange(p: RipPacket) {
    && p.command < 0x1_0000 && p.numEntries < 0x1_0000
    && forall e :: e in p.entries ==> e.cost < Ring.UINT32 && e.address < Ring.UINT32 && e.mask < Ring.UINT32
  }

  // ---------- Big-endian integers ----------

  function Be16(n: nat): (b: seq<Byte>)
    requires n < 0x1_0000
    ensures |b| == 2
  {
    [n / 0x100, n % 0x100]
  }

  function Be32(n: nat): (b: seq<Byte>)
    requires n < Ring.UINT32
    ensures |b| == 4
  {
    [n / 0x100_0000, n / 0x1_0000 % 0x100, n / 0x100 % 0x100, n % 0x100]
  }

  function Uint16(b: seq<Byte>, at: nat): (n: nat)
    requires at + 2 <= |b|
  {
    b[at] as int * 0x100 + b[at + 1] as int
  }

  function Uint32(b: seq<Byte>, at: nat): (n: nat)
    requires at + 4 <= |b|
  {
    b[at] as int * 0x100_0000 + b[at + 1] as int * 0x1_0000 + b[at + 2] as int * 0x100 + b[at + 3] as int
  }

  lemma Be32RoundTrip(b: seq<Byte>, at: nat, n: nat)
    requires n < Ring.UINT32 && at + 4 <= |b| && b[at..at + 4] == Be32(n)
    ensures Uint32(b, at) == n
  {
    var w := b[at..at + 4];
    assert w[0] == b[at] && w[1] == b[at + 1] && w[2] == b[at + 2] && w[3] == b[at + 3];
    Digits(n);
  }

  lemma Digits(n: nat)
    ensures n == n / 0x100_0000 * 0x100_0000 + n / 0x1_0000 % 0x100 * 0x1_0000 + n / 0x100 % 0x100 * 0x100 + n % 0x100
  {
    var q, h := n / 0x100, n / 0x1_0000;
    assert q / 0x100 == h && h / 0x100 == n / 0x100_0000;
  }

  // ---------- Packets ----------

  function EntryBytes(e: RipUpdate): (b: seq<Byte>)
    requires e.cost < Ring.UINT32 && e.address < Ring.UINT32 && e.mask < Ring.UINT32
    ensures |b| == 12
  {
    Be32(e.cost) + Be32(e.address) + Be32(e.mask)
  }

  /** `b` is the encoding of p: header, then entry i at offset 4 + 12i. */
  ghost predicate Encoding(b: seq<Byte>, p: RipPacket) {
    && InRange(p) && |b| == 4 + 12 * |p.entries|
    && b[..2] == Be16(p.command) && b[2..4] == Be16(p.numEntries)
    && forall i :: 0 <= i < |p.entries| ==> EntryAt(b, p, i)
  }

  ghost predicate EntryAt(b: seq<Byte>, p: RipPacket, i: nat)
    requires InRange(p) && i < |p.entries|
  {
    4 + 12 * i + 12 <= |b| && p.entries[i] in p.entries && b[4 + 12 * i..4 + 12 * i + 12] == EntryBytes(p.entries[i])
  }

  method MarshalRIP(p: RipPacket) returns (b: seq<Byte>)
    requires InRange(p)
    ensures Encoding(b, p)
  {
    b := Be16(p.command) + Be16(p.numEntries);
    for i := 0 to |p.entries|
      invariant |b| == 4 + 12 * i && b[..2] == Be16(p.command) && b[2..4] == Be16(p.numEntries)
      invariant forall k :: 0 <= k < i ==> EntryAt(b, p, k)
    {
      var e := p.entries[i];
      ghost var was := b;
      b := b + Be32(e.cost);
      b := b + Be32(e.address);
      b := b + Be32(e.mask);
      assert b == was + EntryBytes(e);
      forall k | 0 <= k < i + 1 ensures EntryAt(b, p, k) {
        if k < i {
          assert EntryAt(was, p, k);
          assert b[4 + 12 * k..4 + 12 * k + 12] == was[4 + 12 * k..4 + 12 * k + 12];
        }
      }
    }
  }

  /** Long enough for its own count; the program indexes out of bounds otherwise. */
  predicate Complete(message: seq<Byte>) {
    |message| >= 4 && |message| >= 4 + 12 * Uint16(message, 2)
  }

  method ExtractRIP(message: seq<Byte>) returns (r: Option<RipPacket>)
    ensures r.Some? <==> Complete(message)
    ensures r.Some? ==>
              && r.value.command == Uint16(message, 0) && r.value.numEntries == Uint16(message, 2) == |r.value.entries|
              && |message| >= 4 + 12 * |r.value.entries|
              && forall i :: 0 <= i < |r.value.entries| ==>
                   r.value.entries[i] == RipUpdate(Uint32(message, 4 + 12 * i), Uint32(message, 8 + 12 * i), Uint32(message, 12 + 12 * i))
  {
    if |message| < 4 {
      return None;
    }
    var command, numEntries := Uint16(message, 0), Uint16(message, 2);
    var iter := 4;
    var entries: seq<RipUpdate> := [];
    for i := 0 to numEntries
      invariant iter == 4 + 12 * i && |entries| == i && iter <= |message|
      invariant forall k :: 0 <= k < i ==>
                  entries[k] == RipUpdate(Uint32(message, 4 + 12 * k), Uint32(message, 8 + 12 * k), Uint32(message, 12 + 12 * k))
    {
      if iter + 12 > |message| {
        return None;
      }
      entries := entries + [RipUpdate(Uint32(message, iter), Uint32(message, iter + 4), Uint32(message, iter + 8))];
      iter := iter + 12;
    }
    r := Some(RipPacket(command, numEntries, entries));
  }

  lemma EntryRoundTrip(b: seq<Byte>, p: RipPacket, i: nat)
    requires Encoding(b, p) && i < |p.entries|
    ensures p.entries[i] == RipUpdate(Uint32(b, 4 + 12 * i), Uint32(b, 8 + 12 * i), Uint32(b, 12 + 12 * i))
  {
    var at, e := 4 + 12 * i, p.entries[i];
    assert EntryAt(b, p, i);
    var w := b[at..at + 12];
    assert w[0..4] == Be32(e.cost) && w[4..8] == Be32(e.address) && w[8..12] == Be32(e.mask);
    assert b[at..at + 4] == w[0..4] && b[at + 4..at + 8] == w[4..8] && b[at + 8..at + 12] == w[8..12];
    Be32RoundTrip(b, at, e.cost);
    Be32RoundTrip(b, at + 4, e.address);
    Be32RoundTrip(b, at + 8, e.mask);
  }

  /** ExtractRIP undoes MarshalRIP for every packet whose count is its number of entries. */
  method PacketRoundTrip(p: RipPacket) returns (r: Option<RipPacket>)
    requires InRange(p) && p.numEntries == |p.entries|
    ensures r == Some(p)
  {
    var b := MarshalRIP(p);
    assert Uint16(b, 0) == p.command && Uint16(b, 2) == p.numEntries by {
      assert b[..2][0] == b[0] && b[..2][1] == b[1] && b[2..4][0] == b[2] && b[2..4][1] == b[3];
    }
    r := ExtractRIP(b);
    forall i | 0 <= i < |p.entries| ensures r.value.entries[i] == p.entries[i] {
      EntryRoundTrip(b, p, i);
    }
    assert r.value.entries == p.entries;
  }

  // ---------- Prefixes as address and mask ----------

  /** n with k zero bits appended. */
  ghost function Shift(n: nat, k: nat): (r: nat) {
    if k == 0 then n else 2 * Shift(n, k - 1)
  }

  /** b one bits. */
  ghost function Ones(b: nat): (r: nat) {
    if b == 0 then 0 else 2 * Ones(b - 1) + 1
  }

  ghost function Popcount(n: nat): (r: nat) {
    if n == 0 then 0 else n % 2 + Popcount(n / 2)
  }

  function BitAnd(x: nat, y: nat): (r: nat) {
    if x == 0 || y == 0 then 0 else (if x % 2 == 1 && y % 2 == 1 then 1 else 0) + 2 * BitAnd(x / 2, y / 2)
  }

  method CountBits(n: nat) returns (res: nat)
    ensures res == Popcount(n)
  {
    res := 0;
    var num := n;
    while num > 0
      invariant res + Popcount(num) == Popcount(n)
    {
      res := res + num % 2;
      num := num / 2;
    }
  }

  /** The mask of a prefix length: `bits` ones followed by zeros. */
  ghost function CidrMask(bits: nat): (m: nat)
    requires bits <= 32
  {
    Shift(Ones(bits), 32 - bits)
  }

  lemma {:induction false} CountShifted(m: nat, k: nat)
    ensures Popcount(Shift(m, k)) == Popcount(m)
  {
    if k > 0 {
      var half := Shift(m, k - 1);
      CountShifted(m, k - 1);
      assert Shift(m, k) / 2 == half && Shift(m, k) % 2 == 0;
    }
  }

  lemma {:induction false} CountOnes(b: nat)
    ensures Popcount(Ones(b)) == b
  {
    if b > 0 {
      CountOnes(b - 1);
      assert Ones(b) / 2 == Ones(b - 1) && Ones(b) % 2 == 1;
    }
  }

  lemma AndDoubled(x: nat, low: nat, y: nat)
    requires low < 2
    ensures BitAnd(2 * x + low, 2 * y) == 2 * BitAnd(x, y)
  {
    assert (2 * x + low) / 2 == x && (2 * y) / 2 == y && (2 * y) % 2 == 0;
  }

  lemma {:induction false} AndShifted(q: nat, r: nat, m: nat, k: nat)
    requires r < Shift(1, k)
    ensures BitAnd(Shift(q, k) + r, Shift(m, k)) == Shift(BitAnd(q, m), k)
    decreases k
  {
    if k > 0 {
      AndShifted(q, r / 2, m, k - 1);
      AndDoubled(Shift(q, k - 1) + r / 2, r % 2, Shift(m, k - 1));
      assert 2 * (Shift(q, k - 1) + r / 2) + r % 2 == Shift(q, k) + r;
    }
  }

  lemma {:induction false} AndOnes(x: nat, b: nat)
    requires x <= Ones(b)
    ensures BitAnd(x, Ones(b)) == x
  {
    if b > 0 && x > 0 {
      AndOnes(x / 2, b - 1);
      assert Ones(b) / 2 == Ones(b - 1) && Ones(b) % 2 == 1;
    }
  }

  /** q is the network part of p: its bits before the host bits, which are clear. */
  ghost predicate NetworkPart(p: Prefix, q: nat)
    requires p.bits <= 32
  {
    q <= Ones(p.bits) && p.addr == Shift(q, 32 - p.bits)
  }

  /** An address with its host bits cleared. */
  ghost predicate Masked(p: Prefix) {
    p.bits <= 32 && exists q: nat :: NetworkPart(p, q)
  }

  /** What protocol200 makes of an address and a mask. */
  ghost function DecodedPrefix(address: nat, mask: nat): (p: Prefix) {
    Prefix(BitAnd(address, mask), Popcount(mask))
  }

  lemma MaskAnd(x: nat, q: nat, r: nat, b: nat, k: nat, mask: nat)
    requires q <= Ones(b) && r < Shift(1, k) && x == Shift(q, k) + r && mask == Shift(Ones(b), k)
    ensures BitAnd(x, mask) == Shift(q, k)
  {
    AndShifted(q, r, Ones(b), k);
    AndOnes(q, b);
  }

  lemma MaskCount(b: nat, k: nat, mask: nat)
    requires mask == Shift(Ones(b), k)
    ensures Popcount(mask) == b
  {
    CountShifted(Ones(b), k);
    CountOnes(b);
  }

  lemma MaskBack(p: Prefix, q: nat, r: nat, address: nat, mask: nat)
    requires p.bits <= 32 && NetworkPart(p, q) && r < Shift(1, 32 - p.bits)
    requires address == p.addr + r && mask == Shift(Ones(p.bits), 32 - p.bits)
    ensures BitAnd(address, mask) == p.addr && Popcount(mask) == p.bits
  {
    MaskAnd(address, q, r, p.bits, 32 - p.bits, mask);
    MaskCount(p.bits, 32 - p.bits, mask);
  }

  /** Every address inside a masked prefix, sent with that prefix's mask, comes back as the prefix. */
  lemma MaskRoundTrip(p: Prefix, r: nat, address: nat, mask: nat)
    requires Masked(p) && r < Shift(1, 32 - p.bits) && address == p.addr + r && mask == CidrMask(p.bits)
    ensures DecodedPrefix(address, mask) == p
  {
    var q: nat :| NetworkPart(p, q);
    MaskBack(p, q, r, address, mask);
  }

  lemma {:induction false} ShiftGrows(m: nat, n: nat, k: nat)
    requires m < n
    ensures Shift(m, k) < Shift(n, k)
  {
    if k > 0 {
      ShiftGrows(m, n, k - 1);
    }
  }

  lemma {:induction false} OnesBelow(b: nat, k: nat)
    ensures Ones(b) < Shift(1, b) && Shift(Shift(1, b), k) == Shift(1, b + k)
  {
    if b > 0 {
      OnesBelow(b - 1, 0);
    }
    if k > 0 {
      OnesBelow(b, k - 1);
    }
  }

  lemma Shift32()
    ensures Shift(1, 32) == Ring.UINT32
  {
    assert Shift(1, 4) == 0x10 && Shift(1, 8) == 0x100;
    assert Shift(1, 12) == 0x1000 && Shift(1, 16) == 0x1_0000;
    assert Shift(1, 20) == 0x10_0000 && Shift(1, 24) == 0x100_0000;
    assert Shift(1, 28) == 0x1000_0000;
  }

  /** Addresses and masks of masked prefixes fit 32 bits. */
  lemma FitsWord(p: Prefix)
    requires Masked(p)
    ensures p.addr < Ring.UINT32 && CidrMask(p.bits) < Ring.UINT32
  {
    var q: nat :| NetworkPart(p, q);
    var k := 32 - p.bits;
    OnesBelow(p.bits, k);
    Shift32();
    ShiftGrows(q, Shift(1, p.bits), k);
    ShiftGrows(Ones(p.bits), Shift(1, p.bits), k);
  }

  // ---------- Announcements end to end ----------

  ghost function UpdateOf(e: Entry): (u: RipUpdate)
    requires e.prefix.bits <= 32
  {
    RipUpdate(e.wire, e.prefix.addr, CidrMask(e.prefix.bits))
  }

  ghost function EntryOf(u: RipUpdate): (e: Entry) {
    Entry(DecodedPrefix(u.address, u.mask), u.cost)
  }

  lemma UpdateRoundTrip(e: Entry)
    requires Masked(e.prefix)
    ensures EntryOf(UpdateOf(e)) == e
  {
    OnesBelow(32 - e.prefix.bits, 0);
    MaskRoundTrip(e.prefix, 0, e.prefix.addr, CidrMask(e.prefix.bits));
  }

  ghost predicate Sendable(entries: seq<Entry>) {
    |entries| < 0x1_0000 && forall e :: e in entries ==> Masked(e.prefix) && e.wire < Ring.UINT32
  }

  /** The response packet that sendRIP builds. */
  ghost function PacketOf(entries: seq<Entry>): (p: RipPacket)
    requires Sendable(entries)
    ensures |p.entries| == |entries| && InRange(p)
  {
    var updates := seq(|entries|, i requires 0 <= i < |entries| => assert entries[i] in entries; UpdateOf(entries[i]));
    assert forall u :: u in updates ==> u.cost < Ring.UINT32 && u.address < Ring.UINT32 && u.mask < Ring.UINT32 by {
      forall u | u in updates ensures u.cost < Ring.UINT32 && u.address < Ring.UINT32 && u.mask < Ring.UINT32 {
        var i :| 0 <= i < |updates| && updates[i] == u;
        assert entries[i] in entries;
        FitsWord(entries[i].prefix);
      }
    }
    RipPacket(2, |entries|, updates)
  }

  /**
   Every list of masked prefixes with costs is recovered, in order, from any bytes that
   encode it: nothing of an announcement is lost between sendRIP and protocol200.
   */
  lemma AnnouncementRoundTrip(entries: seq<Entry>, b: seq<Byte>, i: nat)
    requires Sendable(entries) && Encoding(b, PacketOf(entries)) && i < |entries|
    ensures Complete(b) && Uint16(b, 2) == |entries| && 4 + 12 * i + 12 <= |b|
    ensures EntryOf(RipUpdate(Uint32(b, 4 + 12 * i), Uint32(b, 8 + 12 * i), Uint32(b, 12 + 12 * i))) == entries[i]
  {
    var p := PacketOf(entries);
    assert b[2..4][0] == b[2] && b[2..4][1] == b[3];
    EntryRoundTrip(b, p, i);
    assert entries[i] in entries;
    UpdateRoundTrip(entries[i]);
  }
}
