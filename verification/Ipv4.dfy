/**
 IPv4 headers: Marshal, Parse, the header checksum and packet assembly.  The checksum
 function is the ones' complement sum of RFC 1071 that the program calls in a library.
 */
module Ipv4 {
  import opened Ring

  /** Fields as integers, as the program keeps them; an address that is not four bytes long is no IPv4 address. */
  datatype Header = Header(version: nat, len: nat, tos: nat, totalLen: nat, id: nat, flags: nat, fragOff: nat,
                           ttl: nat, protocol: nat, checksum: nat, src: seq<Byte>, dst: seq<Byte>, options: seq<Byte>)

  datatype Error = HeaderTooShort | ExtHeaderTooShort | MissingAddress

  datatype Result<+T> = Ok(value: T) | Err(error: Error)

  const HEADER_LEN: nat := 20

  ghost predicate Is4(a: seq<Byte>) {
    |a| == 4
  }

  function Hi(n: nat): (b: Byte) {
    n / 0x100 % 0x100
  }

  function Lo(n: nat): (b: Byte) {
    n % 0x100
  }

  function Word(b: seq<Byte>, at: nat): (n: nat)
    requires at + 2 <= |b|
    ensures n < 0x1_0000
  {
    b[at] as int * 0x100 + b[at + 1] as int
  }

  /** Flags and fragment offset share sixteen bits. */
  function FlagBits(h: Header): (n: nat) {
    h.fragOff % 0x2000 + h.flags * 0x2000
  }

  /** The header length in bytes as it survives in the length nibble. */
  function NibbleLen(optlen: nat): (n: nat) {
    (HEADER_LEN + optlen) / 4 % 0x10 * 4
  }

  ghost function FixedBytes(h: Header): (b: seq<Byte>)
    requires Is4(h.src) && Is4(h.dst)
    ensures |b| == HEADER_LEN
  {
    [0x40 + (HEADER_LEN + |h.options|) / 4 % 0x10, Lo(h.tos), Hi(h.totalLen), Lo(h.totalLen),
     Hi(h.id), Lo(h.id), Hi(FlagBits(h)), Lo(FlagBits(h)),
     Lo(h.ttl), Lo(h.protocol), Hi(h.checksum), Lo(h.checksum),
     h.src[0], h.src[1], h.src[2], h.src[3], h.dst[0], h.dst[1], h.dst[2], h.dst[3]]
  }

  /** The encoding: every field is truncated to its width, and the length nibble comes from the options. */
  ghost function HeaderBytes(h: Header): (b: seq<Byte>)
    requires Is4(h.src) && Is4(h.dst)
    ensures |b| == HEADER_LEN + |h.options|
  {
    FixedBytes(h) + h.options
  }

  /** The first twelve bytes, stored by index. */
  method FillFields(b: array<Byte>, h: Header)
    requires b.Length >= HEADER_LEN && |h.src| == 4 && |h.dst| == 4
    modifies b
    ensures b[..12] == FixedBytes(h)[..12]
  {
    var first := 0x40 + (HEADER_LEN + |h.options|) / 4 % 0x10;
    var flags := FlagBits(h);
    b[0], b[1] := first, Lo(h.tos);
    b[2], b[3] := Hi(h.totalLen), Lo(h.totalLen);
    b[6], b[7] := Hi(flags), Lo(flags);
    b[4], b[5] := Hi(h.id), Lo(h.id);
    b[8], b[9] := Lo(h.ttl), Lo(h.protocol);
    b[10], b[11] := Hi(h.checksum), Lo(h.checksum);
    assert b[..12] == [b[0], b[1], b[2], b[3], b[4], b[5], b[6], b[7], b[8], b[9], b[10], b[11]];
    assert FixedBytes(h)[..12] == [first, Lo(h.tos), Hi(h.totalLen), Lo(h.totalLen), Hi(h.id), Lo(h.id), Hi(flags), Lo(flags),
                                   Lo(h.ttl), Lo(h.protocol), Hi(h.checksum), Lo(h.checksum)];
  }

  /** The addresses, copied behind them. */
  method FillAddresses(b: array<Byte>, h: Header)
    requires b.Length >= HEADER_LEN && |h.src| == 4 && |h.dst| == 4
    modifies b
    ensures b[..12] == old(b[..12]) && b[12..HEADER_LEN] == h.src + h.dst
  {
    b[12], b[13], b[14], b[15] := h.src[0], h.src[1], h.src[2], h.src[3];
    b[16], b[17], b[18], b[19] := h.dst[0], h.dst[1], h.dst[2], h.dst[3];
  }

  lemma FixedParts(h: Header)
    requires Is4(h.src) && Is4(h.dst)
    ensures FixedBytes(h) == FixedBytes(h)[..12] + (h.src + h.dst)
  {
  }

  /** Marshal fills a byte slice by index.  A missing source address leaves zeros. */
  method Marshal(h: Header) returns (r: Result<seq<Byte>>)
    ensures h.len < HEADER_LEN ==> r == Err(HeaderTooShort)
    ensures h.len >= HEADER_LEN && |h.dst| != 4 ==> r == Err(MissingAddress)
    ensures h.len >= HEADER_LEN && Is4(h.dst) ==>
              r == Ok(HeaderBytes(if |h.src| == 4 then h else h.(src := [0, 0, 0, 0])))
  {
    if h.len < HEADER_LEN {
      return Err(HeaderTooShort);
    }
    if |h.dst| != 4 {
      return Err(MissingAddress);
    }
    var h' := if |h.src| == 4 then h else h.(src := [0, 0, 0, 0]);
    var b := new Byte[HEADER_LEN + |h.options|];
    FillFields(b, h');
    FillAddresses(b, h');
    FixedParts(h');
    assert b[..HEADER_LEN] == b[..12] + b[12..HEADER_LEN];
    ghost var fixed := b[..HEADER_LEN];
    for i := 0 to |h.options|
      invariant b[..HEADER_LEN] == fixed && b[HEADER_LEN..HEADER_LEN + i] == h.options[..i]
    {
      b[HEADER_LEN + i] := h.options[i];
    }
    assert b[..] == b[..HEADER_LEN] + b[HEADER_LEN..HEADER_LEN + |h.options|];
    assert h.options[..|h.options|] == h.options;
    return Ok(b[..]);
  }

  /** What Parse reads off the front of a buffer. */
  ghost function Parsed(b: seq<Byte>): (r: Result<Header>) {
    if |b| < HEADER_LEN then Err(HeaderTooShort) else
      var hdrlen := b[0] as int % 0x10 * 4;
      if |b| < hdrlen then Err(ExtHeaderTooShort) else
        Ok(Header(b[0] as int / 0x10, hdrlen, b[1] as int, Word(b, 2), Word(b, 4), Word(b, 6) / 0x2000, Word(b, 6) % 0x2000,
                  b[8] as int, b[9] as int, Word(b, 10), b[12..16], b[16..20],
                  if hdrlen > HEADER_LEN then b[HEADER_LEN..hdrlen] else []))
  }

  class IPv4Header {
    var Version: nat
    var Len: nat
    var TOS: nat
    var TotalLen: nat
    var ID: nat
    var Flags: nat
    var FragOff: nat
    var TTL: nat
    var Protocol: nat
    var Checksum: nat
    var Src: seq<Byte>
    var Dst: seq<Byte>
    var Options: seq<Byte>

    constructor ()
      ensures Options == []
    {
      Version, Len, TOS, TotalLen, ID, Flags, FragOff, TTL, Protocol, Checksum := 0, 0, 0, 0, 0, 0, 0, 0, 0, 0;
      Src, Dst, Options := [], [], [];
    }

    ghost function Value(): (h: Header)
      reads this
    {
      Header(Version, Len, TOS, TotalLen, ID, Flags, FragOff, TTL, Protocol, Checksum, Src, Dst, Options)
    }

    /** On an error nothing is assigned; a header without options leaves the options field alone. */
    method Parse(b: seq<Byte>) returns (r: Result<()>)
      modifies this
      ensures Parsed(b).Ok? ==>
                r == Ok(()) && Value() == if Parsed(b).value.len > HEADER_LEN then Parsed(b).value else Parsed(b).value.(options := old(Options))
      ensures Parsed(b).Err? ==> r == Err(Parsed(b).error) && Value() == old(Value())
    {
      if |b| < HEADER_LEN {
        return Err(HeaderTooShort);
      }
      var hdrlen := b[0] as int % 0x10 * 4;
      if |b| < hdrlen {
        return Err(ExtHeaderTooShort);
      }
      var options := if hdrlen > HEADER_LEN then b[HEADER_LEN..hdrlen] else Options;
      Store(Header(b[0] as int / 0x10, hdrlen, b[1] as int, Word(b, 2), Word(b, 4), Word(b, 6) / 0x2000, Word(b, 6) % 0x2000,
                   b[8] as int, b[9] as int, Word(b, 10), b[12..16], b[16..20], options));
      r := Ok(());
    }

    /** Assigns the fields one by one. */
    method Store(h: Header)
      modifies this
      ensures Value() == h
    {
      Version := h.version;
      Len := h.len;
      TOS := h.tos;
      ID := h.id;
      TTL := h.ttl;
      Protocol := h.protocol;
      Checksum := h.checksum;
      Src := h.src;
      Dst := h.dst;
      TotalLen := h.totalLen;
      Flags := h.flags;
      FragOff := h.fragOff;
      Options := h.options;
    }
  }

  // ---------- Parse undoes Marshal ----------

  /** Every field fits its width on the wire and the lengths are consistent (section 3.1 of RFC 791). */
  ghost predicate InRange(h: Header) {
    && h.version == 4 && h.len == HEADER_LEN + |h.options| && |h.options| % 4 == 0 && |h.options| <= 40
    && h.tos < 0x100 && h.totalLen < 0x1_0000 && h.id < 0x1_0000 && h.flags < 8 && h.fragOff < 0x2000
    && h.ttl < 0x100 && h.protocol < 0x100 && h.checksum < 0x1_0000 && Is4(h.src) && Is4(h.dst)
  }

  lemma WordBytes(n: nat)
    ensures Hi(n) as int * 0x100 + Lo(n) as int == n % 0x1_0000
  {
    var q := n / 0x100;
    assert n % 0x1_0000 == q % 0x100 * 0x100 + n % 0x100;
  }

  lemma FirstByte(optlen: nat, b0: Byte)
    requires b0 == 0x40 + (HEADER_LEN + optlen) / 4 % 0x10
    ensures b0 as int % 0x10 * 4 == NibbleLen(optlen) && b0 as int / 0x10 == 4
  {
  }

  /** What comes back of the fields that do not depend on lengths. */
  lemma FixedBack(h: Header, b: seq<Byte>)
    requires Is4(h.src) && Is4(h.dst) && |b| >= HEADER_LEN && b[..HEADER_LEN] == FixedBytes(h)
    ensures b[0] == FixedBytes(h)[0] && b[1] as int == h.tos % 0x100 && b[8] as int == h.ttl % 0x100 && b[9] as int == h.protocol % 0x100
    ensures Word(b, 2) == h.totalLen % 0x1_0000 && Word(b, 4) == h.id % 0x1_0000
    ensures Word(b, 6) == FlagBits(h) % 0x1_0000 && Word(b, 10) == h.checksum % 0x1_0000
    ensures b[12..16] == h.src && b[16..20] == h.dst
  {
    var f := FixedBytes(h);
    assert forall i :: 0 <= i < HEADER_LEN ==> b[i] == b[..HEADER_LEN][i];
    assert b[2] == f[2] && b[3] == f[3] && b[4] == f[4] && b[5] == f[5] && b[6] == f[6] && b[7] == f[7] && b[10] == f[10] && b[11] == f[11];
    WordBytes(h.totalLen);
    WordBytes(h.id);
    WordBytes(FlagBits(h));
    WordBytes(h.checksum);
  }

  lemma NibbleLenExact(optlen: nat)
    ensures NibbleLen(optlen) <= HEADER_LEN + optlen
    ensures NibbleLen(optlen) == HEADER_LEN + optlen <==> optlen % 4 == 0 && optlen <= 40
  {
  }

  /** What comes back: every field modulo its width, whatever the payload behind the header. */
  lemma ParsedBytes(h: Header, payload: seq<Byte>)
    requires Is4(h.src) && Is4(h.dst)
    ensures Parsed(HeaderBytes(h) + payload).Ok?
    ensures NibbleLen(|h.options|) <= HEADER_LEN + |h.options|
    ensures var n := NibbleLen(|h.options|);
            Parsed(HeaderBytes(h) + payload).value ==
              Header(4, n, h.tos % 0x100, h.totalLen % 0x1_0000, h.id % 0x1_0000,
                     FlagBits(h) % 0x1_0000 / 0x2000, FlagBits(h) % 0x1_0000 % 0x2000,
                     h.ttl % 0x100, h.protocol % 0x100, h.checksum % 0x1_0000, h.src, h.dst,
                     if n > HEADER_LEN then h.options[..n - HEADER_LEN] else [])
  {
    var b := HeaderBytes(h) + payload;
    var n := NibbleLen(|h.options|);
    assert b[..HEADER_LEN] == FixedBytes(h);
    FixedBack(h, b);
    FirstByte(|h.options|, b[0]);
    NibbleLenExact(|h.options|);
    assert n > HEADER_LEN ==> b[HEADER_LEN..n] == h.options[..n - HEADER_LEN];
  }

  lemma FlagBitsSplit(h: Header)
    ensures FlagBits(h) % 0x1_0000 / 0x2000 == h.flags % 8 && FlagBits(h) % 0x1_0000 % 0x2000 == h.fragOff % 0x2000
  {
    var q, r := h.flags / 8, h.flags % 8;
    assert FlagBits(h) == q * 0x1_0000 + (r * 0x2000 + h.fragOff % 0x2000);
  }

  lemma RoundTripInRange(h: Header, payload: seq<Byte>)
    requires InRange(h)
    ensures Parsed(HeaderBytes(h) + payload) == Ok(h)
  {
    ParsedBytes(h, payload);
    Unchanged(h);
    assert h.options[..|h.options|] == h.options;
  }

  lemma Unchanged(h: Header)
    requires InRange(h)
    ensures h.tos % 0x100 == h.tos && h.totalLen % 0x1_0000 == h.totalLen && h.id % 0x1_0000 == h.id
    ensures FlagBits(h) % 0x1_0000 / 0x2000 == h.flags && FlagBits(h) % 0x1_0000 % 0x2000 == h.fragOff
    ensures h.ttl % 0x100 == h.ttl && h.protocol % 0x100 == h.protocol && h.checksum % 0x1_0000 == h.checksum
    ensures NibbleLen(|h.options|) == h.len
  {
    FlagBitsSplit(h);
    NibbleLenExact(|h.options|);
  }

  lemma RoundTripOnlyInRange(h: Header, payload: seq<Byte>)
    requires Is4(h.src) && Is4(h.dst) && Parsed(HeaderBytes(h) + payload) == Ok(h)
    ensures InRange(h)
  {
    ParsedBytes(h, payload);
    FlagBitsSplit(h);
    var n := NibbleLen(|h.options|);
    NibbleLenExact(|h.options|);
    assert h.len == n && |h.options| == if n > HEADER_LEN then n - HEADER_LEN else 0;
  }

  /** Parse inverts Marshal on a header if and only if its fields are in range. */
  lemma RoundTripIff(h: Header, payload: seq<Byte>)
    requires Is4(h.src) && Is4(h.dst)
    ensures Parsed(HeaderBytes(h) + payload) == Ok(h) <==> InRange(h)
  {
    if InRange(h) {
      RoundTripInRange(h, payload);
    } else if Parsed(HeaderBytes(h) + payload) == Ok(h) {
      RoundTripOnlyInRange(h, payload);
    }
  }
}
