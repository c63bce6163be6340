/**
 Forwarding: longest-prefix match over the table and the interfaces, the decision
 handlePackets takes for one packet, and what happens to a packet on its whole way.
 */
module Forwarding {
  import opened Options
  import opened Ring
  import opened RipCore
  import opened RipCodec
  import opened Ipv4
  import P = Packets

  // ---------- Longest-prefix match ----------

  /** Addresses as 32-bit numbers. */
  function Number(a: seq<Byte>): (n: nat)
    requires |a| == 4
  {
    a[0] as int * 0x100_0000 + a[1] as int * 0x1_0000 + a[2] as int * 0x100 + a[3] as int
  }

  /** Size of a block of addresses with k host bits. */
  function Block(k: nat): (n: nat) {
    if k == 0 then 1 else 2 * Block(k - 1)
  }

  predicate Contains(p: Prefix, a: nat) {
    p.bits <= 32 && p.addr <= a < p.addr + Block(32 - p.bits)
  }

  lemma {:induction false} BlockIsShift(k: nat)
    ensures Block(k) == Shift(1, k)
  {
    if k > 0 {
      BlockIsShift(k - 1);
    }
  }

  lemma {:induction false} ShiftNext(q: nat, k: nat)
    ensures Shift(q + 1, k) == Shift(q, k) + Shift(1, k)
  {
    if k > 0 {
      ShiftNext(q, k - 1);
    }
  }

  lemma BlocksOrdered(q: nat, r: nat, k: nat)
    requires q < r
    ensures Shift(q, k) + Shift(1, k) <= Shift(r, k)
  {
    ShiftNext(q, k);
    if q + 1 < r {
      ShiftGrows(q + 1, r, k);
    }
  }

  lemma BlocksApart(q: nat, r: nat, k: nat, a: nat)
    requires Shift(q, k) <= a < Shift(q, k) + Shift(1, k) && Shift(r, k) <= a < Shift(r, k) + Shift(1, k)
    ensures q == r
  {
    if q < r {
      BlocksOrdered(q, r, k);
    }
    if r < q {
      BlocksOrdered(r, q, k);
    }
  }

  /** Two masked prefixes of one length that contain the same address are the same prefix. */
  lemma SameLengthSamePrefix(p: Prefix, p': Prefix, a: nat)
    requires Masked(p) && Masked(p') && p.bits == p'.bits && Contains(p, a) && Contains(p', a)
    ensures p == p'
  {
    var q: nat :| NetworkPart(p, q);
    var q': nat :| NetworkPart(p', q');
    BlockIsShift(32 - p.bits);
    BlocksApart(q, q', 32 - p.bits, a);
  }

  /** p is the most specific prefix of ps that contains a. */
  ghost predicate BestMatch(ps: set<Prefix>, a: nat, p: Prefix) {
    p in ps && Contains(p, a) && forall r :: r in ps && Contains(r, a) ==> r.bits <= p.bits
  }

  lemma BestMatchUnique(ps: set<Prefix>, a: nat, p: Prefix, p': Prefix)
    requires (forall r :: r in ps ==> Masked(r)) && BestMatch(ps, a, p) && BestMatch(ps, a, p')
    ensures p == p'
  {
    SameLengthSamePrefix(p, p', a);
  }

  /** The loop over a map: whatever the iteration order, it ends with a most specific match. */
  method LongestMatch(ps: set<Prefix>, a: nat) returns (best: Option<Prefix>)
    ensures best == None <==> forall p :: p in ps ==> !Contains(p, a)
    ensures best.Some? ==> BestMatch(ps, a, best.value)
    ensures best.Some? && (forall r :: r in ps ==> Masked(r)) ==> forall p :: BestMatch(ps, a, p) ==> p == best.value
  {
    var len: int := -1;
    best := None;
    var left := ps;
    while left != {}
      invariant left <= ps
      invariant best == None ==> len == -1 && forall p :: p in ps - left ==> !Contains(p, a)
      invariant best.Some? ==> len == best.value.bits && BestMatch(ps - left, a, best.value)
      decreases |left|
    {
      var p :| p in left;
      left := left - {p};
      if Contains(p, a) && p.bits > len {
        len := p.bits;
        best := Some(p);
      }
    }
    if best.Some? && (forall r :: r in ps ==> Masked(r)) {
      forall p | BestMatch(ps, a, p) ensures p == best.value {
        BestMatchUnique(ps, a, p, best.value);
      }
    }
  }

  // ---------- One node ----------

  /** Interface addresses by their prefix, and the forwarding table. */
  datatype Config = Config(interfaces: map<Prefix, nat>, table: map<Prefix, Route>) {
    ghost predicate Valid() {
      (forall p :: p in interfaces ==> Masked(p)) && (forall p :: p in table ==> Masked(p))
    }
  }

  /** The destination is the address of the interface whose prefix matches it best. */
  ghost predicate Accepts(c: Config, dst: nat) {
    exists p :: BestMatch(c.interfaces.Keys, dst, p) && c.interfaces[p] == dst
  }

  method CheckDest(c: Config, dst: nat) returns (ok: bool)
    requires c.Valid()
    ensures ok <==> Accepts(c, dst)
  {
    var best := LongestMatch(c.interfaces.Keys, dst);
    ok := best.Some? && c.interfaces[best.value] == dst;
  }

  /** Next address and route kind for a destination. */
  datatype Hop = NoHop | Hop(next: nat, kind: RouteKind)

  ghost predicate IsNext(c: Config, dst: nat, hop: Hop) {
    if Accepts(c, dst) then hop == Hop(dst, Local)
    else if forall p :: p in c.table ==> !Contains(p, dst) then hop == NoHop
    else exists p :: BestMatch(c.table.Keys, dst, p) && hop == Hop(c.table[p].next, c.table[p].kind)
  }

  /** FindNext: the answer is determined by the tables alone, whatever order they are iterated in. */
  method FindNext(c: Config, dst: nat) returns (hop: Hop)
    requires c.Valid()
    ensures IsNext(c, dst, hop)
    ensures forall other :: IsNext(c, dst, other) ==> other == hop
  {
    var here := CheckDest(c, dst);
    if here {
      return Hop(dst, Local);
    }
    var best := LongestMatch(c.table.Keys, dst);
    if best == None {
      hop := NoHop;
    } else {
      hop := Hop(c.table[best.value].next, c.table[best.value].kind);
      assert BestMatch(c.table.Keys, dst, best.value);
    }
  }

  // ---------- One packet at one node ----------

  datatype Outcome =
    | Discarded
    | Handled(protocol: nat, payload: seq<Byte>)
    | Forwarded(next: nat, packet: seq<Byte>)

  /** handlePackets: the outcome o is possible for buffer b at a node. */
  ghost predicate Handles(c: Config, b: seq<Byte>, o: Outcome) {
    if !Parsed(b).Ok? then o == Discarded else
      var h := Parsed(b).value;
      if h.ttl == 0 || !P.ChecksumOk(b) then o == Discarded
      else if Accepts(c, Number(h.dst)) then o == Handled(h.protocol, b[h.len..])
      else if h.ttl - 1 == 0 then o == Discarded
      else
        exists hop :: IsNext(c, Number(h.dst), hop) &&
          if hop == NoHop then o == Discarded
          else o == Forwarded(if hop.kind == Local then Number(h.dst) else hop.next,
                              P.MakePacket(h.src, h.dst, h.protocol, h.ttl - 1, b[h.len..]))
  }

  /** What a made packet with these fields may turn into at one node. */
  ghost predicate Passes(c: Config, src: seq<Byte>, dst: seq<Byte>, protocol: nat, ttl: nat, data: seq<Byte>, o: Outcome)
    requires P.Sendable(src, dst, protocol, ttl, data)
  {
    && (o.Handled? ==> o == Handled(protocol, data) && Accepts(c, Number(dst)) && ttl >= 1)
    && (o.Forwarded? ==> ttl >= 2 && o.packet == P.MakePacket(src, dst, protocol, ttl - 1, data) && !Accepts(c, Number(dst)))
  }

  /** A made packet keeps its fields at every hop; only the TTL counts down. */
  lemma OneHop(c: Config, src: seq<Byte>, dst: seq<Byte>, protocol: nat, ttl: nat, data: seq<Byte>, b: seq<Byte>, o: Outcome)
    requires P.Sendable(src, dst, protocol, ttl, data) && b == P.MakePacket(src, dst, protocol, ttl, data) && Handles(c, b, o)
    ensures Passes(c, src, dst, protocol, ttl, data, o)
  {
    P.MadePacketParses(src, dst, protocol, ttl, data);
  }

  // ---------- A packet's whole way ----------

  /** `bufs[i]` arrives at a node configured as `nodes[i]`, where it becomes `outs[i]`; forwarded packets go on. */
  ghost predicate Way(nodes: seq<Config>, bufs: seq<seq<Byte>>, outs: seq<Outcome>) {
    && |bufs| == |nodes| == |outs| >= 1
    && (forall i :: 0 <= i < |bufs| ==> Handles(nodes[i], bufs[i], outs[i]))
    && (forall i :: 0 <= i < |bufs| - 1 ==> GoesOn(bufs, outs, i))
  }

  ghost predicate GoesOn(bufs: seq<seq<Byte>>, outs: seq<Outcome>, i: nat)
    requires i + 1 < |bufs| && i < |outs|
  {
    outs[i].Forwarded? && bufs[i + 1] == outs[i].packet
  }

  /** The packet at position k is the original with TTL t. */
  ghost predicate IsCopy(bufs: seq<seq<Byte>>, k: nat, src: seq<Byte>, dst: seq<Byte>, protocol: nat, t: nat, data: seq<Byte>) {
    k < |bufs| && Is4(src) && Is4(dst) && bufs[k] == P.MakePacket(src, dst, protocol, t, data)
  }

  lemma HopOnWay(nodes: seq<Config>, bufs: seq<seq<Byte>>, outs: seq<Outcome>,
                 src: seq<Byte>, dst: seq<Byte>, protocol: nat, t: nat, data: seq<Byte>, k: nat)
    requires Way(nodes, bufs, outs) && P.Sendable(src, dst, protocol, t, data)
    requires k + 1 < |bufs| && IsCopy(bufs, k, src, dst, protocol, t, data)
    ensures t >= 2 && IsCopy(bufs, k + 1, src, dst, protocol, t - 1, data)
  {
    assert GoesOn(bufs, outs, k);
    OneHop(nodes[k], src, dst, protocol, t, data, bufs[k], outs[k]);
  }

  lemma {:induction false} WayKeepsPacket(nodes: seq<Config>, bufs: seq<seq<Byte>>, outs: seq<Outcome>,
                                          src: seq<Byte>, dst: seq<Byte>, protocol: nat, ttl: nat, data: seq<Byte>, i: nat)
    requires Way(nodes, bufs, outs) && P.Sendable(src, dst, protocol, ttl, data) && IsCopy(bufs, 0, src, dst, protocol, ttl, data)
    requires i < |bufs|
    ensures i == 0 || i <= ttl - 1
    ensures i <= ttl && IsCopy(bufs, i, src, dst, protocol, ttl - i, data)
  {
    if i > 0 {
      WayKeepsPacket(nodes, bufs, outs, src, dst, protocol, ttl, data, i - 1);
      HopOnWay(nodes, bufs, outs, src, dst, protocol, ttl - (i - 1), data, i - 1);
    }
  }

  /**
   With arbitrary tables, loops included: a packet sent with TTL t is forwarded at most t-1
   times, and wherever a handler runs it gets the original protocol and payload, at a node
   that accepts the destination.
   */
  lemma BoundedForwarding(nodes: seq<Config>, bufs: seq<seq<Byte>>, outs: seq<Outcome>,
                          src: seq<Byte>, dst: seq<Byte>, protocol: nat, ttl: nat, data: seq<Byte>, i: nat)
    requires Way(nodes, bufs, outs) && P.Sendable(src, dst, protocol, ttl, data) && IsCopy(bufs, 0, src, dst, protocol, ttl, data)
    requires i < |bufs|
    ensures |bufs| - 1 <= if ttl == 0 then 0 else ttl - 1
    ensures i <= ttl && IsCopy(bufs, i, src, dst, protocol, ttl - i, data)
    ensures outs[i].Handled? ==> outs[i] == Handled(protocol, data) && Accepts(nodes[i], Number(dst))
  {
    WayKeepsPacket(nodes, bufs, outs, src, dst, protocol, ttl, data, |bufs| - 1);
    WayKeepsPacket(nodes, bufs, outs, src, dst, protocol, ttl, data, i);
    OneHop(nodes[i], src, dst, protocol, ttl - i, data, bufs[i], outs[i]);
  }
}
