/**
 Distance-vector routing: topology, the reaction of one table to one advertised
 entry, the poisoned announcement, and one transition system for the whole network.

 A network state holds every node's table and every packet in flight.  One event
 handles one packet, loses or repeats one, sends one full table, or expires routes.
 */
module RipCore {
  import opened Options

  type NodeId = nat
  type Addr = nat

  const INFTY: nat := 16
  const UINT32: nat := 0x1_0000_0000

  datatype Prefix = Prefix(addr: nat, bits: nat)

  datatype RouteKind = Local | Static | Learned

  datatype Route = Route(kind: RouteKind, next: Addr, cost: nat)

  /** A directed use of a RIP adjacency: packets leave interface `src` for interface `dst`. */
  datatype Link = Link(src: Addr, dst: Addr)

  function Flip(l: Link): (r: Link)
    ensures r.src == l.dst && r.dst == l.src
  {
    Link(l.dst, l.src)
  }

  /**
   `outs[n]` lists node n's RIP neighbours in the order in which n sends to them; `near[n]`
   holds the addresses of n's link neighbours, the only ones n can send packets to.
   */
  datatype Net = Net(owner: map<Addr, NodeId>, outs: seq<seq<Link>>, near: seq<set<Addr>>)

  ghost predicate IsLink(net: Net, l: Link) {
    l.src in net.owner && net.owner[l.src] < |net.outs| && l in net.outs[net.owner[l.src]]
  }

  /** Every adjacency joins two interfaces of known nodes and leaves from its owner. */
  ghost predicate WellFormed(net: Net) {
    forall n, l :: 0 <= n < |net.outs| && l in net.outs[n] ==>
      && l.src in net.owner && net.owner[l.src] == n
      && l.dst in net.owner && net.owner[l.dst] < |net.outs|
  }

  /** RIP neighbours are link neighbours, as the configuration parser demands. */
  ghost predicate Cabled(net: Net) {
    |net.near| == |net.outs| && forall n, l :: 0 <= n < |net.outs| && l in net.outs[n] ==> l.dst in net.near[n]
  }

  /** RIP neighbours are mutual. */
  ghost predicate Mutual(net: Net) {
    forall l :: IsLink(net, l) ==> IsLink(net, Flip(l))
  }

  /** RIP neighbours are mutual, and a node sees each neighbouring interface on one link only. */
  ghost predicate Symmetric(net: Net)
    requires WellFormed(net)
  {
    && Mutual(net)
    && (forall l, k :: IsLink(net, l) && IsLink(net, k) && l.src == k.src && net.owner[l.dst] == net.owner[k.dst] ==> l == k)
  }

  ghost function Sender(net: Net, l: Link): (n: NodeId)
    requires WellFormed(net) && IsLink(net, l)
    ensures n < |net.outs| && l in net.outs[n]
  {
    net.owner[l.src]
  }

  ghost function Receiver(net: Net, l: Link): (n: NodeId)
    requires WellFormed(net) && IsLink(net, l)
    ensures n < |net.outs|
  {
    net.owner[l.dst]
  }

  // ---------- One entry at one node ----------

  /** Cost of a route through the sender: `min(int(entry.Cost+1), INFTY)` on uint32 arithmetic. */
  function Through(wire: nat): (c: nat)
    ensures c <= INFTY
  {
    var c := (wire + 1) % UINT32;
    if c < INFTY then c else INFTY
  }

  datatype Reaction = Reaction(table: Option<Route>, triggered: Option<Route>)

  /**
   What one received entry does to the table slot of its prefix, and the record it
   leaves for the triggered update.  A worse cost from the current next hop removes
   the slot but still announces the worse cost.
   */
  function React(slot: Option<Route>, hop: Addr, wire: nat): (r: Reaction) {
    var c := Through(wire);
    match slot
    case None =>
      if c != INFTY then
        var learned := Some(Route(Learned, hop, c));
        Reaction(learned, learned)
      else
        Reaction(None, None)
    case Some(info) =>
      if info.cost > c then
        var better := Some(info.(cost := c, next := hop));
        Reaction(better, better)
      else if info.cost < c then
        if hop == info.next then Reaction(None, Some(info.(cost := c))) else Reaction(slot, None)
      else
        if hop == info.next then Reaction(slot, slot) else Reaction(slot, None)
  }

  /** The cost announced to `dst`: split horizon with poisoned reverse. */
  function Announce(r: Route, dst: Addr): (wire: nat) {
    if dst == r.next then INFTY else r.cost
  }

  // ---------- Packets, states, events ----------

  /** A response lists each prefix once, because it is built from a table. */
  datatype Packet = Request | Response(entries: map<Prefix, nat>)

  datatype Flight<+M> = Flight(link: Link, msg: M)

  datatype Sys = Sys(tables: seq<map<Prefix, Route>>, air: seq<Flight<Packet>>)

  datatype Event =
    | Deliver(i: nat)
    | Lose(i: nat)
    | Duplicate(i: nat)
    | Advertise(link: Link)
    | Expire(node: NodeId, gone: set<Prefix>)

  function Lookup(t: map<Prefix, Route>, p: Prefix): (r: Option<Route>) {
    if p in t then Some(t[p]) else None
  }

  function Remove<T>(s: seq<T>, i: nat): (r: seq<T>)
    requires i < |s|
    ensures |r| == |s| - 1
    ensures forall x :: x in r ==> x in s
  {
    s[..i] + s[i + 1..]
  }

  function AnnounceAll(t: map<Prefix, Route>, dst: Addr): (m: map<Prefix, nat>) {
    map p | p in t :: Announce(t[p], dst)
  }

  function After(t: map<Prefix, Route>, hop: Addr, entries: map<Prefix, nat>, p: Prefix): (r: Reaction) {
    if p in entries then React(Lookup(t, p), hop, entries[p]) else Reaction(Lookup(t, p), None)
  }

  function HandleTable(t: map<Prefix, Route>, hop: Addr, entries: map<Prefix, nat>): (t': map<Prefix, Route>) {
    map p | p in t.Keys + entries.Keys && After(t, hop, entries, p).table.Some? :: After(t, hop, entries, p).table.value
  }

  function HandleTriggered(t: map<Prefix, Route>, hop: Addr, entries: map<Prefix, nat>): (trig: map<Prefix, Route>) {
    map p | p in entries && After(t, hop, entries, p).triggered.Some? :: After(t, hop, entries, p).triggered.value
  }

  function Broadcast(net: Net, n: NodeId, t: map<Prefix, Route>): (r: seq<Flight<Packet>>)
    requires n < |net.outs|
  {
    seq(|net.outs[n]|, k requires 0 <= k < |net.outs[n]| =>
      Flight(net.outs[n][k], Response(AnnounceAll(t, net.outs[n][k].dst))))
  }

  /** The triggered packets: none when nothing was triggered. */
  function Trigger(net: Net, n: NodeId, trig: map<Prefix, Route>): (r: seq<Flight<Packet>>)
    requires n < |net.outs|
  {
    if trig == map[] then [] else Broadcast(net, n, trig)
  }

  ghost predicate Shape(net: Net, s: Sys) {
    && |s.tables| == |net.outs|
    && forall f :: f in s.air ==> IsLink(net, f.link)
  }

  /** The next state after the packet at position i is handled by its receiver. */
  ghost function Delivered(net: Net, s: Sys, i: nat): (s': Sys)
    requires WellFormed(net) && Shape(net, s) && i < |s.air|
  {
    var f := s.air[i];
    var m := Receiver(net, f.link);
    match f.msg
    case Request =>
      Sys(s.tables, Remove(s.air, i) + [Flight(Flip(f.link), Response(AnnounceAll(s.tables[m], f.link.src)))])
    case Response(entries) =>
      Sys(s.tables[m := HandleTable(s.tables[m], f.link.src, entries)],
          Remove(s.air, i) + Trigger(net, m, HandleTriggered(s.tables[m], f.link.src, entries)))
  }

  ghost predicate Step(net: Net, s: Sys, ev: Event, s': Sys)
    requires WellFormed(net) && Shape(net, s)
  {
    match ev
    case Deliver(i) =>
      i < |s.air| && s' == Delivered(net, s, i)
    case Lose(i) =>
      i < |s.air| && s' == s.(air := Remove(s.air, i))
    case Duplicate(i) =>
      i < |s.air| && s' == s.(air := s.air + [s.air[i]])
    case Advertise(l) =>
      && IsLink(net, l)
      && s' == s.(air := s.air + [Flight(l, Response(AnnounceAll(s.tables[Sender(net, l)], l.dst)))])
    case Expire(n, gone) =>
      && n < |net.outs|
      && gone <= s.tables[n].Keys
      && (forall p :: p in gone ==> s.tables[n][p].kind == Learned)
      && s' == Sys(s.tables[n := s.tables[n] - gone],
                   s.air + Trigger(net, n, map p | p in gone :: s.tables[n][p].(cost := INFTY)))
  }

  // ---------- Configurations and runs ----------

  /** Start-up: interface and static routes at cost 0, one request to every RIP neighbour. */
  ghost predicate Init(net: Net, s: Sys) {
    && |s.tables| == |net.outs|
    && (forall n, p :: 0 <= n < |s.tables| && p in s.tables[n] ==> s.tables[n][p].kind != Learned && s.tables[n][p].cost == 0)
    && (forall f :: f in s.air ==> f.msg == Request && IsLink(net, f.link))
    && (forall l :: IsLink(net, l) ==> Flight(l, Request) in s.air)
  }

  ghost predicate Run(net: Net, states: seq<Sys>, events: seq<Event>) {
    && WellFormed(net)
    && |states| == |events| + 1
    && (forall i :: 0 <= i < |states| ==> Shape(net, states[i]))
    && (forall i :: 0 <= i < |events| ==> Step(net, states[i], events[i], states[i + 1]))
  }

  /** Per-link order is kept: only the oldest packet on a link is handled, and none is repeated or expired. */
  ghost predicate InOrder<M>(air: seq<Flight<M>>, ev: Event) {
    match ev
    case Deliver(i) => i < |air| && forall j :: 0 <= j < i ==> air[j].link != air[i].link
    case Duplicate(_) => false
    case Expire(_, _) => false
    case _ => true
  }
}
