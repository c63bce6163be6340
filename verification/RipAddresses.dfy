/**
 Forwarding of real destinations: at each node FindNext uses the most specific prefix of
 that node's own table, so one packet may follow different prefixes at different nodes.
 Along learned next hops the prefix only becomes more specific, and while it stays the
 same the cost falls; a forwarding loop therefore needs a static route.
 */
module RipAddresses {
  import opened Options
  import opened RipCore
  import opened RipSlice
  import opened RipRuns
  import opened RipConfigured
  import opened RipLoopFree
  import opened RipLoops
  import opened RipCodec
  import opened Forwarding

  type Interfaces = seq<map<Prefix, nat>>

  ghost function ConfigOf(faces: Interfaces, tables: seq<map<Prefix, Route>>, n: NodeId): (c: Config)
    requires n < |faces| && n < |tables|
  {
    Config(faces[n], tables[n])
  }

  /** The address a packet for a is sent to: a itself over a local route. */
  function Target(hop: Forwarding.Hop, a: Addr): (next: Addr)
    requires hop.Hop?
  {
    if hop.kind == Local then a else hop.next
  }

  /** Node n does not keep a packet for a, but sends it to node m. */
  ghost predicate SendsOn(net: Net, faces: Interfaces, tables: seq<map<Prefix, Route>>, a: Addr, n: NodeId, m: NodeId) {
    && n < |faces| && n < |tables| && !Accepts(ConfigOf(faces, tables, n), a)
    && exists hop :: IsNext(ConfigOf(faces, tables, n), a, hop) && hop.Hop? && Reaches(net, n, Target(hop, a)) && net.owner[Target(hop, a)] == m
  }

  /** Packets for address a go round. */
  ghost predicate AddressLoop(net: Net, faces: Interfaces, tables: seq<map<Prefix, Route>>, a: Addr, path: seq<NodeId>) {
    |path| >= 2 && path[0] == path[|path| - 1] && forall k {:trigger SentAt(net, faces, tables, a, path, k)} :: 0 <= k < |path| - 1 ==> SentAt(net, faces, tables, a, path, k)
  }

  ghost predicate SentAt(net: Net, faces: Interfaces, tables: seq<map<Prefix, Route>>, a: Addr, path: seq<NodeId>, k: nat)
    requires k + 1 < |path|
  {
    SendsOn(net, faces, tables, a, path[k], path[k + 1])
  }

  /** The owner of an interface address accepts packets for it: no other interface of its matches the address better. */
  ghost predicate OwnersAccept(net: Net, faces: Interfaces) {
    forall a :: a in net.owner && net.owner[a] < |faces| ==> Accepts(Config(faces[net.owner[a]], map[]), a)
  }

  /** The node uses a static route for a. */
  ghost predicate UsesStatic(t: map<Prefix, Route>, a: Addr) {
    exists p :: BestMatch(t.Keys, a, p) && t[p].kind == Static
  }

  /** The node uses the route for prefix p, which it learned. */
  ghost predicate UsesLearned(t: map<Prefix, Route>, a: Addr, p: Prefix) {
    BestMatch(t.Keys, a, p) && t[p].kind == Learned
  }

  /** Prefix p at one node is followed by q at the next: more specific, or the same and cheaper. */
  ghost predicate Closer(t: map<Prefix, Route>, p: Prefix, t': map<Prefix, Route>, q: Prefix) {
    p in t && q in t' && (q.bits > p.bits || (q == p && t'[q].cost < t[p].cost))
  }

  lemma CloserTransitive(t: map<Prefix, Route>, p: Prefix, t': map<Prefix, Route>, q: Prefix, t'': map<Prefix, Route>, r: Prefix)
    requires Closer(t, p, t', q) && Closer(t', q, t'', r)
    ensures Closer(t, p, t'', r)
  {
  }

  // ---------- Prefixes stay masked ----------

  ghost predicate AllMasked(tables: seq<map<Prefix, Route>>) {
    forall n, p :: 0 <= n < |tables| && p in tables[n] ==> Masked(p)
  }

  lemma {:induction false} CarriedHasOrigin(net: Net, orig: seq<Option<Route>>, n: NodeId, c: nat) returns (m: NodeId)
    requires WellFormed(net) && |orig| == |net.outs| && n < |orig| && Carried(net, orig, n, c)
    ensures m < |orig| && orig[m].Some?
    decreases c
  {
    if c == 0 {
      m := n;
    } else {
      var l :| IsLink(net, l) && Receiver(net, l) == n && Crosses(net, orig, l, c - 1);
      m := CarriedHasOrigin(net, orig, Sender(net, l), c - 1);
    }
  }

  /** Every prefix in a table was configured somewhere. */
  lemma KnownConfigured(net: Net, states: seq<Sys>, events: seq<Event>, i: nat, n: NodeId, p: Prefix) returns (m: NodeId)
    requires FifoRun(net, states, events) && i < |states| && n < |net.outs| && p in states[i].tables[n]
    ensures m < |states[0].tables| && p in states[0].tables[m]
  {
    RunOrdered(net, states, events, i, p);
    var orig, tab := TabOf(states[0].tables, p), TabOf(states[i].tables, p);
    assert tab[n] == Lookup(states[i].tables[n], p) && KeptSlot(net, orig, n, tab[n]);
    assert orig[n].Some? ==> Carried(net, orig, n, 0);
    m := CarriedHasOrigin(net, orig, n, if orig[n].Some? then 0 else tab[n].value.cost);
    assert orig[m] == Lookup(states[0].tables[m], p);
  }

  lemma KnownMasked(net: Net, states: seq<Sys>, events: seq<Event>, i: nat, n: NodeId, p: Prefix)
    requires FifoRun(net, states, events) && i < |states| && n < |net.outs| && p in states[i].tables[n] && AllMasked(states[0].tables)
    ensures Masked(p)
  {
    var m := KnownConfigured(net, states, events, i, n, p);
  }

  // ---------- One hop ----------

  /** A node that sends a packet on uses a static route, or a learned one that leads to the receiver. */
  lemma HopKinds(net: Net, faces: Interfaces, tables: seq<map<Prefix, Route>>, a: Addr, n: NodeId, m: NodeId, m': NodeId) returns (p: Prefix)
    requires SendsOn(net, faces, tables, a, n, m) && SendsOn(net, faces, tables, a, m, m') && OwnersAccept(net, faces)
    ensures BestMatch(tables[n].Keys, a, p) && tables[n][p].kind != Local
    ensures tables[n][p].next in net.owner && net.owner[tables[n][p].next] == m
  {
    var c := ConfigOf(faces, tables, n);
    var hop :| IsNext(c, a, hop) && hop.Hop? && Reaches(net, n, Target(hop, a)) && net.owner[Target(hop, a)] == m;
    p :| BestMatch(c.table.Keys, a, p) && hop == Forwarding.Hop(c.table[p].next, c.table[p].kind);
    assert hop.kind == Local ==> Accepts(Config(faces[m], map[]), a);
  }

  /** Over a learned next hop the receiver's own best match is closer to the destination. */
  lemma LearnedHopCloser(net: Net, states: seq<Sys>, events: seq<Event>, i: nat, a: Addr, n: NodeId, p: Prefix, m: NodeId, q: Prefix)
    requires FifoRun(net, states, events) && i < |states| && AllMasked(states[0].tables) && n < |net.outs| && m < |net.outs|
    requires UsesLearned(states[i].tables[n], a, p) && BestMatch(states[i].tables[m].Keys, a, q)
    requires states[i].tables[n][p].next in net.owner && net.owner[states[i].tables[n][p].next] == m
    ensures Closer(states[i].tables[n], p, states[i].tables[m], q)
  {
    LearnedStepDown(net, states, events, i, n, p, m);
    if q.bits == p.bits {
      KnownMasked(net, states, events, i, n, p);
      KnownMasked(net, states, events, i, m, q);
      SameLengthSamePrefix(p, q, a);
    }
  }

  lemma LearnedStepDown(net: Net, states: seq<Sys>, events: seq<Event>, i: nat, n: NodeId, p: Prefix, m: NodeId)
    requires FifoRun(net, states, events) && i < |states| && n < |net.outs| && m < |net.outs|
    requires p in states[i].tables[n] && states[i].tables[n][p].kind == Learned
    requires states[i].tables[n][p].next in net.owner && net.owner[states[i].tables[n][p].next] == m
    ensures p in states[i].tables[m] && states[i].tables[m][p].cost < states[i].tables[n][p].cost
  {
    LearnedHereOnly(net, states, events, i, n, p);
    RunOrdered(net, states, events, i, p);
    var orig, tab := TabOf(states[0].tables, p), TabOf(states[i].tables, p);
    assert orig[n] == Lookup(states[0].tables[n], p) && tab[n] == Lookup(states[i].tables[n], p);
    assert Downhill(net, orig, tab, n) && tab[m] == Lookup(states[i].tables[m], p);
  }

  // ---------- Loops ----------

  /** No node of the path uses a static route. */
  ghost predicate NoStatics(tables: seq<map<Prefix, Route>>, a: Addr, path: seq<NodeId>) {
    forall k :: 0 <= k < |path| && path[k] < |tables| ==> !UsesStatic(tables[path[k]], a)
  }

  /** Each node of a loop without static routes learned its best match from the next node. */
  lemma LoopHop(net: Net, faces: Interfaces, tables: seq<map<Prefix, Route>>, a: Addr, path: seq<NodeId>, k: nat) returns (p: Prefix)
    requires AddressLoop(net, faces, tables, a, path) && OwnersAccept(net, faces) && NoStatics(tables, a, path) && k + 1 < |path|
    ensures path[k] < |tables| && path[k + 1] < |tables| && UsesLearned(tables[path[k]], a, p)
    ensures tables[path[k]][p].next in net.owner && net.owner[tables[path[k]][p].next] == path[k + 1]
  {
    var j := if k + 2 < |path| then k + 1 else 0;
    assert path[j] == path[k + 1];
    assert SentAt(net, faces, tables, a, path, k) && SentAt(net, faces, tables, a, path, j);
    p := HopKinds(net, faces, tables, a, path[k], path[k + 1], path[j + 1]);
    assert !UsesStatic(tables[path[k]], a);
  }

  /** Around such a loop every later node is closer to the destination. */
  lemma {:induction false} CloserAround(net: Net, faces: Interfaces, states: seq<Sys>, events: seq<Event>, i: nat, a: Addr, path: seq<NodeId>, p: Prefix, k: nat)
    returns (q: Prefix)
    requires FifoRun(net, states, events) && i < |states| && AllMasked(states[0].tables)
    requires AddressLoop(net, faces, states[i].tables, a, path) && OwnersAccept(net, faces) && NoStatics(states[i].tables, a, path)
    requires 0 < k < |path| && path[0] < |net.outs| && BestMatch(states[i].tables[path[0]].Keys, a, p)
    ensures path[k] < |net.outs| && BestMatch(states[i].tables[path[k]].Keys, a, q)
    ensures Closer(states[i].tables[path[0]], p, states[i].tables[path[k]], q)
    decreases k
  {
    var tables := states[i].tables;
    var r := LoopHop(net, faces, tables, a, path, k - 1);
    if k == |path| - 1 {
      q := p;
    } else {
      q := LoopHop(net, faces, tables, a, path, k);
    }
    LearnedHopCloser(net, states, events, i, a, path[k - 1], r, path[k], q);
    if k > 1 {
      var r' := CloserAround(net, faces, states, events, i, a, path, p, k - 1);
      UniqueMatch(net, states, events, i, a, path[k - 1], r, r');
      CloserTransitive(tables[path[0]], p, tables[path[k - 1]], r, tables[path[k]], q);
    } else {
      UniqueMatch(net, states, events, i, a, path[0], r, p);
    }
  }

  lemma UniqueMatch(net: Net, states: seq<Sys>, events: seq<Event>, i: nat, a: Addr, n: NodeId, p: Prefix, q: Prefix)
    requires FifoRun(net, states, events) && i < |states| && n < |net.outs| && AllMasked(states[0].tables)
    requires BestMatch(states[i].tables[n].Keys, a, p) && BestMatch(states[i].tables[n].Keys, a, q)
    ensures p == q
  {
    KnownMasked(net, states, events, i, n, p);
    KnownMasked(net, states, events, i, n, q);
    SameLengthSamePrefix(p, q, a);
  }

  /**
   In every state of every run on ordered links, packets for any address, each node using
   its own most specific route, go round only if some node on the way uses a static route.
   */
  lemma AddressLoopNeedsStatic(net: Net, faces: Interfaces, states: seq<Sys>, events: seq<Event>, i: nat, a: Addr, path: seq<NodeId>)
    requires FifoRun(net, states, events) && i < |states| && AllMasked(states[0].tables) && OwnersAccept(net, faces)
    requires AddressLoop(net, faces, states[i].tables, a, path)
    ensures !NoStatics(states[i].tables, a, path)
  {
    if NoStatics(states[i].tables, a, path) {
      var tables := states[i].tables;
      var p := LoopHop(net, faces, tables, a, path, 0);
      var q := CloserAround(net, faces, states, events, i, a, path, p, |path| - 1);
      UniqueMatch(net, states, events, i, a, path[0], p, q);
    }
  }

  /** Where no static route is configured at all, no packet ever goes round, whatever its destination. */
  lemma WithoutStaticsLoopFree(net: Net, faces: Interfaces, states: seq<Sys>, events: seq<Event>, i: nat, a: Addr, path: seq<NodeId>)
    requires FifoRun(net, states, events) && i < |states| && AllMasked(states[0].tables) && OwnersAccept(net, faces)
    requires forall n, p :: 0 <= n < |states[0].tables| && p in states[0].tables[n] ==> states[0].tables[n][p].kind == Local
    ensures !AddressLoop(net, faces, states[i].tables, a, path)
  {
    forall k | 0 <= k < |path| && path[k] < |states[i].tables| ensures !UsesStatic(states[i].tables[path[k]], a) {
      StaysUnstatic(net, states, events, i, path[k], a);
    }
    if AddressLoop(net, faces, states[i].tables, a, path) {
      AddressLoopNeedsStatic(net, faces, states, events, i, a, path);
    }
  }

  lemma StaysUnstatic(net: Net, states: seq<Sys>, events: seq<Event>, i: nat, n: NodeId, a: Addr)
    requires FifoRun(net, states, events) && i < |states| && n < |net.outs|
    requires forall p :: p in states[0].tables[n] ==> states[0].tables[n][p].kind == Local
    ensures !UsesStatic(states[i].tables[n], a)
  {
    forall p | p in states[i].tables[n] ensures states[i].tables[n][p].kind != Static {
      RunOrdered(net, states, events, i, p);
      var orig, tab := TabOf(states[0].tables, p), TabOf(states[i].tables, p);
      assert orig[n] == Lookup(states[0].tables[n], p) && tab[n] == Lookup(states[i].tables[n], p) && KeptSlot(net, orig, n, tab[n]);
    }
  }

  // ---------- Which static routes give a loop ----------

  /** No configured prefix that contains a is more specific than p. */
  ghost predicate MostSpecific(tables: seq<map<Prefix, Route>>, a: Addr, p: Prefix) {
    Contains(p, a) && forall n, q :: 0 <= n < |tables| && q in tables[n] && Contains(q, a) ==> q.bits <= p.bits
  }

  /** A node that knows the most specific prefix uses it, in every state of every run. */
  lemma UsesMostSpecific(net: Net, states: seq<Sys>, events: seq<Event>, i: nat, n: NodeId, a: Addr, p: Prefix)
    requires FifoRun(net, states, events) && i < |states| && n < |net.outs| && p in states[i].tables[n]
    requires MostSpecific(states[0].tables, a, p)
    ensures BestMatch(states[i].tables[n].Keys, a, p)
  {
    forall q | q in states[i].tables[n].Keys && Contains(q, a) ensures q.bits <= p.bits {
      var m := KnownConfigured(net, states, events, i, n, q);
    }
  }

  /** A loop for the most specific prefix is a loop for every address in it that is nobody's own. */
  lemma LoopForAddress(net: Net, faces: Interfaces, states: seq<Sys>, events: seq<Event>, i: nat, a: Addr, p: Prefix, path: seq<NodeId>)
    requires FifoRun(net, states, events) && i < |states| && |faces| == |net.outs| && Loop(net, states[i].tables, p, path)
    requires MostSpecific(states[0].tables, a, p) && forall n :: 0 <= n < |faces| ==> a !in faces[n].Values
    ensures AddressLoop(net, faces, states[i].tables, a, path)
  {
    var tables := states[i].tables;
    forall k | 0 <= k < |path| - 1 ensures SentAt(net, faces, tables, a, path, k) {
      assert RipLoops.Hop(net, tables, p, path, k);
      var n := path[k];
      var c, hop := ConfigOf(faces, tables, n), Forwarding.Hop(tables[n][p].next, tables[n][p].kind);
      UsesMostSpecific(net, states, events, i, n, a, p);
      assert !Accepts(c, a);
      assert IsNext(c, a, hop) && Target(hop, a) == tables[n][p].next;
    }
  }

  /**
   For an address whose most specific configured prefix has a snare, some run on ordered
   links ends with its packets going round.
   */
  lemma SnareLoopsAddress(net: Net, faces: Interfaces, s: Sys, a: Addr, p: Prefix, core: set<NodeId>)
    returns (states: seq<Sys>, events: seq<Event>, path: seq<NodeId>)
    requires Begins(net, s) && |faces| == |net.outs| && Snare(net, TabOf(s.tables, p), core)
    requires MostSpecific(s.tables, a, p) && forall n :: 0 <= n < |faces| ==> a !in faces[n].Values
    ensures OrderedRun(net, s, states, events) && AddressLoop(net, faces, states[|events|].tables, a, path)
  {
    states, events, path := SnareLoops(net, s, p, core);
    LoopForAddress(net, faces, states, events, |events|, a, p, path);
  }
}
