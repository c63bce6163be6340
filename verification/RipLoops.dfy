/**
 Forwarding loops.  Learned next hops never form a loop, but a static route may lead to
 any link neighbour, also to one that learned the prefix from the static route's own node.  On
 links that keep order, some run has a forwarding loop for a prefix exactly if some nodes
 with configured routes for it all lead to nodes that only need news from these nodes.
 */
module RipLoops {
  import opened Options
  import opened RipCore
  import opened RipSlice
  import opened RipRuns
  import opened RipConfigured
  import opened RipLoopFree

  /** n can send packets to address a, and a belongs to another node. */
  ghost predicate Reaches(net: Net, n: NodeId, a: Addr) {
    n < |net.near| && a in net.near[n] && a in net.owner && net.owner[a] != n
  }

  /**
   The slot of n sends packets on to another node.  A local route delivers them itself, and
   a next hop that is no link neighbour of n drops them.
   */
  ghost predicate Onwards(net: Net, slot: Option<Route>, n: NodeId) {
    slot.Some? && slot.value.kind != Local && Reaches(net, n, slot.value.next)
  }

  ghost function Heir(net: Net, slot: Option<Route>, n: NodeId): (m: NodeId)
    requires Onwards(net, slot, n)
    ensures m != n
  {
    net.owner[slot.value.next]
  }

  ghost predicate Hop(net: Net, tables: seq<map<Prefix, Route>>, p: Prefix, path: seq<NodeId>, k: nat)
    requires k + 1 < |path|
  {
    && path[k] < |tables| && Onwards(net, Lookup(tables[path[k]], p), path[k])
    && Heir(net, Lookup(tables[path[k]], p), path[k]) == path[k + 1]
  }

  /** Packets for p go round: each node of `path` forwards them to the one after it, and the last is the first. */
  ghost predicate Loop(net: Net, tables: seq<map<Prefix, Route>>, p: Prefix, path: seq<NodeId>) {
    |path| >= 2 && path[0] == path[|path| - 1] && forall k {:trigger Hop(net, tables, p, path, k)} :: 0 <= k < |path| - 1 ==> Hop(net, tables, p, path, k)
  }

  /** News that starts at a node in core can reach n over c hops, through nodes without a configured route. */
  ghost predicate FedFrom(net: Net, orig: seq<Option<Route>>, core: set<NodeId>, n: NodeId, c: nat)
    requires WellFormed(net) && |orig| == |net.outs| && n < |orig|
    decreases c
  {
    if c == 0 then n in core
    else orig[n].None? && exists l :: IsLink(net, l) && Receiver(net, l) == n && !Dead(net, orig, l) && FedFrom(net, orig, core, Sender(net, l), c - 1)
  }

  /** n's configured route leads to another node that news from core can reach. */
  ghost predicate Snared(net: Net, orig: seq<Option<Route>>, core: set<NodeId>, n: NodeId)
    requires WellFormed(net) && |orig| == |net.outs|
  {
    && n < |orig| && Onwards(net, orig[n], n) && Heir(net, orig[n], n) < |orig|
    && exists c: nat :: c < INFTY && FedFrom(net, orig, core, Heir(net, orig[n], n), c)
  }

  /** Configured routes that lead, one and all, to nodes that news from their own nodes can reach. */
  ghost predicate Snare(net: Net, orig: seq<Option<Route>>, core: set<NodeId>)
    requires WellFormed(net) && |orig| == |net.outs|
  {
    core != {} && forall n :: n in core ==> Snared(net, orig, core, n)
  }

  // ---------- Sets that packets cannot leave ----------

  /** x sends packets on to a node in v. */
  ghost predicate StaysIn(net: Net, tab: seq<Option<Route>>, v: set<NodeId>, x: NodeId) {
    x < |tab| && Onwards(net, tab[x], x) && Heir(net, tab[x], x) in v
  }

  ghost predicate Closed(net: Net, tab: seq<Option<Route>>, v: set<NodeId>) {
    v != {} && forall x {:trigger StaysIn(net, tab, v, x)} :: x in v ==> StaysIn(net, tab, v, x)
  }

  lemma LoopCloses(net: Net, tables: seq<map<Prefix, Route>>, p: Prefix, path: seq<NodeId>) returns (v: set<NodeId>)
    requires Loop(net, tables, p, path)
    ensures Closed(net, TabOf(tables, p), v)
  {
    v := set k | 0 <= k < |path| :: path[k];
    var tab := TabOf(tables, p);
    assert path[0] in v;
    forall x | x in v ensures StaysIn(net, tab, v, x) {
      var k :| 0 <= k < |path| && path[k] == x;
      var j := if k == |path| - 1 then 0 else k;
      assert Hop(net, tables, p, path, j) && path[j + 1] in v;
    }
  }

  /** Following packets inside a closed set meets some node again. */
  lemma {:induction false} Chase(net: Net, tables: seq<map<Prefix, Route>>, p: Prefix, v: set<NodeId>, walk: seq<NodeId>, seen: set<NodeId>)
    returns (path: seq<NodeId>)
    requires Closed(net, TabOf(tables, p), v) && walk != [] && seen <= v && forall x :: x in walk <==> x in seen
    requires forall k {:trigger Hop(net, tables, p, walk, k)} :: 0 <= k < |walk| - 1 ==> Hop(net, tables, p, walk, k)
    ensures Loop(net, tables, p, path)
    decreases v - seen
  {
    var last := walk[|walk| - 1];
    assert last in walk && StaysIn(net, TabOf(tables, p), v, last);
    var slot := TabOf(tables, p)[last];
    var next := Heir(net, slot, last);
    var more := walk + [next];
    assert slot == Lookup(tables[last], p);
    forall k | 0 <= k < |more| - 1 ensures Hop(net, tables, p, more, k) {
      assert k < |walk| - 1 ==> Hop(net, tables, p, walk, k);
    }
    if next in seen {
      var a :| 0 <= a < |walk| && walk[a] == next;
      path := more[a..];
      forall k | 0 <= k < |path| - 1 ensures Hop(net, tables, p, path, k) {
        assert Hop(net, tables, p, more, a + k);
      }
    } else {
      path := Chase(net, tables, p, v, more, seen + {next});
    }
  }

  // ---------- A loop snares ----------

  /** Inside a closed set, news of each learned slot comes from the set's configured nodes. */
  lemma {:induction false} FedInside(net: Net, orig: seq<Option<Route>>, tab: seq<Option<Route>>, v: set<NodeId>, core: set<NodeId>, x: NodeId)
    returns (c: nat)
    requires WellFormed(net) && KeptTab(net, orig, tab) && (forall n :: 0 <= n < |tab| ==> Downhill(net, orig, tab, n))
    requires Closed(net, tab, v) && x in v && forall y :: y in core <==> y in v && y < |orig| && orig[y].Some?
    ensures x < |tab| && tab[x].Some? && c <= tab[x].value.cost && FedFrom(net, orig, core, x, c)
    decreases if x < |tab| && tab[x].Some? then tab[x].value.cost else 0
  {
    assert StaysIn(net, tab, v, x);
    if orig[x].Some? {
      c := 0;
    } else {
      assert KeptSlot(net, orig, x, tab[x]) && Downhill(net, orig, tab, x);
      var l :| IsLink(net, l) && Receiver(net, l) == x && l.src == tab[x].value.next && !Dead(net, orig, l);
      assert Heir(net, tab[x], x) == Sender(net, l);
      c := FedInside(net, orig, tab, v, core, Sender(net, l));
      c := c + 1;
    }
  }

  lemma {:induction false} FedFromSome(net: Net, orig: seq<Option<Route>>, core: set<NodeId>, n: NodeId, c: nat)
    requires WellFormed(net) && |orig| == |net.outs| && n < |orig| && FedFrom(net, orig, core, n, c)
    ensures core != {}
    decreases c
  {
    if c > 0 {
      var l :| IsLink(net, l) && Receiver(net, l) == n && !Dead(net, orig, l) && FedFrom(net, orig, core, Sender(net, l), c - 1);
      FedFromSome(net, orig, core, Sender(net, l), c - 1);
    }
  }

  lemma ClosedSnares(net: Net, orig: seq<Option<Route>>, tab: seq<Option<Route>>, v: set<NodeId>) returns (core: set<NodeId>)
    requires WellFormed(net) && Origin(net, orig) && KeptTab(net, orig, tab) && (forall n :: 0 <= n < |tab| ==> Downhill(net, orig, tab, n))
    requires Closed(net, tab, v)
    ensures Snare(net, orig, core)
  {
    core := set x | x in v && x < |orig| && orig[x].Some?;
    var x :| x in v;
    var c := FedInside(net, orig, tab, v, core, x);
    FedFromSome(net, orig, core, x, c);
    forall n | n in core ensures Snared(net, orig, core, n) {
      assert StaysIn(net, tab, v, n) && KeptSlot(net, orig, n, tab[n]);
      var m := Heir(net, tab[n], n);
      var d := FedInside(net, orig, tab, v, core, m);
      assert KeptSlot(net, orig, m, tab[m]);
    }
  }

  /** Without a snare no state of any ordered run has a loop. */
  lemma LoopSnares(net: Net, states: seq<Sys>, events: seq<Event>, i: nat, p: Prefix, path: seq<NodeId>) returns (core: set<NodeId>)
    requires FifoRun(net, states, events) && i < |states| && Loop(net, states[i].tables, p, path)
    ensures Snare(net, TabOf(states[0].tables, p), core)
  {
    RunOrdered(net, states, events, i, p);
    var v := LoopCloses(net, states[i].tables, p, path);
    core := ClosedSnares(net, TabOf(states[0].tables, p), TabOf(states[i].tables, p), v);
  }

  // ---------- A snare loops ----------

  /** A learned slot that leads to a configured node leads to one in core. */
  ghost predicate FedSlot(net: Net, orig: seq<Option<Route>>, core: set<NodeId>, slot: Option<Route>) {
    slot.Some? && slot.value.next in net.owner && net.owner[slot.value.next] < |orig| && orig[net.owner[slot.value.next]].Some? ==>
      net.owner[slot.value.next] in core
  }

  ghost predicate Fed(net: Net, orig: seq<Option<Route>>, core: set<NodeId>, tab: seq<Option<Route>>) {
    |tab| == |orig| && forall k :: 0 <= k < |tab| && orig[k].None? ==> FedSlot(net, orig, core, tab[k])
  }

  /** The start of the runs built here. */
  ghost predicate Begins(net: Net, s: Sys) {
    WellFormed(net) && Symmetric(net) && Cabled(net) && Init(net, s) && Shape(net, s) && AllUndisturbed(net, s)
  }

  /** A run from s that ended quietly after news of p went out from core only. */
  ghost predicate FedRun(net: Net, s: Sys, p: Prefix, core: set<NodeId>, states: seq<Sys>, events: seq<Event>)
    requires Begins(net, s)
  {
    && OrderedRun(net, s, states, events) && states[|events|].air == []
    && Fed(net, TabOf(s.tables, p), core, TabOf(states[|events|].tables, p))
  }

  /** The advertisement of a node that costs less than c is not poisoned for, and is adopted by, a node that costs more than c. */
  lemma Feeds(net: Net, orig: seq<Option<Route>>, tab: seq<Option<Route>>, l: Link, c: nat)
    requires WellFormed(net) && KeptTab(net, orig, tab) && (forall n :: 0 <= n < |tab| ==> Downhill(net, orig, tab, n))
    requires IsLink(net, l) && !Dead(net, orig, l) && orig[Receiver(net, l)].None? && c < INFTY
    requires tab[Sender(net, l)].Some? && tab[Sender(net, l)].value.cost < c
    requires tab[Receiver(net, l)].Some? ==> tab[Receiver(net, l)].value.cost > c
    ensures var r := React(tab[Receiver(net, l)], l.src, Announce(tab[Sender(net, l)].value, l.dst)).table;
            r.Some? && r.value.cost <= c && r.value.next == l.src
  {
    var x, m := Sender(net, l), Receiver(net, l);
    assert KeptSlot(net, orig, x, tab[x]) && Downhill(net, orig, tab, x);
    assert tab[x].value.next != l.dst;
  }

  lemma LastOrdered(net: Net, s: Sys, p: Prefix, states: seq<Sys>, events: seq<Event>)
    requires Begins(net, s) && OrderedRun(net, s, states, events)
    ensures var orig, tab := TabOf(s.tables, p), TabOf(states[|events|].tables, p);
            Origin(net, orig) && KeptTab(net, orig, tab) && forall n :: 0 <= n < |tab| ==> Downhill(net, orig, tab, n)
  {
    RunOrdered(net, states, events, |events|, p);
  }

  lemma FedLink(net: Net, orig: seq<Option<Route>>, core: set<NodeId>, m: NodeId, c: nat) returns (l: Link)
    requires WellFormed(net) && |orig| == |net.outs| && m < |orig| && c > 0 && FedFrom(net, orig, core, m, c)
    ensures IsLink(net, l) && Receiver(net, l) == m && !Dead(net, orig, l) && orig[m].None? && FedFrom(net, orig, core, Sender(net, l), c - 1)
  {
    l :| IsLink(net, l) && Receiver(net, l) == m && !Dead(net, orig, l) && FedFrom(net, orig, core, Sender(net, l), c - 1);
  }

  lemma StillConfigured(net: Net, s: Sys, p: Prefix, states: seq<Sys>, events: seq<Event>, m: NodeId)
    requires Begins(net, s) && OrderedRun(net, s, states, events) && m < |net.outs| && p in s.tables[m]
    ensures p in states[|events|].tables[m] && states[|events|].tables[m][p].cost == 0
  {
    LastOrdered(net, s, p, states, events);
    var orig, tab := TabOf(s.tables, p), TabOf(states[|events|].tables, p);
    assert orig[m] == Lookup(s.tables[m], p) && tab[m] == Lookup(states[|events|].tables[m], p) && KeptSlot(net, orig, m, tab[m]);
  }

  /** News from core is brought to m, and whoever knew p still does. */
  lemma {:induction false} Feed(net: Net, s: Sys, p: Prefix, core: set<NodeId>, states: seq<Sys>, events: seq<Event>, m: NodeId, c: nat)
    returns (states': seq<Sys>, events': seq<Event>)
    requires Begins(net, s) && FedRun(net, s, p, core, states, events) && m < |net.outs| && c < INFTY
    requires FedFrom(net, TabOf(s.tables, p), core, m, c) && forall n :: n in core ==> n < |net.outs| && p in s.tables[n]
    ensures FedRun(net, s, p, core, states', events')
    ensures Knowing(states[|events|].tables, p) <= Knowing(states'[|events'|].tables, p)
    ensures p in states'[|events'|].tables[m] && states'[|events'|].tables[m][p].cost <= c
    decreases c
  {
    var orig := TabOf(s.tables, p);
    if c == 0 {
      states', events' := states, events;
      StillConfigured(net, s, p, states, events, m);
    } else {
      var l := FedLink(net, orig, core, m, c);
      states', events' := Feed(net, s, p, core, states, events, Sender(net, l), c - 1);
      states', events' := FeedOver(net, s, p, core, states', events', l, c);
    }
  }

  /** News is brought over one link, unless its receiver is already as well off. */
  lemma FeedOver(net: Net, s: Sys, p: Prefix, core: set<NodeId>, states: seq<Sys>, events: seq<Event>, l: Link, c: nat)
    returns (states': seq<Sys>, events': seq<Event>)
    requires Begins(net, s) && FedRun(net, s, p, core, states, events) && IsLink(net, l) && 0 < c < INFTY
    requires !Dead(net, TabOf(s.tables, p), l) && TabOf(s.tables, p)[Receiver(net, l)].None? && FedFrom(net, TabOf(s.tables, p), core, Sender(net, l), c - 1)
    requires p in states[|events|].tables[Sender(net, l)] && states[|events|].tables[Sender(net, l)][p].cost < c
    ensures FedRun(net, s, p, core, states', events')
    ensures Knowing(states[|events|].tables, p) <= Knowing(states'[|events'|].tables, p)
    ensures p in states'[|events'|].tables[Receiver(net, l)] && states'[|events'|].tables[Receiver(net, l)][p].cost <= c
  {
    var m, t: seq<map<Prefix, Route>> := Receiver(net, l), states[|events|].tables;
    if p in t[m] && t[m][p].cost <= c {
      states', events' := states, events;
    } else {
      var orig, tab := TabOf(s.tables, p), TabOf(t, p);
      LastOrdered(net, s, p, states, events);
      assert tab[m] == Lookup(t[m], p) && tab[Sender(net, l)] == Lookup(t[Sender(net, l)], p);
      Feeds(net, orig, tab, l, c);
      states', events' := AdvertiseOnce(net, s, states, events, l, p);
      FedOnce(net, orig, core, l, t, states'[|events'|].tables, p, c);
    }
  }

  ghost function Knowing(tables: seq<map<Prefix, Route>>, p: Prefix): (r: set<NodeId>) {
    set n: nat | n < |tables| && p in tables[n]
  }

  lemma KnowingSlots(t: seq<map<Prefix, Route>>, p: Prefix)
    ensures forall n: nat :: n in Knowing(t, p) <==> n < |t| && TabOf(t, p)[n].Some?
  {
    forall n: nat | n < |t| ensures TabOf(t, p)[n] == Lookup(t[n], p) {
    }
  }

  /** One slot of p changed, to a route that leads over l. */
  lemma FedOnce(net: Net, orig: seq<Option<Route>>, core: set<NodeId>, l: Link, t: seq<map<Prefix, Route>>, t': seq<map<Prefix, Route>>, p: Prefix, c: nat)
    requires WellFormed(net) && IsLink(net, l) && |orig| == |net.outs| == |t| && Fed(net, orig, core, TabOf(t, p))
    requires c > 0 && FedFrom(net, orig, core, Sender(net, l), c - 1)
    requires exists r: Route :: r.next == l.src && r.cost <= c && TabOf(t', p) == TabOf(t, p)[Receiver(net, l) := Some(r)]
    ensures Fed(net, orig, core, TabOf(t', p)) && Knowing(t, p) <= Knowing(t', p)
    ensures p in t'[Receiver(net, l)] && t'[Receiver(net, l)][p].cost <= c
  {
    var tab, tab' := TabOf(t, p), TabOf(t', p);
    assert orig[Sender(net, l)].Some? ==> Sender(net, l) in core;
    forall n | n in Knowing(t, p) ensures n in Knowing(t', p) {
      assert tab[n] == Lookup(t[n], p) && tab'[n] == Lookup(t'[n], p);
    }
    assert tab'[Receiver(net, l)] == Lookup(t'[Receiver(net, l)], p);
  }

  /** Every route of d leads to a node in `known`. */
  ghost predicate Led(net: Net, orig: seq<Option<Route>>, d: set<NodeId>, known: set<NodeId>) {
    forall n :: n in d ==> n < |orig| && Onwards(net, orig[n], n) && Heir(net, orig[n], n) in known
  }

  /** News is brought to where each route of d leads. */
  lemma {:induction false} FeedAll(net: Net, s: Sys, p: Prefix, core: set<NodeId>, d: set<NodeId>) returns (states: seq<Sys>, events: seq<Event>)
    requires Begins(net, s) && Snare(net, TabOf(s.tables, p), core) && d <= core
    ensures FedRun(net, s, p, core, states, events)
    ensures Led(net, TabOf(s.tables, p), d, Knowing(states[|events|].tables, p))
    decreases d
  {
    var orig := TabOf(s.tables, p);
    if d == {} {
      states, events := Silence(net, s, [s], []);
    } else {
      var n :| n in d;
      var before, past := FeedAll(net, s, p, core, d - {n});
      states, events := FeedFor(net, s, p, core, before, past, n);
      assert Led(net, orig, d - {n}, Knowing(before[|past|].tables, p));
    }
  }

  /** News is brought to where the route of n leads. */
  lemma FeedFor(net: Net, s: Sys, p: Prefix, core: set<NodeId>, states: seq<Sys>, events: seq<Event>, n: NodeId)
    returns (states': seq<Sys>, events': seq<Event>)
    requires Begins(net, s) && Snare(net, TabOf(s.tables, p), core) && n in core && FedRun(net, s, p, core, states, events)
    ensures FedRun(net, s, p, core, states', events')
    ensures Knowing(states[|events|].tables, p) <= Knowing(states'[|events'|].tables, p)
    ensures Led(net, TabOf(s.tables, p), {n}, Knowing(states'[|events'|].tables, p))
  {
    var orig := TabOf(s.tables, p);
    assert Snared(net, orig, core, n);
    var c: nat :| c < INFTY && FedFrom(net, orig, core, Heir(net, orig[n], n), c);
    forall k | k in core ensures k < |net.outs| && p in s.tables[k] {
      assert Snared(net, orig, core, k) && orig[k] == Lookup(s.tables[k], p);
    }
    states', events' := Feed(net, s, p, core, states, events, Heir(net, orig[n], n), c);
  }

  /** News comes from link neighbours. */
  lemma ViaNear(net: Net, orig: seq<Option<Route>>, x: NodeId, a: Addr)
    requires WellFormed(net) && Mutual(net) && Cabled(net) && |orig| == |net.outs| && x < |orig| && Via(net, orig, x, a)
    ensures x < |net.near| && a in net.near[x] && a in net.owner
  {
    var l :| IsLink(net, l) && Receiver(net, l) == x && l.src == a && !Dead(net, orig, l);
    assert IsLink(net, Flip(l)) && Flip(l) in net.outs[x];
  }

  /** The snare's nodes and all that learned from them are closed. */
  lemma FedCloses(net: Net, orig: seq<Option<Route>>, tab: seq<Option<Route>>, core: set<NodeId>, known: set<NodeId>) returns (v: set<NodeId>)
    requires WellFormed(net) && Mutual(net) && Cabled(net)
    requires Origin(net, orig) && KeptTab(net, orig, tab) && (forall n :: 0 <= n < |tab| ==> Downhill(net, orig, tab, n))
    requires Snare(net, orig, core) && Fed(net, orig, core, tab) && Led(net, orig, core, known)
    requires forall n: nat :: n in known <==> n < |tab| && tab[n].Some?
    ensures Closed(net, tab, v)
  {
    v := core + set n | n in known && n < |orig| && orig[n].None?;
    forall x | x in v ensures StaysIn(net, tab, v, x) {
      if x in core {
        assert Snared(net, orig, core, x);
        assert KeptSlot(net, orig, x, tab[x]);
        var m := Heir(net, orig[x], x);
        var c: nat :| c < INFTY && FedFrom(net, orig, core, m, c);
        assert m in core || orig[m].None?;
      } else {
        assert KeptSlot(net, orig, x, tab[x]) && Downhill(net, orig, tab, x) && FedSlot(net, orig, core, tab[x]);
        ViaNear(net, orig, x, tab[x].value.next);
      }
    }
  }

  /** A snare gives a run on ordered links that ends with packets going round. */
  lemma SnareLoops(net: Net, s: Sys, p: Prefix, core: set<NodeId>) returns (states: seq<Sys>, events: seq<Event>, path: seq<NodeId>)
    requires Begins(net, s) && Snare(net, TabOf(s.tables, p), core)
    ensures OrderedRun(net, s, states, events) && Loop(net, states[|events|].tables, p, path)
  {
    states, events := FeedAll(net, s, p, core, core);
    LastOrdered(net, s, p, states, events);
    var t := states[|events|].tables;
    var orig, tab := TabOf(s.tables, p), TabOf(t, p);
    KnowingSlots(t, p);
    var v := FedCloses(net, orig, tab, core, Knowing(t, p));
    var x :| x in v;
    path := Chase(net, t, p, v, [x], {x});
  }

  /** The exact condition: some ordered run has a forwarding loop for p if and only if the configuration has a snare for p. */
  lemma LoopIffSnare(net: Net, s: Sys, p: Prefix)
    requires Begins(net, s)
    ensures (exists states: seq<Sys>, events, i: nat, path :: OrderedRun(net, s, states, events) && i < |states| && Loop(net, states[i].tables, p, path))
            <==> (exists core :: Snare(net, TabOf(s.tables, p), core))
  {
    if states: seq<Sys>, events, i: nat, path :| OrderedRun(net, s, states, events) && i < |states| && Loop(net, states[i].tables, p, path) {
      var core := LoopSnares(net, states, events, i, p, path);
    }
    if core :| Snare(net, TabOf(s.tables, p), core) {
      var states, events, path := SnareLoops(net, s, p, core);
    }
  }

  /** Every configured route for p is on an interface or leads to no link neighbour. */
  ghost predicate Stays(net: Net, s: Sys, p: Prefix) {
    forall n :: 0 <= n < |s.tables| && p in s.tables[n] ==>
      s.tables[n][p].kind == Local || !(n < |net.near| && s.tables[n][p].next in net.near[n])
  }

  lemma StaysFree(net: Net, s: Sys, p: Prefix, core: set<NodeId>)
    requires WellFormed(net) && Shape(net, s) && Stays(net, s, p)
    ensures !Snare(net, TabOf(s.tables, p), core)
  {
    if core != {} {
      var n :| n in core;
      assert n < |s.tables| ==> TabOf(s.tables, p)[n] == Lookup(s.tables[n], p);
      assert !Snared(net, TabOf(s.tables, p), core, n);
    }
  }

  /** Where a prefix is only configured on interfaces and to distant next hops, its packets never go round. */
  lemma StayingRoutesLoopFree(net: Net, states: seq<Sys>, events: seq<Event>, i: nat, p: Prefix, path: seq<NodeId>)
    requires FifoRun(net, states, events) && i < |states| && Stays(net, states[0], p)
    ensures !Loop(net, states[i].tables, p, path)
  {
    if Loop(net, states[i].tables, p, path) {
      var core := LoopSnares(net, states, events, i, p, path);
      StaysFree(net, states[0], p, core);
    }
  }

  // ---------- A loop ----------

  /**
   Three routers; the second speaks RIP with the first and the third, and these two share a
   link without RIP, over which the first has a static route for p to the third.
   */
  ghost predicate Row(net: Net, s: Sys, p: Prefix) {
    && net.owner == map[0 := 0, 1 := 1, 2 := 1, 3 := 2, 8 := 0, 9 := 2]
    && net.outs == [[Link(0, 1)], [Link(1, 0), Link(2, 3)], [Link(3, 2)]]
    && net.near == [{1, 9}, {0, 3}, {2, 8}]
    && s.tables == [map[p := Route(Static, 9, 0)], map[], map[]]
    && s.air == [Flight(Link(0, 1), Request), Flight(Link(1, 0), Request), Flight(Link(2, 3), Request), Flight(Link(3, 2), Request)]
  }

  lemma RowLinks(net: Net, s: Sys, p: Prefix)
    requires Row(net, s, p)
    ensures WellFormed(net) && forall l :: IsLink(net, l) <==> l in [Link(0, 1), Link(1, 0), Link(2, 3), Link(3, 2)]
  {
    assert net.outs[0] == [Link(0, 1)] && net.outs[1] == [Link(1, 0), Link(2, 3)] && net.outs[2] == [Link(3, 2)];
    assert forall l :: l in net.outs[1] <==> l == Link(1, 0) || l == Link(2, 3);
  }

  lemma RowSymmetric(net: Net, s: Sys, p: Prefix)
    requires Row(net, s, p)
    ensures WellFormed(net) && Symmetric(net) && Cabled(net)
  {
    RowLinks(net, s, p);
    assert net.near[0] == {1, 9} && net.near[1] == {0, 3} && net.near[2] == {2, 8};
  }

  lemma RowBegins(net: Net, s: Sys, p: Prefix)
    requires Row(net, s, p) && WellFormed(net)
    ensures Init(net, s) && Shape(net, s)
  {
    RowLinks(net, s, p);
    var air := s.air;
    assert air[0] in air && air[1] in air && air[2] in air && air[3] in air;
  }

  lemma RowUndisturbed(net: Net, s: Sys, p: Prefix)
    requires Row(net, s, p) && WellFormed(net) && Shape(net, s)
    ensures AllUndisturbed(net, s)
  {
    RowLinks(net, s, p);
    forall q, l | IsLink(net, l) ensures !LeadsBack(net, TabOf(s.tables, q), l) {
    }
  }

  /** News of the static route passes the second router and reaches the third. */
  lemma RowFed(net: Net, s: Sys, p: Prefix, orig: seq<Option<Route>>)
    requires Row(net, s, p) && WellFormed(net) && orig == [Some(Route(Static, 9, 0)), None, None]
    ensures FedFrom(net, orig, {0}, 2, 2)
  {
    RowLinks(net, s, p);
    var a, b := Link(0, 1), Link(2, 3);
    assert IsLink(net, a) && Sender(net, a) == 0 && Receiver(net, a) == 1 && !Dead(net, orig, a);
    assert IsLink(net, b) && Sender(net, b) == 1 && Receiver(net, b) == 2 && !Dead(net, orig, b);
    assert FedFrom(net, orig, {0}, 0, 0);
    assert FedFrom(net, orig, {0}, 1, 1);
  }

  lemma RowSnare(net: Net, s: Sys, p: Prefix)
    requires Row(net, s, p)
    ensures Begins(net, s) && Snare(net, TabOf(s.tables, p), {0})
  {
    RowSymmetric(net, s, p);
    RowBegins(net, s, p);
    RowUndisturbed(net, s, p);
    var orig := TabOf(s.tables, p);
    assert orig == [Some(Route(Static, 9, 0)), None, None];
    RowFed(net, s, p, orig);
    assert net.near[0] == {1, 9};
    assert Snared(net, orig, {0}, 0);
  }

  /** The static route, the third router's route and the second's send packets round. */
  lemma StaticRouteLoops(net: Net, s: Sys, p: Prefix) returns (states: seq<Sys>, events: seq<Event>, path: seq<NodeId>)
    requires Row(net, s, p)
    ensures FifoRun(net, states, events) && states[0] == s && Loop(net, states[|events|].tables, p, path)
  {
    RowSnare(net, s, p);
    states, events, path := SnareLoops(net, s, p, {0});
  }
}
