/**
 Soundness of routes: however packets are lost, repeated or reordered and routes
 expire, a finite cost always counts the hops of a real walk to an originator.
 */
module RipSoundness {
  import opened Options
  import opened RipCore
  import opened RipSlice

  /** Some walk of exactly k RIP hops leads from n to a node in `origins`. */
  ghost predicate Walk(net: Net, origins: set<NodeId>, n: NodeId, k: nat)
    decreases k
  {
    if k == 0 then n in origins
    else exists l :: IsLink(net, l) && l.dst in net.owner && net.owner[l.dst] == n && Walk(net, origins, net.owner[l.src], k - 1)
  }

  /** k is the hop distance from n to the nearest originator. */
  ghost predicate Distance(net: Net, origins: set<NodeId>, n: NodeId, k: nat) {
    Walk(net, origins, n, k) && forall j: nat :: j < k ==> !Walk(net, origins, n, j)
  }

  ghost function Origins(s: Sys, p: Prefix): (r: set<NodeId>) {
    set n: nat | n < |s.tables| && p in s.tables[n]
  }

  ghost predicate SoundSlot(net: Net, origins: set<NodeId>, n: NodeId, slot: Option<Route>) {
    slot.Some? ==> slot.value.cost < INFTY && Walk(net, origins, n, slot.value.cost)
  }

  ghost predicate SoundMsg(net: Net, origins: set<NodeId>, f: Flight<Msg>)
    requires f.link.src in net.owner
  {
    f.msg.Tell? ==> f.msg.wire <= INFTY && (f.msg.wire < INFTY ==> Walk(net, origins, net.owner[f.link.src], f.msg.wire))
  }

  ghost predicate Sound(net: Net, origins: set<NodeId>, s: Slice) {
    && SliceShape(net, s)
    && (forall n :: 0 <= n < |s.tab| ==> SoundSlot(net, origins, n, s.tab[n]))
    && (forall f :: f in s.air ==> SoundMsg(net, origins, f))
  }

  lemma WalkOn(net: Net, origins: set<NodeId>, l: Link, k: nat)
    requires WellFormed(net) && IsLink(net, l) && Walk(net, origins, Sender(net, l), k)
    ensures Walk(net, origins, Receiver(net, l), k + 1)
  {
  }

  /** What a node leaves behind after reacting is again backed by walks. */
  lemma ReactSound(net: Net, origins: set<NodeId>, f: Flight<Msg>, slot: Option<Route>)
    requires WellFormed(net) && IsLink(net, f.link) && SoundMsg(net, origins, f)
    requires SoundSlot(net, origins, Receiver(net, f.link), slot)
    ensures var r := ReactMsg(slot, f.link.src, f.msg);
            && SoundSlot(net, origins, Receiver(net, f.link), r.table)
            && (r.triggered.Some? && r.triggered.value.cost != INFTY ==> SoundSlot(net, origins, Receiver(net, f.link), r.triggered))
            && (r.triggered.Some? ==> r.triggered.value.cost <= INFTY)
  {
    if f.msg.Tell? && f.msg.wire < INFTY {
      WalkOn(net, origins, f.link, f.msg.wire);
    }
  }

  lemma CastSound(net: Net, origins: set<NodeId>, n: NodeId, slot: Option<Route>, extra: seq<Flight<Msg>>)
    requires WellFormed(net) && n < |net.outs| && Leaves(net, n, slot, extra)
    requires slot.Some? ==> slot.value.cost <= INFTY
    requires slot.Some? && slot.value.cost != INFTY ==> SoundSlot(net, origins, n, slot)
    ensures forall f :: f in extra ==> IsLink(net, f.link) && SoundMsg(net, origins, f)
  {
  }

  lemma StepSound(net: Net, origins: set<NodeId>, p: Prefix, s: Slice, ev: Event, s': Slice)
    requires WellFormed(net) && Mutual(net) && Sound(net, origins, s) && SliceStep(net, p, s, ev, s')
    ensures Sound(net, origins, s')
  {
    match ev
    case Deliver(i) =>
      var f := s.air[i];
      var m := Receiver(net, f.link);
      var rest := Remove(s.air, i);
      assert f in s.air;
      if !f.msg.Ask? {
        ReactSound(net, origins, f, s.tab[m]);
        CastSound(net, origins, m, ReactMsg(s.tab[m], f.link.src, f.msg).triggered, s'.air[|rest|..]);
        assert s'.air == rest + s'.air[|rest|..];
      }
    case Expire(n, gone) =>
      CastSound(net, origins, n, if p in gone then Some(s.tab[n].value.(cost := INFTY)) else None, s'.air[|s.air|..]);
      assert s'.air == s.air + s'.air[|s.air|..];
    case _ =>
  }

  lemma InitSound(net: Net, s: Sys, p: Prefix)
    requires WellFormed(net) && Init(net, s)
    ensures Sound(net, Origins(s, p), SliceOf(s, p))
  {
    ShapeSlices(net, s, p);
    var a := AirOf(s.air, p);
    forall f | f in a ensures f.msg == Ask {
      var i :| 0 <= i < |a| && a[i] == f;
      assert s.air[i] in s.air;
    }
  }

  lemma {:induction false} RunSound(net: Net, states: seq<Sys>, events: seq<Event>, i: nat, p: Prefix)
    requires Run(net, states, events) && Mutual(net) && Init(net, states[0]) && i < |states|
    ensures Sound(net, Origins(states[0], p), SliceOf(states[i], p))
  {
    if i == 0 {
      InitSound(net, states[0], p);
    } else {
      RunSound(net, states, events, i - 1, p);
      StepSlices(net, states[i - 1], events[i - 1], states[i], p);
      StepSound(net, Origins(states[0], p), p, SliceOf(states[i - 1], p), events[i - 1], SliceOf(states[i], p));
    }
  }

  /**
   In every run, whatever is lost, repeated, reordered or expired: a table entry of
   cost c has a walk of c hops to an originator, and so has every finite cost in flight.
   */
  lemma RoutesAreReal(net: Net, states: seq<Sys>, events: seq<Event>, i: nat, p: Prefix)
    requires Run(net, states, events) && Mutual(net) && Init(net, states[0]) && i < |states|
    ensures forall n :: 0 <= n < |net.outs| && p in states[i].tables[n] ==>
              && states[i].tables[n][p].cost < INFTY
              && Walk(net, Origins(states[0], p), n, states[i].tables[n][p].cost)
    ensures forall f :: f in states[i].air && f.msg.Response? && p in f.msg.entries && f.msg.entries[p] != INFTY ==>
              && f.msg.entries[p] < INFTY
              && Walk(net, Origins(states[0], p), Sender(net, f.link), f.msg.entries[p])
  {
    RunSound(net, states, events, i, p);
    var s := SliceOf(states[i], p);
    forall n | 0 <= n < |net.outs| && p in states[i].tables[n]
      ensures states[i].tables[n][p].cost < INFTY && Walk(net, Origins(states[0], p), n, states[i].tables[n][p].cost)
    {
      assert SoundSlot(net, Origins(states[0], p), n, s.tab[n]);
    }
    forall f | f in states[i].air && f.msg.Response? && p in f.msg.entries && f.msg.entries[p] != INFTY
      ensures f.msg.entries[p] < INFTY && Walk(net, Origins(states[0], p), Sender(net, f.link), f.msg.entries[p])
    {
      var k :| 0 <= k < |states[i].air| && states[i].air[k] == f;
      assert s.air[k] == FlightOf(f, p) && s.air[k] in s.air;
    }
  }

  /** A cost never falls below the true distance. */
  lemma NeverBelowDistance(net: Net, states: seq<Sys>, events: seq<Event>, i: nat, p: Prefix, n: NodeId, d: nat)
    requires Run(net, states, events) && Mutual(net) && Init(net, states[0]) && i < |states|
    requires n < |net.outs| && p in states[i].tables[n] && Distance(net, Origins(states[0], p), n, d)
    ensures d <= states[i].tables[n][p].cost
  {
    RoutesAreReal(net, states, events, i, p);
  }
}
