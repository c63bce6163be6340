/**
 Persistence of routes on links that keep order but may lose packets: no route is ever
 deleted, costs only fall, and the cost drops along every learned next hop.

 The invariant relates each table to what is still in flight towards it.  On one
 link finite costs never rise; a poisoned entry is only in flight towards a node
 that does not use its sender, and whatever finite cost travels ahead of it is
 already too dear for that node to adopt.
 */
module RipLoopFree {
  import opened Options
  import opened RipCore
  import opened RipSlice
  import opened RipRuns
  import opened RipConfigured

  /** A configured slot is untouched; a learned one is dearer than the slot it leads to. */
  ghost predicate Downhill(net: Net, orig: seq<Option<Route>>, tab: seq<Option<Route>>, n: NodeId)
    requires |orig| == |tab| && n < |tab|
  {
    if orig[n].Some? then tab[n] == orig[n]
    else tab[n].Some? ==>
      && 1 <= tab[n].value.cost < INFTY
      && tab[n].value.next in net.owner
      && var m := net.owner[tab[n].value.next];
         m < |tab| && tab[m].Some? && tab[m].value.cost + 1 <= tab[n].value.cost
  }

  /** A finite cost in flight was its sender's cost, which has only fallen since. */
  ghost predicate FromSender(net: Net, tab: seq<Option<Route>>, f: Flight<Msg>)
    requires WellFormed(net) && |tab| == |net.outs| && IsLink(net, f.link)
  {
    f.msg.Tell? ==>
      && f.msg.wire <= INFTY
      && (f.msg.wire < INFTY ==> tab[Sender(net, f.link)].Some? && tab[Sender(net, f.link)].value.cost <= f.msg.wire)
  }

  /** No packet in flight can make its receiver drop a route. */
  ghost predicate Harmless(net: Net, orig: seq<Option<Route>>, tab: seq<Option<Route>>, f: Flight<Msg>)
    requires WellFormed(net) && |orig| == |tab| == |net.outs| && IsLink(net, f.link)
  {
    var slot := tab[Receiver(net, f.link)];
    f.msg.Tell? && !Dead(net, orig, f.link) ==>
      if f.msg.wire == INFTY then slot.Some? && slot.value.next != f.link.src
      else slot.Some? && slot.value.next == f.link.src ==> f.msg.wire + 1 <= slot.value.cost
  }

  /** Two packets on one link, `f` ahead of `g`. */
  ghost predicate Follows(net: Net, orig: seq<Option<Route>>, tab: seq<Option<Route>>, f: Flight<Msg>, g: Flight<Msg>)
    requires WellFormed(net) && |orig| == |tab| == |net.outs| && IsLink(net, f.link)
  {
    var slot := tab[Receiver(net, f.link)];
    f.link == g.link && f.msg.Tell? && g.msg.Tell? && f.msg.wire < INFTY && !Dead(net, orig, f.link) ==>
      if g.msg.wire < INFTY then g.msg.wire <= f.msg.wire
      else slot.Some? && slot.value.cost + 1 <= f.msg.wire
  }

  ghost predicate Ordered(net: Net, orig: seq<Option<Route>>, s: Slice)
    requires WellFormed(net)
  {
    && SliceShape(net, s) && |orig| == |s.tab|
    && (forall n :: 0 <= n < |s.tab| ==> Downhill(net, orig, s.tab, n))
    && (forall f :: f in s.air ==> FromSender(net, s.tab, f))
    && (forall f :: f in s.air ==> Harmless(net, orig, s.tab, f))
    && (forall i, j :: 0 <= i < j < |s.air| ==> Follows(net, orig, s.tab, s.air[i], s.air[j]))
  }

  // ---------- Losing and sending packets ----------

  lemma OrderedRemove(net: Net, orig: seq<Option<Route>>, s: Slice, i: nat)
    requires WellFormed(net) && Ordered(net, orig, s) && i < |s.air|
    ensures Ordered(net, orig, s.(air := Remove(s.air, i)))
  {
    var rest := Remove(s.air, i);
    forall a, b | 0 <= a < b < |rest| ensures Follows(net, orig, s.tab, rest[a], rest[b]) {
      var a', b' := if a < i then a else a + 1, if b < i then b else b + 1;
      assert rest[a] == s.air[a'] && rest[b] == s.air[b'];
    }
  }

  /** A node that knows the prefix is one that can come to know it. */
  lemma KnowsHeard(net: Net, orig: seq<Option<Route>>, n: NodeId, slot: Option<Route>)
    requires WellFormed(net) && Origin(net, orig) && n < |orig| && KeptSlot(net, orig, n, slot) && slot.Some?
    ensures Heard(net, orig, n)
  {
    assert Carried(net, orig, n, slot.value.cost);
  }

  /** On a dead link only 16 travels, to a node that never knows the prefix. */
  lemma DeadEnd(net: Net, orig: seq<Option<Route>>, s: Slice, f: Flight<Msg>)
    requires WellFormed(net) && Mutual(net) && Calm(net, orig) && Kept(net, orig, s) && f in s.air && f.msg.Tell?
    requires Dead(net, orig, f.link)
    ensures f.msg.wire == INFTY && s.tab[Receiver(net, f.link)] == None
  {
    var n, m := Sender(net, f.link), Receiver(net, f.link);
    assert KeptMsg(net, orig, f);
    assert f.msg.wire > 0 ==> !Carried(net, orig, n, f.msg.wire);
    assert LeadsBack(net, orig, Flip(f.link)) && !Heard(net, orig, m);
    assert KeptSlot(net, orig, m, s.tab[m]);
    if s.tab[m].Some? {
      KnowsHeard(net, orig, m, s.tab[m]);
    }
  }

  /** Sending the current slot, poisoned towards its next hop, keeps the order. */
  lemma OrderedAppend(net: Net, orig: seq<Option<Route>>, s: Slice, f: Flight<Msg>)
    requires WellFormed(net) && Symmetric(net) && Calm(net, orig) && KeptTab(net, orig, s.tab) && Ordered(net, orig, s)
    requires IsLink(net, f.link)
    requires f.msg == Blank || f.msg == Reply(s.tab[Sender(net, f.link)], f.link.dst)
    ensures Ordered(net, orig, s.(air := s.air + [f]))
  {
    if f.msg.Tell? {
      SentHarmless(net, orig, s.tab, f);
      forall i | 0 <= i < |s.air| ensures Follows(net, orig, s.tab, s.air[i], f) {
        assert s.air[i] in s.air && FromSender(net, s.tab, s.air[i]);
      }
    }
  }

  /** The current slot of a node, sent over a link, is true, harmless, and not dearer than what was sent before. */
  lemma SentHarmless(net: Net, orig: seq<Option<Route>>, tab: seq<Option<Route>>, f: Flight<Msg>)
    requires WellFormed(net) && Symmetric(net) && Calm(net, orig) && KeptTab(net, orig, tab)
    requires IsLink(net, f.link) && f.msg.Tell? && f.msg == Reply(tab[Sender(net, f.link)], f.link.dst)
    requires Downhill(net, orig, tab, Sender(net, f.link)) && Downhill(net, orig, tab, Receiver(net, f.link))
    ensures FromSender(net, tab, f) && Harmless(net, orig, tab, f)
    ensures f.msg.wire == INFTY && !Dead(net, orig, f.link) ==>
              tab[Receiver(net, f.link)].Some? && tab[Receiver(net, f.link)].value.cost + 1 <= tab[Sender(net, f.link)].value.cost
    ensures f.msg.wire < INFTY ==> tab[Sender(net, f.link)].value.cost == f.msg.wire
  {
    var n, m := Sender(net, f.link), Receiver(net, f.link);
    KnowsHeard(net, orig, n, tab[n]);
    assert !LeadsBack(net, orig, f.link);
    assert tab[m].Some? && tab[m].value.next == f.link.src ==> tab[n].value.cost + 1 <= tab[m].value.cost;
  }

  lemma {:induction false} OrderedAppendAll(net: Net, orig: seq<Option<Route>>, s: Slice, extra: seq<Flight<Msg>>)
    requires WellFormed(net) && Symmetric(net) && Calm(net, orig) && KeptTab(net, orig, s.tab) && Ordered(net, orig, s)
    requires forall f :: f in extra ==> IsLink(net, f.link)
    requires forall f :: f in extra ==> f.msg == Blank || f.msg == Reply(s.tab[Sender(net, f.link)], f.link.dst)
    ensures Ordered(net, orig, s.(air := s.air + extra))
    decreases |extra|
  {
    if extra == [] {
      assert s.air + extra == s.air;
    } else {
      var s1 := s.(air := s.air + [extra[0]]);
      OrderedAppend(net, orig, s, extra[0]);
      OrderedAppendAll(net, orig, s1, extra[1..]);
      assert s1.air + extra[1..] == s.air + extra;
    }
  }

  // ---------- Handling a packet ----------

  /** An entry from the next hop that is not dearer, or a poisoned one from elsewhere, never drops a route. */
  lemma ReactImproves(slot: Option<Route>, hop: Addr, wire: nat)
    requires wire <= INFTY && (slot.Some? ==> slot.value.cost < INFTY)
    requires slot.Some? && slot.value.next == hop ==> wire + 1 <= slot.value.cost
    ensures var r := React(slot, hop, wire);
            && (r.triggered == None || r.triggered == r.table)
            && (r.table == slot ||
                 (wire + 1 < INFTY && r.table.Some? && r.table.value.next == hop && r.table.value.cost == wire + 1
                  && (slot.Some? ==> r.table.value.cost < slot.value.cost)))
  {
    assert Through(wire) == if wire + 1 < INFTY then wire + 1 else INFTY;
  }

  /** Handling the oldest packet on a link never drops a route, and triggers only the new slot. */
  lemma NoDrop(net: Net, orig: seq<Option<Route>>, s: Slice, i: nat)
    requires WellFormed(net) && Symmetric(net) && Calm(net, orig) && Kept(net, orig, s) && Ordered(net, orig, s)
    requires i < |s.air| && s.air[i].msg.Tell?
    ensures var f := s.air[i]; var slot := s.tab[Receiver(net, f.link)]; var r := React(slot, f.link.src, f.msg.wire);
            && (r.triggered == None || r.triggered == r.table)
            && (r.table == slot ||
                 (f.msg.wire + 1 < INFTY && r.table.Some? && r.table.value.next == f.link.src && r.table.value.cost == f.msg.wire + 1
                  && (slot.Some? ==> r.table.value.cost < slot.value.cost)))
  {
    var f := s.air[i];
    assert f in s.air;
    assert FromSender(net, s.tab, f) && Harmless(net, orig, s.tab, f);
    var m := Receiver(net, f.link);
    assert KeptSlot(net, orig, m, s.tab[m]);
    if Dead(net, orig, f.link) {
      DeadEnd(net, orig, s, f);
    }
    ReactImproves(s.tab[m], f.link.src, f.msg.wire);
  }

  /** The packet at i carries a cost that its receiver adopts as route r. */
  ghost predicate Adopts(net: Net, s: Slice, i: nat, r: Route)
    requires WellFormed(net) && SliceShape(net, s) && i < |s.air|
  {
    var f := s.air[i];
    var slot := s.tab[Receiver(net, f.link)];
    && f.msg.Tell? && InOrder(s.air, Deliver(i))
    && f.msg.wire + 1 < INFTY && r.next == f.link.src && r.cost == f.msg.wire + 1
    && (slot.Some? ==> r.cost < slot.value.cost)
  }

  lemma AdoptDownhill(net: Net, orig: seq<Option<Route>>, s: Slice, i: nat, r: Route, a: NodeId)
    requires WellFormed(net) && Calm(net, orig) && Kept(net, orig, s) && Ordered(net, orig, s) && i < |s.air| && Adopts(net, s, i, r)
    requires a < |s.tab|
    ensures Downhill(net, orig, s.tab[Receiver(net, s.air[i].link) := Some(r)], a)
  {
    var f := s.air[i];
    assert f in s.air && FromSender(net, s.tab, f);
    assert Downhill(net, orig, s.tab, a);
    assert Downhill(net, orig, s.tab, Receiver(net, f.link));
  }

  lemma AdoptFlight(net: Net, orig: seq<Option<Route>>, s: Slice, i: nat, r: Route, k: nat)
    requires WellFormed(net) && Symmetric(net) && Ordered(net, orig, s) && i < |s.air| && Adopts(net, s, i, r)
    requires k < |s.air| && k != i
    ensures var tab' := s.tab[Receiver(net, s.air[i].link) := Some(r)];
            FromSender(net, tab', s.air[k]) && Harmless(net, orig, tab', s.air[k])
  {
    var f, g := s.air[i], s.air[k];
    var m := Receiver(net, f.link);
    assert f in s.air && g in s.air;
    assert FromSender(net, s.tab, g) && Harmless(net, orig, s.tab, g);
    if g.link.src == f.link.src && Receiver(net, g.link) == m {
      assert g.link == f.link;
      assert i < k;
      assert Follows(net, orig, s.tab, f, g);
    }
  }

  lemma AdoptFollows(net: Net, orig: seq<Option<Route>>, s: Slice, i: nat, r: Route, a: nat, b: nat)
    requires WellFormed(net) && Ordered(net, orig, s) && i < |s.air| && Adopts(net, s, i, r)
    requires a < b < |s.air|
    ensures Follows(net, orig, s.tab[Receiver(net, s.air[i].link) := Some(r)], s.air[a], s.air[b])
  {
    assert Follows(net, orig, s.tab, s.air[a], s.air[b]);
  }

  lemma AdoptRest(net: Net, orig: seq<Option<Route>>, s: Slice, i: nat, r: Route)
    requires WellFormed(net) && Symmetric(net) && Ordered(net, orig, s) && i < |s.air| && Adopts(net, s, i, r)
    ensures var tab' := s.tab[Receiver(net, s.air[i].link) := Some(r)];
            forall g :: g in Remove(s.air, i) ==> FromSender(net, tab', g) && Harmless(net, orig, tab', g)
  {
    var tab', rest := s.tab[Receiver(net, s.air[i].link) := Some(r)], Remove(s.air, i);
    forall g | g in rest ensures FromSender(net, tab', g) && Harmless(net, orig, tab', g) {
      var k :| 0 <= k < |rest| && rest[k] == g;
      AdoptFlight(net, orig, s, i, r, if k < i then k else k + 1);
    }
  }

  lemma AdoptPairs(net: Net, orig: seq<Option<Route>>, s: Slice, i: nat, r: Route)
    requires WellFormed(net) && Ordered(net, orig, s) && i < |s.air| && Adopts(net, s, i, r)
    ensures var tab', rest := s.tab[Receiver(net, s.air[i].link) := Some(r)], Remove(s.air, i);
            forall a, b :: 0 <= a < b < |rest| ==> Follows(net, orig, tab', rest[a], rest[b])
  {
    var tab', rest := s.tab[Receiver(net, s.air[i].link) := Some(r)], Remove(s.air, i);
    forall a, b | 0 <= a < b < |rest| ensures Follows(net, orig, tab', rest[a], rest[b]) {
      AdoptFollows(net, orig, s, i, r, if a < i then a else a + 1, if b < i then b else b + 1);
    }
  }

  /** A node adopts the oldest packet on a link: everything in flight stays consistent with its new slot. */
  lemma Adopt(net: Net, orig: seq<Option<Route>>, s: Slice, i: nat, r: Route)
    requires WellFormed(net) && Symmetric(net) && Calm(net, orig) && Kept(net, orig, s) && Ordered(net, orig, s)
    requires i < |s.air| && Adopts(net, s, i, r)
    ensures Ordered(net, orig, Slice(s.tab[Receiver(net, s.air[i].link) := Some(r)], Remove(s.air, i)))
  {
    var tab' := s.tab[Receiver(net, s.air[i].link) := Some(r)];
    var rest := Remove(s.air, i);
    forall a | 0 <= a < |tab'| ensures Downhill(net, orig, tab', a) {
      AdoptDownhill(net, orig, s, i, r, a);
    }
    AdoptRest(net, orig, s, i, r);
    AdoptPairs(net, orig, s, i, r);
  }

  lemma OrderedDeliver(net: Net, orig: seq<Option<Route>>, s: Slice, i: nat, s': Slice)
    requires WellFormed(net) && Symmetric(net) && Calm(net, orig) && Kept(net, orig, s) && Ordered(net, orig, s)
    requires i < |s.air| && InOrder(s.air, Deliver(i)) && SliceDelivered(net, s, i, s')
    ensures Ordered(net, orig, s')
  {
    var f := s.air[i];
    var m := Receiver(net, f.link);
    var rest := Remove(s.air, i);
    OrderedRemove(net, orig, s, i);
    DeliverKept(net, orig, s, i, s');
    assert f in s.air;
    if f.msg.Ask? {
      OrderedAppend(net, orig, s.(air := rest), Flight(Flip(f.link), Reply(s.tab[m], f.link.src)));
    } else {
      var r := ReactMsg(s.tab[m], f.link.src, f.msg);
      var mid := Slice(s'.tab, rest);
      if f.msg.Tell? {
        NoDrop(net, orig, s, i);
      }
      if r.table == s.tab[m] {
        assert s'.tab == s.tab;
      } else {
        Adopt(net, orig, s, i, r.table.value);
      }
      OrderedAppendAll(net, orig, mid, s'.air[|rest|..]);
      assert s'.air == rest + s'.air[|rest|..];
    }
  }

  lemma StepOrdered(net: Net, orig: seq<Option<Route>>, p: Prefix, s: Slice, ev: Event, s': Slice)
    requires WellFormed(net) && Symmetric(net) && Calm(net, orig) && Kept(net, orig, s) && Ordered(net, orig, s)
    requires InOrder(s.air, ev) && SliceStep(net, p, s, ev, s')
    ensures Ordered(net, orig, s')
  {
    match ev
    case Deliver(i) =>
      OrderedDeliver(net, orig, s, i, s');
    case Lose(i) =>
      OrderedRemove(net, orig, s, i);
    case Advertise(l) =>
      OrderedAppend(net, orig, s, Flight(l, Reply(s.tab[Sender(net, l)], l.dst)));
  }

  /** Slots are never emptied, costs never rise, and a slot that keeps its cost keeps its next hop. */
  ghost predicate Improves(tab: seq<Option<Route>>, tab': seq<Option<Route>>) {
    && |tab'| == |tab|
    && forall n :: 0 <= n < |tab| && tab[n].Some? ==>
         tab'[n].Some? && (tab'[n] == tab[n] || tab'[n].value.cost < tab[n].value.cost)
  }

  lemma StepImproves(net: Net, orig: seq<Option<Route>>, p: Prefix, s: Slice, ev: Event, s': Slice)
    requires WellFormed(net) && Symmetric(net) && Calm(net, orig) && Kept(net, orig, s) && Ordered(net, orig, s)
    requires InOrder(s.air, ev) && SliceStep(net, p, s, ev, s')
    ensures Improves(s.tab, s'.tab)
  {
    if ev.Deliver? && s.air[ev.i].msg.Tell? {
      NoDrop(net, orig, s, ev.i);
    }
  }

  // ---------- Whole runs ----------

  lemma InitOrdered(net: Net, s: Sys, p: Prefix)
    requires WellFormed(net) && Init(net, s)
    ensures Ordered(net, TabOf(s.tables, p), SliceOf(s, p))
  {
    ShapeSlices(net, s, p);
    var a := AirOf(s.air, p);
    forall f | f in a ensures f.msg == Ask {
      var i :| 0 <= i < |a| && a[i] == f;
      assert s.air[i] in s.air;
    }
    forall n | 0 <= n < |s.tables| && p in s.tables[n] ensures s.tables[n][p].cost == 0 {
    }
  }

  lemma InOrderSlices(air: seq<Flight<Packet>>, ev: Event, p: Prefix)
    requires InOrder(air, ev)
    ensures InOrder(AirOf(air, p), ev)
  {
  }

  lemma {:induction false} RunOrdered(net: Net, states: seq<Sys>, events: seq<Event>, i: nat, p: Prefix)
    requires FifoRun(net, states, events) && i < |states|
    ensures Calm(net, TabOf(states[0].tables, p)) && Kept(net, TabOf(states[0].tables, p), SliceOf(states[i], p))
    ensures Ordered(net, TabOf(states[0].tables, p), SliceOf(states[i], p))
  {
    InitKept(net, states[0], p);
    RunKept(net, states, events, i, p);
    if i == 0 {
      InitOrdered(net, states[0], p);
    } else {
      RunOrdered(net, states, events, i - 1, p);
      StepSlices(net, states[i - 1], events[i - 1], states[i], p);
      InOrderSlices(states[i - 1].air, events[i - 1], p);
      StepOrdered(net, TabOf(states[0].tables, p), p, SliceOf(states[i - 1], p), events[i - 1], SliceOf(states[i], p));
    }
  }

  lemma RunStepImproves(net: Net, states: seq<Sys>, events: seq<Event>, i: nat, p: Prefix)
    requires FifoRun(net, states, events) && i < |events|
    ensures Improves(TabOf(states[i].tables, p), TabOf(states[i + 1].tables, p))
  {
    RunOrdered(net, states, events, i, p);
    StepSlices(net, states[i], events[i], states[i + 1], p);
    InOrderSlices(states[i].air, events[i], p);
    StepImproves(net, TabOf(states[0].tables, p), p, SliceOf(states[i], p), events[i], SliceOf(states[i + 1], p));
  }

  lemma ImprovesTransitive(a: seq<Option<Route>>, b: seq<Option<Route>>, c: seq<Option<Route>>)
    requires Improves(a, b) && Improves(b, c)
    ensures Improves(a, c)
  {
  }

  lemma {:induction false} ImprovesChain(tabs: seq<seq<Option<Route>>>, i: nat, j: nat)
    requires i <= j < |tabs|
    requires forall k :: 0 <= k < |tabs| - 1 ==> Improves(tabs[k], tabs[k + 1])
    ensures Improves(tabs[i], tabs[j])
    decreases j
  {
    if i < j {
      ImprovesChain(tabs, i, j - 1);
      ImprovesTransitive(tabs[i], tabs[j - 1], tabs[j]);
    }
  }

  lemma RunImproves(net: Net, states: seq<Sys>, events: seq<Event>, i: nat, j: nat, p: Prefix)
    requires FifoRun(net, states, events) && i <= j < |states|
    ensures Improves(TabOf(states[i].tables, p), TabOf(states[j].tables, p))
  {
    var tabs := seq(|states|, k requires 0 <= k < |states| => TabOf(states[k].tables, p));
    forall k | 0 <= k < |tabs| - 1 ensures Improves(tabs[k], tabs[k + 1]) {
      RunStepImproves(net, states, events, k, p);
    }
    ImprovesChain(tabs, i, j);
  }

  /** Routes persist: once a node knows a prefix it keeps it, at a cost that only falls. */
  lemma NeverDeleted(net: Net, states: seq<Sys>, events: seq<Event>, i: nat, j: nat, n: NodeId, p: Prefix)
    requires FifoRun(net, states, events) && i <= j < |states| && n < |net.outs| && p in states[i].tables[n]
    ensures p in states[j].tables[n]
    ensures states[j].tables[n][p] == states[i].tables[n][p] || states[j].tables[n][p].cost < states[i].tables[n][p].cost
  {
    RunImproves(net, states, events, i, j, p);
    assert TabOf(states[i].tables, p)[n] == Some(states[i].tables[n][p]);
    assert TabOf(states[j].tables, p)[n] == Lookup(states[j].tables[n], p);
  }

  /** Every route of s is in t, unchanged or at a lower cost. */
  ghost predicate KeepsRoutes(s: Sys, t: Sys) {
    |t.tables| == |s.tables| && forall n, p :: 0 <= n < |s.tables| && p in s.tables[n] ==>
      p in t.tables[n] && (t.tables[n][p] == s.tables[n][p] || t.tables[n][p].cost < s.tables[n][p].cost)
  }

  lemma RunKeepsRoutes(net: Net, states: seq<Sys>, events: seq<Event>, i: nat, j: nat)
    requires FifoRun(net, states, events) && i <= j < |states|
    ensures KeepsRoutes(states[i], states[j])
  {
    var s, t := states[i], states[j];
    forall n, p | 0 <= n < |s.tables| && p in s.tables[n]
      ensures p in t.tables[n] && (t.tables[n][p] == s.tables[n][p] || t.tables[n][p].cost < s.tables[n][p].cost)
    {
      NeverDeleted(net, states, events, i, j, n, p);
    }
  }

  /**
   The exact condition: on links that keep order, no run from s ever deletes a route or
   raises a cost if and only if no configured route leads to a RIP neighbour that can come
   to know its prefix.
   */
  lemma NothingDeletedIff(net: Net, s: Sys)
    requires WellFormed(net) && Symmetric(net) && Init(net, s) && Shape(net, s)
    ensures AllUndisturbed(net, s) <==>
            forall states, events :: OrderedRun(net, s, states, events) ==>
              forall i, j :: 0 <= i <= j < |states| ==> KeepsRoutes(states[i], states[j])
  {
    if AllUndisturbed(net, s) {
      forall states, events | OrderedRun(net, s, states, events)
        ensures forall i, j :: 0 <= i <= j < |states| ==> KeepsRoutes(states[i], states[j])
      {
        forall i: nat, j: nat | i <= j < |states| ensures KeepsRoutes(states[i], states[j]) {
          RunKeepsRoutes(net, states, events, i, j);
        }
      }
    } else {
      var p :| !Undisturbed(net, TabOf(s.tables, p));
      var l :| IsLink(net, l) && LeadsBack(net, TabOf(s.tables, p), l) && Heard(net, TabOf(s.tables, p), Sender(net, l));
      var states, events := DisturbedIsLost(net, s, l, p);
      assert !KeepsRoutes(states[0], states[|events|]);
    }
  }

  /** `path` follows learned next hops for p: each node but the last learned p and points at the node after it. */
  ghost predicate LearnedHops(net: Net, tables: seq<map<Prefix, Route>>, p: Prefix, path: seq<NodeId>) {
    && (forall k :: 0 <= k < |path| ==> path[k] < |tables| && p in tables[path[k]])
    && (forall k :: 0 <= k < |path| - 1 ==>
         && tables[path[k]][p].kind == Learned
         && tables[path[k]][p].next in net.owner
         && net.owner[tables[path[k]][p].next] == path[k + 1])
  }

  /** A route is marked as learned exactly if it was not configured. */
  lemma LearnedHereOnly(net: Net, states: seq<Sys>, events: seq<Event>, i: nat, n: NodeId, p: Prefix)
    requires FifoRun(net, states, events) && i < |states| && n < |net.outs| && p in states[i].tables[n]
    ensures states[i].tables[n][p].kind == Learned <==> p !in states[0].tables[n]
  {
    RunOrdered(net, states, events, i, p);
    var orig, tab := TabOf(states[0].tables, p), TabOf(states[i].tables, p);
    assert orig[n] == Lookup(states[0].tables[n], p) && tab[n] == Lookup(states[i].tables[n], p);
    assert KeptSlot(net, orig, n, tab[n]);
  }

  /** Cost falls by at least one along every learned next hop. */
  lemma {:induction false} CostFallsAlongPath(net: Net, states: seq<Sys>, events: seq<Event>, i: nat, p: Prefix, path: seq<NodeId>, a: nat, b: nat)
    requires FifoRun(net, states, events) && i < |states| && LearnedHops(net, states[i].tables, p, path) && a <= b < |path|
    ensures states[i].tables[path[b]][p].cost + (b - a) <= states[i].tables[path[a]][p].cost
    decreases b
  {
    if a < b {
      CostFallsAlongPath(net, states, events, i, p, path, a, b - 1);
      RunOrdered(net, states, events, i, p);
      var tab := TabOf(states[i].tables, p);
      assert Downhill(net, TabOf(states[0].tables, p), tab, path[b - 1]);
      LearnedHereOnly(net, states, events, i, path[b - 1], p);
      assert tab[path[b - 1]] == Some(states[i].tables[path[b - 1]][p]);
      assert tab[path[b]] == Some(states[i].tables[path[b]][p]);
    }
  }

  /** In every state of every run, learned next hops form no loop: a path of them never meets a node twice. */
  lemma LearnedHopsLoopFree(net: Net, states: seq<Sys>, events: seq<Event>, i: nat, p: Prefix, path: seq<NodeId>)
    requires FifoRun(net, states, events) && i < |states| && LearnedHops(net, states[i].tables, p, path)
    ensures forall a, b :: 0 <= a < b < |path| ==> path[a] != path[b]
    ensures |path| <= INFTY
  {
    forall a, b | 0 <= a < b < |path| ensures path[a] != path[b] {
      CostFallsAlongPath(net, states, events, i, p, path, a, b);
    }
    if |path| > 0 {
      CostFallsAlongPath(net, states, events, i, p, path, 0, |path| - 1);
      RunOrdered(net, states, events, i, p);
      var tab := TabOf(states[i].tables, p);
      assert tab[path[0]] == Some(states[i].tables[path[0]][p]);
      assert Downhill(net, TabOf(states[0].tables, p), tab, path[0]);
    }
  }

  /** From any node that knows p, learned next hops lead to a node that originates p within `cost` hops. */
  lemma {:induction false} LearnedHopsArrive(net: Net, states: seq<Sys>, events: seq<Event>, i: nat, n: NodeId, p: Prefix)
    returns (path: seq<NodeId>)
    requires FifoRun(net, states, events) && i < |states| && n < |net.outs| && p in states[i].tables[n]
    ensures LearnedHops(net, states[i].tables, p, path)
    ensures 1 <= |path| <= states[i].tables[n][p].cost + 1 && path[0] == n
    ensures p in states[0].tables[path[|path| - 1]]
    decreases states[i].tables[n][p].cost
  {
    RunOrdered(net, states, events, i, p);
    LearnedHereOnly(net, states, events, i, n, p);
    var tab := TabOf(states[i].tables, p);
    assert tab[n] == Some(states[i].tables[n][p]);
    assert Downhill(net, TabOf(states[0].tables, p), tab, n);
    if p in states[0].tables[n] {
      path := [n];
    } else {
      var m := net.owner[states[i].tables[n][p].next];
      assert tab[m] == Lookup(states[i].tables[m], p);
      var tail := LearnedHopsArrive(net, states, events, i, m, p);
      path := [n] + tail;
    }
  }
}
