/**
 When configured routes are safe.  A static route that leads to a RIP neighbour is deleted
 by the first announcement of its prefix from there, so configured routes persist exactly
 if no such neighbour can ever come to know the prefix.
 */
module RipConfigured {
  import opened Options
  import opened RipCore
  import opened RipSlice
  import opened RipRuns

  /** The configured slots of one prefix, one per node. */
  ghost predicate Origin(net: Net, orig: seq<Option<Route>>) {
    |orig| == |net.outs| && forall n :: 0 <= n < |orig| && orig[n].Some? ==> orig[n].value.cost == 0 && orig[n].value.kind != Learned
  }

  /** An originator whose route leads over l says nothing but 16 there. */
  ghost predicate Dead(net: Net, orig: seq<Option<Route>>, l: Link)
    requires WellFormed(net) && |orig| == |net.outs| && IsLink(net, l)
  {
    orig[Sender(net, l)].Some? && orig[Sender(net, l)].value.next == l.dst
  }

  /** News of the prefix can cross l after c hops: an originator does not tell its own next hop. */
  ghost predicate Crosses(net: Net, orig: seq<Option<Route>>, l: Link, c: nat)
    requires WellFormed(net) && |orig| == |net.outs| && IsLink(net, l)
    decreases c, 1
  {
    Carried(net, orig, Sender(net, l), c) && !Dead(net, orig, l)
  }

  /** News of the prefix can reach n over c hops, through nodes that have no configured route for it. */
  ghost predicate Carried(net: Net, orig: seq<Option<Route>>, n: NodeId, c: nat)
    requires WellFormed(net) && |orig| == |net.outs| && n < |orig|
    decreases c, 0
  {
    if c == 0 then orig[n].Some?
    else orig[n].None? && exists l :: IsLink(net, l) && Receiver(net, l) == n && Crosses(net, orig, l, c - 1)
  }

  /** n can come to know the prefix. */
  ghost predicate Heard(net: Net, orig: seq<Option<Route>>, n: NodeId)
    requires WellFormed(net) && |orig| == |net.outs| && n < |orig|
  {
    exists c: nat :: c < INFTY && Carried(net, orig, n, c)
  }

  /** A configured route leads over l, from its receiver back to its sender. */
  ghost predicate LeadsBack(net: Net, orig: seq<Option<Route>>, l: Link)
    requires WellFormed(net) && |orig| == |net.outs| && IsLink(net, l)
  {
    orig[Receiver(net, l)].Some? && orig[Receiver(net, l)].value.next == l.src
  }

  /** No configured route leads to a RIP neighbour that can come to know the prefix. */
  ghost predicate Undisturbed(net: Net, orig: seq<Option<Route>>)
    requires WellFormed(net) && |orig| == |net.outs|
  {
    forall l :: IsLink(net, l) && LeadsBack(net, orig, l) ==> !Heard(net, orig, Sender(net, l))
  }

  /** What one prefix's configuration has to be like for its routes to persist. */
  ghost predicate Calm(net: Net, orig: seq<Option<Route>>)
    requires WellFormed(net)
  {
    Origin(net, orig) && Undisturbed(net, orig)
  }

  // ---------- Undisturbed routes persist ----------

  /** Address a sends to n over a link that news can cross. */
  ghost predicate Via(net: Net, orig: seq<Option<Route>>, n: NodeId, a: Addr)
    requires WellFormed(net) && |orig| == |net.outs|
  {
    exists l :: IsLink(net, l) && Receiver(net, l) == n && l.src == a && !Dead(net, orig, l)
  }

  ghost predicate KeptSlot(net: Net, orig: seq<Option<Route>>, n: NodeId, slot: Option<Route>)
    requires WellFormed(net) && |orig| == |net.outs| && n < |orig|
  {
    if orig[n].Some? then slot == orig[n]
    else slot.Some? ==>
      && slot.value.kind == Learned && 1 <= slot.value.cost < INFTY
      && Carried(net, orig, n, slot.value.cost) && Via(net, orig, n, slot.value.next)
  }

  /** What node n may say on a link: a finite cost that can cross it, or 16 if n can know the prefix. */
  ghost predicate KeptMsg(net: Net, orig: seq<Option<Route>>, f: Flight<Msg>)
    requires WellFormed(net) && |orig| == |net.outs| && IsLink(net, f.link)
  {
    f.msg.Tell? ==>
      && Heard(net, orig, Sender(net, f.link))
      && if f.msg.wire < INFTY then Crosses(net, orig, f.link, f.msg.wire) else f.msg.wire == INFTY
  }

  ghost predicate KeptTab(net: Net, orig: seq<Option<Route>>, tab: seq<Option<Route>>)
    requires WellFormed(net)
  {
    |orig| == |net.outs| == |tab| && forall n :: 0 <= n < |tab| ==> KeptSlot(net, orig, n, tab[n])
  }

  ghost predicate Kept(net: Net, orig: seq<Option<Route>>, s: Slice)
    requires WellFormed(net)
  {
    && SliceShape(net, s) && KeptTab(net, orig, s.tab)
    && (forall f :: f in s.air ==> KeptMsg(net, orig, f))
  }

  /** A node that keeps its slot, or announces a loss at cost 16, says nothing it may not say. */
  lemma SaysKept(net: Net, orig: seq<Option<Route>>, n: NodeId, slot: Option<Route>, f: Flight<Msg>)
    requires WellFormed(net) && Origin(net, orig) && IsLink(net, f.link) && Sender(net, f.link) == n
    requires f.msg == Reply(slot, f.link.dst)
    requires KeptNews(net, orig, n, slot)
    ensures KeptMsg(net, orig, f)
  {
    if slot.Some? && slot.value.cost < INFTY {
      assert Carried(net, orig, n, slot.value.cost);
    }
  }

  /** What a node may announce: a slot it may hold, or a loss of one. */
  ghost predicate KeptNews(net: Net, orig: seq<Option<Route>>, n: NodeId, slot: Option<Route>)
    requires WellFormed(net) && |orig| == |net.outs| && n < |orig|
  {
    slot.Some? ==> KeptSlot(net, orig, n, slot) || (slot.value.cost == INFTY && Heard(net, orig, n))
  }

  /** An entry at a node without a configured route. */
  lemma LearnerKept(net: Net, orig: seq<Option<Route>>, m: NodeId, slot: Option<Route>, hop: Addr, w: nat)
    requires WellFormed(net) && |orig| == |net.outs| && m < |orig| && orig[m].None? && w <= INFTY && KeptSlot(net, orig, m, slot)
    requires w + 1 < INFTY ==> Carried(net, orig, m, w + 1) && Via(net, orig, m, hop)
    ensures KeptSlot(net, orig, m, React(slot, hop, w).table) && KeptNews(net, orig, m, React(slot, hop, w).triggered)
  {
    assert Through(w) == if w + 1 < INFTY then w + 1 else INFTY;
    if slot.Some? {
      assert Carried(net, orig, m, slot.value.cost) && Heard(net, orig, m);
    }
  }

  /** One entry at one node: the slot stays kept, and so does what it triggers. */
  lemma ReactKept(net: Net, orig: seq<Option<Route>>, slot: Option<Route>, f: Flight<Msg>)
    requires WellFormed(net) && Calm(net, orig) && IsLink(net, f.link)
    requires KeptMsg(net, orig, f) && f.msg.Tell? && KeptSlot(net, orig, Receiver(net, f.link), slot)
    ensures var m, r := Receiver(net, f.link), React(slot, f.link.src, f.msg.wire);
            KeptSlot(net, orig, m, r.table) && KeptNews(net, orig, m, r.triggered)
  {
    var m, w := Receiver(net, f.link), f.msg.wire;
    if orig[m].Some? {
      assert !LeadsBack(net, orig, f.link);
    } else {
      if w + 1 < INFTY {
        assert Crosses(net, orig, f.link, w) && Carried(net, orig, m, w + 1) && Via(net, orig, m, f.link.src);
      }
      LearnerKept(net, orig, m, slot, f.link.src, w);
    }
  }

  lemma DeliverKept(net: Net, orig: seq<Option<Route>>, s: Slice, i: nat, s': Slice)
    requires WellFormed(net) && Mutual(net) && Calm(net, orig) && Kept(net, orig, s)
    requires i < |s.air| && SliceDelivered(net, s, i, s')
    ensures Kept(net, orig, s')
  {
    var f, rest := s.air[i], Remove(s.air, i);
    var m := Receiver(net, f.link);
    assert f in s.air;
    if f.msg.Ask? {
      SaysKept(net, orig, m, s.tab[m], Flight(Flip(f.link), Reply(s.tab[m], f.link.src)));
    } else {
      var r := ReactMsg(s.tab[m], f.link.src, f.msg);
      if f.msg.Tell? {
        ReactKept(net, orig, s.tab[m], f);
      }
      var extra := s'.air[|rest|..];
      assert s'.air == rest + extra;
      SentKept(net, orig, m, r.triggered, extra);
    }
  }

  lemma SentKept(net: Net, orig: seq<Option<Route>>, n: NodeId, slot: Option<Route>, extra: seq<Flight<Msg>>)
    requires WellFormed(net) && Origin(net, orig) && n < |orig| && Leaves(net, n, slot, extra)
    requires KeptNews(net, orig, n, slot)
    ensures forall f :: f in extra ==> IsLink(net, f.link) && KeptMsg(net, orig, f)
  {
    forall f | f in extra ensures IsLink(net, f.link) && KeptMsg(net, orig, f) {
      assert f.link in net.outs[n] && f.msg == Reply(slot, f.link.dst);
      if slot.Some? {
        SaysKept(net, orig, n, slot, f);
      }
    }
  }

  lemma StepKept(net: Net, orig: seq<Option<Route>>, p: Prefix, s: Slice, ev: Event, s': Slice)
    requires WellFormed(net) && Mutual(net) && Calm(net, orig) && Kept(net, orig, s)
    requires SliceStep(net, p, s, ev, s')
    ensures Kept(net, orig, s')
  {
    match ev
    case Deliver(i) =>
      DeliverKept(net, orig, s, i, s');
    case Lose(i) =>
    case Duplicate(i) =>
      assert s.air[i] in s.air;
    case Advertise(l) =>
      SaysKept(net, orig, Sender(net, l), s.tab[Sender(net, l)], Flight(l, Reply(s.tab[Sender(net, l)], l.dst)));
    case Expire(n, gone) =>
      assert KeptSlot(net, orig, n, s.tab[n]);
      var extra := s'.air[|s.air|..];
      assert s'.air == s.air + extra;
      if p in gone {
        assert Carried(net, orig, n, s.tab[n].value.cost);
      }
      SentKept(net, orig, n, if p in gone then Some(s.tab[n].value.(cost := INFTY)) else None, extra);
  }

  lemma InitKept(net: Net, s: Sys, p: Prefix)
    requires WellFormed(net) && Init(net, s) && Shape(net, s)
    ensures Origin(net, TabOf(s.tables, p)) && Kept(net, TabOf(s.tables, p), SliceOf(s, p))
  {
    ShapeSlices(net, s, p);
    var air := AirOf(s.air, p);
    forall f | f in air ensures f.msg == Ask {
      var i :| 0 <= i < |air| && air[i] == f;
      assert s.air[i] in s.air;
    }
  }

  lemma {:induction false} RunKept(net: Net, states: seq<Sys>, events: seq<Event>, i: nat, p: Prefix)
    requires Run(net, states, events) && Mutual(net) && Init(net, states[0]) && i < |states|
    requires Undisturbed(net, TabOf(states[0].tables, p))
    ensures Kept(net, TabOf(states[0].tables, p), SliceOf(states[i], p))
  {
    InitKept(net, states[0], p);
    if i > 0 {
      RunKept(net, states, events, i - 1, p);
      StepSlices(net, states[i - 1], events[i - 1], states[i], p);
      StepKept(net, TabOf(states[0].tables, p), p, SliceOf(states[i - 1], p), events[i - 1], SliceOf(states[i], p));
    }
  }

  // ---------- Disturbed routes are lost ----------

  /** c is the least number of hops over which the news reaches n. */
  ghost predicate Nearest(net: Net, orig: seq<Option<Route>>, n: NodeId, c: nat)
    requires WellFormed(net) && |orig| == |net.outs| && n < |orig|
  {
    Carried(net, orig, n, c) && forall j: nat :: j < c ==> !Carried(net, orig, n, j)
  }

  lemma {:induction false} LeastCarried(net: Net, orig: seq<Option<Route>>, n: NodeId, c: nat) returns (least: nat)
    requires WellFormed(net) && |orig| == |net.outs| && n < |orig| && Carried(net, orig, n, c)
    ensures least <= c && Nearest(net, orig, n, least)
  {
    if j: nat :| j < c && Carried(net, orig, n, j) {
      least := LeastCarried(net, orig, n, j);
    } else {
      least := c;
    }
  }

  /** What crosses a link reaches a node without a configured route. */
  lemma Onward(net: Net, orig: seq<Option<Route>>, l: Link, c: nat)
    requires WellFormed(net) && |orig| == |net.outs| && IsLink(net, l) && orig[Receiver(net, l)].None? && !Dead(net, orig, l)
    ensures Carried(net, orig, Sender(net, l), c) ==> Carried(net, orig, Receiver(net, l), c + 1)
  {
    assert Carried(net, orig, Sender(net, l), c) ==> Crosses(net, orig, l, c);
  }

  /** The news reaches a nearest node from a node one hop nearer. */
  lemma NearestFrom(net: Net, orig: seq<Option<Route>>, n: NodeId, c: nat) returns (l: Link)
    requires WellFormed(net) && |orig| == |net.outs| && n < |orig| && Nearest(net, orig, n, c) && c > 0
    ensures IsLink(net, l) && Receiver(net, l) == n && Crosses(net, orig, l, c - 1) && Nearest(net, orig, Sender(net, l), c - 1)
  {
    l :| IsLink(net, l) && Receiver(net, l) == n && Crosses(net, orig, l, c - 1);
    var x := Sender(net, l);
    assert orig[n].None? && Carried(net, orig, x, c - 1);
    forall j: nat | j < c - 1 ensures !Carried(net, orig, x, j) {
      Onward(net, orig, l, j);
    }
  }

  /** The slot of k is as configured, or it was learned at its least cost from a node one hop nearer. */
  ghost predicate TaughtAt(net: Net, orig: seq<Option<Route>>, slot: Option<Route>, c: nat, k: NodeId)
    requires WellFormed(net) && |orig| == |net.outs| && k < |orig|
  {
    || slot == orig[k]
    || (&& slot.Some? && 1 <= slot.value.cost <= c && Nearest(net, orig, k, slot.value.cost)
        && slot.value.next in net.owner && net.owner[slot.value.next] < |orig|
        && Nearest(net, orig, net.owner[slot.value.next], slot.value.cost - 1))
  }

  ghost predicate Taught(net: Net, orig: seq<Option<Route>>, tab: seq<Option<Route>>, c: nat)
    requires WellFormed(net)
  {
    && |orig| == |net.outs| == |tab|
    && forall k :: 0 <= k < |tab| ==> TaughtAt(net, orig, tab[k], c, k)
  }

  lemma NearestOnce(net: Net, orig: seq<Option<Route>>, n: NodeId, c: nat, d: nat)
    requires WellFormed(net) && |orig| == |net.outs| && n < |orig| && Nearest(net, orig, n, c)
    ensures Nearest(net, orig, n, d) ==> c == d
  {
  }

  /** A node further away than c has learned nothing yet. */
  lemma StillEmpty(net: Net, orig: seq<Option<Route>>, slot: Option<Route>, n: NodeId, c: nat)
    requires WellFormed(net) && |orig| == |net.outs| && n < |orig|
    requires TaughtAt(net, orig, slot, c, n) && Nearest(net, orig, n, c + 1)
    ensures slot == None
  {
    assert !Carried(net, orig, n, 0);
  }

  /** A node c hops away does not poison its announcement to a node further away. */
  lemma NotPoisoned(net: Net, orig: seq<Option<Route>>, slot: Option<Route>, l: Link, c: nat)
    requires WellFormed(net) && |orig| == |net.outs| && IsLink(net, l)
    requires slot.Some? && slot.value.cost == c && TaughtAt(net, orig, slot, c, Sender(net, l))
    requires Crosses(net, orig, l, c) && Nearest(net, orig, Receiver(net, l), c + 1)
    ensures slot.value.next != l.dst
  {
    if c > 0 {
      NearestOnce(net, orig, Receiver(net, l), c + 1, c - 1);
    }
  }

  /** The node one hop further away learns. */
  lemma Learns(net: Net, orig: seq<Option<Route>>, tab: seq<Option<Route>>, l: Link, c: nat)
    requires WellFormed(net) && Taught(net, orig, tab, c) && IsLink(net, l) && c + 1 < INFTY
    requires Crosses(net, orig, l, c) && Nearest(net, orig, Receiver(net, l), c + 1)
    requires tab[Sender(net, l)].Some? && tab[Sender(net, l)].value.cost == c
    ensures React(tab[Receiver(net, l)], l.src, Announce(tab[Sender(net, l)].value, l.dst)).table == Some(Route(Learned, l.src, c + 1))
  {
    StillEmpty(net, orig, tab[Receiver(net, l)], Receiver(net, l), c);
    NotPoisoned(net, orig, tab[Sender(net, l)], l, c);
  }

  /** A run on ordered links after which n knows the prefix and nodes that cannot be nearer know nothing new. */
  lemma {:induction false} Teach(net: Net, s: Sys, p: Prefix, n: NodeId, c: nat) returns (states: seq<Sys>, events: seq<Event>)
    requires WellFormed(net) && Shape(net, s) && Origin(net, TabOf(s.tables, p)) && n < |net.outs|
    requires c < INFTY && Nearest(net, TabOf(s.tables, p), n, c)
    ensures OrderedRun(net, s, states, events) && states[|events|].air == []
    ensures Taught(net, TabOf(s.tables, p), TabOf(states[|events|].tables, p), c)
    ensures p in states[|events|].tables[n] && states[|events|].tables[n][p].cost == c
    decreases c
  {
    var orig := TabOf(s.tables, p);
    if c == 0 {
      states, events := Silence(net, s, [s], []);
      assert orig[n] == Lookup(s.tables[n], p);
    } else {
      var l := NearestFrom(net, orig, n, c);
      var before, past := Teach(net, s, p, Sender(net, l), c - 1);
      var tab := TabOf(before[|past|].tables, p);
      assert tab[Sender(net, l)] == Lookup(before[|past|].tables[Sender(net, l)], p);
      Learns(net, orig, tab, l, c - 1);
      states, events := AdvertiseOnce(net, s, before, past, l, p);
      TaughtMore(net, orig, tab, l, c - 1);
      var tab' := TabOf(states[|events|].tables, p);
      assert tab' == tab[n := Some(Route(Learned, l.src, c))];
      assert tab'[n] == Lookup(states[|events|].tables[n], p);
    }
  }

  lemma TaughtMore(net: Net, orig: seq<Option<Route>>, tab: seq<Option<Route>>, l: Link, c: nat)
    requires WellFormed(net) && Taught(net, orig, tab, c) && IsLink(net, l)
    requires Nearest(net, orig, Sender(net, l), c) && Nearest(net, orig, Receiver(net, l), c + 1)
    ensures Taught(net, orig, tab[Receiver(net, l) := Some(Route(Learned, l.src, c + 1))], c + 1)
  {
    var n := Receiver(net, l);
    var tab' := tab[n := Some(Route(Learned, l.src, c + 1))];
    forall k | 0 <= k < |tab'| ensures TaughtAt(net, orig, tab'[k], c + 1, k) {
      assert TaughtAt(net, orig, tab[k], c, k);
    }
  }

  /** A configured route that leads to a neighbour which can know the prefix is deleted by some run on ordered links. */
  lemma DisturbedIsLost(net: Net, s: Sys, l: Link, p: Prefix) returns (states: seq<Sys>, events: seq<Event>)
    requires WellFormed(net) && Init(net, s) && Shape(net, s) && IsLink(net, l)
    requires LeadsBack(net, TabOf(s.tables, p), l) && Heard(net, TabOf(s.tables, p), Sender(net, l))
    ensures OrderedRun(net, s, states, events)
    ensures p in s.tables[Receiver(net, l)] && p !in states[|events|].tables[Receiver(net, l)]
  {
    InitKept(net, s, p);
    var orig, m, x := TabOf(s.tables, p), Receiver(net, l), Sender(net, l);
    var c: nat :| c < INFTY && Carried(net, orig, x, c);
    c := LeastCarried(net, orig, x, c);
    states, events := Teach(net, s, p, x, c);
    var t := states[|events|].tables;
    assert TaughtAt(net, orig, TabOf(t, p)[m], c, m);
    assert orig[m] == Lookup(s.tables[m], p) && TabOf(t, p)[m] == Lookup(t[m], p);
    assert Carried(net, orig, m, 0);
    states, events := AdvertiseOnce(net, s, states, events, l, p);
    var t' := states[|events|].tables;
    assert TabOf(t', p)[m] == Lookup(t'[m], p);
  }

  // ---------- The exact condition ----------

  /** No configured route of s leads to a RIP neighbour that can come to know its prefix. */
  ghost predicate AllUndisturbed(net: Net, s: Sys)
    requires WellFormed(net) && Shape(net, s)
  {
    forall p :: Undisturbed(net, TabOf(s.tables, p))
  }

  /** A run from start-up on links that keep order, with configured routes that nothing can disturb. */
  ghost predicate FifoRun(net: Net, states: seq<Sys>, events: seq<Event>) {
    && Run(net, states, events)
    && Symmetric(net)
    && Init(net, states[0])
    && AllUndisturbed(net, states[0])
    && forall i :: 0 <= i < |events| ==> InOrder(states[i].air, events[i])
  }

  /** Every configured route of s is still in the table, unchanged. */
  ghost predicate Persist(s: Sys, t: Sys) {
    |t.tables| == |s.tables| && forall n, p :: 0 <= n < |s.tables| && p in s.tables[n] ==> p in t.tables[n] && t.tables[n][p] == s.tables[n][p]
  }

  /** Under loss, repetition, reordering and expiry alike. */
  lemma UndisturbedPersist(net: Net, states: seq<Sys>, events: seq<Event>, i: nat)
    requires Run(net, states, events) && Mutual(net) && Init(net, states[0]) && i < |states|
    requires AllUndisturbed(net, states[0])
    ensures Persist(states[0], states[i])
  {
    forall n, p | 0 <= n < |states[0].tables| && p in states[0].tables[n]
      ensures p in states[i].tables[n] && states[i].tables[n][p] == states[0].tables[n][p]
    {
      RunKept(net, states, events, i, p);
      var orig, tab := TabOf(states[0].tables, p), TabOf(states[i].tables, p);
      assert orig[n] == Lookup(states[0].tables[n], p) && tab[n] == Lookup(states[i].tables[n], p);
      assert KeptSlot(net, orig, n, tab[n]);
    }
  }

  /** Configured routes persist in every run if and only if none leads to a neighbour that can come to know its prefix. */
  lemma PersistIffUndisturbed(net: Net, s: Sys)
    requires WellFormed(net) && Mutual(net) && Init(net, s) && Shape(net, s)
    ensures AllUndisturbed(net, s)
            <==> (forall states, events :: Run(net, states, events) && states[0] == s ==> Persist(s, states[|events|]))
  {
    if AllUndisturbed(net, s) {
      forall states, events | Run(net, states, events) && states[0] == s ensures Persist(s, states[|events|]) {
        UndisturbedPersist(net, states, events, |events|);
      }
    } else {
      var p :| !Undisturbed(net, TabOf(s.tables, p));
      var l :| IsLink(net, l) && LeadsBack(net, TabOf(s.tables, p), l) && Heard(net, TabOf(s.tables, p), Sender(net, l));
      var states, events := DisturbedIsLost(net, s, l, p);
      assert Run(net, states, events) && !Persist(s, states[|events|]);
    }
  }
}
