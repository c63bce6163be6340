/**
 Convergence without rounds: on lossless links that keep order, whatever the
 interleaving, a state with nothing in flight holds each prefix exactly where news of
 it can get within 15 hops, at the least number of hops; the start-up exchange always
 reaches such a state, and no later event changes it.  Where no configured route leads
 to a RIP neighbour, these are the shortest paths.
 */
module RipConvergence {
  import opened Options
  import opened RipCore
  import opened RipSlice
  import opened RipSoundness
  import opened RipConfigured
  import opened RipLoopFree
  import opened RipQuiescence

  /** The newest announcement on link l says `msg`. */
  ghost predicate LastTold(air: seq<Flight<Msg>>, l: Link, msg: Msg) {
    exists i :: 0 <= i < |air| && air[i] == Flight(l, msg) && NewestFrom(air, l, msg, i)
  }

  ghost predicate NewestFrom(air: seq<Flight<Msg>>, l: Link, msg: Msg, i: nat) {
    forall j :: i < j < |air| && air[j].link == l && air[j].msg.Tell? ==> air[j].msg == msg
  }

  /** The receiver of l is no further than one hop behind its sender. */
  ghost predicate Settled(tab: seq<Option<Route>>, n: NodeId, m: NodeId)
    requires n < |tab| && m < |tab| && tab[n].Some?
  {
    tab[n].value.cost + 1 >= INFTY || (tab[m].Some? && tab[m].value.cost <= tab[n].value.cost + 1)
  }

  /** The receiver of l still has to be answered, or has been or is about to be told the sender's slot. */
  ghost predicate Informed(net: Net, s: Slice, l: Link)
    requires WellFormed(net) && SliceShape(net, s) && IsLink(net, l)
  {
    var n, m := Sender(net, l), Receiver(net, l);
    || Flight(Flip(l), Ask) in s.air
    || s.tab[n].None?
    || Withheld(s.tab[n], l)
    || LastTold(s.air, l, Reply(s.tab[n], l.dst))
    || Settled(s.tab, n, m)
  }

  /** An originator does not tell its own next hop. */
  ghost predicate Withheld(slot: Option<Route>, l: Link) {
    slot.Some? && slot.value.cost == 0 && slot.value.next == l.dst
  }

  ghost predicate AllInformed(net: Net, s: Slice)
    requires WellFormed(net) && SliceShape(net, s)
  {
    forall l :: IsLink(net, l) ==> Informed(net, s, l)
  }

  // ---------- How the newest announcement survives ----------

  lemma LastToldRemove(air: seq<Flight<Msg>>, l: Link, msg: Msg, i: nat)
    requires i < |air| && LastTold(air, l, msg) && air[i] != Flight(l, msg)
    ensures LastTold(Remove(air, i), l, msg)
  {
    var rest := Remove(air, i);
    var k :| 0 <= k < |air| && air[k] == Flight(l, msg) && NewestFrom(air, l, msg, k);
    var k' := if k < i then k else k - 1;
    assert rest[k'] == Flight(l, msg);
    forall j | k' < j < |rest| && rest[j].link == l && rest[j].msg.Tell? ensures rest[j].msg == msg {
      var j' := if j < i then j else j + 1;
      assert air[j'] == rest[j] && k < j';
    }
    assert NewestFrom(rest, l, msg, k');
  }

  lemma LastToldAppend(air: seq<Flight<Msg>>, l: Link, msg: Msg, extra: seq<Flight<Msg>>)
    requires LastTold(air, l, msg)
    requires forall f :: f in extra && f.link == l && f.msg.Tell? ==> f.msg == msg
    ensures LastTold(air + extra, l, msg)
  {
    var k :| 0 <= k < |air| && air[k] == Flight(l, msg) && NewestFrom(air, l, msg, k);
    var all := air + extra;
    assert all[k] == Flight(l, msg);
    forall j | k < j < |all| && all[j].link == l && all[j].msg.Tell? ensures all[j].msg == msg {
      if j < |air| {
        assert all[j] == air[j];
      } else {
        assert all[j] in extra;
      }
    }
    assert NewestFrom(all, l, msg, k);
  }

  lemma LastToldFresh(air: seq<Flight<Msg>>, l: Link, msg: Msg, extra: seq<Flight<Msg>>)
    requires Flight(l, msg) in extra
    requires forall f :: f in extra && f.link == l && f.msg.Tell? ==> f.msg == msg
    ensures LastTold(air + extra, l, msg)
  {
    var k :| 0 <= k < |extra| && extra[k] == Flight(l, msg);
    var all := air + extra;
    assert all[|air| + k] == Flight(l, msg);
    forall j | |air| + k < j < |all| && all[j].link == l && all[j].msg.Tell? ensures all[j].msg == msg {
      assert all[j] == extra[j - |air|];
      assert all[j] in extra;
    }
    assert NewestFrom(all, l, msg, |air| + k);
  }

  // ---------- Steps keep every link informed ----------

  /** A delivered announcement leaves the receiver settled. */
  lemma DeliveredSettles(net: Net, orig: seq<Option<Route>>, s: Slice, i: nat)
    requires WellFormed(net) && Symmetric(net) && Calm(net, orig) && Kept(net, orig, s) && Ordered(net, orig, s) && i < |s.air|
    requires var f := s.air[i]; s.tab[Sender(net, f.link)].Some? && f.msg == Reply(s.tab[Sender(net, f.link)], f.link.dst)
    requires !Withheld(s.tab[Sender(net, s.air[i].link)], s.air[i].link)
    ensures var f := s.air[i]; var n, m := Sender(net, f.link), Receiver(net, f.link);
            var r := ReactMsg(s.tab[m], f.link.src, f.msg);
            s.tab[n].value.cost + 1 >= INFTY || (r.table.Some? && r.table.value.cost <= s.tab[n].value.cost + 1)
  {
    var f := s.air[i];
    NoDrop(net, orig, s, i);
    assert Downhill(net, orig, s.tab, Sender(net, f.link));
  }

  /** A node that triggers tells every neighbour its new slot. */
  lemma TriggerInforms(net: Net, s': Slice, rest: seq<Flight<Msg>>, l: Link)
    requires WellFormed(net) && SliceShape(net, s') && IsLink(net, l)
    requires s'.air == rest + Cast(net, Sender(net, l), s'.tab[Sender(net, l)])
    ensures Informed(net, s', l)
  {
    var n := Sender(net, l);
    var extra := Cast(net, n, s'.tab[n]);
    var k :| 0 <= k < |net.outs[n]| && net.outs[n][k] == l;
    assert extra[k] == Flight(l, Reply(s'.tab[n], l.dst));
    LastToldFresh(rest, l, Reply(s'.tab[n], l.dst), extra);
  }

  /** A link whose sender keeps its slot stays informed. */
  lemma KeptInforms(net: Net, orig: seq<Option<Route>>, s: Slice, i: nat, s': Slice, extra: seq<Flight<Msg>>, l: Link)
    requires WellFormed(net) && Symmetric(net) && Calm(net, orig) && Kept(net, orig, s) && Ordered(net, orig, s)
    requires i < |s.air| && !s.air[i].msg.Ask? && IsLink(net, l) && Informed(net, s, l) && SliceShape(net, s')
    requires s'.air == Remove(s.air, i) + extra && (forall f :: f in extra && f.link == l ==> !f.msg.Tell? || f.msg == Reply(s.tab[Sender(net, l)], l.dst))
    requires var m := Receiver(net, s.air[i].link); s'.tab == s.tab[m := ReactMsg(s.tab[m], s.air[i].link.src, s.air[i].msg).table]
    requires s'.tab[Sender(net, l)] == s.tab[Sender(net, l)] && Improves(s.tab, s'.tab)
    ensures Informed(net, s', l)
  {
    var f, rest := s.air[i], Remove(s.air, i);
    var n := Sender(net, l);
    var msg := Reply(s.tab[n], l.dst);
    if Flight(Flip(l), Ask) in s.air {
      var k :| 0 <= k < |s.air| && s.air[k] == Flight(Flip(l), Ask);
      assert rest[if k < i then k else k - 1] == Flight(Flip(l), Ask);
    } else if s.tab[n].Some? && !Withheld(s.tab[n], l) && LastTold(s.air, l, msg) {
      if f == Flight(l, msg) {
        DeliveredSettles(net, orig, s, i);
      } else {
        LastToldRemove(s.air, l, msg, i);
        LastToldAppend(rest, l, msg, extra);
      }
    }
  }

  lemma InformedDeliver(net: Net, orig: seq<Option<Route>>, s: Slice, i: nat, s': Slice, l: Link)
    requires WellFormed(net) && Symmetric(net) && Calm(net, orig) && Kept(net, orig, s) && Ordered(net, orig, s) && AllInformed(net, s)
    requires i < |s.air| && !s.air[i].msg.Ask? && InOrder(s.air, Deliver(i)) && SliceDelivered(net, s, i, s')
    requires IsLink(net, l) && SliceShape(net, s')
    ensures Informed(net, s', l)
  {
    var f := s.air[i];
    var m0 := Receiver(net, f.link);
    var r := ReactMsg(s.tab[m0], f.link.src, f.msg);
    var rest := Remove(s.air, i);
    var extra := s'.air[|rest|..];
    assert s'.air == rest + extra;
    if f.msg.Tell? {
      NoDrop(net, orig, s, i);
    }
    if Sender(net, l) == m0 && r.triggered.Some? {
      TriggerInforms(net, s', rest, l);
    } else {
      assert Informed(net, s, l);
      KeptInforms(net, orig, s, i, s', extra, l);
    }
  }

  lemma InformedAppend(net: Net, s: Slice, f: Flight<Msg>, l: Link)
    requires WellFormed(net) && SliceShape(net, s) && IsLink(net, l) && Informed(net, s, l)
    requires IsLink(net, f.link) && f.msg == Reply(s.tab[Sender(net, f.link)], f.link.dst)
    ensures Informed(net, s.(air := s.air + [f]), l)
  {
    var msg := Reply(s.tab[Sender(net, l)], l.dst);
    if LastTold(s.air, l, msg) {
      LastToldAppend(s.air, l, msg, [f]);
    }
  }

  lemma InformedAnswer(net: Net, s: Slice, i: nat, l: Link)
    requires WellFormed(net) && Mutual(net) && SliceShape(net, s) && IsLink(net, l) && Informed(net, s, l)
    requires i < |s.air| && s.air[i].msg.Ask?
    ensures var f := s.air[i];
            Informed(net, Slice(s.tab, Remove(s.air, i) + [Flight(Flip(f.link), Reply(s.tab[Receiver(net, f.link)], f.link.src))]), l)
  {
    var f := s.air[i];
    var rest := Remove(s.air, i);
    var answer := Flight(Flip(f.link), Reply(s.tab[Receiver(net, f.link)], f.link.src));
    var msg := Reply(s.tab[Sender(net, l)], l.dst);
    if f.link == Flip(l) {
      assert answer == Flight(l, msg);
      LastToldFresh(rest, l, msg, [answer]);
    } else if Flight(Flip(l), Ask) in s.air {
      var k :| 0 <= k < |s.air| && s.air[k] == Flight(Flip(l), Ask);
      assert rest[if k < i then k else k - 1] == Flight(Flip(l), Ask);
    } else if s.tab[Sender(net, l)].Some? && LastTold(s.air, l, msg) {
      LastToldRemove(s.air, l, msg, i);
      LastToldAppend(rest, l, msg, [answer]);
    }
  }

  lemma StepInformed(net: Net, orig: seq<Option<Route>>, p: Prefix, s: Slice, ev: Event, s': Slice)
    requires WellFormed(net) && Symmetric(net) && Calm(net, orig) && Kept(net, orig, s) && Ordered(net, orig, s) && AllInformed(net, s)
    requires InOrder(s.air, ev) && !ev.Lose? && SliceStep(net, p, s, ev, s') && SliceShape(net, s')
    ensures AllInformed(net, s')
  {
    forall l | IsLink(net, l) ensures Informed(net, s', l) {
      match ev
      case Deliver(i) =>
        if s.air[i].msg.Ask? {
          InformedAnswer(net, s, i, l);
        } else {
          InformedDeliver(net, orig, s, i, s', l);
        }
      case Advertise(k) =>
        InformedAppend(net, s, Flight(k, Reply(s.tab[Sender(net, k)], k.dst)), l);
    }
  }

  lemma InitInformed(net: Net, s: Sys, p: Prefix)
    requires WellFormed(net) && Mutual(net) && Init(net, s) && SliceShape(net, SliceOf(s, p))
    ensures AllInformed(net, SliceOf(s, p))
  {
    forall l | IsLink(net, l) ensures Flight(Flip(l), Ask) in AirOf(s.air, p) {
      var i :| 0 <= i < |s.air| && s.air[i] == Flight(Flip(l), Request);
      assert AirOf(s.air, p)[i] == Flight(Flip(l), Ask);
    }
  }

  ghost predicate LosslessUpTo(events: seq<Event>, i: nat) {
    forall k :: 0 <= k < i && k < |events| ==> !events[k].Lose?
  }

  lemma {:induction false} RunInformed(net: Net, states: seq<Sys>, events: seq<Event>, i: nat, p: Prefix)
    requires FifoRun(net, states, events) && i < |states| && LosslessUpTo(events, i)
    ensures SliceShape(net, SliceOf(states[i], p)) && AllInformed(net, SliceOf(states[i], p))
  {
    ShapeSlices(net, states[i], p);
    if i == 0 {
      InitInformed(net, states[0], p);
    } else {
      RunInformed(net, states, events, i - 1, p);
      RunOrdered(net, states, events, i - 1, p);
      StepSlices(net, states[i - 1], events[i - 1], states[i], p);
      InOrderSlices(states[i - 1].air, events[i - 1], p);
      StepInformed(net, TabOf(states[0].tables, p), p, SliceOf(states[i - 1], p), events[i - 1], SliceOf(states[i], p));
    }
  }

  // ---------- Nothing in flight means shortest paths ----------

  lemma QuietNeighbour(net: Net, s: Slice, l: Link, k: nat)
    requires WellFormed(net) && SliceShape(net, s) && AllInformed(net, s) && s.air == [] && IsLink(net, l)
    requires s.tab[Sender(net, l)].Some? && s.tab[Sender(net, l)].value.cost <= k && k + 1 < INFTY && !Withheld(s.tab[Sender(net, l)], l)
    ensures s.tab[Receiver(net, l)].Some? && s.tab[Receiver(net, l)].value.cost <= k + 1
  {
    assert Informed(net, s, l);
  }

  /** A link that news can cross is not withheld. */
  lemma CrossesOpenly(net: Net, orig: seq<Option<Route>>, l: Link, c: nat, slot: Option<Route>)
    requires WellFormed(net) && Origin(net, orig) && IsLink(net, l) && Crosses(net, orig, l, c)
    requires KeptSlot(net, orig, Sender(net, l), slot)
    ensures !Withheld(slot, l)
  {
    assert c > 0 ==> orig[Sender(net, l)].None?;
  }

  lemma {:induction false} QuietReaches(net: Net, states: seq<Sys>, events: seq<Event>, i: nat, p: Prefix, n: NodeId, k: nat)
    requires FifoRun(net, states, events) && i < |states| && LosslessUpTo(events, i) && states[i].air == []
    requires n < |net.outs| && k < INFTY && Carried(net, TabOf(states[0].tables, p), n, k)
    ensures p in states[i].tables[n] && states[i].tables[n][p].cost <= k
    decreases k
  {
    var orig, tab := TabOf(states[0].tables, p), TabOf(states[i].tables, p);
    RunOrdered(net, states, events, i, p);
    assert tab[n] == Lookup(states[i].tables[n], p);
    if k == 0 {
      assert Downhill(net, orig, tab, n);
    } else {
      var l :| IsLink(net, l) && Receiver(net, l) == n && Crosses(net, orig, l, k - 1);
      var m := Sender(net, l);
      QuietReaches(net, states, events, i, p, m, k - 1);
      assert tab[m] == Lookup(states[i].tables[m], p) && KeptSlot(net, orig, m, tab[m]);
      CrossesOpenly(net, orig, l, k - 1, tab[m]);
      RunInformed(net, states, events, i, p);
      QuietNeighbour(net, SliceOf(states[i], p), l, k - 1);
    }
  }

  /** n holds p exactly if the news can reach it over at most 15 hops, at the least such number. */
  ghost predicate Exact(net: Net, orig: seq<Option<Route>>, t: map<Prefix, Route>, p: Prefix, n: NodeId)
    requires WellFormed(net) && |orig| == |net.outs| && n < |orig|
  {
    && (p in t ==> t[p].cost < INFTY && Nearest(net, orig, n, t[p].cost))
    && (forall d: nat :: d < INFTY && Nearest(net, orig, n, d) ==> p in t && t[p].cost == d)
  }

  /** In every interleaving on lossless ordered links, nothing in flight means exact tables. */
  lemma QuietIsExact(net: Net, states: seq<Sys>, events: seq<Event>, i: nat, p: Prefix, n: NodeId)
    requires FifoRun(net, states, events) && i < |states| && LosslessUpTo(events, i) && states[i].air == []
    requires n < |net.outs|
    ensures Exact(net, TabOf(states[0].tables, p), states[i].tables[n], p, n)
  {
    var orig, t := TabOf(states[0].tables, p), states[i].tables[n];
    KnownIsCarried(net, states, events, i, p, n);
    forall j: nat | j < INFTY && Carried(net, orig, n, j) ensures p in t && t[p].cost <= j {
      QuietReaches(net, states, events, i, p, n, j);
    }
  }

  lemma KnownIsCarried(net: Net, states: seq<Sys>, events: seq<Event>, i: nat, p: Prefix, n: NodeId)
    requires FifoRun(net, states, events) && i < |states| && n < |net.outs|
    ensures p in states[i].tables[n] ==>
              states[i].tables[n][p].cost < INFTY && Carried(net, TabOf(states[0].tables, p), n, states[i].tables[n][p].cost)
  {
    RunOrdered(net, states, events, i, p);
    var orig, tab := TabOf(states[0].tables, p), TabOf(states[i].tables, p);
    assert tab[n] == Lookup(states[i].tables[n], p) && KeptSlot(net, orig, n, tab[n]);
  }

  /** Once quiet, every later state keeps each cost and next hop, even if later packets are lost. */
  lemma ConvergedForGood(net: Net, states: seq<Sys>, events: seq<Event>, i: nat, j: nat, p: Prefix, n: NodeId)
    requires FifoRun(net, states, events) && i <= j < |states| && LosslessUpTo(events, i) && states[i].air == []
    requires n < |net.outs|
    ensures Lookup(states[j].tables[n], p) == Lookup(states[i].tables[n], p)
  {
    QuietIsExact(net, states, events, i, p, n);
    KnownIsCarried(net, states, events, j, p, n);
    if p in states[i].tables[n] {
      NeverDeleted(net, states, events, i, j, n, p);
    } else if p in states[j].tables[n] {
      QuietReaches(net, states, events, i, p, n, states[j].tables[n][p].cost);
    }
  }

  // ---------- Shortest paths ----------

  /** No configured route leads to a RIP neighbour at all. */
  ghost predicate OriginsApart(net: Net, s: Sys)
    requires WellFormed(net) && |s.tables| == |net.outs|
  {
    forall l, p :: IsLink(net, l) && p in s.tables[Receiver(net, l)] ==> s.tables[Receiver(net, l)][p].next != l.src
  }

  /** A run from start-up on ordered links, without configured routes to RIP neighbours. */
  ghost predicate ApartRun(net: Net, states: seq<Sys>, events: seq<Event>) {
    && Run(net, states, events) && Symmetric(net) && Init(net, states[0]) && OriginsApart(net, states[0])
    && forall i :: 0 <= i < |events| ==> InOrder(states[i].air, events[i])
  }

  lemma ApartUndisturbed(net: Net, s: Sys)
    requires WellFormed(net) && Shape(net, s) && OriginsApart(net, s)
    ensures AllUndisturbed(net, s)
  {
    forall p, l | IsLink(net, l) ensures !LeadsBack(net, TabOf(s.tables, p), l) {
      assert TabOf(s.tables, p)[Receiver(net, l)] == Lookup(s.tables[Receiver(net, l)], p);
    }
  }

  lemma {:induction false} CarriedIsWalk(net: Net, s: Sys, p: Prefix, n: NodeId, c: nat)
    requires WellFormed(net) && Shape(net, s) && n < |net.outs| && Carried(net, TabOf(s.tables, p), n, c)
    ensures Walk(net, Origins(s, p), n, c)
    decreases c
  {
    var orig := TabOf(s.tables, p);
    if c == 0 {
      assert orig[n] == Lookup(s.tables[n], p);
    } else {
      var l :| IsLink(net, l) && Receiver(net, l) == n && Crosses(net, orig, l, c - 1);
      CarriedIsWalk(net, s, p, Sender(net, l), c - 1);
      WalkOn(net, Origins(s, p), l, c - 1);
    }
  }

  lemma ApartCrosses(net: Net, s: Sys, p: Prefix, l: Link, c: nat)
    requires WellFormed(net) && Mutual(net) && Shape(net, s) && OriginsApart(net, s)
    requires IsLink(net, l) && Carried(net, TabOf(s.tables, p), Sender(net, l), c)
    ensures Crosses(net, TabOf(s.tables, p), l, c)
  {
    var m, back := Sender(net, l), Flip(l);
    assert IsLink(net, back) && Receiver(net, back) == m;
    if c == 0 {
      assert TabOf(s.tables, p)[m] == Lookup(s.tables[m], p);
      assert p in s.tables[m] && s.tables[m][p].next != back.src;
    }
  }

  lemma {:induction false} WalkIsCarried(net: Net, s: Sys, p: Prefix, n: NodeId, k: nat) returns (c: nat)
    requires WellFormed(net) && Mutual(net) && Shape(net, s) && OriginsApart(net, s)
    requires n < |net.outs| && Walk(net, Origins(s, p), n, k)
    ensures c <= k && Carried(net, TabOf(s.tables, p), n, c)
    decreases k
  {
    var orig := TabOf(s.tables, p);
    assert orig[n] == Lookup(s.tables[n], p);
    if p in s.tables[n] {
      c := 0;
    } else {
      var l :| IsLink(net, l) && l.dst in net.owner && net.owner[l.dst] == n && Walk(net, Origins(s, p), net.owner[l.src], k - 1);
      var m := Sender(net, l);
      c := WalkIsCarried(net, s, p, m, k - 1);
      ApartCrosses(net, s, p, l, c);
      c := c + 1;
    }
  }

  /** Apart from such routes, news travels along shortest paths. */
  lemma NearestIsDistance(net: Net, s: Sys, p: Prefix, n: NodeId, d: nat)
    requires WellFormed(net) && Mutual(net) && Shape(net, s) && OriginsApart(net, s) && n < |net.outs|
    ensures Nearest(net, TabOf(s.tables, p), n, d) <==> Distance(net, Origins(s, p), n, d)
  {
    if Nearest(net, TabOf(s.tables, p), n, d) {
      NearestToDistance(net, s, p, n, d);
    }
    if Distance(net, Origins(s, p), n, d) {
      var c := WalkIsCarried(net, s, p, n, d);
      c := LeastCarried(net, TabOf(s.tables, p), n, c);
      CarriedIsWalk(net, s, p, n, c);
    }
  }

  lemma NearestToDistance(net: Net, s: Sys, p: Prefix, n: NodeId, d: nat)
    requires WellFormed(net) && Mutual(net) && Shape(net, s) && OriginsApart(net, s) && n < |net.outs|
    requires Nearest(net, TabOf(s.tables, p), n, d)
    ensures Distance(net, Origins(s, p), n, d)
  {
    CarriedIsWalk(net, s, p, n, d);
    if k: nat :| k < d && Walk(net, Origins(s, p), n, k) {
      var c := WalkIsCarried(net, s, p, n, k);
      assert false;
    }
  }

  /** Without configured routes to RIP neighbours, quiet tables hold exactly the shortest paths of at most 15 hops. */
  lemma QuietIsShortest(net: Net, states: seq<Sys>, events: seq<Event>, i: nat, p: Prefix, n: NodeId, d: nat)
    requires ApartRun(net, states, events) && i < |states| && LosslessUpTo(events, i) && states[i].air == []
    requires n < |net.outs|
    ensures (p in states[i].tables[n] && states[i].tables[n][p].cost == d) <==> (d < INFTY && Distance(net, Origins(states[0], p), n, d))
  {
    ApartUndisturbed(net, states[0]);
    QuietIsExact(net, states, events, i, p, n);
    NearestIsDistance(net, states[0], p, n, d);
  }

  // ---------- Start-up ----------

  lemma {:induction false} ScheduleIsRun(net: Net, run: nat -> Sys, ev: nat -> Event, k: nat) returns (states: seq<Sys>, events: seq<Event>)
    requires WellFormed(net) && Symmetric(net) && Init(net, run(0)) && Shape(net, run(0)) && AllUndisturbed(net, run(0))
    requires forall j: nat :: j <= k ==> Shape(net, run(j))
    requires forall j: nat :: j < k ==> Step(net, run(j), ev(j), run(j + 1)) && InOrder(run(j).air, ev(j)) && !ev(j).Lose?
    ensures FifoRun(net, states, events) && LosslessUpTo(events, k)
    ensures |states| == k + 1 && states[0] == run(0) && states[k] == run(k)
  {
    states := seq(k + 1, j requires 0 <= j <= k => run(j));
    events := seq(k, j requires 0 <= j < k => ev(j));
  }

  lemma InitReady(net: Net, s: Sys) returns (d: nat, ps: set<Prefix>)
    requires WellFormed(net) && Init(net, s)
    ensures Ready(net, d, ps, s)
  {
    d := MaxDegree(net.outs);
    ps := AllKeys(s.tables);
  }

  lemma {:induction false} MaxDegree(outs: seq<seq<Link>>) returns (d: nat)
    ensures forall n :: 0 <= n < |outs| ==> |outs[n]| <= d
  {
    d := 0;
    for i := 0 to |outs|
      invariant forall n :: 0 <= n < i ==> |outs[n]| <= d
    {
      d := if |outs[i]| > d then |outs[i]| else d;
    }
  }

  lemma {:induction false} AllKeys(tables: seq<map<Prefix, Route>>) returns (ps: set<Prefix>)
    ensures forall n :: 0 <= n < |tables| ==> tables[n].Keys <= ps
  {
    ps := {};
    for i := 0 to |tables|
      invariant forall n :: 0 <= n < i ==> tables[n].Keys <= ps
    {
      ps := ps + tables[i].Keys;
    }
  }

  /**
   Start-up converges: whatever order a fair schedule handles the packets in, as long
   as each link keeps order, some state has nothing in flight and exact tables everywhere.
   */
  lemma StartUpConverges(net: Net, run: nat -> Sys, ev: nat -> Event) returns (k: nat)
    requires WellFormed(net) && Symmetric(net) && Init(net, run(0)) && Shape(net, run(0)) && AllUndisturbed(net, run(0))
    requires forall j: nat :: run(j).air != [] && Shape(net, run(j)) ==>
               ev(j).Deliver? && InOrder(run(j).air, ev(j)) && Step(net, run(j), ev(j), run(j + 1))
    ensures run(k).air == [] && |run(k).tables| == |net.outs|
    ensures forall n, p :: 0 <= n < |net.outs| ==> Exact(net, TabOf(run(0).tables, p), run(k).tables[n], p, n)
  {
    var d, ps := InitReady(net, run(0));
    k := EventuallyQuiet(net, d, ps, run, ev, 0);
    assert Shape(net, run(k)) by {
      if k > 0 {
        StepShape(net, run(k - 1), ev(k - 1), run(k));
      }
    }
    var states, events := ScheduleIsRun(net, run, ev, k);
    forall n, p | 0 <= n < |net.outs| ensures Exact(net, TabOf(run(0).tables, p), run(k).tables[n], p, n) {
      QuietIsExact(net, states, events, k, p, n);
    }
  }

  lemma StepShape(net: Net, s: Sys, ev: Event, s': Sys)
    requires WellFormed(net) && Mutual(net) && Shape(net, s) && Step(net, s, ev, s')
    ensures Shape(net, s')
  {
    if ev.Deliver? {
      assert s.air[ev.i] in s.air;
    }
  }
}
