/**
 Triggered updates die out: from any tables with costs below INFTY and any packets
 in flight, on any topology and in any order of delivery, handling packets without
 new periodic or expiry events stops.

 Each finite cost c in flight carries enough weight to pay for one new table entry
 and for the announcements of cost c+1 it may set off; a poisoned cost can only set
 off anything by removing an entry, which carries weight of its own.
 */
module RipQuiescence {
  import opened Options
  import opened RipCore
  import opened RipSlice

  ghost predicate DegreeAtMost(net: Net, d: nat) {
    forall n :: 0 <= n < |net.outs| ==> |net.outs[n]| <= d
  }

  ghost predicate Low(tab: seq<Option<Route>>) {
    forall n :: 0 <= n < |tab| && tab[n].Some? ==> tab[n].value.cost < INFTY
  }

  // ---------- Weights ----------

  ghost function CostWeight(d: nat, c: nat): (w: nat)
    decreases INFTY - c
  {
    if c >= INFTY then 0 else 2 * d + d * CostWeight(d, c + 1)
  }

  ghost function MsgWeight(d: nat, m: Msg): (w: nat) {
    if m.Tell? then CostWeight(d, Through(m.wire)) else 0
  }

  ghost function AirWeight(d: nat, air: seq<Flight<Msg>>): (w: nat) {
    if air == [] then 0 else MsgWeight(d, air[0].msg) + AirWeight(d, air[1..])
  }

  ghost function SlotWeight(d: nat, slot: Option<Route>): (w: nat) {
    if slot.Some? then d else 0
  }

  ghost function TabWeight(d: nat, tab: seq<Option<Route>>): (w: nat) {
    if tab == [] then 0 else SlotWeight(d, tab[0]) + TabWeight(d, tab[1..])
  }

  ghost function SliceWeight(d: nat, s: Slice): (w: nat) {
    TabWeight(d, s.tab) + AirWeight(d, s.air)
  }

  lemma {:induction false} AirWeightConcat(d: nat, a: seq<Flight<Msg>>, b: seq<Flight<Msg>>)
    ensures AirWeight(d, a + b) == AirWeight(d, a) + AirWeight(d, b)
    decreases |a|
  {
    if a == [] {
      assert a + b == b;
    } else {
      assert (a + b)[1..] == a[1..] + b;
      AirWeightConcat(d, a[1..], b);
    }
  }

  lemma AirWeightRemove(d: nat, a: seq<Flight<Msg>>, i: nat)
    requires i < |a|
    ensures AirWeight(d, Remove(a, i)) + MsgWeight(d, a[i].msg) == AirWeight(d, a)
  {
    assert a == a[..i] + a[i..];
    AirWeightConcat(d, a[..i], a[i..]);
    AirWeightConcat(d, a[..i], a[i + 1..]);
  }

  lemma MulGrows(x: nat, y: nat, w: nat)
    requires x <= y
    ensures x * w <= y * w
    ensures x >= 1 ==> x * w == w + (x - 1) * w
  {
  }

  lemma {:induction false} AirWeightAtMost(d: nat, a: seq<Flight<Msg>>, w: nat)
    requires forall f :: f in a ==> MsgWeight(d, f.msg) <= w
    ensures AirWeight(d, a) <= |a| * w
    decreases |a|
  {
    if a != [] {
      assert a[0] in a;
      AirWeightAtMost(d, a[1..], w);
      MulGrows(|a|, |a|, w);
    }
  }

  lemma {:induction false} TabWeightUpdate(d: nat, tab: seq<Option<Route>>, m: nat, slot: Option<Route>)
    requires m < |tab|
    ensures TabWeight(d, tab[m := slot]) + SlotWeight(d, tab[m]) == TabWeight(d, tab) + SlotWeight(d, slot)
    decreases |tab|
  {
    if m == 0 {
      assert tab[m := slot][1..] == tab[1..];
    } else {
      assert tab[m := slot][1..] == tab[1..][m - 1 := slot];
      TabWeightUpdate(d, tab[1..], m - 1, slot);
    }
  }

  // ---------- One slice, one packet ----------

  /** The weight a packet brings pays for the slot and the announcements it sets off. */
  lemma ReactPays(d: nat, slot: Option<Route>, hop: Addr, wire: nat)
    requires slot.Some? ==> slot.value.cost < INFTY
    ensures var r := React(slot, hop, wire);
            && (r.triggered == None ==> r.table == slot)
            && (r.table.Some? ==> r.table.value.cost < INFTY)
            && (r.triggered.Some? ==>
                 && r.triggered.value.cost == Through(wire)
                 && SlotWeight(d, r.table) + d * CostWeight(d, Through(Through(wire))) + d
                    <= SlotWeight(d, slot) + CostWeight(d, Through(wire)))
  {
    var c := Through(wire);
    assert Through(c) == if c + 1 < INFTY then c + 1 else INFTY;
    assert d * 0 == 0;
  }

  lemma CastWeight(d: nat, net: Net, n: NodeId, slot: Option<Route>, extra: seq<Flight<Msg>>)
    requires n < |net.outs| && |net.outs[n]| <= d && Leaves(net, n, slot, extra)
    ensures slot == None ==> AirWeight(d, extra) == 0
    ensures slot.Some? ==> AirWeight(d, extra) <= d * CostWeight(d, Through(slot.value.cost))
  {
    if slot == None {
      AirWeightAtMost(d, extra, 0);
    } else {
      var w := CostWeight(d, Through(slot.value.cost));
      assert forall f :: f in extra ==> MsgWeight(d, f.msg) <= w by {
        forall f | f in extra ensures MsgWeight(d, f.msg) <= w {
          assert f.msg == Tell(slot.value.cost) || f.msg == Tell(INFTY);
        }
      }
      AirWeightAtMost(d, extra, w);
      MulGrows(|extra|, d, w);
    }
  }

  /** A response handled by a slice: the weight falls by d if the slice triggers, and never rises. */
  lemma SliceDeliverWeight(d: nat, net: Net, s: Slice, i: nat, s': Slice)
    requires WellFormed(net) && SliceShape(net, s) && DegreeAtMost(net, d) && Low(s.tab)
    requires i < |s.air| && !s.air[i].msg.Ask? && SliceDelivered(net, s, i, s')
    ensures Low(s'.tab)
    ensures var f := s.air[i]; var r := ReactMsg(s.tab[Receiver(net, f.link)], f.link.src, f.msg);
            SliceWeight(d, s') + (if r.triggered.Some? then d else 0) <= SliceWeight(d, s)
  {
    var f := s.air[i];
    assert f in s.air;
    var m := Receiver(net, f.link);
    var r := ReactMsg(s.tab[m], f.link.src, f.msg);
    var rest := Remove(s.air, i);
    var extra := s'.air[|rest|..];
    assert s'.air == rest + extra;
    AirWeightConcat(d, rest, extra);
    AirWeightRemove(d, s.air, i);
    TabWeightUpdate(d, s.tab, m, r.table);
    CastWeight(d, net, m, r.triggered, extra);
    if f.msg.Tell? {
      ReactPays(d, s.tab[m], f.link.src, f.msg.wire);
    }
  }

  // ---------- All prefixes together ----------

  ghost function Pick(ps: set<Prefix>): (p: Prefix)
    requires ps != {}
    ensures p in ps
  {
    var p :| p in ps;
    p
  }

  ghost function Total(d: nat, ps: set<Prefix>, s: Sys): (w: nat) {
    if ps == {} then 0 else
      var p := Pick(ps);
      SliceWeight(d, SliceOf(s, p)) + Total(d, ps - {p}, s)
  }

  /** `ps` covers every prefix in a table or a packet. */
  ghost predicate Within(ps: set<Prefix>, s: Sys) {
    && (forall n :: 0 <= n < |s.tables| ==> s.tables[n].Keys <= ps)
    && (forall f :: f in s.air && f.msg.Response? ==> f.msg.entries.Keys <= ps)
  }

  ghost predicate AllLow(s: Sys) {
    forall n, p :: 0 <= n < |s.tables| && p in s.tables[n] ==> s.tables[n][p].cost < INFTY
  }

  ghost predicate Ready(net: Net, d: nat, ps: set<Prefix>, s: Sys) {
    WellFormed(net) && DegreeAtMost(net, d) && Shape(net, s) && Within(ps, s) && AllLow(s)
  }

  lemma {:induction false} TotalFalls(d: nat, ps: set<Prefix>, s: Sys, s': Sys, hit: set<Prefix>)
    requires forall p :: p in ps ==> SliceWeight(d, SliceOf(s', p)) + (if p in hit then d else 0) <= SliceWeight(d, SliceOf(s, p))
    ensures Total(d, ps, s') + (if ps * hit != {} then d else 0) <= Total(d, ps, s)
    decreases ps
  {
    if ps != {} {
      var p := Pick(ps);
      TotalFalls(d, ps - {p}, s, s', hit);
      if ps * hit != {} && p !in hit {
        var q :| q in ps * hit;
        assert q in (ps - {p}) * hit;
      }
    }
  }

  lemma LowSlices(s: Sys, p: Prefix)
    ensures AllLow(s) ==> Low(SliceOf(s, p).tab)
  {
  }

  lemma LowFromSlices(s: Sys)
    requires forall p :: Low(SliceOf(s, p).tab)
    ensures AllLow(s)
  {
    forall n, p | 0 <= n < |s.tables| && p in s.tables[n] ensures s.tables[n][p].cost < INFTY {
      assert SliceOf(s, p).tab[n] == Some(s.tables[n][p]);
    }
  }

  lemma DeliverReady(net: Net, d: nat, ps: set<Prefix>, s: Sys, i: nat)
    requires Ready(net, d, ps, s) && i < |s.air| && s.air[i].msg.Response?
    ensures Ready(net, d, ps, Delivered(net, s, i))
  {
    var f := s.air[i];
    assert f in s.air;
    var s' := Delivered(net, s, i);
    forall p ensures Low(SliceOf(s', p).tab) {
      ShapeSlices(net, s, p);
      LowSlices(s, p);
      DeliverSlices(net, s, i, p);
      SliceDeliverWeight(d, net, SliceOf(s, p), i, SliceOf(s', p));
    }
    LowFromSlices(s');
  }

  /** Handling a response lowers total weight plus packet count. */
  lemma DeliverFalls(net: Net, d: nat, ps: set<Prefix>, s: Sys, i: nat)
    requires Ready(net, d, ps, s) && i < |s.air| && s.air[i].msg.Response?
    ensures var s' := Delivered(net, s, i); Total(d, ps, s') + |s'.air| < Total(d, ps, s) + |s.air|
  {
    var f := s.air[i];
    assert f in s.air;
    var s' := Delivered(net, s, i);
    var m := Receiver(net, f.link);
    var trig := HandleTriggered(s.tables[m], f.link.src, f.msg.entries);
    forall p | p in ps
      ensures SliceWeight(d, SliceOf(s', p)) + (if p in trig.Keys then d else 0) <= SliceWeight(d, SliceOf(s, p))
    {
      ShapeSlices(net, s, p);
      LowSlices(s, p);
      DeliverSlices(net, s, i, p);
      SliceDeliverWeight(d, net, SliceOf(s, p), i, SliceOf(s', p));
      HandleSlices(s.tables[m], f.link.src, f.msg.entries, p);
      assert SliceOf(s, p).air[i] == FlightOf(f, p);
    }
    TotalFalls(d, ps, s, s', trig.Keys);
    if trig != map[] {
      var p :| p in trig;
      assert p in ps * trig.Keys;
    }
  }

  lemma LoseFalls(net: Net, d: nat, ps: set<Prefix>, s: Sys, i: nat)
    requires Ready(net, d, ps, s) && i < |s.air|
    ensures var s' := s.(air := Remove(s.air, i));
            Ready(net, d, ps, s') && Total(d, ps, s') + |s'.air| < Total(d, ps, s) + |s.air|
  {
    var s' := s.(air := Remove(s.air, i));
    forall p | p in ps ensures SliceWeight(d, SliceOf(s', p)) <= SliceWeight(d, SliceOf(s, p)) {
      AirRemove(s.air, i, p);
      AirWeightRemove(d, AirOf(s.air, p), i);
    }
    TotalFalls(d, ps, s, s', {});
  }

  ghost predicate Handling(ev: Event) {
    ev.Deliver? || ev.Lose?
  }

  ghost predicate NoRequests(s: Sys) {
    forall f :: f in s.air ==> f.msg.Response?
  }

  /**
   Quiescence with an explicit bound: a run that only handles or loses responses is
   no longer than the weight and number of packets it starts from.
   */
  lemma {:induction false} TriggeredUpdatesDieOut(net: Net, d: nat, ps: set<Prefix>, states: seq<Sys>, events: seq<Event>)
    requires Run(net, states, events) && Ready(net, d, ps, states[0]) && NoRequests(states[0])
    requires forall i :: 0 <= i < |events| ==> Handling(events[i])
    ensures |events| <= Total(d, ps, states[0]) + |states[0].air|
    decreases |events|
  {
    if events != [] {
      var s, s' := states[0], states[1];
      assert Step(net, s, events[0], s');
      match events[0] {
        case Deliver(i) =>
          assert s.air[i] in s.air;
          DeliverReady(net, d, ps, s, i);
          DeliverFalls(net, d, ps, s, i);
        case Lose(i) =>
          LoseFalls(net, d, ps, s, i);
      }
      TriggeredUpdatesDieOut(net, d, ps, states[1..], events[1..]);
    }
  }

  // ---------- With the start-up requests ----------

  ghost function Requests(air: seq<Flight<Packet>>): (k: nat) {
    if air == [] then 0 else (if air[0].msg.Request? then 1 else 0) + Requests(air[1..])
  }

  lemma {:induction false} RequestsConcat(a: seq<Flight<Packet>>, b: seq<Flight<Packet>>)
    ensures Requests(a + b) == Requests(a) + Requests(b)
    decreases |a|
  {
    if a == [] {
      assert a + b == b;
    } else {
      assert (a + b)[1..] == a[1..] + b;
      RequestsConcat(a[1..], b);
    }
  }

  lemma RequestsRemove(a: seq<Flight<Packet>>, i: nat)
    requires i < |a|
    ensures Requests(Remove(a, i)) + (if a[i].msg.Request? then 1 else 0) == Requests(a)
  {
    assert a == a[..i] + a[i..];
    RequestsConcat(a[..i], a[i..]);
    RequestsConcat(a[..i], a[i + 1..]);
  }

  lemma {:induction false} NoneRequested(a: seq<Flight<Packet>>)
    requires forall f :: f in a ==> f.msg.Response?
    ensures Requests(a) == 0
    decreases |a|
  {
    if a != [] {
      assert a[0] in a;
      NoneRequested(a[1..]);
    }
  }

  /** A handled packet is either a request fewer, or no request more and less weight. */
  lemma HandlingFalls(net: Net, d: nat, ps: set<Prefix>, s: Sys, ev: Event, s': Sys)
    requires Ready(net, d, ps, s) && Mutual(net) && Handling(ev) && Step(net, s, ev, s')
    ensures Ready(net, d, ps, s')
    ensures Requests(s'.air) < Requests(s.air) ||
            (Requests(s'.air) == Requests(s.air) && Total(d, ps, s') + |s'.air| < Total(d, ps, s) + |s.air|)
  {
    var i := ev.i;
    var f := s.air[i];
    assert f in s.air;
    var rest := Remove(s.air, i);
    RequestsRemove(s.air, i);
    if ev.Lose? {
      LoseFalls(net, d, ps, s, i);
    } else {
      RequestsConcat(rest, s'.air[|rest|..]);
      assert s'.air == rest + s'.air[|rest|..];
      NoneRequested(s'.air[|rest|..]);
      if f.msg.Response? {
        DeliverReady(net, d, ps, s, i);
        DeliverFalls(net, d, ps, s, i);
      }
    }
  }

  /**
   Any schedule that keeps handling packets while there are some, requests included,
   reaches a state with nothing in flight.
   */
  lemma {:induction false} EventuallyQuiet(net: Net, d: nat, ps: set<Prefix>, run: nat -> Sys, ev: nat -> Event, i: nat) returns (k: nat)
    requires Mutual(net) && Ready(net, d, ps, run(i))
    requires forall j: nat :: i <= j && run(j).air != [] && Shape(net, run(j)) ==> Handling(ev(j)) && Step(net, run(j), ev(j), run(j + 1))
    ensures i <= k && run(k).air == []
    ensures forall j: nat :: i <= j < k ==> run(j).air != [] && Shape(net, run(j))
    decreases Requests(run(i).air), Total(d, ps, run(i)) + |run(i).air|
  {
    if run(i).air == [] {
      k := i;
    } else {
      HandlingFalls(net, d, ps, run(i), ev(i), run(i + 1));
      k := EventuallyQuiet(net, d, ps, run, ev, i + 1);
    }
  }
}
