/**
 Runs on ordered links, built one event or one advertisement at a time.
 */
module RipRuns {
  import opened Options
  import opened RipCore
  import opened RipSlice

  /** A run from s that keeps the order of every link. */
  ghost predicate OrderedRun(net: Net, s: Sys, states: seq<Sys>, events: seq<Event>) {
    && Run(net, states, events) && states[0] == s
    && forall i :: 0 <= i < |events| ==> InOrder(states[i].air, events[i])
  }

  /** A run extended by one event. */
  lemma Extend(net: Net, s: Sys, states: seq<Sys>, events: seq<Event>, ev: Event, s': Sys)
    requires OrderedRun(net, s, states, events) && Shape(net, s')
    requires Step(net, states[|events|], ev, s') && InOrder(states[|events|].air, ev)
    ensures OrderedRun(net, s, states + [s'], events + [ev])
  {
    var ss, es := states + [s'], events + [ev];
    forall i | 0 <= i < |ss| ensures Shape(net, ss[i]) {
      assert i < |states| ==> ss[i] == states[i];
    }
    forall i | 0 <= i < |es| ensures Step(net, ss[i], es[i], ss[i + 1]) && InOrder(ss[i].air, es[i]) {
      if i < |events| {
        assert ss[i] == states[i] && es[i] == events[i] && ss[i + 1] == states[i + 1];
      }
    }
  }

  /** Everything in flight may be lost. */
  lemma {:induction false} Silence(net: Net, s: Sys, states: seq<Sys>, events: seq<Event>)
    returns (states': seq<Sys>, events': seq<Event>)
    requires OrderedRun(net, s, states, events)
    ensures OrderedRun(net, s, states', events') && states'[|events'|] == Sys(states[|events|].tables, [])
    decreases |states[|events|].air|
  {
    var last := states[|events|];
    if last.air == [] {
      states', events' := states, events;
    } else {
      var next := last.(air := Remove(last.air, 0));
      Extend(net, s, states, events, Lose(0), next);
      states', events' := Silence(net, s, states + [next], events + [Lose(0)]);
    }
  }

  /** The state in which only an advertisement of l is in flight. */
  ghost function Told(net: Net, s: Sys, l: Link): (told: Sys)
    requires WellFormed(net) && Shape(net, s) && IsLink(net, l)
  {
    Sys(s.tables, [Flight(l, Response(AnnounceAll(s.tables[Sender(net, l)], l.dst)))])
  }

  /** With nothing else in flight, an advertisement of l changes one slot of each prefix at most, by the reaction rule. */
  lemma AdvertisementHandled(net: Net, s: Sys, l: Link, p: Prefix)
    requires WellFormed(net) && Shape(net, s) && s.air == [] && IsLink(net, l) && p in s.tables[Sender(net, l)]
    ensures Step(net, s, Advertise(l), Told(net, s, l)) && Shape(net, Told(net, s, l))
    ensures Shape(net, Delivered(net, Told(net, s, l), 0))
    ensures var m := Receiver(net, l);
            TabOf(Delivered(net, Told(net, s, l), 0).tables, p) ==
              TabOf(s.tables, p)[m := React(Lookup(s.tables[m], p), l.src, Announce(s.tables[Sender(net, l)][p], l.dst)).table]
  {
    var entries := AnnounceAll(s.tables[Sender(net, l)], l.dst);
    var told := Told(net, s, l);
    assert s.air + [Flight(l, Response(entries))] == told.air;
    assert told.air[0] == Flight(l, Response(entries)) && Remove(told.air, 0) == [];
    HandleSlices(s.tables[Receiver(net, l)], l.src, entries, p);
    var next := Delivered(net, told, 0);
    forall f | f in next.air ensures IsLink(net, f.link) {
      assert f.link in net.outs[Receiver(net, l)];
    }
  }

  /** A run that ends quietly goes on with one advertisement and ends quietly again. */
  lemma AdvertiseOnce(net: Net, s: Sys, states: seq<Sys>, events: seq<Event>, l: Link, p: Prefix)
    returns (states': seq<Sys>, events': seq<Event>)
    requires OrderedRun(net, s, states, events) && states[|events|].air == [] && IsLink(net, l)
    requires p in states[|events|].tables[Sender(net, l)]
    ensures OrderedRun(net, s, states', events') && states'[|events'|].air == []
    ensures var t, m := states[|events|].tables, Receiver(net, l);
            TabOf(states'[|events'|].tables, p) ==
              TabOf(t, p)[m := React(Lookup(t[m], p), l.src, Announce(t[Sender(net, l)][p], l.dst)).table]
  {
    var quiet := states[|events|];
    AdvertisementHandled(net, quiet, l, p);
    var told := Told(net, quiet, l);
    var next := Delivered(net, told, 0);
    Extend(net, s, states, events, Advertise(l), told);
    Extend(net, s, states + [told], events + [Advertise(l)], Deliver(0), next);
    states', events' := Silence(net, s, states + [told] + [next], events + [Advertise(l)] + [Deliver(0)]);
  }
}
