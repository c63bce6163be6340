/**
 The network seen through a single prefix.  Slots, announcements and reactions of
 different prefixes never mix, so each step of the network is one step of every
 slice; the protocol proofs are about slices and are lifted back by `StepSlices`.
 */
module RipSlice {
  import opened Options
  import opened RipCore

  /** What a packet says about the prefix; a response without an entry for it is `Blank`. */
  datatype Msg = Ask | Blank | Tell(wire: nat)

  datatype Slice = Slice(tab: seq<Option<Route>>, air: seq<Flight<Msg>>)

  ghost function MsgOf(pkt: Packet, p: Prefix): (m: Msg) {
    match pkt
    case Request => Ask
    case Response(entries) => if p in entries then Tell(entries[p]) else Blank
  }

  ghost function FlightOf(f: Flight<Packet>, p: Prefix): (r: Flight<Msg>) {
    Flight(f.link, MsgOf(f.msg, p))
  }

  ghost function AirOf(air: seq<Flight<Packet>>, p: Prefix): (r: seq<Flight<Msg>>)
    ensures |r| == |air|
  {
    seq(|air|, i requires 0 <= i < |air| => FlightOf(air[i], p))
  }

  ghost function TabOf(tables: seq<map<Prefix, Route>>, p: Prefix): (r: seq<Option<Route>>)
    ensures |r| == |tables|
  {
    seq(|tables|, n requires 0 <= n < |tables| => Lookup(tables[n], p))
  }

  ghost function SliceOf(s: Sys, p: Prefix): (r: Slice) {
    Slice(TabOf(s.tables, p), AirOf(s.air, p))
  }

  ghost function Reply(slot: Option<Route>, dst: Addr): (m: Msg) {
    match slot
    case None => Blank
    case Some(r) => Tell(Announce(r, dst))
  }

  ghost function Cast(net: Net, n: NodeId, slot: Option<Route>): (r: seq<Flight<Msg>>)
    requires n < |net.outs|
    ensures |r| == |net.outs[n]|
    ensures forall f :: f in r ==> f.link in net.outs[n] && f.msg == Reply(slot, f.link.dst)
  {
    seq(|net.outs[n]|, k requires 0 <= k < |net.outs[n]| => Flight(net.outs[n][k], Reply(slot, net.outs[n][k].dst)))
  }

  /** The packets that leave node n when `slot` was triggered; other prefixes may send a blank. */
  ghost predicate Leaves(net: Net, n: NodeId, slot: Option<Route>, extra: seq<Flight<Msg>>)
    requires n < |net.outs|
  {
    extra == Cast(net, n, slot) || (slot == None && extra == [])
  }

  ghost predicate SliceShape(net: Net, s: Slice) {
    && |s.tab| == |net.outs|
    && forall f :: f in s.air ==> IsLink(net, f.link)
  }

  ghost function ReactMsg(slot: Option<Route>, hop: Addr, msg: Msg): (r: Reaction) {
    if msg.Tell? then React(slot, hop, msg.wire) else Reaction(slot, None)
  }

  ghost predicate SliceDelivered(net: Net, s: Slice, i: nat, s': Slice)
    requires WellFormed(net) && SliceShape(net, s) && i < |s.air|
  {
    var f := s.air[i];
    var m := Receiver(net, f.link);
    var rest := Remove(s.air, i);
    if f.msg.Ask? then
      s' == Slice(s.tab, rest + [Flight(Flip(f.link), Reply(s.tab[m], f.link.src))])
    else
      var r := ReactMsg(s.tab[m], f.link.src, f.msg);
      && s'.tab == s.tab[m := r.table]
      && |s'.air| >= |rest| && s'.air[..|rest|] == rest
      && Leaves(net, m, r.triggered, s'.air[|rest|..])
  }

  ghost predicate SliceStep(net: Net, p: Prefix, s: Slice, ev: Event, s': Slice)
    requires WellFormed(net) && SliceShape(net, s)
  {
    match ev
    case Deliver(i) =>
      i < |s.air| && SliceDelivered(net, s, i, s')
    case Lose(i) =>
      i < |s.air| && s' == s.(air := Remove(s.air, i))
    case Duplicate(i) =>
      i < |s.air| && s' == s.(air := s.air + [s.air[i]])
    case Advertise(l) =>
      IsLink(net, l) && s' == s.(air := s.air + [Flight(l, Reply(s.tab[Sender(net, l)], l.dst))])
    case Expire(n, gone) =>
      && n < |net.outs|
      && (p in gone ==> s.tab[n].Some? && s.tab[n].value.kind == Learned)
      && s'.tab == (if p in gone then s.tab[n := None] else s.tab)
      && |s'.air| >= |s.air| && s'.air[..|s.air|] == s.air
      && Leaves(net, n, if p in gone then Some(s.tab[n].value.(cost := INFTY)) else None, s'.air[|s.air|..])
  }

  // ---------- Every network step is a step of each slice ----------

  lemma ShapeSlices(net: Net, s: Sys, p: Prefix)
    requires Shape(net, s)
    ensures SliceShape(net, SliceOf(s, p))
  {
    var a := AirOf(s.air, p);
    forall f | f in a ensures IsLink(net, f.link) {
      var i :| 0 <= i < |a| && a[i] == f;
      assert s.air[i] in s.air;
    }
  }

  lemma AirConcat(a: seq<Flight<Packet>>, b: seq<Flight<Packet>>, p: Prefix)
    ensures AirOf(a + b, p) == AirOf(a, p) + AirOf(b, p)
  {
  }

  lemma AirRemove(a: seq<Flight<Packet>>, i: nat, p: Prefix)
    requires i < |a|
    ensures AirOf(Remove(a, i), p) == Remove(AirOf(a, p), i)
  {
  }

  lemma TriggerSlices(net: Net, n: NodeId, trig: map<Prefix, Route>, p: Prefix)
    requires n < |net.outs|
    ensures Leaves(net, n, Lookup(trig, p), AirOf(Trigger(net, n, trig), p))
  {
    if trig == map[] {
      assert p !in trig;
    } else {
      assert AirOf(Broadcast(net, n, trig), p) == Cast(net, n, Lookup(trig, p));
    }
  }

  lemma HandleSlices(t: map<Prefix, Route>, hop: Addr, entries: map<Prefix, nat>, p: Prefix)
    ensures var r := ReactMsg(Lookup(t, p), hop, MsgOf(Response(entries), p));
            Lookup(HandleTable(t, hop, entries), p) == r.table && Lookup(HandleTriggered(t, hop, entries), p) == r.triggered
  {
  }

  lemma DeliverSlices(net: Net, s: Sys, i: nat, p: Prefix)
    requires WellFormed(net) && Shape(net, s) && i < |s.air|
    requires SliceShape(net, SliceOf(s, p))
    ensures SliceDelivered(net, SliceOf(s, p), i, SliceOf(Delivered(net, s, i), p))
  {
    var f := s.air[i];
    var m := Receiver(net, f.link);
    var rest := Remove(s.air, i);
    var s' := Delivered(net, s, i);
    AirRemove(s.air, i, p);
    if f.msg.Request? {
      var reply := [Flight(Flip(f.link), Response(AnnounceAll(s.tables[m], f.link.src)))];
      AirConcat(rest, reply, p);
      assert AirOf(reply, p) == [Flight(Flip(f.link), Reply(Lookup(s.tables[m], p), f.link.src))];
    } else {
      var trig := HandleTriggered(s.tables[m], f.link.src, f.msg.entries);
      AirConcat(rest, Trigger(net, m, trig), p);
      TriggerSlices(net, m, trig, p);
      HandleSlices(s.tables[m], f.link.src, f.msg.entries, p);
      assert TabOf(s'.tables, p) == TabOf(s.tables, p)[m := Lookup(HandleTable(s.tables[m], f.link.src, f.msg.entries), p)];
      assert AirOf(s'.air, p)[|rest|..] == AirOf(Trigger(net, m, trig), p);
    }
  }

  lemma ExpireSlices(net: Net, s: Sys, n: NodeId, gone: set<Prefix>, s': Sys, p: Prefix)
    requires WellFormed(net) && Shape(net, s) && Step(net, s, Expire(n, gone), s')
    requires SliceShape(net, SliceOf(s, p))
    ensures SliceStep(net, p, SliceOf(s, p), Expire(n, gone), SliceOf(s', p))
  {
    var trig := map q | q in gone :: s.tables[n][q].(cost := INFTY);
    AirConcat(s.air, Trigger(net, n, trig), p);
    TriggerSlices(net, n, trig, p);
    assert AirOf(s'.air, p)[|s.air|..] == AirOf(Trigger(net, n, trig), p);
    assert TabOf(s'.tables, p) == TabOf(s.tables, p)[n := Lookup(s.tables[n] - gone, p)];
    if p !in gone {
      assert TabOf(s'.tables, p) == TabOf(s.tables, p);
    }
  }

  /** Each event of the network is the same event of the slice of any prefix. */
  lemma StepSlices(net: Net, s: Sys, ev: Event, s': Sys, p: Prefix)
    requires WellFormed(net) && Shape(net, s) && Step(net, s, ev, s')
    ensures SliceShape(net, SliceOf(s, p)) && SliceStep(net, p, SliceOf(s, p), ev, SliceOf(s', p))
  {
    ShapeSlices(net, s, p);
    match ev
    case Deliver(i) =>
      DeliverSlices(net, s, i, p);
    case Lose(i) =>
      AirRemove(s.air, i, p);
    case Duplicate(i) =>
      AirConcat(s.air, [s.air[i]], p);
      assert AirOf([s.air[i]], p) == [AirOf(s.air, p)[i]];
    case Advertise(l) =>
      var out := Flight(l, Response(AnnounceAll(s.tables[Sender(net, l)], l.dst)));
      AirConcat(s.air, [out], p);
      assert AirOf([out], p) == [Flight(l, Reply(SliceOf(s, p).tab[Sender(net, l)], l.dst))];
    case Expire(n, gone) =>
      ExpireSlices(net, s, n, gone, s', p);
  }
}
