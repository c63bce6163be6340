/**
 Convergence in lossless synchronous rounds: in one round every node sends its full table,
 as it was when the round began, to all neighbours, these announcements are handled in any
 order that keeps the order of each link, and what they trigger is lost.  After k rounds a
 node holds a prefix exactly if news of it needs at most min(k, 15) hops, at exactly that
 cost, and from round 15 on nothing changes.
 */
module RipRounds {
  import opened Options
  import opened RipCore
  import opened RipSlice
  import opened RipSoundness
  import opened RipRuns
  import opened RipConfigured
  import opened RipLoopFree
  import RipConvergence

  /** From position c to b the first `rem` packets in flight are handled, each once, and all others are lost. */
  ghost predicate Handles(states: seq<Sys>, events: seq<Event>, c: nat, b: nat, rem: nat)
    requires |states| == |events| + 1 && c <= b <= |events|
    decreases b - c
  {
    if c == b then rem == 0 && states[c].air == [] else
      match events[c]
      case Deliver(i) => i < rem && Handles(states, events, c + 1, b, rem - 1)
      case Lose(i) => i >= rem && Handles(states, events, c + 1, b, rem)
      case _ => false
  }

  ghost predicate AdvertisedIn(events: seq<Event>, a: nat, c: nat, l: Link)
    requires a <= c <= |events|
  {
    exists i :: a <= i < c && events[i] == Advertise(l)
  }

  /** From position a to c every link is advertised, and nothing else happens. */
  ghost predicate Advertised(net: Net, events: seq<Event>, a: nat, c: nat)
    requires a <= c <= |events|
  {
    && (forall i :: a <= i < c ==> events[i].Advertise?)
    && (forall l {:trigger AdvertisedIn(events, a, c, l)} :: IsLink(net, l) ==> AdvertisedIn(events, a, c, l))
  }

  /** A round from a to b: up to c every link is advertised, then the advertisements are handled. */
  ghost predicate Round(net: Net, states: seq<Sys>, events: seq<Event>, a: nat, c: nat, b: nat) {
    && |states| == |events| + 1 && a <= c <= b <= |events|
    && states[a].air == [] && Advertised(net, events, a, c)
    && Handles(states, events, c, b, c - a)
  }

  /** A run that, once the start-up requests are gone, consists of rounds: round k lasts from marks[k] to marks[k+1]. */
  ghost predicate Rounds(net: Net, states: seq<Sys>, events: seq<Event>, marks: seq<nat>, mids: seq<nat>) {
    && |marks| == |mids| + 1 && marks[0] < |states| && states[0].tables == states[marks[0]].tables
    && forall k :: 0 <= k < |mids| ==> RoundAt(net, states, events, marks, mids, k)
  }

  ghost predicate RoundAt(net: Net, states: seq<Sys>, events: seq<Event>, marks: seq<nat>, mids: seq<nat>, k: nat)
    requires k + 1 < |marks| && k < |mids|
  {
    Round(net, states, events, marks[k], mids[k], marks[k + 1])
  }

  // ---------- The announcements of a round ----------

  /** The first `rem` packets are announcements of the slots in `tab`. */
  ghost predicate Announced(net: Net, tab: seq<Option<Route>>, s: Slice, rem: nat)
    requires WellFormed(net)
  {
    && SliceShape(net, s) && |tab| == |net.outs| && rem <= |s.air|
    && forall i :: 0 <= i < rem ==> AnnouncedAt(net, tab, s, i)
  }

  ghost predicate AnnouncedAt(net: Net, tab: seq<Option<Route>>, s: Slice, i: nat)
    requires WellFormed(net) && SliceShape(net, s) && |tab| == |net.outs| && i < |s.air|
  {
    assert s.air[i] in s.air;
    s.air[i].msg == Reply(tab[Sender(net, s.air[i].link)], s.air[i].link.dst)
  }

  /** While links are advertised the tables stand still and the air fills with announcements. */
  lemma {:induction false} AdvertisedUpTo(net: Net, states: seq<Sys>, events: seq<Event>, a: nat, i: nat, p: Prefix)
    requires Run(net, states, events) && a <= i < |states| && states[a].air == []
    requires forall j :: a <= j < i ==> events[j].Advertise?
    ensures states[i].tables == states[a].tables && |states[i].air| == i - a
    ensures Announced(net, TabOf(states[a].tables, p), SliceOf(states[i], p), i - a)
    ensures forall j :: a <= j < i ==> SliceOf(states[i], p).air[j - a].link == events[j].link
  {
    ShapeSlices(net, states[i], p);
    if a < i {
      AdvertisedUpTo(net, states, events, a, i - 1, p);
      assert Step(net, states[i - 1], events[i - 1], states[i]);
      StepSlices(net, states[i - 1], events[i - 1], states[i], p);
      var s, s', tab := SliceOf(states[i - 1], p), SliceOf(states[i], p), TabOf(states[a].tables, p);
      forall j | 0 <= j < i - a ensures AnnouncedAt(net, tab, s', j) {
        assert j < i - a - 1 ==> AnnouncedAt(net, tab, s, j) && s'.air[j] == s.air[j];
      }
    }
  }

  /** Where packet j is once packet i is gone. */
  ghost function Shifted(j: nat, i: nat): (k: nat)
    requires j != i
  {
    if j < i then j else j - 1
  }

  lemma AnnouncedRemove(net: Net, tab: seq<Option<Route>>, s: Slice, rem: nat, i: nat, s': Slice)
    requires WellFormed(net) && Announced(net, tab, s, rem) && i < |s.air| && SliceShape(net, s')
    requires |s'.air| >= |s.air| - 1 && s'.air[..|s.air| - 1] == Remove(s.air, i)
    ensures Announced(net, tab, s', if i < rem then rem - 1 else rem)
    ensures forall j :: 0 <= j < rem && j != i ==> s'.air[Shifted(j, i)] == s.air[j]
  {
    var rest, left := Remove(s.air, i), if i < rem then rem - 1 else rem;
    forall j | 0 <= j < left ensures AnnouncedAt(net, tab, s', j) {
      var j' := if j < i then j else j + 1;
      assert s'.air[..|rest|][j] == s'.air[j] && rest[j] == s.air[j'] && AnnouncedAt(net, tab, s, j');
    }
    forall j | 0 <= j < rem && j != i ensures s'.air[Shifted(j, i)] == s.air[j] {
      assert s'.air[..|rest|][Shifted(j, i)] == s'.air[Shifted(j, i)] && rest[Shifted(j, i)] == s.air[j];
    }
  }

  // ---------- What a round teaches ----------

  ghost predicate AtMost(tab: seq<Option<Route>>, k: nat) {
    forall n :: 0 <= n < |tab| && tab[n].Some? ==> tab[n].value.cost <= k
  }

  /** Announcements of costs up to k teach costs up to k + 1. */
  lemma TeachesAtMost(net: Net, tab: seq<Option<Route>>, s: Slice, rem: nat, i: nat, s': Slice, k: nat)
    requires WellFormed(net) && Announced(net, tab, s, rem) && i < rem && SliceDelivered(net, s, i, s')
    requires AtMost(tab, k) && AtMost(s.tab, k + 1) && k + 1 < UINT32
    ensures AtMost(s'.tab, k + 1)
  {
    assert AnnouncedAt(net, tab, s, i) && s.air[i] in s.air;
  }

  /** The node n holds its slot at cost d or less. */
  ghost predicate Within(tab: seq<Option<Route>>, n: NodeId, d: nat)
    requires n < |tab|
  {
    tab[n].Some? && tab[n].value.cost <= d
  }

  /** What the nearest neighbour of n announces over l when the round begins. */
  lemma NearestAnnounces(net: Net, orig: seq<Option<Route>>, tab: seq<Option<Route>>, l: Link, d: nat)
    requires WellFormed(net) && KeptTab(net, orig, tab) && Origin(net, orig) && IsLink(net, l)
    requires Downhill(net, orig, tab, Sender(net, l)) && Crosses(net, orig, l, d)
    requires Nearest(net, orig, Sender(net, l), d) && Nearest(net, orig, Receiver(net, l), d + 1)
    requires Within(tab, Sender(net, l), d)
    ensures Reply(tab[Sender(net, l)], l.dst) == Tell(d)
  {
    var x, n := Sender(net, l), Receiver(net, l);
    assert KeptSlot(net, orig, x, tab[x]) && KeptSlot(net, orig, n, tab[n]);
    assert Carried(net, orig, x, tab[x].value.cost);
    assert tab[n].Some? ==> Carried(net, orig, n, tab[n].value.cost);
  }

  /** Handling an announcement of d leaves the receiver with at most d + 1. */
  lemma HandledWithin(net: Net, orig: seq<Option<Route>>, s: Slice, i: nat, s': Slice, d: nat)
    requires WellFormed(net) && Symmetric(net) && Calm(net, orig) && Kept(net, orig, s) && Ordered(net, orig, s)
    requires i < |s.air| && s.air[i].msg == Tell(d) && d + 1 < INFTY && SliceDelivered(net, s, i, s')
    ensures |s'.tab| == |s.tab| && Within(s'.tab, Receiver(net, s.air[i].link), d + 1)
  {
    assert s.air[i] in s.air;
    NoDrop(net, orig, s, i);
  }

  /** As long as the round lasts, f is still to come or its receiver is within d + 1. */
  lemma {:induction false} RoundTeaches(net: Net, states: seq<Sys>, events: seq<Event>, c: nat, b: nat, rem: nat, p: Prefix,
                                        tab: seq<Option<Route>>, f: Flight<Msg>, at: nat, d: nat)
    requires FifoRun(net, states, events) && c <= b <= |events| && Handles(states, events, c, b, rem)
    requires Announced(net, tab, SliceOf(states[c], p), rem)
    requires IsLink(net, f.link) && f.msg == Tell(d) && d + 1 < INFTY
    requires (at < rem && SliceOf(states[c], p).air[at] == f) || Within(TabOf(states[c].tables, p), Receiver(net, f.link), d + 1)
    ensures Within(TabOf(states[b].tables, p), Receiver(net, f.link), d + 1)
    decreases b - c
  {
    if c < b {
      var left, at' := StepTeaches(net, states, events, c, rem, p, tab, f, at, d);
      RoundTeaches(net, states, events, c + 1, b, left, p, tab, f, at', d);
    }
  }

  /** One step of a round handles f, moves it forward, or finds its receiver within d + 1 already. */
  lemma StepTeaches(net: Net, states: seq<Sys>, events: seq<Event>, c: nat, rem: nat, p: Prefix,
                    tab: seq<Option<Route>>, f: Flight<Msg>, at: nat, d: nat) returns (left: nat, at': nat)
    requires FifoRun(net, states, events) && c < |events| && Announced(net, tab, SliceOf(states[c], p), rem)
    requires if events[c].Deliver? then events[c].i < rem else events[c].Lose? && events[c].i >= rem
    requires IsLink(net, f.link) && f.msg == Tell(d) && d + 1 < INFTY
    requires (at < rem && SliceOf(states[c], p).air[at] == f) || Within(TabOf(states[c].tables, p), Receiver(net, f.link), d + 1)
    ensures left == (if events[c].Deliver? then rem - 1 else rem) && Announced(net, tab, SliceOf(states[c + 1], p), left)
    ensures (at' < left && SliceOf(states[c + 1], p).air[at'] == f) || Within(TabOf(states[c + 1].tables, p), Receiver(net, f.link), d + 1)
  {
    var s, s', i := SliceOf(states[c], p), SliceOf(states[c + 1], p), events[c].i;
    left := RoundStep(net, states, events, c, rem, p, tab);
    at' := if i == at then at else Shifted(at, i);
    if Within(s.tab, Receiver(net, f.link), d + 1) {
      RunStepImproves(net, states, events, c, p);
    } else if i == at {
      RunOrdered(net, states, events, c, p);
      HandledWithin(net, TabOf(states[0].tables, p), s, at, s', d);
    }
  }

  /** One step of a round, seen through p. */
  lemma RoundStep(net: Net, states: seq<Sys>, events: seq<Event>, c: nat, rem: nat, p: Prefix, tab: seq<Option<Route>>) returns (left: nat)
    requires FifoRun(net, states, events) && c < |events| && Announced(net, tab, SliceOf(states[c], p), rem)
    requires if events[c].Deliver? then events[c].i < rem else events[c].Lose? && events[c].i >= rem
    ensures left == if events[c].Deliver? then rem - 1 else rem
    ensures SliceStep(net, p, SliceOf(states[c], p), events[c], SliceOf(states[c + 1], p))
    ensures Announced(net, tab, SliceOf(states[c + 1], p), left)
    ensures forall j :: 0 <= j < rem && j != events[c].i ==> SliceOf(states[c + 1], p).air[Shifted(j, events[c].i)] == SliceOf(states[c], p).air[j]
  {
    var s, s', i := SliceOf(states[c], p), SliceOf(states[c + 1], p), events[c].i;
    StepSlices(net, states[c], events[c], states[c + 1], p);
    ShapeSlices(net, states[c + 1], p);
    if events[c].Deliver? {
      assert AnnouncedAt(net, tab, s, i);
    } else {
      assert s'.air[..|s.air| - 1] == s'.air;
    }
    AnnouncedRemove(net, tab, s, rem, i, s');
    left := if events[c].Deliver? then rem - 1 else rem;
  }

  lemma {:induction false} RoundAtMost(net: Net, states: seq<Sys>, events: seq<Event>, c: nat, b: nat, rem: nat, p: Prefix, tab: seq<Option<Route>>, k: nat)
    requires FifoRun(net, states, events) && c <= b <= |events| && Handles(states, events, c, b, rem)
    requires Announced(net, tab, SliceOf(states[c], p), rem)
    requires AtMost(tab, k) && AtMost(TabOf(states[c].tables, p), k + 1) && k + 1 < UINT32
    ensures AtMost(TabOf(states[b].tables, p), k + 1)
    decreases b - c
  {
    if c < b {
      var left := RoundStep(net, states, events, c, rem, p, tab);
      if events[c].Deliver? {
        TeachesAtMost(net, tab, SliceOf(states[c], p), rem, events[c].i, SliceOf(states[c + 1], p), k);
      }
      RoundAtMost(net, states, events, c + 1, b, left, p, tab, k);
    }
  }

  // ---------- The state after k rounds ----------

  ghost function Horizon(k: nat): (h: nat) {
    if k < 15 then k else 15
  }

  /** The slots of p are what k rounds should have taught. */
  ghost predicate Right(net: Net, orig: seq<Option<Route>>, tab: seq<Option<Route>>, k: nat)
    requires WellFormed(net) && |orig| == |net.outs| == |tab|
  {
    && AtMost(tab, Horizon(k))
    && forall n, d: nat {:trigger Nearest(net, orig, n, d)} :: 0 <= n < |tab| && d <= Horizon(k) && Nearest(net, orig, n, d) ==> Within(tab, n, d)
  }

  /** When a round's packets start to be handled, an announcement over each link is among them. */
  lemma AllAnnounced(net: Net, states: seq<Sys>, events: seq<Event>, a: nat, c: nat, b: nat, p: Prefix, l: Link) returns (at: nat)
    requires Run(net, states, events) && Round(net, states, events, a, c, b) && IsLink(net, l)
    ensures Announced(net, TabOf(states[a].tables, p), SliceOf(states[c], p), c - a)
    ensures at < c - a && SliceOf(states[c], p).air[at] == Flight(l, Reply(TabOf(states[a].tables, p)[Sender(net, l)], l.dst))
  {
    AdvertisedUpTo(net, states, events, a, c, p);
    assert AdvertisedIn(events, a, c, l);
    var i :| a <= i < c && events[i] == Advertise(l);
    at := i - a;
    assert AnnouncedAt(net, TabOf(states[a].tables, p), SliceOf(states[c], p), at);
  }

  /** When a round begins, some neighbour of n announces the cost that n is about to learn. */
  lemma NearestTells(net: Net, states: seq<Sys>, events: seq<Event>, a: nat, p: Prefix, k: nat, n: NodeId, d: nat) returns (l: Link)
    requires FifoRun(net, states, events) && a < |states| && n < |net.outs|
    requires Right(net, TabOf(states[0].tables, p), TabOf(states[a].tables, p), k)
    requires Nearest(net, TabOf(states[0].tables, p), n, d) && 0 < d <= Horizon(k) + 1
    ensures IsLink(net, l) && Receiver(net, l) == n && Reply(TabOf(states[a].tables, p)[Sender(net, l)], l.dst) == Tell(d - 1)
  {
    var orig, tab := TabOf(states[0].tables, p), TabOf(states[a].tables, p);
    l := NearestFrom(net, orig, n, d);
    assert Within(tab, Sender(net, l), d - 1);
    RunOrdered(net, states, events, a, p);
    NearestAnnounces(net, orig, tab, l, d - 1);
  }

  /** One round carries what is announced over a link to its receiver. */
  lemma RoundCarries(net: Net, states: seq<Sys>, events: seq<Event>, a: nat, c: nat, b: nat, p: Prefix, l: Link, d: nat)
    requires FifoRun(net, states, events) && Round(net, states, events, a, c, b) && IsLink(net, l) && d + 1 < INFTY
    requires Reply(TabOf(states[a].tables, p)[Sender(net, l)], l.dst) == Tell(d)
    ensures Within(TabOf(states[b].tables, p), Receiver(net, l), d + 1)
  {
    var at := AllAnnounced(net, states, events, a, c, b, p, l);
    RoundTeaches(net, states, events, c, b, c - a, p, TabOf(states[a].tables, p), Flight(l, Tell(d)), at, d);
  }

  /** One round teaches n if its least number of hops is within reach. */
  lemma RoundReaches(net: Net, states: seq<Sys>, events: seq<Event>, a: nat, c: nat, b: nat, p: Prefix, k: nat, n: NodeId, d: nat)
    requires FifoRun(net, states, events) && Round(net, states, events, a, c, b) && n < |net.outs|
    requires Right(net, TabOf(states[0].tables, p), TabOf(states[a].tables, p), k)
    requires Nearest(net, TabOf(states[0].tables, p), n, d) && d <= Horizon(k + 1)
    ensures Within(TabOf(states[b].tables, p), n, d)
  {
    if d <= Horizon(k) {
      assert Within(TabOf(states[a].tables, p), n, d);
      RunImproves(net, states, events, a, b, p);
    } else {
      var l := NearestTells(net, states, events, a, p, k, n, d);
      RoundCarries(net, states, events, a, c, b, p, l, d - 1);
    }
  }

  lemma RoundStaysWithin(net: Net, states: seq<Sys>, events: seq<Event>, a: nat, c: nat, b: nat, p: Prefix, k: nat)
    requires FifoRun(net, states, events) && Round(net, states, events, a, c, b) && AtMost(TabOf(states[a].tables, p), Horizon(k))
    ensures AtMost(TabOf(states[b].tables, p), Horizon(k + 1))
  {
    AdvertisedUpTo(net, states, events, a, c, p);
    RoundAtMost(net, states, events, c, b, c - a, p, TabOf(states[a].tables, p), Horizon(k));
    RunAtMost(net, states, events, b, p);
  }

  lemma RunAtMost(net: Net, states: seq<Sys>, events: seq<Event>, i: nat, p: Prefix)
    requires FifoRun(net, states, events) && i < |states|
    ensures AtMost(TabOf(states[i].tables, p), 15)
  {
    RunOrdered(net, states, events, i, p);
    var orig, tab := TabOf(states[0].tables, p), TabOf(states[i].tables, p);
    forall n | 0 <= n < |tab| && tab[n].Some? ensures tab[n].value.cost <= 15 {
      assert KeptSlot(net, orig, n, tab[n]);
    }
  }

  /** One full-table round. */
  lemma RoundRight(net: Net, states: seq<Sys>, events: seq<Event>, a: nat, c: nat, b: nat, p: Prefix, k: nat)
    requires FifoRun(net, states, events) && Round(net, states, events, a, c, b)
    requires Right(net, TabOf(states[0].tables, p), TabOf(states[a].tables, p), k)
    ensures Right(net, TabOf(states[0].tables, p), TabOf(states[b].tables, p), k + 1)
  {
    var orig, tab' := TabOf(states[0].tables, p), TabOf(states[b].tables, p);
    RoundStaysWithin(net, states, events, a, c, b, p, k);
    forall n, d: nat | 0 <= n < |tab'| && d <= Horizon(k + 1) && Nearest(net, orig, n, d) ensures Within(tab', n, d) {
      RoundReaches(net, states, events, a, c, b, p, k, n, d);
    }
  }

  lemma StartRight(net: Net, s: Sys, p: Prefix)
    requires WellFormed(net) && Init(net, s) && Shape(net, s)
    ensures Right(net, TabOf(s.tables, p), TabOf(s.tables, p), 0)
  {
    InitKept(net, s, p);
  }

  lemma {:induction false} RoundsRight(net: Net, states: seq<Sys>, events: seq<Event>, marks: seq<nat>, mids: seq<nat>, k: nat, p: Prefix)
    requires FifoRun(net, states, events) && Rounds(net, states, events, marks, mids) && k < |marks|
    ensures marks[k] < |states| && Right(net, TabOf(states[0].tables, p), TabOf(states[marks[k]].tables, p), k)
  {
    if k == 0 {
      StartRight(net, states[0], p);
    } else {
      RoundsRight(net, states, events, marks, mids, k - 1, p);
      assert RoundAt(net, states, events, marks, mids, k - 1);
      RoundRight(net, states, events, marks[k - 1], mids[k - 1], marks[k], p, k - 1);
    }
  }

  /** After k rounds n holds p at cost d exactly if d is the least number of hops news of p needs to n and at most min(k, 15). */
  lemma AfterRounds(net: Net, states: seq<Sys>, events: seq<Event>, marks: seq<nat>, mids: seq<nat>, k: nat, n: NodeId, p: Prefix, d: nat)
    requires FifoRun(net, states, events) && Rounds(net, states, events, marks, mids) && k < |marks| && n < |net.outs|
    ensures marks[k] < |states|
    ensures (p in states[marks[k]].tables[n] && states[marks[k]].tables[n][p].cost == d)
            <==> (d <= Horizon(k) && Nearest(net, TabOf(states[0].tables, p), n, d))
  {
    RoundsRight(net, states, events, marks, mids, k, p);
    var orig, t := TabOf(states[0].tables, p), states[marks[k]].tables;
    RunOrdered(net, states, events, marks[k], p);
    assert TabOf(t, p)[n] == Lookup(t[n], p) && KeptSlot(net, orig, n, TabOf(t, p)[n]);
    if p in t[n] {
      assert Carried(net, orig, n, t[n][p].cost);
      var least := LeastCarried(net, orig, n, t[n][p].cost);
      assert Within(TabOf(t, p), n, least);
    }
  }

  /** Without configured routes to RIP neighbours that number is the distance. */
  lemma AfterRoundsShortest(net: Net, states: seq<Sys>, events: seq<Event>, marks: seq<nat>, mids: seq<nat>, k: nat, n: NodeId, p: Prefix, d: nat)
    requires RipConvergence.ApartRun(net, states, events) && Rounds(net, states, events, marks, mids) && k < |marks| && n < |net.outs|
    ensures marks[k] < |states|
    ensures (p in states[marks[k]].tables[n] && states[marks[k]].tables[n][p].cost == d)
            <==> (d <= Horizon(k) && Distance(net, Origins(states[0], p), n, d))
  {
    RipConvergence.ApartUndisturbed(net, states[0]);
    AfterRounds(net, states, events, marks, mids, k, n, p, d);
    RipConvergence.NearestIsDistance(net, states[0], p, n, d);
  }

  /** From round 15 on, no round changes a table. */
  lemma StableFromFifteen(net: Net, states: seq<Sys>, events: seq<Event>, marks: seq<nat>, mids: seq<nat>, k: nat, n: NodeId, p: Prefix)
    requires FifoRun(net, states, events) && Rounds(net, states, events, marks, mids) && 15 <= k < |mids| && n < |net.outs|
    ensures marks[k] < |states| && marks[k + 1] < |states|
    ensures Lookup(states[marks[k + 1]].tables[n], p) == Lookup(states[marks[k]].tables[n], p)
  {
    RoundsRight(net, states, events, marks, mids, k, p);
    RoundsRight(net, states, events, marks, mids, k + 1, p);
    assert RoundAt(net, states, events, marks, mids, k);
    var t, t': seq<map<Prefix, Route>> := states[marks[k]].tables, states[marks[k + 1]].tables;
    if p in t'[n] {
      AfterRounds(net, states, events, marks, mids, k + 1, n, p, t'[n][p].cost);
      AfterRounds(net, states, events, marks, mids, k, n, p, t'[n][p].cost);
    }
    if p in t[n] {
      NeverDeleted(net, states, events, marks[k], marks[k + 1], n, p);
    }
  }

  // ---------- Rounds exist ----------

  /** The second run begins with the first. */
  ghost predicate Continues(states: seq<Sys>, events: seq<Event>, states': seq<Sys>, events': seq<Event>) {
    |states| == |events| + 1 && |states'| == |events'| + 1 && states <= states' && events <= events'
  }

  ghost function AllLinks(outs: seq<seq<Link>>): (r: seq<Link>) {
    if outs == [] then [] else outs[0] + AllLinks(outs[1..])
  }

  lemma {:induction false} AllLinksHere(outs: seq<seq<Link>>, n: nat, l: Link)
    requires n < |outs| && l in outs[n]
    ensures l in AllLinks(outs)
  {
    if n > 0 {
      AllLinksHere(outs[1..], n - 1, l);
    }
  }

  lemma {:induction false} AllLinksOnly(net: Net, outs: seq<seq<Link>>)
    requires WellFormed(net) && |outs| <= |net.outs| && outs == net.outs[|net.outs| - |outs|..]
    ensures forall l :: l in AllLinks(outs) ==> IsLink(net, l)
  {
    if outs != [] {
      AllLinksOnly(net, outs[1..]);
      assert outs[0] == net.outs[|net.outs| - |outs|];
    }
  }

  /** The listed links are advertised one after another. */
  lemma {:induction false} AdvertiseAll(net: Net, s: Sys, states: seq<Sys>, events: seq<Event>, links: seq<Link>)
    returns (states': seq<Sys>, events': seq<Event>)
    requires OrderedRun(net, s, states, events) && forall l :: l in links ==> IsLink(net, l)
    ensures OrderedRun(net, s, states', events') && Continues(states, events, states', events')
    ensures |events'| == |events| + |links| && forall i :: 0 <= i < |links| ==> events'[|events| + i] == Advertise(links[i])
    decreases |links|
  {
    if links == [] {
      states', events' := states, events;
    } else {
      var last, l := states[|events|], links[0];
      var next := last.(air := last.air + [Flight(l, Response(AnnounceAll(last.tables[Sender(net, l)], l.dst)))]);
      Extend(net, s, states, events, Advertise(l), next);
      states', events' := AdvertiseAll(net, s, states + [next], events + [Advertise(l)], links[1..]);
      forall i | 0 <= i < |links| ensures events'[|events| + i] == Advertise(links[i]) {
        assert i > 0 ==> events'[|events| + 1 + (i - 1)] == Advertise(links[1..][i - 1]);
      }
    }
  }

  /** The first `rem` packets are handled in turn, and whatever is then in flight is lost. */
  lemma {:induction false} HandleAll(net: Net, s: Sys, states: seq<Sys>, events: seq<Event>, rem: nat)
    returns (states': seq<Sys>, events': seq<Event>)
    requires OrderedRun(net, s, states, events) && Mutual(net) && rem <= |states[|events|].air|
    ensures OrderedRun(net, s, states', events') && Continues(states, events, states', events')
    ensures Handles(states', events', |events|, |events'|, rem) && states'[|events'|].air == []
    decreases rem, |states[|events|].air|
  {
    var last := states[|events|];
    if last.air == [] {
      states', events' := states, events;
    } else {
      var ev := if rem > 0 then Deliver(0) else Lose(0);
      var next := if rem > 0 then Delivered(net, last, 0) else last.(air := Remove(last.air, 0));
      RipConvergence.StepShape(net, last, ev, next);
      Extend(net, s, states, events, ev, next);
      states', events' := HandleAll(net, s, states + [next], events + [ev], if rem > 0 then rem - 1 else 0);
      assert events'[|events|] == ev;
    }
  }

  /** Every link is advertised. */
  lemma AdvertiseLinks(net: Net, s: Sys, states: seq<Sys>, events: seq<Event>) returns (states': seq<Sys>, events': seq<Event>)
    requires OrderedRun(net, s, states, events)
    ensures OrderedRun(net, s, states', events') && Continues(states, events, states', events')
    ensures Advertised(net, events', |events|, |events'|)
  {
    var links, n := AllLinks(net.outs), |events|;
    assert net.outs[0..] == net.outs;
    AllLinksOnly(net, net.outs);
    states', events' := AdvertiseAll(net, s, states, events, links);
    forall i | n <= i < |events'| ensures events'[i].Advertise? {
      assert events'[n + (i - n)] == Advertise(links[i - n]);
    }
    forall l | IsLink(net, l) ensures AdvertisedIn(events', n, |events'|, l) {
      AllLinksHere(net.outs, net.owner[l.src], l);
      var j :| 0 <= j < |links| && links[j] == l;
      assert events'[n + j] == Advertise(l);
    }
  }

  lemma AdvertisedLater(net: Net, events: seq<Event>, events': seq<Event>, a: nat, c: nat)
    requires a <= c <= |events| && events <= events' && Advertised(net, events, a, c)
    ensures Advertised(net, events', a, c)
  {
    forall l | IsLink(net, l) ensures AdvertisedIn(events', a, c, l) {
      assert AdvertisedIn(events, a, c, l);
      var i :| a <= i < c && events[i] == Advertise(l);
      assert events'[i] == Advertise(l);
    }
  }

  lemma AdvertisedCount(net: Net, states: seq<Sys>, events: seq<Event>, a: nat)
    requires Run(net, states, events) && a <= |events| && states[a].air == [] && Advertised(net, events, a, |events|)
    ensures |states[|events|].air| == |events| - a
  {
    AdvertisedUpTo(net, states, events, a, |events|, Prefix(0, 0));
  }

  lemma RoundMade(net: Net, states: seq<Sys>, events: seq<Event>, states': seq<Sys>, events': seq<Event>, a: nat)
    requires Continues(states, events, states', events') && a <= |events| && states[a].air == [] && Advertised(net, events, a, |events|)
    requires Handles(states', events', |events|, |events'|, |events| - a)
    ensures Round(net, states', events', a, |events|, |events'|)
  {
    assert states'[a] == states[a];
    AdvertisedLater(net, events, events', a, |events|);
  }

  /** Every ordered run that ended quietly goes on with a round and ends quietly again. */
  lemma NextRound(net: Net, s: Sys, states: seq<Sys>, events: seq<Event>) returns (states': seq<Sys>, events': seq<Event>, c: nat)
    requires OrderedRun(net, s, states, events) && Mutual(net) && states[|events|].air == []
    ensures OrderedRun(net, s, states', events') && Continues(states, events, states', events')
    ensures Round(net, states', events', |events|, c, |events'|) && states'[|events'|].air == []
  {
    var mid, past := AdvertiseQuiet(net, s, states, events);
    c := |past|;
    states', events' := HandleAll(net, s, mid, past, c - |events|);
    RoundMade(net, mid, past, states', events', |events|);
  }

  /** After quiet, exactly the advertisements are in flight. */
  lemma AdvertiseQuiet(net: Net, s: Sys, states: seq<Sys>, events: seq<Event>) returns (states': seq<Sys>, events': seq<Event>)
    requires OrderedRun(net, s, states, events) && states[|events|].air == []
    ensures OrderedRun(net, s, states', events') && Continues(states, events, states', events') && states'[|events|].air == []
    ensures Advertised(net, events', |events|, |events'|) && |states'[|events'|].air| == |events'| - |events|
  {
    states', events' := AdvertiseLinks(net, s, states, events);
    assert states'[|events|] == states[|events|];
    AdvertisedCount(net, states', events', |events|);
  }

  /** What was a round stays one when the run goes on. */
  lemma {:induction false} HandlesLater(states: seq<Sys>, events: seq<Event>, states': seq<Sys>, events': seq<Event>, c: nat, b: nat, rem: nat)
    requires Continues(states, events, states', events') && c <= b <= |events| && Handles(states, events, c, b, rem)
    ensures Handles(states', events', c, b, rem)
    decreases b - c
  {
    if c < b {
      HandlesLater(states, events, states', events', c + 1, b, if events[c].Deliver? then rem - 1 else rem);
    }
  }

  lemma RoundLater(net: Net, states: seq<Sys>, events: seq<Event>, states': seq<Sys>, events': seq<Event>, a: nat, c: nat, b: nat)
    requires Continues(states, events, states', events') && Round(net, states, events, a, c, b)
    ensures Round(net, states', events', a, c, b)
  {
    HandlesLater(states, events, states', events', c, b, c - a);
    AdvertisedLater(net, events, events', a, c);
  }

  /** From every undisturbed start-up there are runs of any number of rounds. */
  lemma {:induction false} RoundsExist(net: Net, s: Sys, k: nat)
    returns (states: seq<Sys>, events: seq<Event>, marks: seq<nat>, mids: seq<nat>)
    requires WellFormed(net) && Symmetric(net) && Init(net, s) && Shape(net, s) && AllUndisturbed(net, s)
    ensures FifoRun(net, states, events) && states[0] == s && Rounds(net, states, events, marks, mids)
    ensures |mids| == k && marks[k] == |events| && states[|events|].air == []
  {
    if k == 0 {
      states, events := Silence(net, s, [s], []);
      marks, mids := [|events|], [];
    } else {
      var before, past, marks0, mids0 := RoundsExist(net, s, k - 1);
      var c;
      states, events, c := NextRound(net, s, before, past);
      marks, mids := marks0 + [|events|], mids0 + [c];
      forall j | 0 <= j < |mids| ensures RoundAt(net, states, events, marks, mids, j) {
        if j < k - 1 {
          assert RoundAt(net, before, past, marks0, mids0, j);
          RoundLater(net, before, past, states, events, marks0[j], mids0[j], marks0[j + 1]);
        }
      }
    }
  }
}
