/**
 Connection close between two endpoints, over a network that may lose, repeat and
 reorder packets.  FINs are sent once and never resent; a FIN in an unexpected state
 leaves the state's lock held, and a FIN that arrived early changes the state without
 being counted.  The model keeps all of this.
 */
module Close {

  datatype Status = Established | FinWait1 | FinWait2 | CloseWait | LastAck | TimeWait | Removed

  /** The goroutine that waits for the acknowledgement of this side's FIN. */
  datatype Waiter = NoWaiter | Waiting(key: nat) | Woken

  /**
   One endpoint: `sent` is the next sequence number it would send, `cumRead` the next it
   expects, `early` the FINs that arrived beyond cumRead, `stuck` a state lock held for
   good.  `top` records the largest value cumRead has had.
   */
  datatype End = End(st: Status, sent: nat, cumRead: nat, top: nat, waiter: Waiter, stuck: bool, early: set<nat>)

  datatype Pkt = Pkt(fin: bool, seqNum: nat, ackNum: nat)

  /** Index 0 and 1 are the two endpoints; `net[i]` holds every packet ever sent to endpoint i. */
  datatype State = State(ends: seq<End>, net: seq<set<Pkt>>)

  datatype Event =
    | SendData(i: nat, n: nat)        // bytes leave the application
    | AcceptData(i: nat, upTo: nat)   // in-order data is accepted and acknowledged
    | TakeBack(i: nat, to: nat)       // a stale segment or stray acknowledgement sets cumRead back
    | VClose(i: nat)
    | Receive(i: nat, p: Pkt)
    | DrainFin(i: nat, f: nat)        // an early FIN comes off the queue
    | Wake(i: nat)                    // the goroutine acts on the acknowledged FIN
    | Expire(i: nat)                  // the 120-second timer of TIME_WAIT

  ghost predicate Shape(s: State) {
    |s.ends| == 2 && |s.net| == 2
  }

  /** Effect of a received FIN on the status; other states keep theirs and the lock stays held. */
  function OnFin(e: End): (r: End) {
    match e.st
    case Established => e.(st := CloseWait)
    case FinWait2 => e.(st := TimeWait)
    case _ => e.(stuck := true)
  }

  /** cumRead is set to n. */
  function Read(e: End, n: nat): (r: End) {
    e.(cumRead := n, top := if n > e.top then n else e.top)
  }

  /** A packet that reaches the receiver thread of endpoint e. */
  function OnPacket(e: End, p: Pkt): (r: End) {
    if e.waiter == Waiting(p.ackNum) then
      e.(waiter := Woken)
    else if !p.fin then
      e
    else if p.seqNum > e.cumRead then
      e.(early := e.early + {p.seqNum})
    else
      OnFin(Read(e, e.cumRead + 1))
  }

  predicate CanClose(e: End) {
    !e.stuck && (e.st == Established || e.st == CloseWait)
  }

  function OnClose(e: End): (r: End)
    requires CanClose(e)
  {
    e.(st := if e.st == Established then FinWait1 else LastAck, waiter := Waiting(e.sent + 1))
  }

  function OnWake(e: End): (r: End) {
    var e1 := e.(waiter := NoWaiter);
    match e.st
    case FinWait1 => e1.(st := FinWait2)
    case LastAck => e1.(st := Removed)
    case _ => e1
  }

  /** Whether endpoint e, with peer o and packets toE, can take part in the event. */
  ghost predicate Enabled(e: End, o: End, toE: set<Pkt>, ev: Event) {
    match ev
    case SendData(_, _) => e.st == Established || e.st == CloseWait
    case AcceptData(_, upTo) => e.cumRead <= upTo <= o.sent
    case TakeBack(_, to) => to <= e.cumRead
    case VClose(_) => CanClose(e)
    case Receive(_, p) => p in toE && e.st != Removed && (p.fin && e.waiter != Waiting(p.ackNum) ==> !e.stuck)
    case DrainFin(_, f) => f in e.early && f == e.cumRead && !e.stuck && e.st != Removed
    case Wake(_) => e.waiter == Woken && !e.stuck
    case Expire(_) => e.st == TimeWait
  }

  ghost function Next(e: End, ev: Event): (e': End)
    requires ev.VClose? ==> CanClose(e)
  {
    match ev
    case SendData(_, n) => e.(sent := e.sent + n)
    case AcceptData(_, upTo) => Read(e, upTo)
    case TakeBack(_, to) => Read(e, to)
    case VClose(_) => OnClose(e)
    case Receive(_, p) => OnPacket(e, p)
    case DrainFin(_, f) => OnFin(e.(early := e.early - {f}))
    case Wake(_) => OnWake(e)
    case Expire(_) => e.(st := Removed)
  }

  /** The packets e sends to its peer. */
  ghost function Sends(e: End, ev: Event): (out: set<Pkt>) {
    match ev
    case AcceptData(_, upTo) => {Pkt(false, e.sent, upTo)}
    case TakeBack(_, to) => {Pkt(false, e.sent, to)}
    case VClose(_) => {Pkt(true, e.sent, e.cumRead)}
    case Receive(_, p) => if OnPacket(e, p).cumRead > e.cumRead then {Pkt(false, p.ackNum, OnPacket(e, p).cumRead)} else {}
    case DrainFin(_, _) => {Pkt(false, e.sent, e.cumRead)}
    case _ => {}
  }

  ghost predicate Step(s: State, ev: Event, s': State)
    requires Shape(s)
  {
    var i := ev.i;
    && i < 2 && Enabled(s.ends[i], s.ends[1 - i], s.net[i], ev)
    && s' == State(s.ends[i := Next(s.ends[i], ev)], s.net[1 - i := s.net[1 - i] + Sends(s.ends[i], ev)])
  }

  ghost predicate Init(s: State) {
    && Shape(s) && s.net == [{}, {}]
    && (forall i :: 0 <= i < 2 ==> s.ends[i] == End(Established, s.ends[i].sent, s.ends[i].cumRead, s.ends[i].cumRead, NoWaiter, false, {}))
    && (forall i :: 0 <= i < 2 ==> s.ends[1 - i].cumRead == s.ends[i].sent)
  }

  // ---------- The invariant ----------

  /** This side has sent its FIN. */
  predicate HasClosed(e: End) {
    e.st == FinWait1 || e.st == FinWait2 || e.st == TimeWait || e.st == LastAck || e.st == Removed
  }

  /** This side's FIN is acknowledged, by its status or by its woken goroutine. */
  predicate FinAcked(e: End) {
    e.st == FinWait2 || e.st == TimeWait || e.st == Removed || e.waiter == Woken
  }

  /** This side has seen the other's FIN. */
  predicate SawFin(e: End) {
    e.st == CloseWait || e.st == LastAck || e.st == TimeWait || e.st == Removed
  }

  /** What endpoint e may rely on about its peer o and about the packets in flight between them. */
  ghost predicate Side(e: End, o: End, toE: set<Pkt>, toO: set<Pkt>) {
    // the peer never expects a number that was not sent, counting the FIN as one
    && (!HasClosed(e) ==> o.top <= e.sent) && o.cumRead <= o.top
    // acknowledgements in flight were true when sent
    && (forall p :: p in toE ==> p.ackNum <= o.top)
    // FINs in flight or queued carry this side's final number
    && (forall p :: p in toO && p.fin ==> HasClosed(e) && p.seqNum == e.sent)
    && (forall f :: f in o.early ==> HasClosed(e) && f == e.sent)
    // the goroutine waits for the number after the FIN
    && (e.waiter.Waiting? ==> e.waiter.key == e.sent + 1 && HasClosed(e))
    && (FinAcked(e) ==> o.top >= e.sent + 1)
    && (SawFin(o) ==> HasClosed(e) && o.top >= e.sent)
  }

  /** Both endpoints, seen from e. */
  ghost predicate Sides(e: End, o: End, toE: set<Pkt>, toO: set<Pkt>) {
    Side(e, o, toE, toO) && Side(o, e, toO, toE)
  }

  ghost predicate Inv(s: State) {
    && Shape(s)
    && Sides(s.ends[0], s.ends[1], s.net[0], s.net[1])
  }

  /** Allowed moves of one endpoint's status. */
  predicate Forward(a: Status, b: Status) {
    || a == b
    || (a == Established && (b == FinWait1 || b == CloseWait))
    || (a == FinWait1 && b == FinWait2)
    || (a == FinWait2 && b == TimeWait)
    || (a == CloseWait && b == LastAck)
    || ((a == LastAck || a == TimeWait) && b == Removed)
  }

  lemma FinSides(e: End, o: End, toE: set<Pkt>, toO: set<Pkt>, cumRead: nat, early: set<nat>, ack: Pkt)
    requires Sides(e, o, toE, toO) && e.st != Removed
    requires cumRead >= e.cumRead && cumRead >= o.sent && HasClosed(o) && early <= e.early
    requires !ack.fin && ack.ackNum == cumRead
    ensures var e' := OnFin(Read(e.(early := early), cumRead));
            Sides(e', o, toE, toO + {ack}) && Forward(e.st, e'.st)
  {
  }

  lemma PacketSides(e: End, o: End, toE: set<Pkt>, toO: set<Pkt>, ev: Event)
    requires Sides(e, o, toE, toO) && ev.Receive? && Enabled(e, o, toE, ev)
    ensures Sides(Next(e, ev), o, toE, toO + Sends(e, ev)) && Forward(e.st, Next(e, ev).st)
  {
    var p := ev.p;
    if e.waiter != Waiting(p.ackNum) && p.fin && p.seqNum <= e.cumRead {
      FinSides(e, o, toE, toO, e.cumRead + 1, e.early, Pkt(false, p.ackNum, e.cumRead + 1));
    } else {
      assert toO + Sends(e, ev) == toO;
    }
  }

  /** One event keeps what both sides rely on and moves the status forward. */
  lemma MoveSides(e: End, o: End, toE: set<Pkt>, toO: set<Pkt>, ev: Event)
    requires Sides(e, o, toE, toO) && Enabled(e, o, toE, ev)
    ensures Sides(Next(e, ev), o, toE, toO + Sends(e, ev)) && Forward(e.st, Next(e, ev).st)
  {
    match ev
    case Receive(_, _) =>
      PacketSides(e, o, toE, toO, ev);
    case DrainFin(_, f) =>
      FinSides(e, o, toE, toO, e.cumRead, e.early - {f}, Pkt(false, e.sent, e.cumRead));
    case _ =>
  }

  lemma StepInv(s: State, ev: Event, s': State)
    requires Inv(s) && Step(s, ev, s')
    ensures Inv(s')
    ensures forall i :: 0 <= i < 2 ==> Forward(s.ends[i].st, s'.ends[i].st)
  {
    MoveSides(s.ends[ev.i], s.ends[1 - ev.i], s.net[ev.i], s.net[1 - ev.i], ev);
  }

  ghost predicate Run(states: seq<State>, events: seq<Event>) {
    && |states| == |events| + 1 && Init(states[0])
    && (forall i :: 0 <= i < |states| ==> Shape(states[i]))
    && (forall i :: 0 <= i < |events| ==> Step(states[i], events[i], states[i + 1]))
  }

  lemma {:induction false} RunInv(states: seq<State>, events: seq<Event>, k: nat)
    requires Run(states, events) && k < |states|
    ensures Inv(states[k])
  {
    if k > 0 {
      RunInv(states, events, k - 1);
      StepInv(states[k - 1], events[k - 1], states[k]);
    }
  }

  /** Each status only moves along the two paths of the state diagram. */
  lemma MovesForward(states: seq<State>, events: seq<Event>, k: nat, i: nat)
    requires Run(states, events) && k < |events| && i < 2
    ensures Forward(states[k].ends[i].st, states[k + 1].ends[i].st)
  {
    RunInv(states, events, k);
    StepInv(states[k], events[k], states[k + 1]);
  }

  /** Position of a status on its path. */
  function Rank(st: Status): (r: nat) {
    match st
    case Established => 0
    case FinWait1 => 1
    case CloseWait => 1
    case FinWait2 => 2
    case LastAck => 2
    case TimeWait => 3
    case Removed => 4
  }

  lemma {:induction false} ForwardChain(sts: seq<Status>, j: nat, k: nat)
    requires j <= k < |sts| && forall i :: 0 <= i < |sts| - 1 ==> Forward(sts[i], sts[i + 1])
    ensures Rank(sts[j]) <= Rank(sts[k]) && (Rank(sts[j]) == Rank(sts[k]) ==> sts[j] == sts[k])
    decreases k
  {
    if j < k {
      ForwardChain(sts, j, k - 1);
      assert Forward(sts[k - 1], sts[k]);
    }
  }

  /** A status that was left is never entered again. */
  lemma NeverReturns(states: seq<State>, events: seq<Event>, j: nat, k: nat, i: nat)
    requires Run(states, events) && j <= k < |states| && i < 2
    ensures Rank(states[j].ends[i].st) <= Rank(states[k].ends[i].st)
    ensures Rank(states[j].ends[i].st) == Rank(states[k].ends[i].st) ==> states[j].ends[i].st == states[k].ends[i].st
  {
    var sts := seq(|states|, n requires 0 <= n < |states| => states[n].ends[i].st);
    forall n | 0 <= n < |sts| - 1 ensures Forward(sts[n], sts[n + 1]) {
      MovesForward(states, events, n, i);
    }
    ForwardChain(sts, j, k);
  }

  /**
   In every run: a side whose FIN is acknowledged (FIN_WAIT_2, TIME_WAIT, or removed) has a
   peer whose cumReadNXT has counted that FIN; and a side that acted on a FIN (CLOSE_WAIT,
   LAST_ACK, TIME_WAIT, or removed) has a peer that closed and has accepted all of its data.
   */
  lemma CloseIsMutual(states: seq<State>, events: seq<Event>, k: nat, i: nat)
    requires Run(states, events) && k < |states| && i < 2
    ensures FinAcked(states[k].ends[i]) ==> states[k].ends[1 - i].top >= states[k].ends[i].sent + 1
    ensures SawFin(states[k].ends[i]) ==> HasClosed(states[k].ends[1 - i]) && states[k].ends[i].top >= states[k].ends[1 - i].sent
  {
    RunInv(states, events, k);
  }

  /** As long as nothing takes it back, cumReadNXT itself is what it has counted up to. */
  lemma {:induction false} CountsStand(states: seq<State>, events: seq<Event>, k: nat, i: nat)
    requires Run(states, events) && k < |states| && i < 2
    requires forall j :: 0 <= j < k && events[j].TakeBack? ==> events[j].i < 2 && events[j].to == states[j].ends[events[j].i].cumRead
    ensures states[k].ends[i].top == states[k].ends[i].cumRead
    ensures FinAcked(states[k].ends[1 - i]) ==> states[k].ends[i].cumRead >= states[k].ends[1 - i].sent + 1
  {
    if k > 0 {
      CountsStand(states, events, k - 1, i);
      assert Step(states[k - 1], events[k - 1], states[k]);
    }
    CloseIsMutual(states, events, k, 1 - i);
  }
}
