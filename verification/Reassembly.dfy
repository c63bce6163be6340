/**
 Reassembly: whatever order the segments of a stream arrive in, the receiver has
 accepted exactly the longest contiguous prefix that has arrived, and everything
 still queued lies strictly beyond it.
 */
module Reassembly {
  import opened Ring
  import opened ReadBuffers
  import opened EarlyQueues

  /** A stream cut into non-empty segments: segment k is [bounds[k], bounds[k+1]). */
  datatype Cut = Cut(isn: nat, stream: seq<Byte>, bounds: seq<nat>) {
    ghost predicate Valid() {
      && |bounds| >= 1 && bounds[0] == 0 && bounds[|bounds| - 1] == |stream|
      && (forall i, j :: 0 <= i < j < |bounds| ==> bounds[i] < bounds[j])
      && isn + 1 + |stream| < UINT32
    }

    function Count(): (n: nat)
      requires Valid()
    {
      |bounds| - 1
    }

    function SeqNum(k: nat): (s: nat)
      requires Valid() && k <= Count()
    {
      isn + 1 + bounds[k]
    }

    function Segment(k: nat): (s: seq<Byte>)
      requires Valid() && k < Count()
    {
      assert bounds[k] < bounds[k + 1] && (k + 1 < Count() ==> bounds[k + 1] < bounds[Count()]);
      stream[bounds[k]..bounds[k + 1]]
    }

    /** The first k segments. */
    ghost function Prefix(k: nat): (s: seq<Byte>)
      requires Valid() && k <= Count()
    {
      assert k < Count() ==> bounds[k] < bounds[Count()];
      stream[..bounds[k]]
    }

    lemma PrefixGrows(k: nat)
      requires Valid() && k < Count()
      ensures |Prefix(k)| == bounds[k] && Prefix(k + 1) == Prefix(k) + Segment(k) && |Segment(k)| == bounds[k + 1] - bounds[k]
    {
      assert bounds[k] < bounds[k + 1] && (k + 1 < Count() ==> bounds[k + 1] < bounds[Count()]);
    }
  }

  /** The first segment from a on that has not arrived. */
  ghost function Longest(n: nat, arrived: set<nat>, a: nat): (r: nat)
    requires a <= n
    ensures a <= r <= n && (forall k :: a <= k < r ==> k in arrived) && (r < n ==> r !in arrived)
    decreases n - a
  {
    if a < n && a in arrived then Longest(n, arrived, a + 1) else a
  }

  lemma {:induction false} LongestFrom(n: nat, arrived: set<nat>, a: nat, b: nat)
    requires a <= b <= n && forall k :: a <= k < b ==> k in arrived
    ensures Longest(n, arrived, a) == Longest(n, arrived, b)
    decreases b - a
  {
    if a < b {
      LongestFrom(n, arrived, a + 1, b);
    }
  }

  ghost predicate Queued(cut: Cut, arrived: set<nat>, a: nat, e: EarlyPacket)
    requires cut.Valid()
  {
    exists k: nat :: a <= k < cut.Count() && k in arrived && e == EarlyPacket(cut.SeqNum(k), false, cut.Segment(k))
  }

  /** Segments below a are accepted, d bytes of them are read. */
  ghost predicate Accepted(r: Recv, cut: Cut, a: nat, d: nat) {
    cut.Valid() && a <= cut.Count() && r.base == cut.isn && Represents(r, cut.Prefix(a), d)
  }

  /** The queue holds every segment that has arrived from a on, and otherwise only segments below a. */
  ghost predicate Waiting(q: seq<EarlyPacket>, cut: Cut, arrived: set<nat>, a: nat) {
    && cut.Valid() && a <= cut.Count()
    && (forall k: nat :: k < a ==> k in arrived)
    && IsHeap(q)
    && (forall e :: e in multiset(q) ==> e.priority < cut.SeqNum(a) || Queued(cut, arrived, a, e))
    && (forall k: nat :: a <= k < cut.Count() && k in arrived ==> EarlyPacket(cut.SeqNum(k), false, cut.Segment(k)) in multiset(q))
  }

  /** As between packets: segment a is the first missing one and the queue lies strictly beyond it. */
  ghost predicate Beyond(q: seq<EarlyPacket>, cut: Cut, arrived: set<nat>, a: nat) {
    && Waiting(q, cut, arrived, a)
    && (a < cut.Count() ==> a !in arrived)
    && (forall e :: e in multiset(q) ==> e.priority > cut.SeqNum(a))
  }

  /** Every segment that has arrived ends within one window of the reader. */
  ghost predicate Fits(cut: Cut, arrived: set<nat>, d: nat)
    requires cut.Valid()
  {
    forall k: nat :: k in arrived && k < cut.Count() ==> cut.bounds[k + 1] - d < WINDOW_SIZE
  }

  lemma SeqNumOrder(cut: Cut, j: nat, k: nat)
    requires cut.Valid() && j <= cut.Count() && k <= cut.Count()
    ensures j < k <==> cut.SeqNum(j) < cut.SeqNum(k)
  {
  }

  // ---------- The ring ----------

  lemma AcceptedNumbers(r: Recv, cut: Cut, a: nat, d: nat)
    requires Accepted(r, cut, a, d)
    ensures r.cum == cut.SeqNum(a) && d <= cut.bounds[a]
    ensures r.Free() == WINDOW_SIZE - 1 - (cut.bounds[a] - d)
  {
    assert |cut.Prefix(a)| == cut.bounds[a];
    BufferedPlusWindow(r, cut.Prefix(a), d);
  }

  lemma AcceptNext(r: Recv, cut: Cut, a: nat, d: nat)
    requires Accepted(r, cut, a, d) && a < cut.Count() && cut.bounds[a + 1] - d < WINDOW_SIZE
    ensures Accepted(Insert(r, cut.SeqNum(a), cut.Segment(a)), cut, a + 1, d)
  {
    AcceptedNumbers(r, cut, a, d);
    cut.PrefixGrows(a);
    assert r.cum + |cut.Segment(a)| < UINT32 by {
      assert a + 1 < cut.Count() ==> cut.bounds[a + 1] < cut.bounds[cut.Count()];
    }
    InsertNext(r, cut.Prefix(a), d, cut.Segment(a));
  }

  lemma AcceptRepeat(r: Recv, cut: Cut, a: nat, d: nat)
    requires Accepted(r, cut, a, d) && a >= 1 && |cut.Segment(a - 1)| <= r.Free()
    ensures Accepted(Insert(r, cut.SeqNum(a - 1), cut.Segment(a - 1)), cut, a, d)
  {
    AcceptedNumbers(r, cut, a, d);
    cut.PrefixGrows(a - 1);
    InsertRepeat(r, cut.Prefix(a), d, cut.SeqNum(a - 1), cut.Segment(a - 1));
  }

  lemma AcceptEither(r: Recv, cut: Cut, a: nat, d: nat, k: nat)
    requires Accepted(r, cut, a, d) && k < cut.Count() && (k == a || k + 1 == a)
    requires cut.bounds[k + 1] - d < WINDOW_SIZE && |cut.Segment(k)| <= r.Free()
    ensures Accepted(Insert(r, cut.SeqNum(k), cut.Segment(k)), cut, k + 1, d)
  {
    if k == a {
      AcceptNext(r, cut, a, d);
    } else {
      AcceptRepeat(r, cut, a, d);
    }
  }

  // ---------- The queue ----------

  /** The queue's root decides: it is below, at or beyond the next expected byte. */
  lemma RootCases(q: seq<EarlyPacket>, cut: Cut, arrived: set<nat>, a: nat)
    requires Waiting(q, cut, arrived, a)
    ensures (q == [] || q[0].priority > cut.SeqNum(a)) ==> Beyond(q, cut, arrived, a)
    ensures q != [] && q[0].priority == cut.SeqNum(a) ==>
              a < cut.Count() && a in arrived && q[0] == EarlyPacket(cut.SeqNum(a), false, cut.Segment(a))
  {
    if q == [] || q[0].priority > cut.SeqNum(a) {
      forall e | e in multiset(q) ensures e.priority > cut.SeqNum(a) {
        var i :| 0 <= i < |q| && q[i] == e;
        RootIsLeast(q, i);
      }
    } else if q[0].priority == cut.SeqNum(a) {
      assert q[0] in multiset(q);
      var k: nat :| a <= k < cut.Count() && k in arrived && q[0] == EarlyPacket(cut.SeqNum(k), false, cut.Segment(k));
      SeqNumOrder(cut, a, k);
    }
  }

  ghost predicate RootTaken(q: seq<EarlyPacket>, q': seq<EarlyPacket>, cut: Cut, arrived: set<nat>, a: nat, a': nat) {
    && Waiting(q, cut, arrived, a) && q != [] && multiset(q') == multiset(q) - multiset{q[0]}
    && q[0].priority <= cut.SeqNum(a) && a' <= cut.Count()
    && a' == if q[0].priority == cut.SeqNum(a) then a + 1 else a
  }

  lemma LeftQueued(q: seq<EarlyPacket>, q': seq<EarlyPacket>, cut: Cut, arrived: set<nat>, a: nat, a': nat, e: EarlyPacket)
    requires RootTaken(q, q', cut, arrived, a, a') && e in multiset(q')
    ensures e.priority < cut.SeqNum(a') || Queued(cut, arrived, a', e)
  {
    assert e in multiset(q);
    SeqNumOrder(cut, a, a');
    if e.priority >= cut.SeqNum(a) {
      var k: nat :| a <= k < cut.Count() && k in arrived && e == EarlyPacket(cut.SeqNum(k), false, cut.Segment(k));
      SeqNumOrder(cut, k, a');
    }
  }

  lemma StillQueued(q: seq<EarlyPacket>, q': seq<EarlyPacket>, cut: Cut, arrived: set<nat>, a: nat, a': nat, k: nat)
    requires RootTaken(q, q', cut, arrived, a, a') && a' <= k < cut.Count() && k in arrived
    ensures EarlyPacket(cut.SeqNum(k), false, cut.Segment(k)) in multiset(q')
  {
    RootCases(q, cut, arrived, a);
    SeqNumOrder(cut, k, a);
    SeqNumOrder(cut, a, k);
    assert EarlyPacket(cut.SeqNum(k), false, cut.Segment(k)) in multiset(q);
  }

  /** Removing the root: segment a itself, or a leftover from below a. */
  lemma RemoveRoot(q: seq<EarlyPacket>, q': seq<EarlyPacket>, cut: Cut, arrived: set<nat>, a: nat, a': nat)
    requires RootTaken(q, q', cut, arrived, a, a') && IsHeap(q')
    ensures Waiting(q', cut, arrived, a')
  {
    RootCases(q, cut, arrived, a);
    forall e | e in multiset(q') ensures e.priority < cut.SeqNum(a') || Queued(cut, arrived, a', e) {
      LeftQueued(q, q', cut, arrived, a, a', e);
    }
    forall k: nat | a' <= k < cut.Count() && k in arrived
      ensures EarlyPacket(cut.SeqNum(k), false, cut.Segment(k)) in multiset(q')
    {
      StillQueued(q, q', cut, arrived, a, a', k);
    }
  }

  lemma Enqueue(q: seq<EarlyPacket>, q': seq<EarlyPacket>, cut: Cut, arrived: set<nat>, a: nat, k: nat)
    requires Beyond(q, cut, arrived, a) && a < k < cut.Count() && IsHeap(q')
    requires multiset(q') == multiset(q) + multiset{EarlyPacket(cut.SeqNum(k), false, cut.Segment(k))}
    ensures Beyond(q', cut, arrived + {k}, a)
  {
    SeqNumOrder(cut, a, k);
    forall e | e in multiset(q') ensures e.priority > cut.SeqNum(a) && Queued(cut, arrived + {k}, a, e) {
      if e in multiset(q) {
        var j: nat :| a <= j < cut.Count() && j in arrived && e == EarlyPacket(cut.SeqNum(j), false, cut.Segment(j));
        assert j in arrived + {k};
      } else {
        assert k in arrived + {k};
      }
    }
    forall j: nat | a <= j < cut.Count() && j in arrived + {k}
      ensures EarlyPacket(cut.SeqNum(j), false, cut.Segment(j)) in multiset(q')
    {
      if j != k {
        assert EarlyPacket(cut.SeqNum(j), false, cut.Segment(j)) in multiset(q);
      }
    }
  }

  /** Segment a, or a repeat of the one before it, bypasses the queue. */
  lemma Bypass(q: seq<EarlyPacket>, cut: Cut, arrived: set<nat>, a: nat, k: nat)
    requires Beyond(q, cut, arrived, a) && k < cut.Count() && (k == a || k + 1 == a)
    ensures Waiting(q, cut, arrived + {k}, k + 1)
  {
    forall e | e in multiset(q) ensures Queued(cut, arrived + {k}, k + 1, e) {
      var j: nat :| a <= j < cut.Count() && j in arrived && e == EarlyPacket(cut.SeqNum(j), false, cut.Segment(j));
      SeqNumOrder(cut, a, j);
      assert j in arrived + {k} && j >= k + 1;
    }
  }

  lemma QueueFits(q: seq<EarlyPacket>, cut: Cut, arrived: set<nat>, a: nat, d: nat)
    requires Beyond(q, cut, arrived, a) && Fits(cut, arrived, d) && d <= cut.bounds[a]
    ensures Short(q)
  {
    forall e | e in multiset(q) ensures |e.payload| <= WINDOW_SIZE {
      var k: nat :| a <= k < cut.Count() && k in arrived && e == EarlyPacket(cut.SeqNum(k), false, cut.Segment(k));
      cut.PrefixGrows(k);
      assert a < k ==> cut.bounds[a] < cut.bounds[k];
    }
  }

  ghost predicate Short(q: seq<EarlyPacket>) {
    forall e :: e in multiset(q) ==> |e.payload| <= WINDOW_SIZE
  }

  datatype Ack = NoAck | Ack(num: nat, window: nat)

  class Receiver {
    const readBuffer: ReadBuffer
    const earlyPQ: EarlyPriorityQueue

    ghost predicate Valid()
      reads this, readBuffer, readBuffer.buffer, earlyPQ
    {
      readBuffer.Valid() && IsHeap(earlyPQ.items)
    }

    constructor (isn: nat)
      requires isn + 1 < UINT32
      ensures Valid() && fresh(readBuffer) && fresh(readBuffer.buffer) && fresh(earlyPQ)
      ensures Represents(readBuffer.Abs(), [], 0) && readBuffer.baseAck == isn && earlyPQ.items == []
    {
      readBuffer := new ReadBuffer(isn);
      earlyPQ := new EarlyPriorityQueue();
    }

    /** The value of the receiver: what is accepted and what is queued. */
    ghost predicate Assembled(cut: Cut, arrived: set<nat>, a: nat, d: nat)
      reads this, readBuffer, readBuffer.buffer, earlyPQ
    {
      Accepted(readBuffer.Abs(), cut, a, d) && Beyond(earlyPQ.items, cut, arrived, a)
    }

    /** Takes the queue's root, which is not beyond the next expected byte. */
    method DrainOne(ghost cut: Cut, ghost arrived: set<nat>, ghost a0: nat, ghost d: nat) returns (ghost a: nat)
      requires Accepted(readBuffer.Abs(), cut, a0, d) && Waiting(earlyPQ.items, cut, arrived, a0)
      requires Fits(cut, arrived, d) && Short(earlyPQ.items)
      requires |earlyPQ.items| > 0 && earlyPQ.items[0].priority <= readBuffer.cumReadNXT
      modifies readBuffer, readBuffer.buffer, earlyPQ
      ensures readBuffer.buffer == old(readBuffer.buffer)
      ensures a0 <= a && Accepted(readBuffer.Abs(), cut, a, d) && Waiting(earlyPQ.items, cut, arrived, a)
      ensures Short(earlyPQ.items) && |multiset(earlyPQ.items)| < old(|multiset(earlyPQ.items)|)
    {
      ghost var q := earlyPQ.items;
      AcceptedNumbers(readBuffer.Abs(), cut, a0, d);
      RootCases(q, cut, arrived, a0);
      assert q[0] in multiset(q);
      var e := earlyPQ.HeapPop();
      a := if e.priority == readBuffer.cumReadNXT then a0 + 1 else a0;
      RemoveRoot(q, earlyPQ.items, cut, arrived, a0, a);
      if e.priority == readBuffer.cumReadNXT {
        AcceptNext(readBuffer.Abs(), cut, a0, d);
        readBuffer.CopyIn(e.priority, e.payload);
      }
    }

    /** Moves queued segments into the ring while the earliest is not beyond the next expected byte. */
    method Drain(ghost cut: Cut, ghost arrived: set<nat>, ghost a0: nat, ghost d: nat) returns (ghost a: nat)
      requires Accepted(readBuffer.Abs(), cut, a0, d) && Waiting(earlyPQ.items, cut, arrived, a0)
      requires Fits(cut, arrived, d) && Short(earlyPQ.items)
      modifies readBuffer, readBuffer.buffer, earlyPQ
      ensures readBuffer.buffer == old(readBuffer.buffer)
      ensures a0 <= a && Assembled(cut, arrived, a, d)
    {
      a := a0;
      while |earlyPQ.items| > 0 && earlyPQ.items[0].priority <= readBuffer.cumReadNXT
        invariant readBuffer.buffer == old(readBuffer.buffer)
        invariant a0 <= a && Accepted(readBuffer.Abs(), cut, a, d) && Waiting(earlyPQ.items, cut, arrived, a)
        invariant Short(earlyPQ.items)
        decreases |multiset(earlyPQ.items)|
      {
        a := DrainOne(cut, arrived, a, d);
      }
      AcceptedNumbers(readBuffer.Abs(), cut, a, d);
      RootCases(earlyPQ.items, cut, arrived, a);
    }

    /** The next segment, or a repeat of the latest one, is copied in. */
    method CopySegment(seqNum: nat, payload: seq<Byte>, ghost cut: Cut, ghost a0: nat, ghost d: nat, ghost k: nat)
      requires Accepted(readBuffer.Abs(), cut, a0, d)
      requires k < cut.Count() && seqNum == cut.SeqNum(k) && payload == cut.Segment(k)
      requires (k == a0 || k + 1 == a0) && cut.bounds[k + 1] - d < WINDOW_SIZE && |payload| <= readBuffer.Abs().Free()
      modifies readBuffer, readBuffer.buffer
      ensures readBuffer.buffer == old(readBuffer.buffer)
      ensures Accepted(readBuffer.Abs(), cut, k + 1, d)
    {
      AcceptEither(readBuffer.Abs(), cut, a0, d, k);
      readBuffer.CopyIn(seqNum, payload);
    }

    /** The next segment, or a repeat of the latest one: copied in, then the queue is drained. */
    method Accept(seqNum: nat, payload: seq<Byte>, ghost cut: Cut, ghost arrived: set<nat>, ghost a0: nat, ghost d: nat, ghost k: nat)
      returns (ack: Ack, ghost a: nat)
      requires Assembled(cut, arrived, a0, d) && Short(earlyPQ.items)
      requires k < cut.Count() && seqNum == cut.SeqNum(k) && payload == cut.Segment(k)
      requires (k == a0 || k + 1 == a0) && Fits(cut, arrived + {k}, d) && |payload| <= readBuffer.Abs().Free()
      modifies readBuffer, readBuffer.buffer, earlyPQ
      ensures readBuffer.buffer == old(readBuffer.buffer)
      ensures Assembled(cut, arrived + {k}, a, d)
      ensures ack == Ack(cut.SeqNum(a), readBuffer.Abs().Free())
    {
      Bypass(earlyPQ.items, cut, arrived, a0, k);
      CopySegment(seqNum, payload, cut, a0, d, k);
      a := Drain(cut, arrived + {k}, k + 1, d);
      AcceptedNumbers(readBuffer.Abs(), cut, a, d);
      var w := readBuffer.Window();
      ack := Ack(readBuffer.cumReadNXT, w);
    }

    /**
     A data segment arrives: segment k of the cut, not one from before the latest
     accepted one.  Early segments are queued and not acknowledged.
     */
    method Arrive(seqNum: nat, payload: seq<Byte>, ghost cut: Cut, ghost arrived: set<nat>, ghost a0: nat, ghost d: nat, ghost k: nat)
      returns (ack: Ack, ghost a: nat)
      requires Assembled(cut, arrived, a0, d)
      requires k < cut.Count() && seqNum == cut.SeqNum(k) && payload == cut.Segment(k)
      requires a0 <= k + 1 && Fits(cut, arrived + {k}, d)
      requires k + 1 == a0 ==> |payload| <= readBuffer.Abs().Free()
      modifies readBuffer, readBuffer.buffer, earlyPQ
      ensures readBuffer.buffer == old(readBuffer.buffer)
      ensures Assembled(cut, arrived + {k}, a, d)
      ensures ack == if k > a0 then NoAck else Ack(cut.SeqNum(a), readBuffer.Abs().Free())
    {
      ghost var q := earlyPQ.items;
      AcceptedNumbers(readBuffer.Abs(), cut, a0, d);
      SeqNumOrder(cut, a0, k);
      QueueFits(q, cut, arrived, a0, d);
      cut.PrefixGrows(k);
      if seqNum > readBuffer.cumReadNXT {
        earlyPQ.HeapPush(EarlyPacket(seqNum, false, payload));
        a := a0;
        ack := NoAck;
        Enqueue(q, earlyPQ.items, cut, arrived, a0, k);
      } else {
        ack, a := Accept(seqNum, payload, cut, arrived, a0, d, k);
      }
    }
  }

  // ---------- Whole runs of arrivals and reads ----------

  datatype Op = Arrival(k: nat) | Reading(n: nat)

  ghost function Arrived(ops: seq<Op>): (r: set<nat>) {
    set i | 0 <= i < |ops| && ops[i].Arrival? :: ops[i].k
  }

  /** Number of segments in the longest contiguous prefix that has arrived. */
  ghost function Contiguous(cut: Cut, ops: seq<Op>): (a: nat)
    requires cut.Valid()
    ensures a <= cut.Count()
  {
    Longest(cut.Count(), Arrived(ops), 0)
  }

  /** Number of bytes read. */
  ghost function Consumed(cut: Cut, ops: seq<Op>): (d: nat)
    requires cut.Valid()
    decreases |ops|
  {
    if ops == [] then 0 else
      var before := ops[..|ops| - 1];
      var d := Consumed(cut, before);
      match ops[|ops| - 1]
      case Arrival(_) => d
      case Reading(n) => d + if cut.bounds[Contiguous(cut, before)] < d then 0 else Min(cut.bounds[Contiguous(cut, before)] - d, n)
  }

  /**
   What the receiver relies on: arrivals fit the window, none is older than the latest
   accepted segment, and a repeat of that one still finds room; reads wait for data.
   */
  ghost predicate LegalOp(cut: Cut, before: seq<Op>, op: Op)
    requires cut.Valid()
  {
    var a := Contiguous(cut, before);
    var d := Consumed(cut, before);
    match op
    case Arrival(k) =>
      && k < cut.Count() && a <= k + 1 && Fits(cut, Arrived(before) + {k}, d)
      && (k + 1 == a ==> |cut.Segment(k)| <= WINDOW_SIZE - 1 - (cut.bounds[a] - d))
    case Reading(n) => d < cut.bounds[a]
  }

  ghost predicate LegalAt(cut: Cut, ops: seq<Op>, i: nat)
    requires cut.Valid() && i < |ops|
  {
    LegalOp(cut, ops[..i], ops[i])
  }

  ghost predicate Legal(cut: Cut, ops: seq<Op>)
    requires cut.Valid()
  {
    forall i {:trigger LegalAt(cut, ops, i)} :: 0 <= i < |ops| ==> LegalAt(cut, ops, i)
  }

  lemma ArrivedStep(before: seq<Op>, op: Op)
    ensures Arrived(before + [op]) == Arrived(before) + (if op.Arrival? then {op.k} else {})
  {
    var ops := before + [op];
    forall k | k in Arrived(before) ensures k in Arrived(ops) {
      var j :| 0 <= j < |before| && before[j].Arrival? && before[j].k == k;
      assert ops[j].k == k;
    }
    assert op.Arrival? ==> ops[|before|].k in Arrived(ops);
  }

  lemma AssembledIsContiguous(q: seq<EarlyPacket>, cut: Cut, arrived: set<nat>, a: nat)
    requires Beyond(q, cut, arrived, a)
    ensures a == Longest(cut.Count(), arrived, 0)
  {
    LongestFrom(cut.Count(), arrived, 0, a);
  }

  /** The receiver and its reader after `ops`. */
  ghost predicate After(r: Receiver, delivered: seq<Byte>, cut: Cut, ops: seq<Op>)
    requires cut.Valid()
    reads r, r.readBuffer, r.readBuffer.buffer, r.earlyPQ
  {
    && |delivered| == Consumed(cut, ops) && delivered <= cut.stream
    && r.Assembled(cut, Arrived(ops), Contiguous(cut, ops), |delivered|)
  }

  method Start(cut: Cut) returns (r: Receiver)
    requires cut.Valid()
    ensures fresh(r.readBuffer) && fresh(r.readBuffer.buffer) && fresh(r.earlyPQ)
    ensures After(r, [], cut, [])
  {
    r := new Receiver(cut.isn);
    assert cut.Prefix(0) == [];
    assert Arrived([]) == {};
  }

  /** How one operation moves the arrived set and the read position. */
  lemma OpEffect(cut: Cut, before: seq<Op>, op: Op)
    requires cut.Valid()
    ensures Arrived(before + [op]) == Arrived(before) + (if op.Arrival? then {op.k} else {})
    ensures op.Arrival? ==> Consumed(cut, before + [op]) == Consumed(cut, before)
    ensures op.Reading? ==> Contiguous(cut, before + [op]) == Contiguous(cut, before)
    ensures op.Reading? && Consumed(cut, before) <= cut.bounds[Contiguous(cut, before)] ==>
              Consumed(cut, before + [op]) == Consumed(cut, before) + Min(cut.bounds[Contiguous(cut, before)] - Consumed(cut, before), op.n)
  {
    ArrivedStep(before, op);
    assert (before + [op])[..|before|] == before;
  }

  method PerformArrival(r: Receiver, delivered: seq<Byte>, k: nat, cut: Cut, ghost before: seq<Op>)
    requires cut.Valid() && After(r, delivered, cut, before) && LegalOp(cut, before, Arrival(k))
    modifies r.readBuffer, r.readBuffer.buffer, r.earlyPQ
    ensures r.readBuffer.buffer == old(r.readBuffer.buffer)
    ensures After(r, delivered, cut, before + [Arrival(k)])
  {
    ghost var a, d := Contiguous(cut, before), |delivered|;
    ghost var arrived := Arrived(before);
    AcceptedNumbers(r.readBuffer.Abs(), cut, a, d);
    var ack, a' := r.Arrive(cut.SeqNum(k), cut.Segment(k), cut, arrived, a, d, k);
    AssembledIsContiguous(r.earlyPQ.items, cut, arrived + {k}, a');
    OpEffect(cut, before, Arrival(k));
  }

  method PerformReading(r: Receiver, delivered: seq<Byte>, n: nat, ghost cut: Cut, ghost before: seq<Op>) returns (delivered': seq<Byte>)
    requires cut.Valid() && After(r, delivered, cut, before) && LegalOp(cut, before, Reading(n))
    modifies r.readBuffer
    ensures r.readBuffer.buffer == old(r.readBuffer.buffer)
    ensures After(r, delivered', cut, before + [Reading(n)])
  {
    OpEffect(cut, before, Reading(n));
    delivered' := ReadSome(r, delivered, n, cut, Arrived(before), Contiguous(cut, before));
    assert Arrived(before) == Arrived(before + [Reading(n)]);
  }

  method Perform(r: Receiver, delivered: seq<Byte>, op: Op, cut: Cut, ghost before: seq<Op>) returns (delivered': seq<Byte>)
    requires cut.Valid() && After(r, delivered, cut, before) && LegalOp(cut, before, op)
    modifies r.readBuffer, r.readBuffer.buffer, r.earlyPQ
    ensures r.readBuffer.buffer == old(r.readBuffer.buffer)
    ensures After(r, delivered', cut, before + [op])
  {
    match op {
      case Arrival(k) =>
        PerformArrival(r, delivered, k, cut, before);
        delivered' := delivered;
      case Reading(n) =>
        delivered' := PerformReading(r, delivered, n, cut, before);
    }
  }

  /**
   For every cut of a stream and every legal interleaving of arrivals and reads, what
   was read and what can still be read together are exactly the longest contiguous
   prefix that has arrived, whatever the order of arrival.
   */
  method ReceiveAll(cut: Cut, ops: seq<Op>) returns (delivered: seq<Byte>, buffered: seq<Byte>)
    requires cut.Valid() && Legal(cut, ops)
    ensures delivered + buffered == cut.Prefix(Contiguous(cut, ops))
    ensures |delivered| == Consumed(cut, ops)
  {
    var r := Start(cut);
    delivered := PerformAll(r, cut, ops);
    buffered := Rest(r, delivered, cut, Arrived(ops), Contiguous(cut, ops));
  }

  lemma TakeSteps(ops: seq<Op>, i: nat)
    requires i <= |ops|
    ensures if i < |ops| then ops[..i + 1] == ops[..i] + [ops[i]] else ops[..i] == ops
  {
  }

  method PerformAll(r: Receiver, cut: Cut, ops: seq<Op>) returns (delivered: seq<Byte>)
    requires cut.Valid() && Legal(cut, ops) && After(r, [], cut, [])
    modifies r.readBuffer, r.readBuffer.buffer, r.earlyPQ
    ensures r.readBuffer.buffer == old(r.readBuffer.buffer) && After(r, delivered, cut, ops)
  {
    delivered := [];
    ghost var done: seq<Op> := [];
    for i := 0 to |ops|
      invariant r.readBuffer.buffer == old(r.readBuffer.buffer)
      invariant done == ops[..i] && After(r, delivered, cut, done)
    {
      assert LegalAt(cut, ops, i);
      TakeSteps(ops, i);
      delivered := Perform(r, delivered, ops[i], cut, done);
      done := done + [ops[i]];
    }
    TakeSteps(ops, |ops|);
  }

  /** A read after d bytes continues the stream where the reader stopped. */
  lemma ReadContinues(rv: Recv, cut: Cut, a: nat, d: nat, n: nat)
    requires Accepted(rv, cut, a, d)
    ensures d <= cut.bounds[a] && rv.Buffered() == cut.bounds[a] - d
    ensures var k := Min(cut.bounds[a] - d, n);
            ReadBytes(rv, n) == cut.stream[d..d + k] && Accepted(AfterRead(rv, n), cut, a, d + k)
  {
    assert |cut.Prefix(a)| == cut.bounds[a];
    BufferedPlusWindow(rv, cut.Prefix(a), d);
    ReadOldest(rv, cut.Prefix(a), d, n);
    var k := Min(cut.bounds[a] - d, n);
    assert cut.Prefix(a)[d..d + k] == cut.stream[d..d + k];
  }

  lemma ReadsRest(rv: Recv, cut: Cut, a: nat, delivered: seq<Byte>)
    requires Accepted(rv, cut, a, |delivered|) && delivered <= cut.stream
    ensures delivered + ReadBytes(rv, WINDOW_SIZE) == cut.Prefix(a)
    ensures rv.Buffered() == 0 ==> delivered == cut.Prefix(a)
  {
    ReadContinues(rv, cut, a, |delivered|, WINDOW_SIZE);
    assert delivered == cut.stream[..|delivered|];
  }

  method ReadSome(r: Receiver, delivered: seq<Byte>, n: nat, ghost cut: Cut, ghost arrived: set<nat>, ghost a: nat) returns (delivered': seq<Byte>)
    requires r.Assembled(cut, arrived, a, |delivered|) && delivered <= cut.stream && |delivered| < cut.bounds[a]
    modifies r.readBuffer
    ensures r.readBuffer.buffer == old(r.readBuffer.buffer)
    ensures delivered' <= cut.stream && |delivered'| == |delivered| + Min(cut.bounds[a] - |delivered|, n)
    ensures r.Assembled(cut, arrived, a, |delivered'|)
  {
    ReadContinues(r.readBuffer.Abs(), cut, a, |delivered|, n);
    var bytes := r.readBuffer.TakeBytes(n);
    delivered' := delivered + bytes;
  }

  method Rest(r: Receiver, delivered: seq<Byte>, ghost cut: Cut, ghost arrived: set<nat>, ghost a: nat) returns (buffered: seq<Byte>)
    requires r.Assembled(cut, arrived, a, |delivered|) && delivered <= cut.stream
    modifies r.readBuffer
    ensures delivered + buffered == cut.Prefix(a)
  {
    ReadsRest(r.readBuffer.Abs(), cut, a, delivered);
    var pending := r.readBuffer.Pending();
    buffered := [];
    if pending > 0 {
      buffered := r.readBuffer.TakeBytes(WINDOW_SIZE);
    }
  }
}
