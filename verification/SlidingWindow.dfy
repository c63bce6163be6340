/**
 One message in the sliding window: a list of segments, the unsent rest, and the
 socket's numbers UNA, NXT and cumWriteUNA.  Every iteration conserves the message,
 and only segments sent once are timed.
 */
module SlidingWindows {
  import opened Ring

  const MSS: nat := 1360

  /** A list node; `copies` counts its transmissions. */
  datatype WNode = WNode(seqNum: nat, payload: seq<Byte>, expectedAck: nat, index: nat, payloadIndex: nat, sent: bool, retrans: bool, copies: nat)

  const Dummy: WNode := WNode(0, [], 0, 0, 0, false, false, 0)

  /** Socket numbers used by the window; `unacked` counts the acknowledgements seen per number. */
  datatype Tx = Tx(una: nat, nxt: nat, cumUna: nat, base: nat, cws: nat, unacked: map<nat, nat>, locked: bool)

  /** Window state: message size, unallocated rest, size of the unsent tail, acknowledged bytes, list. */
  datatype Slide = Slide(size: nat, rest: seq<Byte>, toSend: int, bytesSent: nat, nodes: seq<WNode>)

  // ---------- The operations ----------

  function Open(tx: Tx, payload: seq<Byte>): (sl: Slide) {
    var k := Min(Min(MSS, |payload|), tx.cws);
    var k := if k < 0 then 0 else k;
    var first := WNode(tx.cumUna, payload[..k], (Dist(tx.nxt, tx.una) + tx.cumUna + k) % UINT32, 0, 0, false, false, 0);
    Slide(|payload|, payload[k..], k, 0, [Dummy, first])
  }

  function Tail(sl: Slide): (n: WNode)
    requires sl.nodes != []
  {
    sl.nodes[|sl.nodes| - 1]
  }

  predicate CanSend(tx: Tx, sl: Slide) {
    && sl.bytesSent < sl.size && tx.cws > 0 && sl.toSend > 0 && sl.nodes != []
    && (|sl.nodes| == 1 || (Tail(sl).index - sl.nodes[1].index) % UINT32 < WINDOW_SIZE)
  }

  function NewNxt(tx: Tx, sl: Slide): (n: nat)
    requires sl.toSend > 0
    ensures n < WINDOW_SIZE
  {
    (tx.nxt + sl.toSend) % WINDOW_SIZE
  }

  function NewAck(tx: Tx, sl: Slide): (n: nat)
    requires sl.toSend > 0
  {
    (Dist(NewNxt(tx, sl), tx.una) + tx.cumUna) % UINT32
  }

  function SendTx(tx: Tx, sl: Slide): (tx': Tx)
    requires sl.toSend > 0 && sl.nodes != []
  {
    tx.(nxt := NewNxt(tx, sl), unacked := tx.unacked[NewAck(tx, sl) := 0], cws := (tx.cws - |Tail(sl).payload|) % WINDOW_SIZE)
  }

  /** The tail goes out; the next segment, if any bytes are left, is allocated behind it. */
  function SendSlide(tx: Tx, sl: Slide): (sl': Slide)
    requires sl.toSend > 0 && sl.nodes != []
  {
    var tail := Tail(sl);
    var out := sl.nodes[|sl.nodes| - 1 := tail.(sent := true, retrans := false, copies := tail.copies + 1)];
    var k := Min(Min(MSS, sl.size - tail.payloadIndex), |sl.rest|);
    if k > 0 then
      var next := WNode(NewAck(tx, sl), sl.rest[..k], (NewAck(tx, sl) + k) % UINT32,
                        tail.index + 1, (tail.payloadIndex + MSS) % WINDOW_SIZE, false, false, 0);
      sl.(rest := sl.rest[k..], toSend := k, nodes := out + [next])
    else
      sl.(toSend := k, nodes := out)
  }

  /** Nodes from the head on are dropped while the acknowledgement covers them. */
  function DropAcked(nodes: seq<WNode>, num: nat): (r: seq<WNode>)
    ensures |r| <= |nodes|
  {
    if nodes == [] || nodes[0].expectedAck > num then nodes else DropAcked(nodes[1..], num)
  }

  predicate FirstSeen(tx: Tx, num: nat) {
    num !in tx.unacked || tx.unacked[num] == 0
  }

  /** A number seen before leaves the map's lock held for good. */
  function AckTx(tx: Tx, num: nat, window: nat): (tx': Tx) {
    if !FirstSeen(tx, num) then
      tx.(locked := true)
    else
      var tx1 := tx.(unacked := tx.unacked[num := 1], cws := window);
      if num > tx.cumUna then tx1.(cumUna := num, una := Dist(num, tx.base)) else tx1
  }

  function AckSlide(tx: Tx, sl: Slide, num: nat): (sl': Slide) {
    if FirstSeen(tx, num) && num > tx.cumUna then
      sl.(bytesSent := sl.bytesSent + (num - tx.cumUna), nodes := DropAcked(sl.nodes, num))
    else
      sl
  }

  /** The nodes whose round trip is measured by this acknowledgement. */
  function Timed(tx: Tx, sl: Slide, num: nat): (r: seq<WNode>) {
    if FirstSeen(tx, num) && num > tx.cumUna then
      SentOnce(sl.nodes[..|sl.nodes| - |DropAcked(sl.nodes, num)|])
    else
      []
  }

  function SentOnce(nodes: seq<WNode>): (r: seq<WNode>)
    ensures forall n :: n in r ==> n in nodes && n.sent && !n.retrans
  {
    if nodes == [] then [] else
      (if !nodes[0].retrans && nodes[0].sent then [nodes[0]] else []) + SentOnce(nodes[1..])
  }

  /** The node the retransmission timer looks at: the first one behind the dummy head. */
  function Oldest(sl: Slide): (i: nat) {
    if sl.nodes != [] && sl.nodes[0].expectedAck == 0 then 1 else 0
  }

  predicate CanResend(tx: Tx, sl: Slide) {
    tx.cws > 0 && Oldest(sl) < |sl.nodes| && sl.nodes[Oldest(sl)].sent
  }

  function ResendSlide(sl: Slide): (sl': Slide)
    requires Oldest(sl) < |sl.nodes|
  {
    var n := sl.nodes[Oldest(sl)];
    sl.(nodes := sl.nodes[Oldest(sl) := n.(retrans := true, copies := n.copies + 1)])
  }

  // ---------- Conservation ----------

  /** The list without the dummy head, which the first new acknowledgement removes. */
  ghost function Live(sl: Slide): (r: seq<WNode>)
    requires sl.bytesSent == 0 ==> sl.nodes != []
  {
    if sl.bytesSent == 0 then sl.nodes[1..] else sl.nodes
  }

  /** A node carries the bytes of the message from its sequence number to its expected acknowledgement. */
  ghost predicate Carries(n: WNode, m: seq<Byte>, s0: nat) {
    && s0 <= n.seqNum < n.expectedAck <= s0 + |m|
    && n.payload == m[n.seqNum - s0..n.expectedAck - s0]
  }

  ghost predicate Joined(nodes: seq<WNode>, i: nat)
    requires i + 1 < |nodes|
  {
    nodes[i].expectedAck == nodes[i + 1].seqNum
  }

  /** Consecutive segments of m from `from` to `to`. */
  ghost predicate Linked(nodes: seq<WNode>, m: seq<Byte>, s0: nat, from: nat, to: nat) {
    && (forall i {:trigger Carries(nodes[i], m, s0)} :: 0 <= i < |nodes| ==> Carries(nodes[i], m, s0))
    && (forall i :: 0 <= i < |nodes| - 1 ==> Joined(nodes, i))
    && (if nodes == [] then from == to else nodes[0].seqNum == from && nodes[|nodes| - 1].expectedAck == to)
  }

  /** Transmission history of a node: timed only if sent exactly once, never resent before it is sent. */
  ghost predicate Karn(n: WNode) {
    (n.sent <==> n.copies >= 1) && (n.retrans <==> n.copies >= 2)
  }

  /** The first sequence number not yet sent, for the list `live` of a message acknowledged up to `from`. */
  ghost function Unsent(live: seq<WNode>, toSend: int, from: nat): (s: nat) {
    if live == [] then from
    else if toSend > 0 then live[|live| - 1].seqNum
    else live[|live| - 1].expectedAck
  }

  /** List and rest are the message from `from` on; exactly the tail may be unsent, and toSend is its size. */
  ghost predicate Listing(live: seq<WNode>, rest: seq<Byte>, toSend: int, m: seq<Byte>, s0: nat, from: nat) {
    && |rest| <= |m| && rest == m[|m| - |rest|..]
    && Linked(live, m, s0, from, s0 + |m| - |rest|)
    && TailOnlyUnsent(live, toSend)
    && (toSend <= 0 ==> rest == [])
    && (rest != [] ==> live != [] && live[|live| - 1].payloadIndex <= |m| - |rest|)
  }

  /** Node i keeps Karn's bookkeeping and, unless it is the tail waiting to go out, has been sent. */
  ghost predicate GoodAt(live: seq<WNode>, toSend: int, i: nat)
    requires i < |live|
  {
    Karn(live[i]) && (i < |live| - 1 || toSend <= 0 ==> live[i].sent)
  }

  ghost predicate TailOnlyUnsent(live: seq<WNode>, toSend: int) {
    && (toSend > 0 ==> live != [] && !live[|live| - 1].sent && |live[|live| - 1].payload| == toSend)
    && (forall i {:trigger GoodAt(live, toSend, i)} :: 0 <= i < |live| ==> GoodAt(live, toSend, i))
  }

  /** Node i was sent and is acknowledged by a. */
  ghost predicate AckedAt(live: seq<WNode>, i: nat, a: nat)
    requires i < |live|
  {
    live[i].sent && live[i].expectedAck == a
  }

  /** Every number that may still be acknowledged belongs to a listed segment that was sent. */
  ghost predicate Covered(live: seq<WNode>, unacked: map<nat, nat>, from: nat) {
    forall a :: a in unacked && a > from ==> exists i :: 0 <= i < |live| && AckedAt(live, i, a)
  }

  ghost predicate Numbers(tx: Tx, sl: Slide, m: seq<Byte>, s0: nat) {
    && 0 < |m| < WINDOW_SIZE && tx.base < s0 && s0 + |m| < UINT32
    && sl.size == |m| && sl.bytesSent <= |m| && tx.cumUna == s0 + sl.bytesSent
    && (sl.bytesSent == 0 ==> sl.nodes != [] && sl.nodes[0] == Dummy)
    && tx.una == Dist(tx.cumUna, tx.base)
  }

  /** The loop-head invariant for message m whose first byte has sequence number s0. */
  ghost predicate Conserved(tx: Tx, sl: Slide, m: seq<Byte>, s0: nat) {
    && Numbers(tx, sl, m, s0)
    && Listing(Live(sl), sl.rest, sl.toSend, m, s0, tx.cumUna)
    && tx.nxt == Dist(Unsent(Live(sl), sl.toSend, tx.cumUna), tx.base)
    && Covered(Live(sl), tx.unacked, tx.cumUna)
  }

  lemma DistAdd(a: nat, b: nat, base: nat)
    requires base <= a <= b < a + WINDOW_SIZE
    ensures Dist(Dist(b, base), Dist(a, base)) == b - a
    ensures (Dist(a, base) + (b - a)) % WINDOW_SIZE == Dist(b, base)
  {
    ModAdd(a - base, b - a);
    ModSub(b - base, a - base);
  }

  lemma ModSub(x: int, y: int)
    ensures (x % WINDOW_SIZE - y % WINDOW_SIZE) % WINDOW_SIZE == (x - y) % WINDOW_SIZE
  {
    var q := x / WINDOW_SIZE - y / WINDOW_SIZE;
    assert x - y == q * WINDOW_SIZE + (x % WINDOW_SIZE - y % WINDOW_SIZE);
  }

  ghost function Payloads(nodes: seq<WNode>): (r: seq<Byte>) {
    if nodes == [] then [] else nodes[0].payload + Payloads(nodes[1..])
  }

  lemma SlicesMeet(m: seq<Byte>, a: nat, b: nat, c: nat)
    requires a <= b <= c <= |m|
    ensures m[a..b] + m[b..c] == m[a..c]
  {
  }

  lemma {:induction false} LinkedPayloads(nodes: seq<WNode>, m: seq<Byte>, s0: nat, from: nat, to: nat)
    requires Linked(nodes, m, s0, from, to) && s0 <= from <= s0 + |m|
    ensures from <= to <= s0 + |m| && Payloads(nodes) == m[from - s0..to - s0]
    decreases |nodes|
  {
    if nodes != [] {
      assert Carries(nodes[0], m, s0);
      var first, mid, rest := nodes[0].payload, nodes[0].expectedAck, nodes[1..];
      LinkedRest(nodes, m, s0, from, to);
      LinkedPayloads(rest, m, s0, mid, to);
      assert first == m[from - s0..mid - s0];
      SlicesMeet(m, from - s0, mid - s0, to - s0);
      assert Payloads(nodes) == first + Payloads(rest);
    }
  }

  /** Acknowledged prefix, listed payloads and unallocated rest are always the message. */
  lemma Conservation(tx: Tx, sl: Slide, m: seq<Byte>, s0: nat)
    requires Conserved(tx, sl, m, s0)
    ensures m == m[..sl.bytesSent] + Payloads(Live(sl)) + sl.rest
    ensures tx.cumUna + Dist(tx.nxt, tx.una) == Unsent(Live(sl), sl.toSend, tx.cumUna)
    ensures sl.bytesSent == sl.size ==> sl.nodes == [] && sl.rest == [] && tx.una == tx.nxt && tx.cumUna == s0 + |m|
  {
    var live := Live(sl);
    LinkedPayloads(live, m, s0, tx.cumUna, s0 + |m| - |sl.rest|);
    if live != [] {
      assert Carries(live[0], m, s0) && Carries(live[|live| - 1], m, s0);
      LinkedOrder(live, m, s0, tx.cumUna, s0 + |m| - |sl.rest|, 0, |live| - 1);
    }
    DistAdd(tx.cumUna, Unsent(Live(sl), sl.toSend, tx.cumUna), tx.base);
  }

  lemma {:induction false} LinkedOrder(nodes: seq<WNode>, m: seq<Byte>, s0: nat, from: nat, to: nat, i: nat, j: nat)
    requires Linked(nodes, m, s0, from, to) && i <= j < |nodes|
    ensures nodes[i].seqNum <= nodes[j].seqNum && nodes[i].expectedAck <= nodes[j].expectedAck
    ensures i < j ==> nodes[i].expectedAck <= nodes[j].seqNum
    decreases j
  {
    assert Carries(nodes[i], m, s0) && Carries(nodes[j], m, s0);
    if i < j {
      LinkedOrder(nodes, m, s0, from, to, i, j - 1);
      assert Carries(nodes[j - 1], m, s0) && Joined(nodes, j - 1);
    }
  }

  // ---------- Opening ----------

  lemma OpenConserved(tx: Tx, m: seq<Byte>)
    requires 0 < |m| < WINDOW_SIZE && tx.cws > 0
    requires tx.base < tx.cumUna && tx.cumUna + |m| < UINT32
    requires tx.una == Dist(tx.cumUna, tx.base) && tx.nxt == tx.una
    requires forall a :: a in tx.unacked ==> a <= tx.cumUna
    ensures Conserved(tx, Open(tx, m), m, tx.cumUna)
  {
    var sl := Open(tx, m);
    assert Live(sl) == [sl.nodes[1]];
    assert GoodAt(Live(sl), sl.toSend, 0);
  }

  // ---------- Sending ----------

  lemma TailOf(tx: Tx, sl: Slide, m: seq<Byte>, s0: nat)
    requires Conserved(tx, sl, m, s0) && sl.toSend > 0
    ensures sl.nodes != [] && Tail(sl) == Live(sl)[|Live(sl)| - 1] && Carries(Tail(sl), m, s0)
    ensures tx.cumUna <= Tail(sl).seqNum && Tail(sl).expectedAck == s0 + |m| - |sl.rest|
  {
    var live := Live(sl);
    LinkedOrder(live, m, s0, tx.cumUna, s0 + |m| - |sl.rest|, 0, |live| - 1);
    assert Carries(live[|live| - 1], m, s0);
  }

  lemma SendNumbers(tx: Tx, sl: Slide, m: seq<Byte>, s0: nat)
    requires Conserved(tx, sl, m, s0) && sl.toSend > 0 && sl.nodes != []
    ensures NewNxt(tx, sl) == Dist(Tail(sl).expectedAck, tx.base)
    ensures NewAck(tx, sl) == Tail(sl).expectedAck
  {
    TailOf(tx, sl, m, s0);
    var tail := Tail(sl);
    assert tx.nxt == Dist(tail.seqNum, tx.base);
    DistAdd(tail.seqNum, tail.expectedAck, tx.base);
    assert NewNxt(tx, sl) == Dist(tail.expectedAck, tx.base);
    DistAdd(tx.cumUna, tail.expectedAck, tx.base);
  }

  lemma LinkedExtend(nodes: seq<WNode>, m: seq<Byte>, s0: nat, from: nat, to: nat, n: WNode)
    requires Linked(nodes, m, s0, from, to) && Carries(n, m, s0) && n.seqNum == to && nodes != []
    ensures Linked(nodes + [n], m, s0, from, n.expectedAck)
  {
    var all := nodes + [n];
    forall i | 0 <= i < |all| - 1 ensures Joined(all, i) {
      assert i + 1 < |nodes| ==> Joined(nodes, i);
    }
  }

  lemma LinkedMark(nodes: seq<WNode>, m: seq<Byte>, s0: nat, from: nat, to: nat, i: nat, n: WNode)
    requires Linked(nodes, m, s0, from, to) && i < |nodes|
    requires n.seqNum == nodes[i].seqNum && n.expectedAck == nodes[i].expectedAck && n.payload == nodes[i].payload
    ensures Linked(nodes[i := n], m, s0, from, to)
  {
    assert Carries(nodes[i], m, s0);
    var nodes' := nodes[i := n];
    forall k | 0 <= k < |nodes| - 1 ensures Joined(nodes', k) {
      assert Joined(nodes, k);
    }
  }

  lemma TailOnlySent(live: seq<WNode>, toSend: int, marked: seq<WNode>, next: WNode)
    requires TailOnlyUnsent(live, toSend) && toSend > 0
    requires var t := live[|live| - 1]; marked == live[|live| - 1 := t.(sent := true, retrans := false, copies := t.copies + 1)]
    requires !next.sent && !next.retrans && next.copies == 0
    ensures forall k :: k <= 0 ==> TailOnlyUnsent(marked, k)
    ensures next.payload != [] ==> TailOnlyUnsent(marked + [next], |next.payload|)
  {
    assert GoodAt(live, toSend, |live| - 1);
    forall k, i | k <= 0 && 0 <= i < |marked| ensures GoodAt(marked, k, i) {
      assert GoodAt(live, toSend, i);
    }
    var all := marked + [next];
    forall i | 0 <= i < |all| ensures GoodAt(all, |next.payload|, i) || next.payload == [] {
      if i < |live| {
        assert GoodAt(marked, 0, i) && all[i] == marked[i];
      }
    }
  }

  /** The tail is marked sent and, while bytes are left, a tail of MSS bytes or of all of them follows. */
  lemma ListSent(live: seq<WNode>, rest: seq<Byte>, toSend: int, m: seq<Byte>, s0: nat, from: nat, marked: seq<WNode>, next: WNode)
    requires Listing(live, rest, toSend, m, s0, from) && toSend > 0
    requires var t := live[|live| - 1]; marked == live[|live| - 1 := t.(sent := true, retrans := false, copies := t.copies + 1)]
    requires next.seqNum == s0 + |m| - |rest| && next.payload == rest[..Min(MSS, |rest|)] && next.expectedAck == next.seqNum + |next.payload|
    requires !next.sent && !next.retrans && next.copies == 0
    requires next.payloadIndex <= live[|live| - 1].payloadIndex + MSS
    ensures rest == [] ==> forall k :: k <= 0 ==> Listing(marked, [], k, m, s0, from)
    ensures rest != [] ==> Listing(marked + [next], rest[Min(MSS, |rest|)..], Min(MSS, |rest|), m, s0, from)
  {
    LinkedMark(live, m, s0, from, s0 + |m| - |rest|, |live| - 1, marked[|live| - 1]);
    TailOnlySent(live, toSend, marked, next);
    if rest != [] {
      assert Carries(next, m, s0);
      LinkedExtend(marked, m, s0, from, s0 + |m| - |rest|, next);
    }
  }

  lemma CoveredSend(live: seq<WNode>, live': seq<WNode>, unacked: map<nat, nat>, from: nat)
    requires Covered(live, unacked, from) && live != [] && |live| <= |live'|
    requires forall i :: 0 <= i < |live| - 1 ==> live'[i] == live[i]
    requires live'[|live| - 1].sent && live'[|live| - 1].expectedAck == live[|live| - 1].expectedAck
    ensures Covered(live', unacked[live[|live| - 1].expectedAck := 0], from)
  {
    var t := live[|live| - 1].expectedAck;
    var u := unacked[t := 0];
    forall a | a in u && a > from ensures exists i :: 0 <= i < |live'| && AckedAt(live', i, a) {
      if a == t {
        assert AckedAt(live', |live| - 1, a);
      } else {
        var i :| 0 <= i < |live| && AckedAt(live, i, a);
        assert AckedAt(live', i, a);
      }
    }
  }

  lemma BehindDummy(tx: Tx, sl: Slide, m: seq<Byte>, s0: nat)
    requires Numbers(tx, sl, m, s0)
    ensures if sl.bytesSent == 0 then sl.nodes == [Dummy] + Live(sl) else sl.nodes == Live(sl)
  {
  }

  /** While bytes are left, the next segment takes MSS of them, or all. */
  lemma NextSize(tx: Tx, sl: Slide, m: seq<Byte>, s0: nat)
    requires Conserved(tx, sl, m, s0) && sl.toSend > 0 && sl.nodes != []
    ensures var k := Min(Min(MSS, sl.size - Tail(sl).payloadIndex), |sl.rest|);
            if sl.rest == [] then k <= 0 else k == Min(MSS, |sl.rest|)
  {
    TailOf(tx, sl, m, s0);
  }

  /** Sending the last segment only marks it. */
  lemma SendShapeLast(tx: Tx, sl: Slide, live: seq<WNode>)
    requires sl.toSend > 0 && sl.nodes != [] && live != [] && sl.rest == []
    requires if sl.bytesSent == 0 then sl.nodes == [Dummy] + live else sl.nodes == live
    ensures var sl' := SendSlide(tx, sl);
            var t := Tail(sl);
            && sl'.nodes != [] && sl'.size == sl.size && sl'.bytesSent == sl.bytesSent
            && (sl.bytesSent == 0 ==> sl'.nodes[0] == Dummy)
            && Live(sl') == live[|live| - 1 := t.(sent := true, retrans := false, copies := t.copies + 1)]
            && sl'.toSend <= 0 && sl'.rest == []
  {
  }

  /** Sending with bytes left marks the tail and allocates `next` behind it. */
  lemma SendShapeNext(tx: Tx, sl: Slide, live: seq<WNode>, k: nat, next: WNode)
    requires sl.toSend > 0 && sl.nodes != [] && live != [] && 0 < k <= |sl.rest|
    requires if sl.bytesSent == 0 then sl.nodes == [Dummy] + live else sl.nodes == live
    requires Min(Min(MSS, sl.size - Tail(sl).payloadIndex), |sl.rest|) == k
    requires next == WNode(NewAck(tx, sl), sl.rest[..k], (NewAck(tx, sl) + k) % UINT32, Tail(sl).index + 1,
                           (Tail(sl).payloadIndex + MSS) % WINDOW_SIZE, false, false, 0)
    ensures var sl' := SendSlide(tx, sl);
            var t := Tail(sl);
            && sl'.nodes != [] && sl'.size == sl.size && sl'.bytesSent == sl.bytesSent
            && (sl.bytesSent == 0 ==> sl'.nodes[0] == Dummy)
            && Live(sl') == live[|live| - 1 := t.(sent := true, retrans := false, copies := t.copies + 1)] + [next]
            && sl'.toSend == k && sl'.rest == sl.rest[k..]
  {
  }

  /** The list after sending, given the numbers of the next segment. */
  ghost predicate SentList(tx: Tx, sl: Slide, live: seq<WNode>, m: seq<Byte>, s0: nat)
    requires sl.toSend > 0 && sl.nodes != [] && live != []
  {
    var sl' := SendSlide(tx, sl);
    && sl'.nodes != [] && sl'.size == sl.size && sl'.bytesSent == sl.bytesSent && (sl.bytesSent == 0 ==> sl'.nodes[0] == Dummy)
    && Listing(Live(sl'), sl'.rest, sl'.toSend, m, s0, tx.cumUna)
    && |live| <= |Live(sl')|
    && (forall i :: 0 <= i < |live| - 1 ==> Live(sl')[i] == live[i])
    && Live(sl')[|live| - 1] == Tail(sl).(sent := true, retrans := false, copies := Tail(sl).copies + 1)
    && Unsent(Live(sl'), sl'.toSend, tx.cumUna) == Tail(sl).expectedAck
  }

  lemma ListAfterSend(tx: Tx, sl: Slide, live: seq<WNode>, m: seq<Byte>, s0: nat, k: nat, ack: nat)
    requires Listing(live, sl.rest, sl.toSend, m, s0, tx.cumUna) && sl.toSend > 0 && sl.nodes != [] && live != []
    requires if sl.bytesSent == 0 then sl.nodes == [Dummy] + live else sl.nodes == live
    requires Tail(sl) == live[|live| - 1] && Tail(sl).expectedAck == s0 + |m| - |sl.rest|
    requires var c := Min(Min(MSS, sl.size - Tail(sl).payloadIndex), |sl.rest|); if sl.rest == [] then c <= 0 else c == k
    requires k == Min(MSS, |sl.rest|) && ack == NewAck(tx, sl) == s0 + |m| - |sl.rest| && ack + k < UINT32
    ensures SentList(tx, sl, live, m, s0)
  {
    var t := Tail(sl);
    var marked := live[|live| - 1 := t.(sent := true, retrans := false, copies := t.copies + 1)];
    var next := WNode(ack, sl.rest[..k], ack + k, t.index + 1, (t.payloadIndex + MSS) % WINDOW_SIZE, false, false, 0);
    ListSent(live, sl.rest, sl.toSend, m, s0, tx.cumUna, marked, next);
    if sl.rest == [] {
      SendShapeLast(tx, sl, live);
    } else {
      SendShapeNext(tx, sl, live, k, next);
    }
  }

  lemma SendListing(tx: Tx, sl: Slide, m: seq<Byte>, s0: nat)
    requires Conserved(tx, sl, m, s0) && sl.toSend > 0 && sl.nodes != []
    ensures Live(sl) != [] && SentList(tx, sl, Live(sl), m, s0)
  {
    TailOf(tx, sl, m, s0);
    SendNumbers(tx, sl, m, s0);
    BehindDummy(tx, sl, m, s0);
    NextSize(tx, sl, m, s0);
    ListAfterSend(tx, sl, Live(sl), m, s0, Min(MSS, |sl.rest|), NewAck(tx, sl));
  }

  lemma SendConserved(tx: Tx, sl: Slide, m: seq<Byte>, s0: nat)
    requires Conserved(tx, sl, m, s0) && sl.toSend > 0 && sl.nodes != []
    ensures Conserved(SendTx(tx, sl), SendSlide(tx, sl), m, s0)
  {
    TailOf(tx, sl, m, s0);
    SendNumbers(tx, sl, m, s0);
    SendListing(tx, sl, m, s0);
    CoveredSend(Live(sl), Live(SendSlide(tx, sl)), tx.unacked, tx.cumUna);
  }

  // ---------- Acknowledgements ----------

  lemma LinkedRest(nodes: seq<WNode>, m: seq<Byte>, s0: nat, from: nat, to: nat)
    requires Linked(nodes, m, s0, from, to) && nodes != []
    ensures Linked(nodes[1..], m, s0, nodes[0].expectedAck, to)
  {
    var rest := nodes[1..];
    forall k | 0 <= k < |rest| ensures Carries(rest[k], m, s0) {
      assert Carries(nodes[k + 1], m, s0);
    }
    forall k | 0 <= k < |rest| - 1 ensures Joined(rest, k) {
      assert Joined(nodes, k + 1);
    }
    assert rest != [] ==> Joined(nodes, 0);
  }

  lemma {:induction false} DropLinked(nodes: seq<WNode>, m: seq<Byte>, s0: nat, from: nat, to: nat, i: nat)
    requires Linked(nodes, m, s0, from, to) && i < |nodes|
    ensures DropAcked(nodes, nodes[i].expectedAck) == nodes[i + 1..]
    decreases i
  {
    LinkedOrder(nodes, m, s0, from, to, 0, i);
    if i == 0 {
      if |nodes| > 1 {
        assert Joined(nodes, 0) && Carries(nodes[1], m, s0);
      }
    } else {
      LinkedRest(nodes, m, s0, from, to);
      DropLinked(nodes[1..], m, s0, nodes[0].expectedAck, to, i - 1);
      SliceShift(nodes, i);
    }
  }

  lemma SliceShift(nodes: seq<WNode>, i: nat)
    requires 1 <= i < |nodes|
    ensures nodes[1..][i..] == nodes[i + 1..] && nodes[1..][i - 1] == nodes[i]
  {
  }

  lemma LinkedSuffix(nodes: seq<WNode>, m: seq<Byte>, s0: nat, from: nat, to: nat, i: nat)
    requires Linked(nodes, m, s0, from, to) && i < |nodes|
    ensures Linked(nodes[i + 1..], m, s0, nodes[i].expectedAck, to)
  {
    var rest := nodes[i + 1..];
    forall k | 0 <= k < |rest| ensures Carries(rest[k], m, s0) {
      assert Carries(nodes[i + 1 + k], m, s0);
    }
    forall k | 0 <= k < |rest| - 1 ensures Joined(rest, k) {
      assert Joined(nodes, i + 1 + k);
    }
    assert rest != [] ==> Joined(nodes, i);
  }

  /** The number belongs to a transmitted segment, or to data acknowledged before. */
  ghost predicate Known(tx: Tx, num: nat) {
    num in tx.unacked || num <= tx.cumUna
  }

  lemma TailOnlyRest(live: seq<WNode>, toSend: int, i: nat)
    requires TailOnlyUnsent(live, toSend) && i < |live| && live[i].sent
    ensures TailOnlyUnsent(live[i + 1..], toSend)
    ensures i + 1 < |live| ==> live[i + 1..][|live| - i - 2] == live[|live| - 1]
    ensures i + 1 == |live| ==> toSend <= 0
  {
    var live' := live[i + 1..];
    forall k | 0 <= k < |live'| ensures GoodAt(live', toSend, k) {
      assert GoodAt(live, toSend, i + 1 + k) && live'[k] == live[i + 1 + k];
    }
  }

  lemma ListAcked(live: seq<WNode>, rest: seq<Byte>, toSend: int, m: seq<Byte>, s0: nat, from: nat, i: nat)
    requires Listing(live, rest, toSend, m, s0, from) && i < |live| && live[i].sent
    ensures Listing(live[i + 1..], rest, toSend, m, s0, live[i].expectedAck)
    ensures Unsent(live[i + 1..], toSend, live[i].expectedAck) == Unsent(live, toSend, from)
    ensures s0 < live[i].expectedAck <= s0 + |m|
  {
    LinkedSuffix(live, m, s0, from, s0 + |m| - |rest|, i);
    assert Carries(live[i], m, s0);
    TailOnlyRest(live, toSend, i);
  }

  lemma CoveredAck(live: seq<WNode>, rest: seq<Byte>, m: seq<Byte>, s0: nat, unacked: map<nat, nat>, from: nat, i: nat)
    requires |rest| <= |m| && Linked(live, m, s0, from, s0 + |m| - |rest|) && Covered(live, unacked, from)
    requires i < |live| && live[i].expectedAck >= from
    ensures Covered(live[i + 1..], unacked[live[i].expectedAck := 1], live[i].expectedAck)
  {
    var num := live[i].expectedAck;
    var live' := live[i + 1..];
    var u := unacked[num := 1];
    forall a | a in u && a > num ensures exists k :: 0 <= k < |live'| && AckedAt(live', k, a) {
      var k :| 0 <= k < |live| && AckedAt(live, k, a);
      if k <= i {
        LinkedOrder(live, m, s0, from, s0 + |m| - |rest|, k, i);
      }
      assert AckedAt(live', k - i - 1, a);
    }
  }

  lemma DropDummy(nodes: seq<WNode>, num: nat)
    requires nodes != [] && nodes[0] == Dummy
    ensures DropAcked(nodes, num) == DropAcked(nodes[1..], num)
  {
  }

  /** A new acknowledgement belongs to a sent node of the list and cuts the list behind it. */
  lemma AckCut(tx: Tx, sl: Slide, m: seq<Byte>, s0: nat, num: nat) returns (i: nat)
    requires Conserved(tx, sl, m, s0) && Known(tx, num) && num > tx.cumUna
    ensures i < |Live(sl)| && Live(sl)[i].sent && Live(sl)[i].expectedAck == num
    ensures DropAcked(sl.nodes, num) == Live(sl)[i + 1..]
  {
    var live := Live(sl);
    i :| 0 <= i < |live| && AckedAt(live, i, num);
    DropLinked(live, m, s0, tx.cumUna, s0 + |m| - |sl.rest|, i);
    if sl.bytesSent == 0 {
      DropDummy(sl.nodes, num);
    }
  }

  lemma AckConserved(tx: Tx, sl: Slide, m: seq<Byte>, s0: nat, num: nat, window: nat)
    requires Conserved(tx, sl, m, s0) && Known(tx, num)
    ensures Conserved(AckTx(tx, num, window), AckSlide(tx, sl, num), m, s0)
  {
    if FirstSeen(tx, num) {
      if num > tx.cumUna {
        var i := AckCut(tx, sl, m, s0, num);
        var live := Live(sl);
        ListAcked(live, sl.rest, sl.toSend, m, s0, tx.cumUna, i);
        CoveredAck(live, sl.rest, m, s0, tx.unacked, tx.cumUna, i);
        assert Live(AckSlide(tx, sl, num)) == live[i + 1..];
      }
    }
  }

  lemma ListResent(live: seq<WNode>, rest: seq<Byte>, toSend: int, m: seq<Byte>, s0: nat, from: nat, unacked: map<nat, nat>, n: WNode)
    requires Listing(live, rest, toSend, m, s0, from) && Covered(live, unacked, from)
    requires live != [] && live[0].sent && n == live[0].(retrans := true, copies := live[0].copies + 1)
    ensures Listing(live[0 := n], rest, toSend, m, s0, from) && Covered(live[0 := n], unacked, from)
    ensures Unsent(live[0 := n], toSend, from) == Unsent(live, toSend, from)
  {
    LinkedMark(live, m, s0, from, s0 + |m| - |rest|, 0, n);
    assert GoodAt(live, toSend, 0);
    var live' := live[0 := n];
    forall i | 0 <= i < |live'| ensures GoodAt(live', toSend, i) {
      assert GoodAt(live, toSend, i);
    }
    forall a | a in unacked && a > from ensures exists i :: 0 <= i < |live'| && AckedAt(live', i, a) {
      var i :| 0 <= i < |live| && AckedAt(live, i, a);
      assert AckedAt(live', i, a);
    }
  }

  /** The timer resends the oldest unacknowledged segment, and only after its first transmission. */
  lemma ResendConserved(tx: Tx, sl: Slide, m: seq<Byte>, s0: nat)
    requires Conserved(tx, sl, m, s0) && CanResend(tx, sl)
    ensures Conserved(tx, ResendSlide(sl), m, s0)
    ensures Live(sl) != [] && sl.nodes[Oldest(sl)] == Live(sl)[0] && Live(sl)[0].seqNum == tx.cumUna && Live(sl)[0].copies >= 1
  {
    var live := Live(sl);
    assert live != [] ==> Carries(live[0], m, s0);
    assert sl.nodes[Oldest(sl)] == live[0];
    var n := live[0].(retrans := true, copies := live[0].copies + 1);
    ListResent(live, sl.rest, sl.toSend, m, s0, tx.cumUna, tx.unacked, n);
    assert Live(ResendSlide(sl)) == live[0 := n];
    assert GoodAt(live, sl.toSend, 0);
  }

  /** Karn's rule: every segment whose round trip is measured was transmitted exactly once. */
  lemma TimedOnce(tx: Tx, sl: Slide, m: seq<Byte>, s0: nat, num: nat)
    requires Conserved(tx, sl, m, s0) && Known(tx, num)
    ensures forall n :: n in Timed(tx, sl, num) ==> n.copies == 1 && n.expectedAck <= num
  {
    if FirstSeen(tx, num) && num > tx.cumUna {
      var i := AckCut(tx, sl, m, s0, num);
      var live := Live(sl);
      var gone := sl.nodes[..|sl.nodes| - |DropAcked(sl.nodes, num)|];
      forall n | n in SentOnce(gone) ensures n.copies == 1 && n.expectedAck <= num {
        assert n in gone;
        var k :| 0 <= k < |gone| && gone[k] == n;
        var j := if sl.bytesSent == 0 then k - 1 else k;
        assert n != Dummy;
        assert live[j] == n && j <= i;
        assert GoodAt(live, sl.toSend, j);
        LinkedOrder(live, m, s0, tx.cumUna, s0 + |m| - |sl.rest|, j, i);
      }
    }
  }

  // ---------- Any interleaving of the send loop, the receiver and the timer ----------

  /** One atomic action on the window: the loop sends or takes an acknowledgement, the receiver
      thread stores the peer's window, the timer resends. */
  datatype Action = DoSend | DoAck(num: nat, window: nat) | DoWindow(window: nat) | DoResend

  ghost predicate Enabled(tx: Tx, sl: Slide, a: Action) {
    match a
    case DoSend => CanSend(tx, sl) && !tx.locked
    case DoAck(num, _) => num in tx.unacked && !tx.locked
    case DoWindow(w) => w < WINDOW_SIZE
    case DoResend => CanResend(tx, sl)
  }

  ghost function NextTx(tx: Tx, sl: Slide, a: Action): (tx': Tx)
    requires Enabled(tx, sl, a)
  {
    match a
    case DoSend => SendTx(tx, sl)
    case DoAck(num, window) => AckTx(tx, num, window)
    case DoWindow(w) => tx.(cws := w)
    case DoResend => tx
  }

  ghost function NextSlide(tx: Tx, sl: Slide, a: Action): (sl': Slide)
    requires Enabled(tx, sl, a)
  {
    match a
    case DoSend => SendSlide(tx, sl)
    case DoAck(num, _) => AckSlide(tx, sl, num)
    case DoWindow(_) => sl
    case DoResend => ResendSlide(sl)
  }

  /** The segment put on the wire by an action. */
  ghost function Transmits(tx: Tx, sl: Slide, a: Action): (n: WNode)
    requires Enabled(tx, sl, a) && (a.DoSend? || a.DoResend?)
  {
    if a.DoSend? then Tail(sl) else sl.nodes[Oldest(sl)]
  }

  ghost predicate WindowRun(txs: seq<Tx>, sls: seq<Slide>, actions: seq<Action>) {
    && |txs| == |sls| == |actions| + 1
    && forall i :: 0 <= i < |actions| ==>
         && Enabled(txs[i], sls[i], actions[i])
         && txs[i + 1] == NextTx(txs[i], sls[i], actions[i])
         && sls[i + 1] == NextSlide(txs[i], sls[i], actions[i])
  }

  lemma ActionConserved(tx: Tx, sl: Slide, m: seq<Byte>, s0: nat, a: Action)
    requires Conserved(tx, sl, m, s0) && Enabled(tx, sl, a)
    ensures Conserved(NextTx(tx, sl, a), NextSlide(tx, sl, a), m, s0)
    ensures a.DoSend? || a.DoResend? ==> Carries(Transmits(tx, sl, a), m, s0)
    ensures a.DoResend? ==> Transmits(tx, sl, a).copies >= 1
    ensures a.DoSend? ==> Transmits(tx, sl, a).copies == 0
  {
    match a
    case DoSend =>
      SendConserved(tx, sl, m, s0);
      TailOf(tx, sl, m, s0);
      assert GoodAt(Live(sl), sl.toSend, |Live(sl)| - 1);
    case DoAck(num, window) =>
      AckConserved(tx, sl, m, s0, num, window);
    case DoWindow(_) =>
    case DoResend =>
      ResendConserved(tx, sl, m, s0);
      assert Carries(Live(sl)[0], m, s0);
  }

  /**
   The message is conserved at every point of every interleaving: acknowledged prefix,
   listed payloads and rest are the message; every transmission carries the message's own
   bytes, and only segments that were sent before are resent; the window closes only with
   everything acknowledged and UNA equal to NXT.
   */
  lemma {:induction false} EveryInterleavingConserves(txs: seq<Tx>, sls: seq<Slide>, actions: seq<Action>, m: seq<Byte>, i: nat)
    requires WindowRun(txs, sls, actions) && i < |txs|
    requires 0 < |m| < WINDOW_SIZE && txs[0].cws > 0 && txs[0].base < txs[0].cumUna && txs[0].cumUna + |m| < UINT32
    requires txs[0].una == Dist(txs[0].cumUna, txs[0].base) && txs[0].nxt == txs[0].una
    requires forall a :: a in txs[0].unacked ==> a <= txs[0].cumUna
    requires sls[0] == Open(txs[0], m)
    ensures Conserved(txs[i], sls[i], m, txs[0].cumUna)
    ensures m == m[..sls[i].bytesSent] + Payloads(Live(sls[i])) + sls[i].rest
    ensures sls[i].bytesSent == |m| ==> sls[i].nodes == [] && txs[i].una == txs[i].nxt && txs[i].cumUna == txs[0].cumUna + |m|
    ensures i < |actions| && (actions[i].DoSend? || actions[i].DoResend?) ==>
              Carries(Transmits(txs[i], sls[i], actions[i]), m, txs[0].cumUna)
    ensures i < |actions| && actions[i].DoSend? ==> Transmits(txs[i], sls[i], actions[i]).copies == 0
    ensures i < |actions| && actions[i].DoResend? ==> Transmits(txs[i], sls[i], actions[i]).copies >= 1
    ensures i < |actions| && actions[i].DoAck? ==>
              forall n :: n in Timed(txs[i], sls[i], actions[i].num) ==> n.copies == 1
  {
    if i == 0 {
      OpenConserved(txs[0], m);
    } else {
      EveryInterleavingConserves(txs, sls, actions, m, i - 1);
      ActionConserved(txs[i - 1], sls[i - 1], m, txs[0].cumUna, actions[i - 1]);
    }
    Conservation(txs[i], sls[i], m, txs[0].cumUna);
    if i < |actions| {
      ActionConserved(txs[i], sls[i], m, txs[0].cumUna, actions[i]);
      if actions[i].DoAck? {
        TimedOnce(txs[i], sls[i], m, txs[0].cumUna, actions[i].num);
      }
    }
  }
}
