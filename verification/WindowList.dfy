/**
 The sliding window as it is kept in memory: a linked list of nodes with a dummy head,
 appended at the tail and trimmed at the head, beside the socket's fields.  Each
 operation is the corresponding function of SlidingWindows on the list's value.
 */
module WindowLists {
  import opened Ring
  import opened SlidingWindows

  class WindowNode {
    const seqNum: nat
    const payload: seq<Byte>
    const expectedAck: nat
    const index: nat
    const payloadIndex: nat
    var next: WindowNode?
    var sent: bool
    var retrans: bool
    ghost var copies: nat

    constructor (seqNum: nat, payload: seq<Byte>, expectedAck: nat, index: nat, payloadIndex: nat, next: WindowNode?)
      ensures this.next == next
      ensures Value() == WNode(seqNum, payload, expectedAck, index, payloadIndex, false, false, 0)
    {
      this.seqNum, this.payload, this.expectedAck := seqNum, payload, expectedAck;
      this.index, this.payloadIndex, this.next := index, payloadIndex, next;
      sent, retrans, copies := false, false, 0;
    }

    ghost function Value(): (n: WNode)
      reads this
    {
      WNode(seqNum, payload, expectedAck, index, payloadIndex, sent, retrans, copies)
    }
  }

  class Window {
    var head: WindowNode?
    var tail: WindowNode
    ghost var spine: seq<WindowNode>

    ghost predicate Valid()
      reads this, spine
    {
      && (if spine == [] then head == null else head == spine[0] && tail == spine[|spine| - 1] && tail.next == null)
      && (forall i :: 0 <= i < |spine| - 1 ==> Next(i))
      && (forall i, j :: 0 <= i < j < |spine| ==> spine[i] != spine[j])
    }

    ghost predicate Next(i: nat)
      requires i + 1 < |spine|
      reads this, spine
    {
      spine[i].next == spine[i + 1]
    }

    ghost function Values(): (r: seq<WNode>)
      reads this, spine
      ensures |r| == |spine|
    {
      seq(|spine|, i requires 0 <= i < |spine| reads this, spine => spine[i].Value())
    }

    /** A dummy head followed by the first segment. */
    constructor (first: WindowNode)
      requires first.next == null
      ensures Valid() && fresh(set n | n in spine && n != first)
      ensures Values() == [Dummy, first.Value()] && spine[1] == first
    {
      var dummy := new WindowNode(0, [], 0, 0, 0, first);
      head := dummy;
      tail := first;
      spine := [dummy, first];
    }

    method MarkTailSent()
      requires Valid() && spine != []
      modifies tail
      ensures Valid() && spine == old(spine)
      ensures var t := old(Values())[|spine| - 1];
              Values() == old(Values())[|spine| - 1 := t.(sent := true, retrans := false, copies := t.copies + 1)]
    {
      tail.sent, tail.retrans := true, false;
      tail.copies := tail.copies + 1;
      assert forall i :: 0 <= i < |spine| - 1 ==> old(Next(i)) ==> Next(i);
    }

    method Append(n: WindowNode)
      requires Valid() && spine != [] && n !in spine && n.next == null
      modifies this, tail
      ensures Valid() && spine == old(spine) + [n]
      ensures Values() == old(Values()) + [n.Value()]
    {
      ghost var before := spine;
      tail.next := n;
      tail := n;
      spine := spine + [n];
      forall i | 0 <= i < |spine| - 1 ensures Next(i) {
        assert i < |before| - 1 ==> old(Next(i));
        assert i < |before| - 1 ==> spine[i] == before[i] && spine[i + 1] == before[i + 1] && before[i] != before[|before| - 1];
      }
    }

    method PopHead()
      requires Valid() && head != null
      modifies this`head, this`spine
      ensures Valid() && spine == old(spine)[1..] && Values() == old(Values())[1..]
    {
      assert |spine| > 1 ==> Next(0);
      head := head.next;
      spine := spine[1..];
      forall i | 0 <= i < |spine| - 1 ensures Next(i) {
        assert old(Next(i + 1));
      }
    }

    /** Trims from the head while the acknowledgement covers it. */
    method Shrink(num: nat)
      requires Valid()
      modifies this`head, this`spine
      ensures Valid() && |spine| <= |old(spine)| && spine == old(spine)[|old(spine)| - |spine|..]
      ensures Values() == DropAcked(old(Values()), num)
    {
      ghost var k := 0;
      while head != null && head.expectedAck <= num
        invariant Valid() && k <= |old(spine)| && spine == old(spine)[k..]
        invariant DropAcked(Values(), num) == DropAcked(old(Values()), num)
        decreases |spine|
      {
        PopHead();
        k := k + 1;
      }
    }

    /** The oldest segment behind the dummy head is marked as retransmitted, if it was sent at all. */
    method ResendOldest() returns (out: WindowNode?)
      requires Valid()
      modifies spine
      ensures Valid() && spine == old(spine)
      ensures var i := if spine != [] && old(spine[0].Value()).expectedAck == 0 then 1 else 0;
              if i < |spine| && old(spine[i].sent) then
                && out == spine[i]
                && Values() == old(Values())[i := old(Values())[i].(retrans := true, copies := old(Values())[i].copies + 1)]
              else out == null && Values() == old(Values())
    {
      out := null;
      if head != null {
        assert |spine| > 1 ==> Next(0);
        var n := if head.expectedAck != 0 then head else head.next;
        if n != null {
          if n.sent {
            n.retrans := true;
            n.copies := n.copies + 1;
            out := n;
          }
        }
        assert forall i :: 0 <= i < |spine| - 1 ==> old(Next(i)) ==> Next(i);
      }
    }
  }

  lemma SentValue(tx: Tx, sl: Slide, marked: seq<WNode>, sl': Slide)
    requires sl.toSend > 0 && sl.nodes != []
    requires var t := Tail(sl); marked == sl.nodes[|sl.nodes| - 1 := t.(sent := true, retrans := false, copies := t.copies + 1)]
    requires var t := marked[|marked| - 1];
             var k := Min(Min(MSS, sl.size - t.payloadIndex), |sl.rest|);
             && sl'.size == sl.size && sl'.bytesSent == sl.bytesSent && sl'.toSend == k
             && sl'.rest == (if k > 0 then sl.rest[k..] else sl.rest)
             && sl'.nodes == marked +
                  (if k > 0 then [WNode(NewAck(tx, sl), sl.rest[..k], (NewAck(tx, sl) + k) % UINT32, t.index + 1,
                                        (t.payloadIndex + MSS) % WINDOW_SIZE, false, false, 0)] else [])
    ensures sl' == SendSlide(tx, sl)
  {
  }

  /** The socket's sender fields with the window of the message being sent. */
  class SendSocket {
    var una: nat
    var nxt: nat
    var cumUna: nat
    var base: nat
    var cws: nat
    var unacked: map<nat, nat>
    var locked: bool
    var size: nat
    var rest: seq<Byte>
    var toSend: int
    var bytesSent: nat
    var window: Window

    ghost predicate Valid()
      reads this, window, window.spine
    {
      window.Valid()
    }

    ghost function AbsTx(): (tx: Tx)
      reads this
    {
      Tx(una, nxt, cumUna, base, cws, unacked, locked)
    }

    ghost function AbsSlide(): (sl: Slide)
      reads this, window, window.spine
    {
      Slide(size, rest, toSend, bytesSent, window.Values())
    }

    /** Start of slidingWindow for one message. */
    constructor (una: nat, nxt: nat, cumUna: nat, base: nat, cws: nat, unacked: map<nat, nat>, payload: seq<Byte>)
      ensures Valid() && AbsTx() == Tx(una, nxt, cumUna, base, cws, unacked, false)
      ensures AbsSlide() == Open(AbsTx(), payload)
    {
      this.una, this.nxt, this.cumUna, this.base, this.cws, this.unacked, this.locked := una, nxt, cumUna, base, cws, unacked, false;
      var k := Min(Min(MSS, |payload|), cws);
      var dist := (nxt - una + WINDOW_SIZE) % WINDOW_SIZE;
      assert dist == Dist(nxt, una);
      var first := new WindowNode(cumUna, payload[..k], (dist + cumUna + k) % UINT32, 0, 0, null);
      size, rest, toSend, bytesSent := |payload|, payload[k..], k, 0;
      window := new Window(first);
    }

    /** Allocates the next segment behind the tail while bytes are left. */
    method AllocateNext(expectedAck: nat)
      requires Valid() && window.spine != []
      modifies this`rest, this`toSend, window, window.tail
      ensures Valid() && window == old(window)
      ensures var t := old(window.Values())[|old(window.spine)| - 1];
              var k := Min(Min(MSS, size - t.payloadIndex), |old(rest)|);
              && toSend == k
              && rest == (if k > 0 then old(rest)[k..] else old(rest))
              && window.Values() == old(window.Values()) +
                   (if k > 0 then [WNode(expectedAck, old(rest)[..k], (expectedAck + k) % UINT32, t.index + 1,
                                         (t.payloadIndex + MSS) % WINDOW_SIZE, false, false, 0)] else [])
    {
      var tail := window.tail;
      toSend := Min(Min(MSS, size - tail.payloadIndex), |rest|);
      if toSend > 0 {
        var next := new WindowNode(expectedAck, rest[..toSend], (expectedAck + toSend) % UINT32,
                                   tail.index + 1, (tail.payloadIndex + MSS) % WINDOW_SIZE, null);
        rest := rest[toSend..];
        window.Append(next);
      }
    }

    /** Moves NXT, registers the expected acknowledgement and puts the tail on the wire. */
    method TransmitTail() returns (expectedAck: nat)
      requires Valid() && Enabled(AbsTx(), AbsSlide(), DoSend)
      modifies this`nxt, this`unacked, this`cws, window.tail
      ensures Valid() && window == old(window) && window.spine == old(window.spine)
      ensures AbsTx() == old(SendTx(AbsTx(), AbsSlide())) && expectedAck == old(NewAck(AbsTx(), AbsSlide()))
      ensures var t := old(Tail(AbsSlide()));
              window.Values() == old(window.Values())[|window.spine| - 1 := t.(sent := true, retrans := false, copies := t.copies + 1)]
    {
      ghost var tx, sl := AbsTx(), AbsSlide();
      assert window.tail.Value() == Tail(sl);
      nxt := (nxt + toSend) % WINDOW_SIZE;
      expectedAck := ((nxt - una + WINDOW_SIZE) % WINDOW_SIZE + cumUna) % UINT32;
      assert nxt == NewNxt(tx, sl) && expectedAck == NewAck(tx, sl);
      unacked := unacked[expectedAck := 0];
      cws := (cws - |window.tail.payload|) % WINDOW_SIZE;
      assert AbsTx() == SendTx(tx, sl);
      window.MarkTailSent();
    }

    /** One pass through the sending branch of the loop. */
    method Send() returns (seqNum: nat, payload: seq<Byte>)
      requires Valid() && Enabled(AbsTx(), AbsSlide(), DoSend)
      modifies this, window, window.tail
      ensures Valid() && window == old(window)
      ensures AbsTx() == old(SendTx(AbsTx(), AbsSlide())) && AbsSlide() == old(SendSlide(AbsTx(), AbsSlide()))
      ensures seqNum == old(Tail(AbsSlide())).seqNum && payload == old(Tail(AbsSlide())).payload
    {
      ghost var tx, sl := AbsTx(), AbsSlide();
      seqNum, payload := window.tail.seqNum, window.tail.payload;
      var expectedAck := TransmitTail();
      ghost var marked := window.Values();
      AllocateNext(expectedAck);
      SentValue(tx, sl, marked, AbsSlide());
    }

    /** One acknowledgement drained from the channel. */
    method TakeAck(num: nat, windowSize: nat)
      requires Valid() && Enabled(AbsTx(), AbsSlide(), DoAck(num, windowSize))
      modifies this, window
      ensures Valid() && window == old(window)
      ensures AbsTx() == old(AckTx(AbsTx(), num, windowSize)) && AbsSlide() == old(AckSlide(AbsTx(), AbsSlide(), num))
    {
      ghost var values := window.Values();
      var news := TakeNumbers(num, windowSize);
      assert window.Values() == values;
      if news {
        window.Shrink(num);
      }
    }

    /** The numbers of an acknowledgement; `news` if it is ahead of everything acknowledged so far. */
    method TakeNumbers(num: nat, windowSize: nat) returns (news: bool)
      modifies this`unacked, this`cws, this`locked, this`bytesSent, this`cumUna, this`una
      ensures AbsTx() == old(AckTx(AbsTx(), num, windowSize))
      ensures news == old(FirstSeen(AbsTx(), num) && num > cumUna)
      ensures bytesSent == old(bytesSent) + if news then num - old(cumUna) else 0
    {
      news := false;
      if num !in unacked || unacked[num] == 0 {
        unacked := unacked[num := 1];
        cws := windowSize;
        if num > cumUna {
          news := true;
          bytesSent := bytesSent + (num - cumUna);
          cumUna := num;
          una := (cumUna - base + WINDOW_SIZE) % WINDOW_SIZE;
        }
      } else {
        locked := true;
      }
    }

    /** The retransmission timer fires. */
    method Timeout() returns (out: WindowNode?)
      requires Valid() && cws > 0
      modifies window.spine
      ensures Valid() && window.spine == old(window.spine)
      ensures if old(CanResend(AbsTx(), AbsSlide())) then
                && out != null && AbsSlide() == old(ResendSlide(AbsSlide()))
                && out.seqNum == old(AbsSlide().nodes[Oldest(AbsSlide())]).seqNum && out.payload == old(AbsSlide().nodes[Oldest(AbsSlide())]).payload
              else out == null && AbsSlide() == old(AbsSlide())
    {
      out := window.ResendOldest();
    }
  }
}
