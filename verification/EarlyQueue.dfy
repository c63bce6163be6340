/**
 The early-arrival queue: a binary min-heap on sequence numbers, as the heap package
 drives the queue's Less, Swap, Push and Pop.
 */
module EarlyQueues {
  import opened Ring

  datatype EarlyPacket = EarlyPacket(priority: nat, fin: bool, payload: seq<Byte>)

  function Parent(i: nat): (p: nat)
    requires i >= 1
    ensures p < i && (i == 2 * p + 1 || i == 2 * p + 2)
  {
    (i - 1) / 2
  }

  /** Slot i is not before its parent. */
  ghost predicate Above(s: seq<EarlyPacket>, i: nat)
    requires 1 <= i < |s|
  {
    s[Parent(i)].priority <= s[i].priority
  }

  /** If slot i is a child of slot j, it is not before j's parent. */
  ghost predicate AboveNext(s: seq<EarlyPacket>, i: nat, j: nat)
    requires 1 <= i < |s|
  {
    1 <= j && Parent(i) == j ==> s[Parent(j)].priority <= s[i].priority
  }

  /** Heap order on the first n slots, except between slot j and its parent. */
  ghost predicate HeapBut(s: seq<EarlyPacket>, n: nat, j: nat)
    requires n <= |s|
  {
    && (forall i {:trigger Above(s, i)} :: 1 <= i < n && i != j ==> Above(s, i))
    && (forall i {:trigger AboveNext(s, i, j)} :: 1 <= i < n ==> AboveNext(s, i, j))
  }

  /** Heap order on the first n slots, except between slot j and its children. */
  ghost predicate HeapBelow(s: seq<EarlyPacket>, n: nat, j: nat)
    requires n <= |s|
  {
    && (forall i {:trigger Above(s, i)} :: 1 <= i < n && Parent(i) != j ==> Above(s, i))
    && (forall i {:trigger AboveNext(s, i, j)} :: 1 <= i < n ==> AboveNext(s, i, j))
  }

  ghost predicate IsHeap(s: seq<EarlyPacket>) {
    forall i :: 1 <= i < |s| ==> Above(s, i)
  }

  lemma {:induction false} RootIsLeast(s: seq<EarlyPacket>, i: nat)
    requires IsHeap(s) && i < |s|
    ensures s[0].priority <= s[i].priority
  {
    if i > 0 {
      RootIsLeast(s, Parent(i));
      assert Above(s, i);
    }
  }

  function Swapped(s: seq<EarlyPacket>, i: nat, j: nat): (r: seq<EarlyPacket>)
    requires i < |s| && j < |s|
    ensures |r| == |s| && r[i] == s[j] && r[j] == s[i]
    ensures forall k :: 0 <= k < |s| && k != i && k != j ==> r[k] == s[k]
  {
    s[i := s[j]][j := s[i]]
  }

  lemma SwappedMultiset(s: seq<EarlyPacket>, i: nat, j: nat)
    requires i < |s| && j < |s|
    ensures multiset(Swapped(s, i, j)) == multiset(s)
  {
  }

  /** One step up: the out-of-place element moves to its parent's slot. */
  lemma SwapUp(s: seq<EarlyPacket>, j: nat)
    requires 1 <= j < |s| && HeapBut(s, |s|, j) && s[j].priority < s[Parent(j)].priority
    ensures HeapBut(Swapped(s, Parent(j), j), |s|, Parent(j))
  {
    var p := Parent(j);
    var t := Swapped(s, p, j);
    forall i | 1 <= i < |t| && i != p ensures Above(t, i) {
      assert AboveNext(s, i, j) && (i != j ==> Above(s, i));
    }
    forall i | 1 <= i < |t| ensures AboveNext(t, i, p) {
      assert (p >= 1 ==> Above(s, p)) && (i != j ==> Above(s, i));
    }
  }

  /** c is the lesser child of j among the first n slots. */
  ghost predicate LesserChild(s: seq<EarlyPacket>, n: nat, j: nat, c: nat) {
    && n <= |s| && j < c < n && Parent(c) == j
    && forall i :: 1 <= i < n && Parent(i) == j ==> s[c].priority <= s[i].priority
  }

  lemma ChooseChild(s: seq<EarlyPacket>, n: nat, j: nat)
    requires n <= |s| && 2 * j + 1 < n
    ensures LesserChild(s, n, j, if 2 * j + 2 < n && s[2 * j + 2].priority < s[2 * j + 1].priority then 2 * j + 2 else 2 * j + 1)
  {
  }

  /** One step down: the out-of-place element changes places with its lesser child c. */
  lemma SwapDown(s: seq<EarlyPacket>, n: nat, j: nat, c: nat)
    requires LesserChild(s, n, j, c) && HeapBelow(s, n, j) && s[c].priority < s[j].priority
    ensures HeapBelow(Swapped(s, j, c), n, c)
  {
    var t := Swapped(s, j, c);
    forall i | 1 <= i < n && Parent(i) != c ensures Above(t, i) {
      assert AboveNext(s, c, j) && (Parent(i) != j ==> Above(s, i));
    }
    forall i | 1 <= i < n ensures AboveNext(t, i, c) {
      assert Parent(i) != j ==> Above(s, i);
    }
  }

  class EarlyPriorityQueue {
    var items: seq<EarlyPacket>

    constructor ()
      ensures items == []
    {
      items := [];
    }

    predicate Less(i: nat, j: nat)
      requires i < |items| && j < |items|
      reads this
    {
      items[i].priority < items[j].priority
    }

    method Swap(i: nat, j: nat)
      requires i < |items| && j < |items|
      modifies this
      ensures items == Swapped(old(items), i, j)
    {
      items := items[i := items[j]][j := items[i]];
    }

    /** heap.Push: append, then move up while less than the parent. */
    method HeapPush(x: EarlyPacket)
      requires IsHeap(items)
      modifies this
      ensures IsHeap(items) && multiset(items) == old(multiset(items)) + multiset{x}
    {
      items := items + [x];
      assert forall k :: 1 <= k < |items| && k != |items| - 1 ==> Above(items, k) by {
        forall k | 1 <= k < |items| && k != |items| - 1 ensures Above(items, k) {
          assert Above(old(items), k);
        }
      }
      var j: nat := |items| - 1;
      while j > 0 && Less(j, Parent(j))
        invariant j < |items| && HeapBut(items, |items|, j)
        invariant multiset(items) == old(multiset(items)) + multiset{x}
        decreases j
      {
        SwapUp(items, j);
        SwappedMultiset(items, Parent(j), j);
        Swap(Parent(j), j);
        j := Parent(j);
      }
    }

    /** One round of heap.down at slot i: stops, or moves on to the lesser child. */
    method DownOnce(n: nat, i: nat) returns (j: nat, done: bool)
      requires |items| == n + 1 && 2 * i + 1 < n && HeapBelow(items, n, i)
      modifies this
      ensures |items| == n + 1 && i < j < n && items[n] == old(items[n]) && multiset(items) == old(multiset(items))
      ensures if done then IsHeap(items[..n]) else HeapBelow(items, n, j)
    {
      j := 2 * i + 1;
      if j + 1 < n && Less(j + 1, j) {
        j := j + 1;
      }
      ChooseChild(items, n, i);
      done := !Less(j, i);
      if done {
        Settled(items, n, i, j);
      } else {
        SwapDown(items, n, i, j);
        SwappedMultiset(items, i, j);
        Swap(i, j);
      }
    }

    /** heap.down from the root on the first n slots. */
    method Down(n: nat)
      requires |items| == n + 1 && HeapBelow(items, n, 0)
      modifies this
      ensures |items| == n + 1 && IsHeap(items[..n]) && items[n] == old(items[n])
      ensures multiset(items) == old(multiset(items))
    {
      var i: nat := 0;
      while 2 * i + 1 < n
        invariant i <= n && |items| == n + 1 && HeapBelow(items, n, i)
        invariant items[n] == old(items[n]) && multiset(items) == old(multiset(items))
        decreases n - i
      {
        var j, done := DownOnce(n, i);
        if done {
          return;
        }
        i := j;
      }
      Bottom(items, n, i);
    }

    /** heap.Pop: the root changes places with the last slot, moves down, and the last slot is cut off. */
    method HeapPop() returns (x: EarlyPacket)
      requires IsHeap(items) && items != []
      modifies this
      ensures IsHeap(items) && x == old(items[0]) && multiset(items) == old(multiset(items)) - multiset{x}
    {
      var n := |items| - 1;
      SwappedMultiset(items, 0, n);
      Swap(0, n);
      forall i | 1 <= i < n && Parent(i) != 0 ensures Above(items, i) {
        assert Above(old(items), i);
      }
      Down(n);
      x := items[n];
      assert items == items[..n] + [x];
      items := items[..n];
    }
  }

  lemma Settled(s: seq<EarlyPacket>, n: nat, i: nat, j: nat)
    requires |s| == n + 1 && LesserChild(s, n, i, j) && HeapBelow(s, n, i) && s[i].priority <= s[j].priority
    ensures IsHeap(s[..n])
  {
    forall k | 1 <= k < n ensures Above(s[..n], k) {
      assert Parent(k) != i ==> Above(s, k);
    }
  }

  lemma Bottom(s: seq<EarlyPacket>, n: nat, i: nat)
    requires |s| == n + 1 && HeapBelow(s, n, i) && 2 * i + 1 >= n
    ensures IsHeap(s[..n])
  {
    forall k | 1 <= k < n ensures Above(s[..n], k) {
      assert Above(s, k);
    }
  }
}
