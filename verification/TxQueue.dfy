/** The two transaction heaps of txpool/queue.go: promoted and enqueued queues ordered by nonce, and the queue
    of executables ordered by price, as binary heaps with the sifting of container/heap. */
module TxQueue {
  import opened Common

  datatype Tx = Tx(hash: nat, from: nat, nonce: nat, gasPrice: nat, gas: nat, size: nat)

  datatype Order = ByNonce | ByPrice

  /** minNonceQueue.Less and maxPriceQueue.Less; the latter compares the low 64 bits of the prices. */
  predicate Less(ord: Order, a: Tx, b: Tx) {
    match ord
    case ByNonce => if a.nonce == b.nonce then a.gasPrice > b.gasPrice else a.nonce < b.nonce
    case ByPrice => a.gasPrice % U64 > b.gasPrice % U64
  }

  predicate AtMost(ord: Order, a: Tx, b: Tx) {
    !Less(ord, b, a)
  }

  function Parent(i: nat): nat
    requires 0 < i
  {
    (i - 1) / 2
  }

  ghost predicate IsHeap(ord: Order, s: seq<Tx>) {
    forall i :: 0 < i < |s| ==> AtMost(ord, s[Parent(i)], s[i])
  }

  /** The first transaction of a heap is one that nothing in it precedes. */
  lemma {:induction false} HeadIsFirst(ord: Order, s: seq<Tx>, i: nat)
    requires IsHeap(ord, s) && i < |s|
    ensures AtMost(ord, s[0], s[i])
    decreases i
  {
    if i > 0 {
      HeadIsFirst(ord, s, Parent(i));
      assert AtMost(ord, s[Parent(i)], s[i]);
    }
  }

  lemma {:induction false} HeadPrecedesAll(ord: Order, s: seq<Tx>)
    requires IsHeap(ord, s) && s != []
    ensures forall t :: t in s ==> AtMost(ord, s[0], t)
  {
    forall t | t in s ensures AtMost(ord, s[0], t) {
      var i :| 0 <= i < |s| && s[i] == t;
      HeadIsFirst(ord, s, i);
    }
  }

  function Swap(s: seq<Tx>, i: nat, j: nat): (r: seq<Tx>)
    requires i < |s| && j < |s|
    ensures |r| == |s| && multiset(r) == multiset(s)
  {
    SwapSame(s, i, j);
    s[i := s[j]][j := s[i]]
  }

  lemma {:induction false} SwapSame(s: seq<Tx>, i: nat, j: nat)
    requires i < |s| && j < |s|
    ensures multiset(s[i := s[j]][j := s[i]]) == multiset(s)
  {
    assert multiset(s[i := s[j]]) == multiset(s) - multiset{s[i]} + multiset{s[j]};
  }

  /** A heap but for the entry at `i`, which may precede its parent. */
  ghost predicate HeapButUp(ord: Order, s: seq<Tx>, i: nat) {
    && i < |s|
    && (forall j :: 0 < j < |s| && j != i ==> AtMost(ord, s[Parent(j)], s[j]))
    && (forall j :: 0 < j < |s| && Parent(j) == i && 0 < i ==> AtMost(ord, s[Parent(i)], s[j]))
  }

  function Up(ord: Order, s: seq<Tx>, i: nat): (r: seq<Tx>)
    requires i < |s|
    ensures |r| == |s| && multiset(r) == multiset(s)
    decreases i
  {
    if i == 0 || !Less(ord, s[i], s[Parent(i)]) then s
    else Up(ord, Swap(s, i, Parent(i)), Parent(i))
  }

  lemma {:induction false} UpRestores(ord: Order, s: seq<Tx>, i: nat)
    requires HeapButUp(ord, s, i)
    ensures IsHeap(ord, Up(ord, s, i))
    decreases i
  {
    if i == 0 || !Less(ord, s[i], s[Parent(i)]) {
      forall j | 0 < j < |s| ensures AtMost(ord, s[Parent(j)], s[j]) {}
    } else {
      var p := Parent(i);
      var r := Swap(s, i, p);
      forall j | 0 < j < |r| && j != p ensures AtMost(ord, r[Parent(j)], r[j]) {
        if j == i {
        } else if Parent(j) == i {
          assert AtMost(ord, s[p], s[j]);
        } else if Parent(j) == p {
          assert AtMost(ord, s[p], s[j]);
        }
      }
      forall j | 0 < j < |r| && Parent(j) == p && 0 < p ensures AtMost(ord, r[Parent(p)], r[j]) {
        assert AtMost(ord, s[Parent(p)], s[p]);
        if j != i {
          assert AtMost(ord, s[p], s[j]);
        }
      }
      UpRestores(ord, r, p);
    }
  }

  /** heap.Push */
  function Push(ord: Order, s: seq<Tx>, x: Tx): (r: seq<Tx>)
    ensures multiset(r) == multiset(s) + multiset{x} && |r| == |s| + 1
  {
    Up(ord, s + [x], |s|)
  }

  lemma {:induction false} PushKeepsHeap(ord: Order, s: seq<Tx>, x: Tx)
    requires IsHeap(ord, s)
    ensures IsHeap(ord, Push(ord, s, x))
  {
    var r := s + [x];
    forall j | 0 < j < |r| && j != |s| ensures AtMost(ord, r[Parent(j)], r[j]) {
      assert AtMost(ord, s[Parent(j)], s[j]);
    }
    UpRestores(ord, r, |s|);
  }

  /** A heap but for the entry at `i`, which may come after its children. */
  ghost predicate HeapButDown(ord: Order, s: seq<Tx>, i: nat) {
    && (forall j :: 0 < j < |s| && Parent(j) != i ==> AtMost(ord, s[Parent(j)], s[j]))
    && (forall j :: 0 < j < |s| && Parent(j) == i && 0 < i < |s| ==> AtMost(ord, s[Parent(i)], s[j]))
  }

  /** The child that down compares with: the right one only if it is strictly first. */
  function Child(ord: Order, s: seq<Tx>, i: nat): (c: nat)
    requires 2 * i + 1 < |s|
    ensures i < c < |s| && Parent(c) == i
  {
    if 2 * i + 2 < |s| && Less(ord, s[2 * i + 2], s[2 * i + 1]) then 2 * i + 2 else 2 * i + 1
  }

  lemma {:induction false} ChildIsFirst(ord: Order, s: seq<Tx>, i: nat)
    requires 2 * i + 1 < |s|
    ensures forall j :: 0 < j < |s| && Parent(j) == i ==> AtMost(ord, s[Child(ord, s, i)], s[j])
  {
    forall j | 0 < j < |s| && Parent(j) == i ensures AtMost(ord, s[Child(ord, s, i)], s[j]) {
      assert j == 2 * i + 1 || j == 2 * i + 2;
    }
  }

  function Down(ord: Order, s: seq<Tx>, i: nat): (r: seq<Tx>)
    ensures |r| == |s| && multiset(r) == multiset(s)
    decreases |s| - i
  {
    if 2 * i + 1 >= |s| then s
    else
      var c := Child(ord, s, i);
      if !Less(ord, s[c], s[i]) then s else Down(ord, Swap(s, i, c), c)
  }

  lemma {:induction false} DownRestores(ord: Order, s: seq<Tx>, i: nat)
    requires HeapButDown(ord, s, i)
    ensures IsHeap(ord, Down(ord, s, i))
    decreases |s| - i
  {
    if 2 * i + 1 >= |s| {
      forall j | 0 < j < |s| ensures AtMost(ord, s[Parent(j)], s[j]) {}
    } else {
      var c := Child(ord, s, i);
      ChildIsFirst(ord, s, i);
      if !Less(ord, s[c], s[i]) {
        forall j | 0 < j < |s| ensures AtMost(ord, s[Parent(j)], s[j]) {
          if Parent(j) == i {
            assert AtMost(ord, s[c], s[j]);
          }
        }
      } else {
        DownStep(ord, s, i, c);
        DownRestores(ord, Swap(s, i, c), c);
      }
    }
  }

  lemma {:induction false} DownStep(ord: Order, s: seq<Tx>, i: nat, c: nat)
    requires HeapButDown(ord, s, i) && 0 < c < |s| && Parent(c) == i && Less(ord, s[c], s[i])
    requires forall j :: 0 < j < |s| && Parent(j) == i ==> AtMost(ord, s[c], s[j])
    ensures HeapButDown(ord, Swap(s, i, c), c)
  {
    var r := Swap(s, i, c);
    forall j | 0 < j < |r| && Parent(j) != c ensures AtMost(ord, r[Parent(j)], r[j]) {
      if j == i {
        assert AtMost(ord, s[Parent(i)], s[c]);
      } else if Parent(j) == i {
        assert AtMost(ord, s[c], s[j]);
      } else {
        assert AtMost(ord, s[Parent(j)], s[j]);
      }
    }
    forall j | 0 < j < |r| && Parent(j) == c ensures AtMost(ord, r[i], r[j]) {
      assert AtMost(ord, s[Parent(j)], s[j]);
    }
  }

  /** heap.Pop: the head, and what remains after the last entry has taken its place and sunk. */
  function Pop(ord: Order, s: seq<Tx>): (r: (Tx, seq<Tx>))
    requires s != []
    ensures r.0 == s[0] && multiset(s) == multiset(r.1) + multiset{r.0} && |r.1| == |s| - 1
  {
    var n := |s| - 1;
    var moved := Swap(s, 0, n);
    assert moved == moved[..n] + [s[0]];
    (s[0], Down(ord, moved[..n], 0))
  }

  lemma {:induction false} LastOnTop(ord: Order, s: seq<Tx>)
    requires IsHeap(ord, s) && s != []
    ensures HeapButDown(ord, Swap(s, 0, |s| - 1)[..|s| - 1], 0)
  {
    var rest := Swap(s, 0, |s| - 1)[..|s| - 1];
    forall j | 0 < j < |rest| && Parent(j) != 0 ensures AtMost(ord, rest[Parent(j)], rest[j]) {
      assert AtMost(ord, s[Parent(j)], s[j]);
    }
  }

  lemma {:induction false} PopKeepsHeap(ord: Order, s: seq<Tx>)
    requires IsHeap(ord, s) && s != []
    ensures IsHeap(ord, Pop(ord, s).1)
  {
    LastOnTop(ord, s);
    DownRestores(ord, Swap(s, 0, |s| - 1)[..|s| - 1], 0);
  }
}
