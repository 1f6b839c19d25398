/** One account of the transaction pool (txpool/account.go): every lock-protected step keeps the promoted queue
    a run of consecutive nonces that ends just below the next expected nonce, and each promoted transaction
    the best-paid one that was offered for its nonce, unless a promotion reaches the last nonce a uint64 has. */
module PoolAccount {
  import opened Common
  import opened TxQueue

  datatype EnqueueResult = Enqueued | MaxEnqueuedLimitReached | NonceTooLow

  /** The stored nonce is only replaced by a higher one. */
  function Later(n: nat, stored: nat): nat {
    if n > stored then n else stored
  }

  /** accountQueue.prune */
  method Prune(q: seq<Tx>, nonce: nat) returns (kept: seq<Tx>, pruned: seq<Tx>)
    requires IsHeap(ByNonce, q)
    ensures IsHeap(ByNonce, kept) && multiset(q) == multiset(kept) + multiset(pruned)
    ensures (forall t :: t in kept ==> nonce <= t.nonce) && (forall t :: t in pruned ==> t.nonce < nonce)
  {
    kept, pruned := q, [];
    while kept != [] && kept[0].nonce < nonce
      invariant IsHeap(ByNonce, kept) && multiset(q) == multiset(kept) + multiset(pruned)
      invariant forall t :: t in pruned ==> t.nonce < nonce
      decreases |kept|
    {
      PopKeepsHeap(ByNonce, kept);
      var (x, rest) := Pop(ByNonce, kept);
      kept, pruned := rest, pruned + [x];
    }
    if kept != [] {
      HeadPrecedesAll(ByNonce, kept);
    }
  }

  lemma {:induction false} InParts(whole: multiset<Tx>, xs: seq<Tx>, ys: seq<Tx>, t: Tx)
    requires whole == multiset(xs) + multiset(ys)
    ensures t in whole <==> t in xs || t in ys
  {
    assert t in multiset(xs) <==> t in xs;
    assert t in multiset(ys) <==> t in ys;
  }

  /** Below which nonce a promotion that ended just below `end` prunes: the others with the last nonce of all stay. */
  function PrunedBelow(end: nat): nat {
    if end == U64 then U64 - 1 else end
  }

  /** What promote moves: `moved` lists the consecutive nonces from `first` on, each transaction being the best
      paid in `from` for its nonce, `pruned` are the others with these nonces, and `left` starts after a gap. */
  ghost predicate Promotes(from: seq<Tx>, first: nat, moved: seq<Tx>, pruned: seq<Tx>, left: seq<Tx>) {
    && multiset(from) == multiset(left) + multiset(moved) + multiset(pruned) && first + |moved| <= U64
    && (forall i :: 0 <= i < |moved| ==> moved[i].nonce == first + i)
    && (forall t :: t in pruned ==> first <= t.nonce < PrunedBelow(first + |moved|))
    && (forall t :: t in left ==> PrunedBelow(first + |moved|) <= t.nonce)
    && (forall t, i :: t in from && 0 <= i < |moved| && t.nonce == moved[i].nonce ==> t.gasPrice <= moved[i].gasPrice)
  }

  lemma {:induction false} LeftComesFrom(from: seq<Tx>, first: nat, moved: seq<Tx>, pruned: seq<Tx>, left: seq<Tx>,
                                         t: Tx)
    requires Promotes(from, first, moved, pruned, left) && (t in left || t in moved)
    ensures t in from
  {
    assert t in multiset(left) || t in multiset(moved);
    assert t in multiset(from);
  }

  lemma {:induction false} NotYetMoved(from: seq<Tx>, first: nat, moved: seq<Tx>, pruned: seq<Tx>, left: seq<Tx>, t: Tx)
    requires Promotes(from, first, moved, pruned, left) && t in from && first + |moved| <= t.nonce
    ensures t in left
  {
    assert t in multiset(from);
    assert forall u :: u in multiset(moved) ==> u in moved;
    assert t !in moved && t !in pruned;
    assert t in multiset(left);
  }

  lemma {:induction false} BestOfAll(from: seq<Tx>, first: nat, moved: seq<Tx>, pruned: seq<Tx>, left: seq<Tx>)
    requires Promotes(from, first, moved, pruned, left) && IsHeap(ByNonce, left) && left != []
    requires left[0].nonce == first + |moved|
    ensures forall t :: t in from && t.nonce == left[0].nonce ==> t.gasPrice <= left[0].gasPrice
  {
    HeadPrecedesAll(ByNonce, left);
    forall t | t in from && t.nonce == left[0].nonce ensures t.gasPrice <= left[0].gasPrice {
      NotYetMoved(from, first, moved, pruned, left, t);
      assert AtMost(ByNonce, left[0], t);
    }
  }

  lemma {:induction false} RestIsNewer(left: seq<Tx>, more: seq<Tx>, left': seq<Tx>)
    requires IsHeap(ByNonce, left) && left != [] &&
             multiset(left) == multiset(left') + multiset(more) + multiset{left[0]}
    ensures forall t :: t in more || t in left' ==> left[0].nonce <= t.nonce
  {
    HeadPrecedesAll(ByNonce, left);
    forall t | t in more || t in left' ensures left[0].nonce <= t.nonce {
      InParts(multiset(left') + multiset(more), left', more, t);
      assert t in multiset(left) && AtMost(ByNonce, left[0], t);
    }
  }

  /** One round of promote's loop. */
  lemma {:induction false} PromotesOne(
    from: seq<Tx>, first: nat, moved: seq<Tx>, pruned: seq<Tx>, left: seq<Tx>, more: seq<Tx>, left': seq<Tx>)
    requires Promotes(from, first, moved, pruned, left) && IsHeap(ByNonce, left) && left != []
    requires left[0].nonce == first + |moved|
    requires multiset(left) == multiset(left') + multiset(more) + multiset{left[0]} && left[0].nonce < U64
    requires (forall t :: t in left' ==> Successor(left[0].nonce) <= t.nonce) &&
             (forall t :: t in more ==> t.nonce < Successor(left[0].nonce))
    ensures Promotes(from, first, moved + [left[0]], pruned + more, left')
  {
    RestIsNewer(left, more, left');
    BestOfAll(from, first, moved, pruned, left);
  }

  /** Some transaction of `q` has this nonce. */
  ghost predicate Has(q: seq<Tx>, nonce: nat) {
    exists t :: t in q && t.nonce == nonce
  }

  /** `q` has every nonce from `first` to the last one a uint64 holds. */
  ghost predicate HasAllFrom(q: seq<Tx>, first: nat) {
    forall n :: first <= n < U64 ==> Has(q, n)
  }

  /** An account's fields, with its ghost ones. */
  datatype AccountState = AccountState(enqueued: seq<Tx>, promoted: seq<Tx>, nextNonce: nat, run: seq<Tx>,
                                       offered: set<Tx>)

  class Account {
    var enqueued: seq<Tx>
    var promoted: seq<Tx>
    var nextNonce: nat
    var demotions: nat
    const maxEnqueued: nat

    /** The promoted transactions in nonce order. */
    ghost var run: seq<Tx>
    /** The transactions enqueued since the queues were last cleared. */
    ghost var offered: set<Tx>

    ghost function View(): AccountState
      reads this
    {
      AccountState(enqueued, promoted, nextNonce, run, offered)
    }

    /** What every step keeps, whatever the nonces. */
    ghost predicate Sorted()
      reads this
    {
      Heaps(enqueued, promoted, nextNonce)
    }

    ghost predicate Valid()
      reads this
    {
      Inv(View())
    }

    constructor (nonce: nat, limit: nat)
      requires nonce < U64
      ensures Valid() && enqueued == [] && promoted == [] && run == [] && nextNonce == nonce && maxEnqueued == limit
    {
      enqueued, promoted, nextNonce, demotions, maxEnqueued := [], [], nonce, 0, limit;
      run, offered := [], {};
    }

    method Enqueue(tx: Tx) returns (e: EnqueueResult)
      requires Sorted() && tx.nonce < U64
      modifies this`enqueued, this`offered
      ensures Sorted() && (old(Valid()) ==> Valid())
      ensures e == if |old(enqueued)| == maxEnqueued then MaxEnqueuedLimitReached
                   else if tx.nonce < nextNonce then NonceTooLow else Enqueued
      ensures multiset(enqueued) == multiset(old(enqueued)) + if e.Enqueued? then multiset{tx} else multiset{}
    {
      if |enqueued| == maxEnqueued {
        return MaxEnqueuedLimitReached;
      }
      if tx.nonce < nextNonce {
        return NonceTooLow;
      }
      PushKeepsHeap(ByNonce, enqueued, tx);
      ghost var was := View();
      enqueued := Push(ByNonce, enqueued, tx);
      offered := offered + {tx};
      Offered(was, tx, View());
      e := Enqueued;
    }

    /** The invariant survives exactly when the enqueued nonces do not go on up to the last one. When they do, all of
        them are promoted, but the counter wraps to 0 and the next expected nonce stays where it was. */
    method Promote() returns (moved: seq<Tx>, pruned: seq<Tx>)
      requires Sorted()
      modifies this`enqueued, this`promoted, this`nextNonce, this`run
      ensures Sorted() && Promotes(old(enqueued), old(nextNonce), moved, pruned, enqueued)
      ensures run == old(run) + moved && multiset(promoted) == multiset(old(promoted)) + multiset(moved)
      ensures HasAllFrom(old(enqueued), old(nextNonce)) <==> old(nextNonce) + |moved| == U64
      ensures nextNonce == if old(nextNonce) + |moved| == U64 then old(nextNonce) else old(nextNonce) + |moved|
      ensures old(Valid()) ==> (Valid() <==> !HasAllFrom(old(enqueued), old(nextNonce)))
      ensures old(nextNonce) + |moved| < U64 ==> !Has(enqueued, nextNonce)
    {
      moved, pruned := [], [];
      if |enqueued| == 0 || enqueued[0].nonce > nextNonce {
        HeadIsLowest(enqueued, nextNonce);
        return;
      }
      var q, p, n;
      q, p, n, moved, pruned := Move(enqueued, promoted, nextNonce);
      ghost var was := View();
      FullIff(enqueued, nextNonce, moved, pruned, q);
      nextNonce := Later(n, nextNonce);
      enqueued, promoted, run := q, p, run + moved;
      Promoted(was, moved, pruned, View());
    }

    /** Aligns the account with a nonce of the chain; `signal` asks for a promotion. */
    method Reset(nonce: nat) returns (prunedPromoted: seq<Tx>, prunedEnqueued: seq<Tx>, signal: bool)
      requires Sorted() && nonce < U64
      modifies this`enqueued, this`promoted, this`nextNonce, this`run
      ensures Sorted() && nextNonce == (if nonce <= old(nextNonce) then old(nextNonce) else nonce)
      ensures old(Valid()) ==> Valid() && run == old(run)[Stale(old(run), old(nextNonce), nonce)..]
      ensures multiset(old(promoted)) == multiset(promoted) + multiset(prunedPromoted)
      ensures multiset(old(enqueued)) == multiset(enqueued) + multiset(prunedEnqueued)
      ensures forall t :: t in prunedPromoted || t in prunedEnqueued ==> t.nonce < nonce
      ensures forall t :: t in promoted ==> nonce <= t.nonce
      ensures signal <==> old(nextNonce) < nonce && Has(enqueued, nonce)
    {
      ghost var was := View();
      var kept;
      kept, prunedPromoted := Prune(promoted, nonce);
      prunedEnqueued, signal := [], false;
      promoted, run := kept, run[Stale(run, nextNonce, nonce)..];
      KeepsNewer(was, View(), prunedPromoted, nonce);
      if nonce <= nextNonce {
        return;
      }
      was := View();
      kept, prunedEnqueued := Prune(enqueued, nonce);
      enqueued, nextNonce := kept, nonce;
      MovesOn(was, View(), prunedEnqueued);
      signal := enqueued != [] && enqueued[0].nonce == nonce;
      HeadIsLowest(enqueued, nonce);
    }

    /** The account's part of TxPool.Pop: takes the lowest promoted nonce. */
    method PopPromoted() returns (tx: seq<Tx>)
      requires Sorted()
      modifies this`promoted, this`run, this`demotions
      ensures Sorted() && multiset(old(promoted)) == multiset(promoted) + multiset(tx) && demotions == 0
      ensures tx == if old(promoted) == [] then [] else [old(promoted)[0]]
      ensures old(Valid()) ==> Valid() && old(run) == tx + run
    {
      tx, demotions := [], 0;
      ghost var was := View();
      if |promoted| == 0 {
        EmptyRun(was);
        return;
      }
      PopsOne(promoted);
      var (x, rest) := Pop(ByNonce, promoted);
      tx, promoted, run := [x], rest, if run == [] then [] else run[1..];
      if Inv(was) {
        Popped(was, View());
      }
    }

    /** The account's part of TxPool.Drop: both queues are cleared and the nonce rolled back. */
    method Drop(nonce: nat) returns (dropped: seq<Tx>)
      requires nonce < U64
      modifies this`enqueued, this`promoted, this`nextNonce, this`run, this`offered
      ensures Sorted() && Valid() && enqueued == [] && promoted == [] && run == [] && nextNonce == nonce
      ensures multiset(dropped) == multiset(old(promoted)) + multiset(old(enqueued))
    {
      dropped := promoted + enqueued;
      enqueued, promoted, nextNonce := [], [], nonce;
      run, offered := [], {};
    }

    /** pruneAccountsWithNonceHoles for one account. */
    method PruneHole() returns (removed: seq<Tx>)
      requires Sorted()
      modifies this`enqueued, this`offered
      ensures Sorted() && (old(Valid()) ==> Valid()) &&
              multiset(old(enqueued)) == multiset(enqueued) + multiset(removed)
      ensures if Has(old(enqueued), nextNonce) then removed == [] else enqueued == []
    {
      removed := [];
      HeadIsLowest(enqueued, nextNonce);
      if |enqueued| == 0 || enqueued[0].nonce == nextNonce {
        return;
      }
      ghost var was := View();
      removed, enqueued := enqueued, [];
      offered := set t | t in offered && t.nonce < nextNonce;
      Emptied(was, View());
    }

    /** One lock-protected step. */
    method Act(step: Step)
      requires Sorted() && StepOk(step)
      modifies this
      ensures Sorted() && (old(Valid()) ==> (Valid() <==> !Wraps(old(View()), step)))
    {
      match step {
        case DoEnqueue(tx) => var _ := Enqueue(tx);
        case DoPromote => var _, _ := Promote();
        case DoReset(n) => var _, _, _ := Reset(n);
        case DoPop => var _ := PopPromoted();
        case DoDrop(n) => var _ := Drop(n);
        case DoPruneHole => var _ := PruneHole();
      }
    }
  }

  /** How many transactions of a run up to `next` have a nonce below `nonce`. */
  ghost function Stale(run: seq<Tx>, next: nat, nonce: nat): (k: nat)
    ensures k <= |run|
  {
    if nonce + |run| <= next then 0 else if next <= nonce then |run| else nonce + |run| - next
  }

  lemma {:induction false} Split(promoted: seq<Tx>, kept: seq<Tx>, pruned: seq<Tx>, run: seq<Tx>, next: nat, nonce: nat)
    requires multiset(promoted) == multiset(kept) + multiset(pruned) == multiset(run) && RunsUpTo(run, next)
    requires (forall t :: t in kept ==> nonce <= t.nonce) && (forall t :: t in pruned ==> t.nonce < nonce)
    ensures multiset(kept) == multiset(run[Stale(run, next, nonce)..])
  {
    var k := Stale(run, next, nonce);
    assert run == run[..k] + run[k..];
    assert multiset(run) == multiset(run[..k]) + multiset(run[k..]);
    assert (forall t :: t in run[..k] ==> t.nonce < nonce) && (forall t :: t in run[k..] ==> nonce <= t.nonce);
    forall t ensures multiset(kept)[t] == multiset(run[k..])[t] {
      assert multiset(kept)[t] + multiset(pruned)[t] == multiset(run)[t] ==
             multiset(run[..k])[t] + multiset(run[k..])[t];
      if nonce <= t.nonce {
        assert multiset(pruned)[t] == 0 && multiset(run[..k])[t] == 0;
      } else {
        assert multiset(kept)[t] == 0 && multiset(run[k..])[t] == 0;
      }
    }
  }

  /** reset on the promoted queue. */
  lemma {:induction false} KeepsNewer(was: AccountState, now: AccountState, pruned: seq<Tx>, nonce: nat)
    requires multiset(was.promoted) == multiset(now.promoted) + multiset(pruned) && IsHeap(ByNonce, now.promoted)
    requires (forall t :: t in now.promoted ==> nonce <= t.nonce) && (forall t :: t in pruned ==> t.nonce < nonce)
    requires now == was.(promoted := now.promoted, run := was.run[Stale(was.run, was.nextNonce, nonce)..])
    ensures Inv(was) ==> Inv(now) && (was.nextNonce < nonce ==> now.run == [])
  {
    if Inv(was) {
      Split(was.promoted, now.promoted, pruned, was.run, was.nextNonce, nonce);
    }
  }

  /** reset on the enqueued queue, for a nonce past the next expected one. */
  lemma {:induction false} MovesOn(was: AccountState, now: AccountState, pruned: seq<Tx>)
    requires Heaps(was.enqueued, was.promoted, was.nextNonce) && was.nextNonce < now.nextNonce < U64
    requires multiset(was.enqueued) == multiset(now.enqueued) + multiset(pruned) && IsHeap(ByNonce, now.enqueued)
    requires forall t :: t in now.enqueued ==> now.nextNonce <= t.nonce
    requires forall t :: t in pruned ==> t.nonce < now.nextNonce
    requires now == was.(enqueued := now.enqueued, nextNonce := now.nextNonce)
    ensures Heaps(now.enqueued, now.promoted, now.nextNonce)
    ensures Inv(was) && was.run == [] ==> Inv(now)
  {
    Kept(was.enqueued, now.enqueued, pruned, now.nextNonce);
  }

  lemma {:induction false} HeadIsLowest(q: seq<Tx>, nonce: nat)
    requires IsHeap(ByNonce, q) && forall t :: t in q ==> nonce <= t.nonce
    ensures Has(q, nonce) <==> q != [] && q[0].nonce == nonce
  {
    if q != [] {
      HeadPrecedesAll(ByNonce, q);
    }
  }

  lemma {:induction false} Kept(enqueued: seq<Tx>, kept: seq<Tx>, pruned: seq<Tx>, nonce: nat)
    requires multiset(enqueued) == multiset(kept) + multiset(pruned) && forall t :: t in pruned ==> t.nonce < nonce
    ensures forall t :: t in kept ==> t in enqueued
    ensures forall t :: t in enqueued && nonce <= t.nonce ==> t in kept
  {
    forall t ensures t in enqueued <==> t in kept || t in pruned {
      assert t in multiset(enqueued) <==> t in enqueued;
    }
  }

  /** The head of the promoted heap is the lowest nonce of the run. */
  lemma {:induction false} HeadOfRun(promoted: seq<Tx>, run: seq<Tx>, next: nat)
    requires IsHeap(ByNonce, promoted) && promoted != [] && multiset(promoted) == multiset(run) && RunsUpTo(run, next)
    ensures run != [] && promoted[0] == run[0]
  {
    HeadPrecedesAll(ByNonce, promoted);
    assert promoted[0] in multiset(run);
    assert run[0] in multiset(promoted) && run[0] in promoted;
    assert AtMost(ByNonce, promoted[0], run[0]);
    var i :| 0 <= i < |run| && run[i] == promoted[0];
  }

  lemma {:induction false} EmptyRun(s: AccountState)
    requires s.promoted == []
    ensures Inv(s) ==> s.run == []
  {
    assert |multiset(s.run)| == |s.run|;
  }

  lemma {:induction false} PopsOne(q: seq<Tx>)
    requires IsHeap(ByNonce, q) && q != []
    ensures Pop(ByNonce, q).0 == q[0] && IsHeap(ByNonce, Pop(ByNonce, q).1)
    ensures multiset(q) == multiset(Pop(ByNonce, q).1) + multiset([q[0]])
  {
    PopKeepsHeap(ByNonce, q);
  }

  /** Popping the head of the promoted heap takes the lowest nonce of the run. */
  lemma {:induction false} Popped(was: AccountState, now: AccountState)
    requires Inv(was) && was.promoted != [] &&
             multiset(was.promoted) == multiset(now.promoted) + multiset([was.promoted[0]])
    requires now == was.(promoted := now.promoted, run := if was.run == [] then [] else was.run[1..])
    requires IsHeap(ByNonce, now.promoted)
    ensures Inv(now) && was.run == [was.promoted[0]] + now.run
  {
    HeadOfRun(was.promoted, was.run, was.nextNonce);
    TailOf(was.run, now.promoted);
    TailRuns(was.run, was.nextNonce, was.offered);
  }

  lemma {:induction false} TailOf(run: seq<Tx>, rest: seq<Tx>)
    requires run != [] && multiset(run) == multiset(rest) + multiset{run[0]}
    ensures multiset(rest) == multiset(run[1..])
  {
    assert run == [run[0]] + run[1..];
    assert multiset(run) == multiset{run[0]} + multiset(run[1..]);
    assert multiset(rest) == multiset(run) - multiset{run[0]};
  }

  lemma {:induction false} TailRuns(run: seq<Tx>, next: nat, offered: set<Tx>)
    requires run != [] && RunsUpTo(run, next) && BestPaid(run, offered)
    ensures RunsUpTo(run[1..], next) && BestPaid(run[1..], offered)
  {}

  /** tx.Nonce + 1 of a uint64. */
  function Successor(nonce: nat): nat
    requires nonce < U64
  {
    if nonce == U64 - 1 then 0 else nonce + 1
  }

  /** The state of promote's loop: `moved` has gone from `enqueued` to `promoted`, `q` and `p` are what the two
      queues hold now, and `n` is the nonce to look for next. */
  ghost predicate Moving(enqueued: seq<Tx>, promoted: seq<Tx>, first: nat,
                         q: seq<Tx>, p: seq<Tx>, n: nat, moved: seq<Tx>, pruned: seq<Tx>) {
    && IsHeap(ByNonce, q) && IsHeap(ByNonce, p) && n == (if first + |moved| == U64 then 0 else first + |moved|)
    && Promotes(enqueued, first, moved, pruned, q) && multiset(p) == multiset(promoted) + multiset(moved)
  }

  /** The loop of promote on an enqueued queue whose head has nonce `first`. */
  method Move(enqueued: seq<Tx>, promoted: seq<Tx>, ghost first: nat)
    returns (q: seq<Tx>, p: seq<Tx>, n: nat, moved: seq<Tx>, pruned: seq<Tx>)
    requires IsHeap(ByNonce, enqueued) && IsHeap(ByNonce, promoted)
    requires enqueued != [] && enqueued[0].nonce == first
    requires forall t :: t in enqueued ==> t.nonce < U64
    ensures Moving(enqueued, promoted, first, q, p, n, moved, pruned) && moved != []
    ensures !Has(q, n)
  {
    HeadPrecedesAll(ByNonce, enqueued);
    n := enqueued[0].nonce;
    q, p, n, moved, pruned := MoveOne(enqueued, promoted, first, enqueued, promoted, n, [], []);
    while q != [] && q[0].nonce == n
      invariant Moving(enqueued, promoted, first, q, p, n, moved, pruned) && moved != []
      decreases |q|
    {
      q, p, n, moved, pruned := MoveOne(enqueued, promoted, first, q, p, n, moved, pruned);
    }
    if q != [] {
      HeadPrecedesAll(ByNonce, q);
      assert first + |moved| == U64 ==> q[0].nonce == U64 - 1 by {
        LeftComesFrom(enqueued, first, moved, pruned, q, q[0]);
      }
    }
  }

  /** One round: pop from enqueued, push to promoted, prune what the new nonce makes stale. */
  method MoveOne(ghost enqueued: seq<Tx>, ghost promoted: seq<Tx>, ghost first: nat,
                 q: seq<Tx>, p: seq<Tx>, ghost n: nat, moved: seq<Tx>, pruned: seq<Tx>)
    returns (q': seq<Tx>, p': seq<Tx>, n': nat, moved': seq<Tx>, pruned': seq<Tx>)
    requires Moving(enqueued, promoted, first, q, p, n, moved, pruned) && q != [] && q[0].nonce == n
    requires forall t :: t in enqueued ==> t.nonce < U64
    ensures Moving(enqueued, promoted, first, q', p', n', moved', pruned') && moved' != [] && |q'| < |q|
  {
    LeftComesFrom(enqueued, first, moved, pruned, q, q[0]);
    var x, rest, more;
    x, n', rest, more, p' := Shift(q, p);
    PromotesOne(enqueued, first, moved, pruned, q, more, rest);
    q', moved', pruned' := rest, moved + [x], pruned + more;
  }

  method NonceAfter(nonce: nat) returns (n: nat)
    requires nonce < U64
    ensures n == Successor(nonce)
  {
    n := (nonce + 1) % U64;
  }

  method Shift(q: seq<Tx>, p: seq<Tx>) returns (x: Tx, n: nat, rest: seq<Tx>, more: seq<Tx>, p': seq<Tx>)
    requires IsHeap(ByNonce, q) && IsHeap(ByNonce, p) && q != [] && q[0].nonce < U64
    ensures x == q[0] && n == Successor(x.nonce)
    ensures IsHeap(ByNonce, rest) && IsHeap(ByNonce, p') && |rest| < |q|
    ensures multiset(q) == multiset(rest) + multiset(more) + multiset{x}
    ensures (forall t :: t in rest ==> n <= t.nonce) && (forall t :: t in more ==> t.nonce < n)
    ensures multiset(p') == multiset(p) + multiset{x}
  {
    PopsOne(q);
    PushKeepsHeap(ByNonce, p, q[0]);
    var popped := Pop(ByNonce, q);
    x, p' := popped.0, Push(ByNonce, p, popped.0);
    n := NonceAfter(x.nonce);
    rest, more := Prune(popped.1, n);
    assert |multiset(popped.1)| == |rest| + |more|;
  }

  /** A promotion that stops before a nonce it has not got reaches the last nonce exactly when it has them all. */
  lemma {:induction false} FullIff(from: seq<Tx>, first: nat, moved: seq<Tx>, pruned: seq<Tx>, left: seq<Tx>)
    requires Promotes(from, first, moved, pruned, left) && (first + |moved| < U64 ==> !Has(left, first + |moved|))
    ensures HasAllFrom(from, first) <==> first + |moved| == U64
  {
    if first + |moved| == U64 {
      forall n | first <= n < U64 ensures Has(from, n) {
        LeftComesFrom(from, first, moved, pruned, left, moved[n - first]);
      }
    } else {
      forall t | t in from && t.nonce == first + |moved| ensures false {
        NotYetMoved(from, first, moved, pruned, left, t);
      }
      assert !Has(from, first + |moved|);
    }
  }

  ghost predicate BestPaid(run: seq<Tx>, offered: set<Tx>) {
    && (forall i :: 0 <= i < |run| ==> run[i] in offered)
    && (forall i, t :: 0 <= i < |run| && t in offered && t.nonce == run[i].nonce ==> t.gasPrice <= run[i].gasPrice)
  }

  /** `run` lists consecutive nonces that end just below `next`. */
  ghost predicate RunsUpTo(run: seq<Tx>, next: nat) {
    |run| <= next && forall i :: 0 <= i < |run| ==> run[i].nonce == next - |run| + i
  }

  /** The enqueued transactions are those offered with a nonce not below `next`. */
  ghost predicate Waiting(enqueued: seq<Tx>, offered: set<Tx>, next: nat) {
    && (forall t :: t in enqueued ==> t in offered)
    && (forall t :: t in offered && next <= t.nonce ==> t in enqueued)
  }

  ghost predicate Heaps(enqueued: seq<Tx>, promoted: seq<Tx>, next: nat) {
    && IsHeap(ByNonce, enqueued) && IsHeap(ByNonce, promoted) && next < U64
    && (forall t :: t in enqueued ==> next <= t.nonce < U64)
  }

  ghost predicate Inv(s: AccountState) {
    && Heaps(s.enqueued, s.promoted, s.nextNonce) && multiset(s.promoted) == multiset(s.run)
    && RunsUpTo(s.run, s.nextNonce) && Waiting(s.enqueued, s.offered, s.nextNonce) && BestPaid(s.run, s.offered)
  }

  lemma {:induction false} PushMembers(q: seq<Tx>, x: Tx, q': seq<Tx>)
    requires multiset(q') == multiset(q) + multiset{x}
    ensures forall t :: t in q' <==> t in q || t == x
  {
    forall t ensures t in q' <==> t in q || t == x {
      assert t in multiset(q') <==> t in q';
    }
  }

  /** An accepted transaction joins the enqueued ones. */
  lemma {:induction false} Offered(was: AccountState, tx: Tx, now: AccountState)
    requires Heaps(was.enqueued, was.promoted, was.nextNonce) && was.nextNonce <= tx.nonce < U64
    requires multiset(now.enqueued) == multiset(was.enqueued) + multiset{tx} && IsHeap(ByNonce, now.enqueued)
    requires now == was.(enqueued := now.enqueued, offered := was.offered + {tx})
    ensures Heaps(now.enqueued, now.promoted, now.nextNonce) && (Inv(was) ==> Inv(now))
  {
    PushMembers(was.enqueued, tx, now.enqueued);
  }

  lemma {:induction false} Emptied(was: AccountState, now: AccountState)
    requires now == was.(enqueued := [], offered := set t | t in was.offered && t.nonce < was.nextNonce)
    ensures Inv(was) ==> Inv(now)
  {}

  lemma {:induction false} StillBestPaid(was: AccountState, moved: seq<Tx>, pruned: seq<Tx>, left: seq<Tx>)
    requires Inv(was) && Promotes(was.enqueued, was.nextNonce, moved, pruned, left)
    ensures BestPaid(was.run + moved, was.offered)
  {
    var run := was.run + moved;
    forall t | t in moved ensures t in was.enqueued {
      LeftComesFrom(was.enqueued, was.nextNonce, moved, pruned, left, t);
    }
    forall i, t | 0 <= i < |run| && t in was.offered && t.nonce == run[i].nonce ensures t.gasPrice <= run[i].gasPrice {
      if |was.run| <= i {
        assert t in was.enqueued && run[i] == moved[i - |was.run|];
      }
    }
  }

  /** A promotion keeps the queues sorted, and the invariant unless it reached the last nonce. */
  lemma {:induction false} Promoted(was: AccountState, moved: seq<Tx>, pruned: seq<Tx>, now: AccountState)
    requires Heaps(was.enqueued, was.promoted, was.nextNonce) && moved != []
    requires Promotes(was.enqueued, was.nextNonce, moved, pruned, now.enqueued)
    requires IsHeap(ByNonce, now.enqueued) && IsHeap(ByNonce, now.promoted)
    requires multiset(now.promoted) == multiset(was.promoted) + multiset(moved)
    requires now.run == was.run + moved && now.offered == was.offered
    requires now.nextNonce == if was.nextNonce + |moved| == U64 then was.nextNonce else was.nextNonce + |moved|
    ensures Heaps(now.enqueued, now.promoted, now.nextNonce)
    ensures Inv(was) ==> (Inv(now) <==> was.nextNonce + |moved| < U64)
  {
    forall t | t in now.enqueued ensures t in was.enqueued {
      LeftComesFrom(was.enqueued, was.nextNonce, moved, pruned, now.enqueued, t);
    }
    if Inv(was) {
      StillBestPaid(was, moved, pruned, now.enqueued);
      forall t | t in was.offered && was.nextNonce + |moved| <= t.nonce ensures t in now.enqueued {
        NotYetMoved(was.enqueued, was.nextNonce, moved, pruned, now.enqueued, t);
      }
      assert now.run[|now.run| - 1] == moved[|moved| - 1];
    }
  }

  /** The run up to the last nonce: both transactions are promoted, the next expected nonce does not move, and the
      promoted nonces are no longer below it. */
  method LastNonceIsStuck(t: Tx, last: Tx, limit: nat) returns (a: Account)
    requires t.nonce == U64 - 2 && last.nonce == U64 - 1 && limit >= 2
    ensures fresh(a) && a.enqueued == [] && multiset(a.promoted) == multiset{t, last}
    ensures a.nextNonce == t.nonce && !a.Valid()
  {
    a := new Account(U64 - 2, limit);
    var _ := a.Enqueue(t);
    var _ := a.Enqueue(last);
    ghost var from := a.enqueued;
    assert from == from[..] && multiset(from) == multiset{t, last};
    assert t in multiset(from) && last in multiset(from);
    assert Has(from, U64 - 2) && Has(from, U64 - 1);
    assert HasAllFrom(from, U64 - 2);
    var moved, pruned := a.Promote();
    TakesBoth(from, t, last, moved, pruned, a.enqueued);
  }

  lemma {:induction false} TakesBoth(from: seq<Tx>, t: Tx, last: Tx, moved: seq<Tx>, pruned: seq<Tx>, left: seq<Tx>)
    requires multiset(from) == multiset{t, last} && |moved| == 2
    requires multiset(from) == multiset(left) + multiset(moved) + multiset(pruned)
    ensures multiset(moved) == multiset{t, last} && left == []
  {
    assert |multiset(from)| == 2 == |multiset(left)| + |multiset(moved)| + |multiset(pruned)|;
    assert multiset(left) == multiset{} == multiset(pruned);
  }

  datatype Step = DoEnqueue(tx: Tx) | DoPromote | DoReset(nonce: nat) | DoPop | DoDrop(nonce: nat) | DoPruneHole

  /** Nonces are uint64. */
  predicate StepOk(s: Step) {
    match s
    case DoEnqueue(tx) => tx.nonce < U64
    case DoReset(n) => n < U64
    case DoDrop(n) => n < U64
    case _ => true
  }

  /** The step is a promotion that reaches the last nonce. */
  ghost predicate Wraps(s: AccountState, step: Step) {
    step.DoPromote? && HasAllFrom(s.enqueued, s.nextNonce)
  }

  /** `trace` has the invariant after each step exactly when it had it before and the step does not wrap. */
  ghost predicate KeptExactly(trace: seq<AccountState>, steps: seq<Step>)
    requires |trace| == |steps| + 1
  {
    forall i :: 0 <= i < |steps| ==> Inv(trace[i]) ==> (Inv(trace[i + 1]) <==> !Wraps(trace[i], steps[i]))
  }

  lemma {:induction false} KeptOn(trace: seq<AccountState>, steps: seq<Step>, step: Step, now: AccountState)
    requires |trace| == |steps| + 1 && KeptExactly(trace, steps)
    requires Inv(trace[|steps|]) ==> (Inv(now) <==> !Wraps(trace[|steps|], step))
    ensures KeptExactly(trace + [now], steps + [step])
  {
    var trace', steps' := trace + [now], steps + [step];
    forall i | 0 <= i < |steps'| && Inv(trace'[i]) ensures Inv(trace'[i + 1]) <==> !Wraps(trace'[i], steps'[i]) {
      if i < |steps| {
        assert trace'[i] == trace[i] && trace'[i + 1] == trace[i + 1] && steps'[i] == steps[i];
      }
    }
  }

  /** As long as no promotion reaches the last nonce. */
  lemma {:induction false} KeptThroughout(trace: seq<AccountState>, steps: seq<Step>, k: nat)
    requires |trace| == |steps| + 1 && KeptExactly(trace, steps) && Inv(trace[0]) && k <= |steps|
    requires forall i :: 0 <= i < k ==> !Wraps(trace[i], steps[i])
    ensures Inv(trace[k])
  {
    if k > 0 {
      KeptThroughout(trace, steps, k - 1);
    }
  }

  /** Every interleaving of the lock-protected steps, from a new account. As long as no promotion reaches the last
      nonce, the promoted queue is a run of consecutive nonces that ends just below the next one, nothing enqueued is
      below it, and each promoted transaction is the best paid of those offered for its nonce since the queues were
      last cleared; the first promotion that does reach it ends this. */
  method Interleave(nonce: nat, limit: nat, steps: seq<Step>) returns (a: Account, ghost trace: seq<AccountState>)
    requires nonce < U64 && forall i :: 0 <= i < |steps| ==> StepOk(steps[i])
    ensures fresh(a) && a.Sorted() && |trace| == |steps| + 1 && trace[|steps|] == a.View() && KeptExactly(trace, steps)
    ensures (forall i :: 0 <= i < |steps| ==> !Wraps(trace[i], steps[i])) ==>
              && multiset(a.promoted) == multiset(a.run) && RunsUpTo(a.run, a.nextNonce)
              && (forall t :: t in a.enqueued ==> a.nextNonce <= t.nonce) && BestPaid(a.run, a.offered)
  {
    a := new Account(nonce, limit);
    trace := [a.View()];
    for i := 0 to |steps|
      invariant fresh(a) && a.Sorted() && |trace| == i + 1 && trace[i] == a.View() && Inv(trace[0])
      invariant KeptExactly(trace, steps[..i])
    {
      a.Act(steps[i]);
      KeptOn(trace, steps[..i], steps[i], a.View());
      trace := trace + [a.View()];
      assert steps[..i + 1] == steps[..i] + [steps[i]];
    }
    assert steps[..|steps|] == steps;
    if forall i :: 0 <= i < |steps| ==> !Wraps(trace[i], steps[i]) {
      KeptThroughout(trace, steps, |steps|);
    }
  }
}
