/** The account's queues and the gauge together: each method of an account is one step of the gauge's transition system,
    on what the account's two heaps hold. */
module PoolGauge {
  import opened Common
  import opened TxQueue
  import PoolAccount
  import opened SlotGauge

  type Account = PoolAccount.Account

  ghost function HeldBy(a: Account): multiset<Tx>
    reads a
  {
    multiset(a.enqueued) + multiset(a.promoted)
  }

  /** The pool `s` has the queues of `a` under address `id`. */
  ghost predicate Mirrors(s: Pool, id: nat, a: Account)
    reads a
  {
    a.Sorted() && id in s.held && s.held[id] == HeldBy(a)
  }

  /** handleEnqueueRequest under the account's lock: an enqueued transaction is owed to the gauge, a refused one is
      not. */
  method Enqueue(a: Account, id: nat, tx: Tx, ghost s: Pool) returns (e: PoolAccount.EnqueueResult, ghost s': Pool)
    requires Mirrors(s, id, a) && tx.nonce < U64
    modifies a
    ensures Mirrors(s', id, a) && s' == if e.Enqueued? then Next(s, Enqueued(id, tx)) else s
    ensures e == if |old(a.enqueued)| == a.maxEnqueued then PoolAccount.MaxEnqueuedLimitReached
                 else if tx.nonce < old(a.nextNonce) then PoolAccount.NonceTooLow else PoolAccount.Enqueued
    ensures multiset(a.enqueued) == multiset(old(a.enqueued)) + if e.Enqueued? then multiset{tx} else multiset{}
    ensures a.promoted == old(a.promoted) && a.nextNonce == old(a.nextNonce)
  {
    e := a.Enqueue(tx);
    s' := if e.Enqueued? then Next(s, Enqueued(id, tx)) else s;
  }

  /** handlePromoteRequest under the lock: what is pruned is owed to the gauge. */
  method Promote(a: Account, id: nat, ghost s: Pool) returns (moved: seq<Tx>, pruned: seq<Tx>, ghost s': Pool)
    requires Mirrors(s, id, a)
    modifies a
    ensures PoolAccount.Promotes(old(a.enqueued), old(a.nextNonce), moved, pruned, a.enqueued)
    ensures multiset(a.promoted) == multiset(old(a.promoted)) + multiset(moved)
    ensures old(a.nextNonce) + |moved| == U64 || !PoolAccount.Has(a.enqueued, old(a.nextNonce) + |moved|)
    ensures Enabled(s, Pruned(id, multiset(pruned))) && s' == Next(s, Pruned(id, multiset(pruned))) &&
            Mirrors(s', id, a)
  {
    ghost var held := HeldBy(a);
    moved, pruned := a.Promote();
    assert held == HeldBy(a) + multiset(pruned);
    s' := Next(s, Pruned(id, multiset(pruned)));
  }

  /** resetAccounts under the locks of one account: what both queues lose is owed to the gauge. */
  method Reset(a: Account, id: nat, nonce: nat, ghost s: Pool) returns (pruned: seq<Tx>, ghost s': Pool)
    requires Mirrors(s, id, a) && nonce < U64
    modifies a
    ensures forall t :: t in a.promoted || t in a.enqueued ==> nonce <= t.nonce
    ensures old(HeldBy(a)) == HeldBy(a) + multiset(pruned) && forall t :: t in pruned ==> t.nonce < nonce
    ensures Enabled(s, Pruned(id, multiset(pruned))) && s' == Next(s, Pruned(id, multiset(pruned))) &&
            Mirrors(s', id, a)
  {
    ghost var held := HeldBy(a);
    var promoted, enqueued, _ := a.Reset(nonce);
    pruned := promoted + enqueued;
    assert held == HeldBy(a) + multiset(pruned);
    s' := Next(s, Pruned(id, multiset(pruned)));
  }

  function SlotsTaken(taken: seq<Tx>): nat {
    if taken == [] then 0 else Slots(taken[0])
  }

  lemma {:induction false} SumsToSlotsTaken(taken: seq<Tx>)
    requires |taken| <= 1
    ensures SumOf(multiset(taken)) == SlotsTaken(taken)
  {
    if taken != [] {
      assert taken == [taken[0]];
      SumPick(multiset{taken[0]}, taken[0]);
      assert multiset{taken[0]} - multiset{taken[0]} == multiset{};
    }
  }

  /** TxPool.Pop takes the account's head, whichever that is by now, if any, and lowers the gauge by the slots of the
      transaction it was given: the balance survives exactly when the two agree. */
  method Pop(a: Account, id: nat, given: Tx, ghost s: Pool) returns (taken: seq<Tx>, ghost s': Pool)
    requires Mirrors(s, id, a)
    modifies a
    ensures taken == if old(a.promoted) == [] then [] else [old(a.promoted)[0]]
    ensures var st := Popped(id, multiset(taken), given); Enabled(s, st) && s' == Next(s, st) && Mirrors(s', id, a)
    ensures InBalance(s) ==> (InBalance(s') <==> SlotsTaken(taken) % U64 == Slots(given) % U64)
  {
    ghost var held := HeldBy(a);
    taken := a.PopPromoted();
    assert held == HeldBy(a) + multiset(taken);
    s' := Next(s, Popped(id, multiset(taken), given));
    SumsToSlotsTaken(taken);
    if InBalance(s) {
      StepBalancesIff(s, Popped(id, multiset(taken), given));
    }
  }

  /** Drop lowers the gauge by everything it clears. */
  method Drop(a: Account, id: nat, nonce: nat, ghost s: Pool) returns (dropped: seq<Tx>, ghost s': Pool)
    requires Mirrors(s, id, a) && nonce < U64
    modifies a
    ensures Enabled(s, Cleared(id, multiset(dropped))) && s' == Next(s, Cleared(id, multiset(dropped))) &&
            Mirrors(s', id, a)
  {
    ghost var held := HeldBy(a);
    dropped := a.Drop(nonce);
    assert held == HeldBy(a) + multiset(dropped);
    s' := Next(s, Cleared(id, multiset(dropped)));
  }

  method PruneHole(a: Account, id: nat, ghost s: Pool) returns (removed: seq<Tx>, ghost s': Pool)
    requires Mirrors(s, id, a)
    modifies a
    ensures Enabled(s, Cleared(id, multiset(removed))) && s' == Next(s, Cleared(id, multiset(removed))) &&
            Mirrors(s', id, a)
  {
    ghost var held := HeldBy(a);
    removed := a.PruneHole();
    assert held == HeldBy(a) + multiset(removed);
    s' := Next(s, Cleared(id, multiset(removed)));
  }

  datatype Action =
    | DoEnqueue(tx: Tx) | DoPromote | DoReset(nonce: nat) | DoPop(given: Tx) | DoDrop(nonce: nat) | DoPruneHole
    | Pay(slots: nat) | PayBack(slots: nat)

  /** One action on the account or one owed change of the gauge keeps the gauge in balance with all queues, unless it is
      a Pop that takes other slots than those of the transaction it was given. */
  method Act(a: Account, id: nat, act: Action, ghost s: Pool) returns (ghost st: Step, ghost s': Pool)
    requires Mirrors(s, id, a) && Possible(act)
    modifies a
    ensures StepsTo(s, st, s') && Mirrors(s', id, a)
  {
    st, s' := Created(id), s;
    match act {
      case DoEnqueue(tx) =>
        var e;
        e, s' := Enqueue(a, id, tx, s);
        st := if e.Enqueued? then Enqueued(id, tx) else st;
      case DoPromote =>
        var moved, pruned;
        moved, pruned, s' := Promote(a, id, s);
        st := Pruned(id, multiset(pruned));
      case DoReset(nonce) =>
        var pruned;
        pruned, s' := Reset(a, id, nonce, s);
        st := Pruned(id, multiset(pruned));
      case DoPop(given) =>
        var taken;
        taken, s' := Pop(a, id, given, s);
        st := Popped(id, multiset(taken), given);
      case DoDrop(nonce) =>
        var dropped;
        dropped, s' := Drop(a, id, nonce, s);
        st := Cleared(id, multiset(dropped));
      case DoPruneHole =>
        var removed;
        removed, s' := PruneHole(a, id, s);
        st := Cleared(id, multiset(removed));
      case Pay(n) =>
        if n <= s.owedInc {
          st, s' := Increase(n), Next(s, Increase(n));
        }
      case PayBack(n) =>
        if n <= s.owedDec {
          st, s' := Decrease(n), Next(s, Decrease(n));
        }
    }
    if InBalance(s) {
      StepBalancesIff(s, st);
    }
  }

  /** Nonces are uint64. */
  predicate Possible(act: Action) {
    match act
    case DoEnqueue(tx) => tx.nonce < U64
    case DoReset(n) => n < U64
    case DoDrop(n) => n < U64
    case _ => true
  }

  /** The step leads from `s` to `s'`, and keeps the balance exactly when it is not such a Pop. */
  ghost predicate StepsTo(s: Pool, st: Step, s': Pool) {
    Enabled(s, st) && s' == Next(s, st) && (InBalance(s) ==> (InBalance(s') <==> HeadGiven(st)))
  }

  ghost predicate Leads(pools: seq<Pool>, steps: seq<Step>) {
    |pools| == |steps| + 1 && forall i :: 0 <= i < |steps| ==> StepsTo(pools[i], steps[i], pools[i + 1])
  }

  lemma {:induction false} LeadsOn(pools: seq<Pool>, steps: seq<Step>, st: Step, s': Pool)
    requires Leads(pools, steps) && StepsTo(pools[|steps|], st, s')
    ensures Leads(pools + [s'], steps + [st])
  {}

  lemma {:induction false} BalancedThroughout(pools: seq<Pool>, steps: seq<Step>, k: nat)
    requires Leads(pools, steps) && InBalance(pools[0]) && k <= |steps|
    requires forall i :: 0 <= i < k ==> HeadGiven(steps[i])
    ensures InBalance(pools[k])
  {
    if k > 0 {
      BalancedThroughout(pools, steps, k - 1);
    }
  }

  /** Every interleaving of an account's steps and owed changes, in a pool with any other accounts, is a run of the
      transition system; it leaves the gauge in balance if every Pop takes as many slots as it was given. */
  method Interleave(a: Account, id: nat, acts: seq<Action>, ghost s: Pool)
    returns (ghost pools: seq<Pool>, ghost steps: seq<Step>)
    requires Mirrors(s, id, a) && InBalance(s) && forall i :: 0 <= i < |acts| ==> Possible(acts[i])
    modifies a
    ensures |steps| == |acts| && Leads(pools, steps) && pools[0] == s && Mirrors(pools[|acts|], id, a)
    ensures (forall i :: 0 <= i < |steps| ==> HeadGiven(steps[i])) ==> InBalance(pools[|acts|])
  {
    pools, steps := [s], [];
    ghost var now := s;
    for i := 0 to |acts|
      invariant |steps| == i && Leads(pools, steps) && pools[0] == s && pools[i] == now && Mirrors(now, id, a)
    {
      ghost var st, s' := Act(a, id, acts[i], now);
      LeadsOn(pools, steps, st, s');
      pools, steps, now := pools + [s'], steps + [st], s';
    }
    if forall i :: 0 <= i < |steps| ==> HeadGiven(steps[i]) {
      BalancedThroughout(pools, steps, |steps|);
    }
  }

  lemma {:induction false} TakesTheOne(tx: Tx, from: seq<Tx>, moved: seq<Tx>, pruned: seq<Tx>, left: seq<Tx>)
    requires tx.nonce < U64 - 1 && multiset(from) == multiset{tx} && !PoolAccount.Has(left, tx.nonce + |moved|)
    requires PoolAccount.Promotes(from, tx.nonce, moved, pruned, left)
    ensures left == [] && pruned == [] && moved == [tx]
  {
    assert tx in multiset(from);
    if moved == [] {
      PoolAccount.NotYetMoved(from, tx.nonce, moved, pruned, left, tx);
      assert false;
    }
    assert |multiset(from)| == 1 == |multiset(left)| + |multiset(moved)| + |multiset(pruned)|;
    assert moved[0] in multiset(moved) && moved[0] in multiset{tx};
  }

  function Holding(id: nat, txs: multiset<Tx>, height: nat): Pool {
    Pool(map[id := txs], height, 0, 0)
  }

  lemma {:induction false} Submitted(id: nat, tx: Tx)
    requires Slots(tx) < U64
    ensures var s := Next(Holding(id, multiset{}, 0), Enqueued(id, tx));
            && Enabled(s, Increase(Slots(tx)))
            && Next(s, Increase(Slots(tx))) == Holding(id, multiset{tx}, Slots(tx))
  {
    assert multiset{} + multiset{tx} == multiset{tx};
    assert map[id := multiset{}][id := multiset{tx}] == map[id := multiset{tx}];
  }

  lemma {:induction false} PrunesNothing(id: nat, tx: Tx)
    ensures var s := Holding(id, multiset{tx}, Slots(tx));
            Enabled(s, Pruned(id, multiset{})) && Next(s, Pruned(id, multiset{})) == s
  {
    assert multiset{tx} - multiset{} == multiset{tx};
    assert map[id := multiset{tx}][id := multiset{tx}] == map[id := multiset{tx}];
  }

  lemma {:induction false} PrunedAndPaid(id: nat, tx: Tx)
    requires Slots(tx) < U64
    ensures var s := Next(Holding(id, multiset{tx}, Slots(tx)), Pruned(id, multiset{tx}));
            && Enabled(s, Decrease(Slots(tx)))
            && Next(s, Decrease(Slots(tx))) == Holding(id, multiset{}, 0)
  {
    SumsToSlotsTaken([tx]);
    assert multiset([tx]) == multiset{tx} && multiset{tx} - multiset{tx} == multiset{};
    assert map[id := multiset{tx}][id := multiset{}] == map[id := multiset{}];
    DecreasedSubtracts(Slots(tx), Slots(tx));
  }

  lemma {:induction false} EmptyIsBalanced(id: nat)
    ensures InBalance(Holding(id, multiset{}, 0))
  {
    var held := map[id := multiset{}];
    TotalPick(held, held.Keys, id);
    assert held.Keys - {id} == {};
    assert Level(0, Total(held, held.Keys), 0, 0, 0);
  }

  lemma {:induction false} PopsBelowZero(id: nat, tx: Tx)
    requires 0 < Slots(tx) < U64
    ensures var s := Next(Holding(id, multiset{}, 0), Popped(id, multiset{}, tx));
            s.height == U64 - Slots(tx) && s.owedInc == 0 && s.owedDec == 0
  {
    DecreasedSubtracts(0, Slots(tx));
  }

  /** A transaction goes through the pool to the promoted queue; nothing is owed for it. */
  method Submit(tx: Tx, id: nat) returns (a: Account, ghost s: Pool)
    requires tx.nonce < U64 - 1 && Slots(tx) < U64
    ensures fresh(a) && a.enqueued == [] && multiset(a.promoted) == multiset{tx}
    ensures Mirrors(s, id, a) && s == Holding(id, multiset{tx}, Slots(tx))
  {
    a := new PoolAccount.Account(tx.nonce, 1);
    s := Holding(id, multiset{}, 0);
    var e, moved, pruned;
    e, s := Enqueue(a, id, tx, s);
    Submitted(id, tx);
    s := Next(s, Increase(Slots(tx)));
    ghost var from := a.enqueued;
    moved, pruned, s := Promote(a, id, s);
    TakesTheOne(tx, from, moved, pruned, a.enqueued);
    PrunesNothing(id, tx);
  }

  lemma {:induction false} AllPruned(tx: Tx, a: seq<Tx>, b: seq<Tx>, pruned: seq<Tx>)
    requires multiset{tx} == multiset(a) + multiset(b) + multiset(pruned)
    requires forall t :: t in a || t in b ==> tx.nonce < t.nonce
    ensures a == [] && b == [] && multiset(pruned) == multiset{tx}
  {
    forall t ensures multiset(a)[t] == 0 && multiset(b)[t] == 0 {
      assert multiset{tx}[t] == multiset(a)[t] + multiset(b)[t] + multiset(pruned)[t];
    }
    assert multiset(a) == multiset{} == multiset(b);
    assert |multiset(a)| == |a| && |multiset(b)| == |b|;
  }

  /** A reset past its nonce prunes it, and the gauge is lowered for it. */
  method Lapse(a: Account, tx: Tx, id: nat, ghost s: Pool) returns (ghost s': Pool)
    requires tx.nonce < U64 - 1 && Slots(tx) < U64
    requires Mirrors(s, id, a) && s == Holding(id, multiset{tx}, Slots(tx))
    modifies a
    ensures Mirrors(s', id, a) && s' == Holding(id, multiset{}, 0) && a.enqueued == [] && a.promoted == []
  {
    var pruned;
    pruned, s' := Reset(a, id, tx.nonce + 1, s);
    AllPruned(tx, a.enqueued, a.promoted, pruned);
    PrunedAndPaid(id, tx);
    s' := Next(s', Decrease(Slots(tx)));
  }

  /** A run that leaves the gauge off: the transaction is peeked at, a reset prunes it, and the Pop of it that follows
      finds the queue empty and lowers the gauge all the same. Nothing is queued or owed, and the gauge is not 0. */
  method StalePop(tx: Tx, id: nat) returns (a: Account, ghost s: Pool)
    requires tx.nonce < U64 - 1 && 0 < Slots(tx) < U64
    ensures a.enqueued == [] && a.promoted == [] && s.owedInc == 0 && s.owedDec == 0
    ensures Mirrors(s, id, a) && s.height == U64 - Slots(tx) && !InBalance(s)
  {
    a, s := Submit(tx, id);
    assert a.promoted[0] in multiset(a.promoted) && a.promoted[0] == tx;
    var peeked := a.promoted[0];
    s := Lapse(a, tx, id, s);
    EmptyIsBalanced(id);
    PopsBelowZero(id, tx);
    var taken;
    taken, s := Pop(a, id, peeked, s);
  }
}
