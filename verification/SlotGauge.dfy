/** The slot gauge of the transaction pool under every interleaving of its handlers: modulo 2^64 the gauge is the
    number of slots of all queued transactions, less the increments and plus the decrements still to come. */
module SlotGauge {
  import opened Common
  import opened TxQueue

  const SLOT_SIZE: nat := 32 * 1024

  function Slots(t: Tx): nat {
    (t.size + SLOT_SIZE - 1) / SLOT_SIZE
  }

  /** The fewest slots of 32 KiB that hold the transaction. */
  lemma {:induction false} SlotsHold(t: Tx, n: nat)
    ensures t.size <= n * 32768 <==> Slots(t) <= n
  {}

  // ---------- Sums of slots ----------

  ghost function SumOf(m: multiset<Tx>): nat {
    if m == multiset{} then 0 else
      var t :| t in m;
      Slots(t) + SumOf(m - multiset{t})
  }

  lemma {:induction false} SumPick(m: multiset<Tx>, t: Tx)
    requires t in m
    ensures SumOf(m) == Slots(t) + SumOf(m - multiset{t})
    decreases |m|
  {
    var x :| x in m && SumOf(m) == Slots(x) + SumOf(m - multiset{x});
    if x != t {
      SumPick(m - multiset{x}, t);
      SumPick(m - multiset{t}, x);
      assert m - multiset{x} - multiset{t} == m - multiset{t} - multiset{x};
    }
  }

  lemma {:induction false} SumAdds(m: multiset<Tx>, n: multiset<Tx>)
    ensures SumOf(m + n) == SumOf(m) + SumOf(n)
    decreases |n|
  {
    if n == multiset{} {
      assert m + n == m;
    } else {
      var t :| t in n;
      SumAdds(m, n - multiset{t});
      SumPick(n, t);
      SumPick(m + n, t);
      assert m + n - multiset{t} == m + (n - multiset{t});
    }
  }

  lemma {:induction false} SumPush(xs: seq<Tx>, t: Tx)
    ensures SumOf(multiset(xs + [t])) == SumOf(multiset(xs)) + Slots(t)
  {
    SumAdds(multiset(xs), multiset{t});
    SumPick(multiset{t}, t);
    assert multiset{t} - multiset{t} == multiset{};
  }

  lemma {:induction false} SumTake(txs: seq<Tx>, i: nat)
    requires i < |txs|
    ensures SumOf(multiset(txs[..i + 1])) == SumOf(multiset(txs[..i])) + Slots(txs[i])
  {
    assert txs[..i + 1] == txs[..i] + [txs[i]];
    SumPush(txs[..i], txs[i]);
  }

  lemma {:induction false} AddWraps(x: nat, y: nat, wrapped: nat, sum: nat)
    requires wrapped == x % U64 && sum == x + y
    ensures (wrapped + y) % U64 == sum % U64
  {
    var turns := Residue(x);
    SameResidue(sum, wrapped + y, turns);
  }

  /** slotsRequired: the accumulating loop wraps as unsigned addition does. */
  method SlotsRequired(txs: seq<Tx>) returns (slots: nat)
    ensures slots == SumOf(multiset(txs)) % U64
  {
    slots := 0;
    ghost var sum := 0;
    for i := 0 to |txs|
      invariant sum == SumOf(multiset(txs[..i])) && slots == sum % U64
    {
      SumTake(txs, i);
      var more := Slots(txs[i]);
      AddWraps(sum, more, slots, sum + more);
      slots, sum := (slots + more) % U64, sum + more;
    }
    assert txs[..|txs|] == txs;
  }

  // ---------- The gauge ----------

  function Increased(height: nat, slots: nat): nat {
    (height + slots) % U64
  }

  /** Adding the complement of slots - 1, as AddUint64(&h, ^(slots - 1)) does. */
  function Decreased(height: nat, slots: nat): nat {
    (height + (U64 - 1 - (slots - 1) % U64)) % U64
  }

  /** decrease subtracts modulo 2^64, for zero slots too. */
  lemma {:induction false} DecreasedSubtracts(height: nat, slots: nat)
    requires height < U64 && slots < U64
    ensures Decreased(height, slots) == if slots <= height then height - slots else height + U64 - slots
  {
    if slots == 0 {
      assert (slots - 1) % U64 == U64 - 1;
    } else {
      assert (slots - 1) % U64 == slots - 1;
    }
  }

  ghost predicate Level(height: nat, total: nat, owedInc: nat, owedDec: nat, turns: int) {
    height + owedInc == total + owedDec + turns * U64
  }

  /** height + owed increments and total + owed decrements differ by whole turns of the counter. */
  ghost predicate Balanced(height: nat, total: nat, owedInc: nat, owedDec: nat) {
    height < U64 && exists turns :: Level(height, total, owedInc, owedDec, turns)
  }

  lemma {:induction false} Residue(slots: nat) returns (turns: nat)
    ensures slots == slots % U64 + turns * U64 && slots % U64 < U64
  {
    turns := slots / U64;
  }

  lemma {:induction false} SameResidue(x: int, y: int, turns: int)
    requires x == y + turns * U64
    ensures x % U64 == y % U64
  {}

  lemma {:induction false} BalancedIncrease(height: nat, total: nat, inc: nat, dec: nat, slots: nat)
    requires Balanced(height, total, inc + slots, dec)
    ensures Balanced(Increased(height, slots % U64), total, inc, dec)
  {
    var owed := inc + slots;
    var turns: int :| Level(height, total, owed, dec, turns);
    var k: int := Residue(slots);
    var wrapped: int := if height + slots % U64 < U64 then 0 else 1;
    assert Level(Increased(height, slots % U64), total, inc, dec, turns - k - wrapped);
  }

  lemma {:induction false} BalancedDecrease(height: nat, total: nat, inc: nat, dec: nat, slots: nat)
    requires Balanced(height, total, inc, dec + slots)
    ensures Balanced(Decreased(height, slots % U64), total, inc, dec)
  {
    var owed := dec + slots;
    var turns: int :| Level(height, total, inc, owed, turns);
    var k: int := Residue(slots);
    DecreasedSubtracts(height, slots % U64);
    var wrapped: int := if slots % U64 <= height then 0 else 1;
    assert Level(Decreased(height, slots % U64), total, inc, dec, turns + k + wrapped);
  }

  /** Popping `popped` slots from the queue while the gauge is lowered by those of another transaction keeps
      the balance exactly when the two agree modulo 2^64. */
  lemma {:induction false} PopBalancedIff(height: nat, queued: nat, total: nat, inc: nat, dec: nat, popped: nat,
                                          given: nat)
    requires Balanced(height, queued, inc, dec) && queued == total + popped
    ensures Balanced(Decreased(height, given % U64), total, inc, dec) <==> popped % U64 == given % U64
  {
    var turns: int :| Level(height, queued, inc, dec, turns);
    var k: int := Residue(given);
    DecreasedSubtracts(height, given % U64);
    var wrapped: int := if given % U64 <= height then 0 else 1;
    var lowered := Decreased(height, given % U64);
    if popped % U64 == given % U64 {
      var j: int := Residue(popped);
      assert Level(lowered, total, inc, dec, turns + j + wrapped);
    }
    if Balanced(lowered, total, inc, dec) {
      var turns': int :| Level(lowered, total, inc, dec, turns');
      SameResidue(popped, given, turns' - turns - wrapped - k);
    }
  }

  /** With no handler in flight the gauge is exact. */
  lemma {:induction false} QuiescentIsExact(height: nat, total: nat)
    requires Balanced(height, total, 0, 0) && total < U64
    ensures height == total
  {
    var turns: int :| Level(height, total, 0, 0, turns);
  }

  // ---------- The pool as a transition system ----------

  ghost function Total(held: map<nat, multiset<Tx>>, s: set<nat>): nat
    requires s <= held.Keys
  {
    if s == {} then 0 else
      var a :| a in s;
      SumOf(held[a]) + Total(held, s - {a})
  }

  lemma {:induction false} TotalPick(held: map<nat, multiset<Tx>>, s: set<nat>, a: nat)
    requires s <= held.Keys && a in s
    ensures Total(held, s) == SumOf(held[a]) + Total(held, s - {a})
    decreases s
  {
    var x :| x in s && Total(held, s) == SumOf(held[x]) + Total(held, s - {x});
    if x != a {
      TotalPick(held, s - {x}, a);
      TotalPick(held, s - {a}, x);
      assert s - {x} - {a} == s - {a} - {x};
    }
  }

  lemma {:induction false} TotalSame(held: map<nat, multiset<Tx>>, held': map<nat, multiset<Tx>>, s: set<nat>)
    requires s <= held.Keys && s <= held'.Keys && forall a :: a in s ==> held[a] == held'[a]
    ensures Total(held, s) == Total(held', s)
    decreases s
  {
    if s != {} {
      var a :| a in s;
      TotalPick(held, s, a);
      TotalPick(held', s, a);
      TotalSame(held, held', s - {a});
    }
  }

  /** Only the queues of account `a` change. */
  lemma {:induction false} TotalUpdate(held: map<nat, multiset<Tx>>, a: nat, m: multiset<Tx>)
    requires a in held
    ensures var held' := held[a := m];
            Total(held', held'.Keys) + SumOf(held[a]) == Total(held, held.Keys) + SumOf(m)
  {
    var held' := held[a := m];
    assert held'.Keys == held.Keys;
    TotalPick(held, held.Keys, a);
    TotalPick(held', held.Keys, a);
    TotalSame(held, held', held.Keys - {a});
  }

  lemma {:induction false} TotalNew(held: map<nat, multiset<Tx>>, a: nat)
    requires a !in held
    ensures var held' := held[a := multiset{}]; Total(held', held'.Keys) == Total(held, held.Keys)
  {
    var held' := held[a := multiset{}];
    TotalPick(held', held'.Keys, a);
    assert held'.Keys - {a} == held.Keys;
    TotalSame(held, held', held.Keys);
  }

  /** The pool seen by the gauge: what each account's queues hold, the gauge, and the changes that handlers
      owe it because they make them after releasing the account's lock. */
  datatype Pool = Pool(held: map<nat, multiset<Tx>>, height: nat, owedInc: nat, owedDec: nat)

  /** The handlers cut at their locks: createAccountOnce; account.enqueue; account.promote and account.reset with
      the transactions they pruned; Drop and hole pruning, which lower the gauge under the lock; Pop, which takes
      the head, if any, but lowers the gauge by the slots of the transaction it was given; and the owed changes. */
  datatype Step =
    | Created(a: nat)
    | Enqueued(a: nat, tx: Tx)
    | Pruned(a: nat, txs: multiset<Tx>)
    | Cleared(a: nat, txs: multiset<Tx>)
    | Popped(a: nat, txs: multiset<Tx>, given: Tx)
    | Increase(slots: nat)
    | Decrease(slots: nat)

  ghost predicate Enabled(s: Pool, st: Step) {
    match st
    case Created(a) => true
    case Enqueued(a, _) => a in s.held
    case Pruned(a, m) => a in s.held && m <= s.held[a]
    case Cleared(a, m) => a in s.held && m <= s.held[a]
    case Popped(a, m, _) => a in s.held && m <= s.held[a]
    case Increase(n) => n <= s.owedInc
    case Decrease(n) => n <= s.owedDec
  }

  ghost function Next(s: Pool, st: Step): Pool
    requires Enabled(s, st)
  {
    match st
    case Created(a) => if a in s.held then s else s.(held := s.held[a := multiset{}])
    case Enqueued(a, t) => s.(held := s.held[a := s.held[a] + multiset{t}], owedInc := s.owedInc + Slots(t))
    case Pruned(a, m) => s.(held := s.held[a := s.held[a] - m], owedDec := s.owedDec + SumOf(m))
    case Cleared(a, m) => s.(held := s.held[a := s.held[a] - m], height := Decreased(s.height, SumOf(m) % U64))
    case Popped(a, m, t) => s.(held := s.held[a := s.held[a] - m], height := Decreased(s.height, Slots(t) % U64))
    case Increase(n) => s.(height := Increased(s.height, n % U64), owedInc := s.owedInc - n)
    case Decrease(n) => s.(height := Decreased(s.height, n % U64), owedDec := s.owedDec - n)
  }

  ghost predicate InBalance(s: Pool) {
    Balanced(s.height, Total(s.held, s.held.Keys), s.owedInc, s.owedDec)
  }

  /** Taking `m` out of one account's queues lowers the total by the slots of `m`. */
  lemma {:induction false} TotalTakes(held: map<nat, multiset<Tx>>, a: nat, m: multiset<Tx>)
    requires a in held && m <= held[a]
    ensures var held' := held[a := held[a] - m]; Total(held', held'.Keys) + SumOf(m) == Total(held, held.Keys)
  {
    assert held[a] == (held[a] - m) + m;
    SumAdds(held[a] - m, m);
    TotalUpdate(held, a, held[a] - m);
  }

  lemma {:induction false} TotalGains(held: map<nat, multiset<Tx>>, a: nat, t: Tx)
    requires a in held
    ensures var held' := held[a := held[a] + multiset{t}]; Total(held', held'.Keys) == Total(held, held.Keys) + Slots(t)
  {
    SumAdds(held[a], multiset{t});
    SumPick(multiset{t}, t);
    assert multiset{t} - multiset{t} == multiset{};
    TotalUpdate(held, a, held[a] + multiset{t});
  }

  /** A Pop lowers the gauge by as much as it takes from the queue. */
  ghost predicate HeadGiven(st: Step) {
    st.Popped? ==> SumOf(st.txs) % U64 == Slots(st.given) % U64
  }

  lemma {:induction false} LevelShifts(s: Pool, s': Pool)
    requires InBalance(s) && s'.height == s.height
    requires s'.owedInc - Total(s'.held, s'.held.Keys) - s'.owedDec ==
             s.owedInc - Total(s.held, s.held.Keys) - s.owedDec
    ensures InBalance(s')
  {
    var turns: int :| Level(s.height, Total(s.held, s.held.Keys), s.owedInc, s.owedDec, turns);
    assert Level(s'.height, Total(s'.held, s'.held.Keys), s'.owedInc, s'.owedDec, turns);
  }

  /** Enqueueing and pruning leave height + owed increments and total + owed decrements as far apart as before. */
  lemma {:induction false} QueueStepBalances(s: Pool, st: Step)
    requires Enabled(s, st) && InBalance(s) && (st.Created? || st.Enqueued? || st.Pruned?)
    ensures InBalance(Next(s, st))
  {
    match st {
      case Created(a) => if a !in s.held { TotalNew(s.held, a); }
      case Enqueued(a, t) =>
        TotalGains(s.held, a, t);
        LevelShifts(s, Next(s, st));
      case Pruned(a, m) =>
        TotalTakes(s.held, a, m);
        LevelShifts(s, Next(s, st));
      case Cleared(_, _) =>
      case Popped(_, _, _) =>
      case Increase(_) =>
      case Decrease(_) =>
    }
  }

  /** Taking `m` while lowering the gauge by `given` slots. */
  lemma {:induction false} TakeBalancesIff(s: Pool, a: nat, m: multiset<Tx>, given: nat)
    requires a in s.held && m <= s.held[a] && InBalance(s)
    ensures InBalance(s.(held := s.held[a := s.held[a] - m], height := Decreased(s.height, given % U64))) <==>
            SumOf(m) % U64 == given % U64
  {
    var held' := s.held[a := s.held[a] - m];
    TotalTakes(s.held, a, m);
    PopBalancedIff(s.height, Total(s.held, s.held.Keys), Total(held', held'.Keys), s.owedInc, s.owedDec, SumOf(m),
                   given);
  }

  lemma {:induction false} OwedStepBalances(s: Pool, st: Step)
    requires Enabled(s, st) && InBalance(s) && (st.Increase? || st.Decrease?)
    ensures InBalance(Next(s, st))
  {
    var total := Total(s.held, s.held.Keys);
    if st.Increase? {
      BalancedIncrease(s.height, total, s.owedInc - st.slots, s.owedDec, st.slots);
    } else {
      BalancedDecrease(s.height, total, s.owedInc, s.owedDec - st.slots, st.slots);
    }
  }

  /** A step keeps the balance exactly when it is not a Pop of something other than what it was given. */
  lemma {:induction false} StepBalancesIff(s: Pool, st: Step)
    requires Enabled(s, st) && InBalance(s)
    ensures InBalance(Next(s, st)) <==> HeadGiven(st)
  {
    if st.Cleared? {
      TakeBalancesIff(s, st.a, st.txs, SumOf(st.txs));
    } else if st.Popped? {
      TakeBalancesIff(s, st.a, st.txs, Slots(st.given));
    } else if st.Increase? || st.Decrease? {
      OwedStepBalances(s, st);
    } else {
      QueueStepBalances(s, st);
    }
  }

  ghost predicate Runs(s: Pool, steps: seq<Step>)
    decreases |steps|
  {
    steps != [] ==> Enabled(s, steps[0]) && HeadGiven(steps[0]) && Runs(Next(s, steps[0]), steps[1..])
  }

  ghost function After(s: Pool, steps: seq<Step>): Pool
    requires Runs(s, steps)
    decreases |steps|
  {
    if steps == [] then s else After(Next(s, steps[0]), steps[1..])
  }

  /** Through every interleaving in which Pop is given the queue head, and exact when nothing is owed. */
  lemma {:induction false} GaugeTracksQueues(s: Pool, steps: seq<Step>)
    requires InBalance(s) && Runs(s, steps)
    ensures var s' := After(s, steps);
            && InBalance(s')
            && (s'.owedInc == 0 && s'.owedDec == 0 && Total(s'.held, s'.held.Keys) < U64 ==>
                  s'.height == Total(s'.held, s'.held.Keys))
    decreases |steps|
  {
    if steps == [] {
      if s.owedInc == 0 && s.owedDec == 0 && Total(s.held, s.held.Keys) < U64 {
        QuiescentIsExact(s.height, Total(s.held, s.held.Keys));
      }
    } else {
      StepBalancesIff(s, steps[0]);
      GaugeTracksQueues(Next(s, steps[0]), steps[1..]);
    }
  }
}
