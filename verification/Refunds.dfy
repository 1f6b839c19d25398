/** The refund counter over whole runs: with net metering SubRefund never goes below zero in a transaction exactly when
    no slot that held a value before the block has been cleared by an earlier transaction of the block. */
module Refunds {
  import opened Common
  import opened World
  import opened Reads

  /** The slots that held a value before the block and hold zero now. */
  ghost function Cleared(t: Tree): set<(Address, Key)> {
    set a, k | a in t.objs && k in t.objs[a].storage && ClearedIn(t.objs[a], k) :: (a, k)
  }

  predicate ClearedIn(o: Obj, k: Key) {
    !o.deleted && k in o.storage && o.storage[k] == 0 && StorageAt(o.account.root, k) != 0
  }

  lemma {:induction false} ClearedMeans(base: Base, t: Tree, a: Address, k: Key)
    ensures (a, k) in Cleared(t) <==> CommittedOf(base, t, a, k) != 0 && StateOf(base, t, a, k) == 0
  {}

  /** The operations of one transaction: all SetStorage run under the same forks, nothing writes storage
      around the metering, and the tree is not cleaned. */
  predicate InTx(forks: Forks, op: Op) {
    match op
    case DoSetStorage(f, _, _, _) => f == forks
    case DoEdit(_, e) => !e.SetState?
    case DoClean(_) => false
    case _ => true
  }

  /** The most one operation can add to the counter. */
  function Grant(op: Op): nat {
    match op
    case DoSetStorage(_, _, _, _) => 19800
    case DoAddRefund(g) => g
    case _ => 0
  }

  function Granted(ops: seq<Op>): nat {
    if ops == [] then 0 else Grant(ops[0]) + Granted(ops[1..])
  }

  /** Each cleared slot is paid for. */
  ghost predicate Covered(t: Tree, bound: nat) {
    15000 * |Cleared(t)| <= t.refund <= bound
  }

  ghost predicate AllCovered(s: Overlay, bound: nat) {
    Covered(s.cur, bound) && forall j :: 0 <= j < |s.saved| ==> Covered(s.saved[j], bound)
  }

  predicate StepSafe(base: Base, t: Tree, op: Op) {
    op.DoSetStorage? &&
    TakesBack(op.forks, CommittedOf(base, t, op.a, op.key), StateOf(base, t, op.a, op.key), op.value)
    ==> 15000 <= t.refund
  }

  /** No SubRefund of the run wraps. */
  predicate RunSafe(base: Base, s: Overlay, ops: seq<Op>)
    requires Runs(|s.saved|, ops)
    decreases |ops|
  {
    ops != [] ==> StepSafe(base, s.cur, ops[0]) && RunSafe(base, Step(base, s, ops[0]), ops[1..])
  }

  lemma {:induction false} SubsetCovered(t: Tree, t': Tree, bound: nat)
    requires Covered(t, bound) && Cleared(t') <= Cleared(t) && t'.refund == t.refund
    ensures Covered(t', bound)
  {
    SubsetSize(Cleared(t'), Cleared(t));
  }

  /** Writing a whole object drops at most the cleared slots of that account. */
  lemma {:induction false} PutCleared(t: Tree, a: Address, o: Obj)
    requires forall k :: ClearedIn(o, k) ==> a in t.objs && ClearedIn(t.objs[a], k)
    ensures Cleared(Put(t, a, o)) <= Cleared(t)
  {}

  lemma {:induction false} EditCleared(base: Base, t: Tree, a: Address, e: Edit)
    requires !e.SetState?
    ensures Cleared(Upsert(base, t, a, e)) <= Cleared(t)
  {
    if !(Lookup(base, t, a).None? && e.Suicide?) {
      var o := LookupOrNew(base, t, a);
      assert forall k :: ClearedIn(EditObj(o, e), k) ==> ClearedIn(o, k);
      PutCleared(t, a, EditObj(o, e));
    }
  }

  /** A storage write changes the cleared set at its own slot only. */
  lemma {:induction false} SetStateCleared(base: Base, t: Tree, a: Address, k: Key, v: Word)
    ensures var t' := Upsert(base, t, a, SetState(k, v));
            Cleared(t') == if v == 0 && CommittedOf(base, t, a, k) != 0 then Cleared(t) + {(a, k)}
              else Cleared(t) - {(a, k)}
  {
    var o := LookupOrNew(base, t, a);
    var o' := EditObj(o, SetState(k, v));
    var t' := Put(t, a, o');
    assert Upsert(base, t, a, SetState(k, v)) == t';
    forall b, j ensures (b, j) in Cleared(t') <==>
      if (b, j) == (a, k) then v == 0 && CommittedOf(base, t, a, k) != 0 else (b, j) in Cleared(t)
    {
      assert b in t'.objs ==> t'.objs[b] == if b == a then o' else t.objs[b];
    }
  }

  lemma {:induction false} MeteredCovered(forks: Forks, original: Word, current: Word, value: Word, refund: nat, n: nat,
                                          bound: nat)
    requires current != value && 15000 * n <= refund <= bound && bound + 19800 < U64
    requires original != 0 && current == 0 ==> 0 < n
    ensures TakesBack(forks, original, current, value) ==> 15000 <= refund
    ensures var n' := if original == 0 then n else if value == 0 then n + 1 else if current == 0 then n - 1 else n;
            15000 * n' <= Metered(forks, original, current, value, refund).0 <= bound + 19800
  {}

  lemma {:induction false} SetStorageCovered(forks: Forks, base: Base, t: Tree, a: Address, k: Key, v: Word, bound: nat)
    requires Covered(t, bound) && bound + 19800 < U64
    ensures StepSafe(base, t, DoSetStorage(forks, a, k, v))
    ensures Covered(SetStorage(forks, base, t, a, k, v).0, bound + 19800)
  {
    var current, original := StateOf(base, t, a, k), CommittedOf(base, t, a, k);
    if current != v {
      ClearedMeans(base, t, a, k);
      SetStateCleared(base, t, a, k, v);
      MeteredCovered(forks, original, current, v, t.refund, |Cleared(t)|, bound);
      assert Cleared(SetStorage(forks, base, t, a, k, v).0) == Cleared(Upsert(base, t, a, SetState(k, v)));
    }
  }

  lemma {:induction false} StepCovered(forks: Forks, base: Base, t: Tree, op: Op, bound: nat)
    requires Covered(t, bound) && InTx(forks, op) && bound + Grant(op) < U64
    ensures StepSafe(base, t, op) && Covered(TreeStep(base, t, op), bound + Grant(op))
  {
    match op {
      case DoEdit(a, e) =>
        EditCleared(base, t, a, e);
        SubsetCovered(t, Upsert(base, t, a, e), bound);
      case DoDebit(a, x) =>
        EditCleared(base, t, a, SubBalance(x));
        SubsetCovered(t, Upsert(base, t, a, SubBalance(x)), bound);
      case DoCreateAccount(a) =>
        var o := CreateAccount(base, t, a).objs[a];
        assert forall k :: !ClearedIn(o, k);
        PutCleared(t, a, o);
        SubsetCovered(t, CreateAccount(base, t, a), bound);
      case DoSetStorage(f, a, k, v) => SetStorageCovered(f, base, t, a, k, v, bound);
      case DoClean(_) =>
      case _ => assert Cleared(TreeStep(base, t, op)) == Cleared(t);
    }
  }

  /** Any interleaving of one transaction's operations, snapshots and reverts, from trees in which every
      cleared slot is paid for. */
  lemma {:induction false} CoveredRunIsSafe(forks: Forks, base: Base, s: Overlay, ops: seq<Op>, bound: nat)
    requires AllCovered(s, bound) && bound + Granted(ops) < U64
    requires (forall op :: op in ops ==> InTx(forks, op)) && Runs(|s.saved|, ops)
    ensures RunSafe(base, s, ops)
    ensures AllCovered(RunOps(base, s, ops), bound + Granted(ops))
    decreases |ops|
  {
    if ops != [] {
      StepCovered(forks, base, s.cur, ops[0], bound);
      CoveredRunIsSafe(forks, base, Step(base, s, ops[0]), ops[1..], bound + Grant(ops[0]));
    }
  }

  /** A run of one transaction whose refunds fit in 64 bits. */
  predicate TxRun(forks: Forks, ops: seq<Op>) {
    Runs(0, ops) && Granted(ops) < U64 && forall op :: op in ops ==> InTx(forks, op)
  }

  ghost predicate TransactionsSafe(forks: Forks, base: Base, t: Tree) {
    forall ops :: TxRun(forks, ops) ==> RunSafe(base, Overlay(t, []), ops)
  }

  lemma {:induction false} ClearedIsUnsafe(forks: Forks, base: Base, t: Tree, a: Address, k: Key)
    requires !LegacyMetering(forks) && t.refund == 0 && (a, k) in Cleared(t)
    ensures !TransactionsSafe(forks, base, t)
  {
    ClearedMeans(base, t, a, k);
    var ops := [DoSetStorage(forks, a, k, 1)];
    assert ops[1..] == [] && Runs(0, ops[1..]) && Granted(ops[1..]) == 0;
    assert Runs(0, ops) && Granted(ops) == 19800;
    assert TxRun(forks, ops);
    assert !StepSafe(base, t, ops[0]);
    assert !RunSafe(base, Overlay(t, []), ops);
  }

  lemma {:induction false} NothingClearedIsSafe(forks: Forks, base: Base, t: Tree)
    requires t.refund == 0 && Cleared(t) == {}
    ensures TransactionsSafe(forks, base, t)
  {
    forall ops | TxRun(forks, ops) ensures RunSafe(base, Overlay(t, []), ops) {
      CoveredRunIsSafe(forks, base, Overlay(t, []), ops, 0);
    }
  }

  ghost predicate AllBetween(s: Overlay, low: nat, high: nat) {
    low <= s.cur.refund <= high && forall j :: 0 <= j < |s.saved| ==> low <= s.saved[j].refund <= high
  }

  /** Under legacy metering a write pays exactly for setting a slot with a value to zero. */
  lemma {:induction false} LegacyStep(forks: Forks, base: Base, t: Tree, op: Op)
    requires LegacyMetering(forks) && InTx(forks, op) && t.refund + Grant(op) < U64
    ensures StepSafe(base, t, op)
    ensures TreeStep(base, t, op).refund == t.refund +
            match op
            case DoSetStorage(_, a, k, v) => if v == 0 && StateOf(base, t, a, k) != 0 then 15000 else 0
            case DoAddRefund(g) => g
            case _ => 0
  {}

  /** Any run of a transaction under legacy metering, whatever has been cleared: nothing is taken back, and the counter
      never falls below the lowest it had at the start or in a snapshot. */
  lemma {:induction false} LegacyOnlyGrants(forks: Forks, base: Base, s: Overlay, ops: seq<Op>, low: nat, high: nat)
    requires LegacyMetering(forks) && AllBetween(s, low, high) && high + Granted(ops) < U64
    requires (forall op :: op in ops ==> InTx(forks, op)) && Runs(|s.saved|, ops)
    ensures RunSafe(base, s, ops) && AllBetween(RunOps(base, s, ops), low, high + Granted(ops))
    decreases |ops|
  {
    if ops != [] {
      LegacyStep(forks, base, s.cur, ops[0]);
      LegacyOnlyGrants(forks, base, Step(base, s, ops[0]), ops[1..], low, high + Grant(ops[0]));
    }
  }

  /** At the start of a transaction: no continuation wraps if and only if metering is legacy or no slot is cleared
      already. */
  lemma {:induction false} SafeIffNothingCleared(forks: Forks, base: Base, t: Tree)
    requires t.refund == 0
    ensures TransactionsSafe(forks, base, t) <==> LegacyMetering(forks) || Cleared(t) == {}
  {
    if LegacyMetering(forks) {
      forall ops | TxRun(forks, ops) ensures RunSafe(base, Overlay(t, []), ops) {
        LegacyOnlyGrants(forks, base, Overlay(t, []), ops, 0, 0);
      }
    } else if Cleared(t) == {} {
      NothingClearedIsSafe(forks, base, t);
    } else {
      var slot :| slot in Cleared(t);
      ClearedIsUnsafe(forks, base, t, slot.0, slot.1);
    }
  }

  /** Two transactions of one block, over any account and slot with a value: the first clears the slot, the
      second writes a new value, and the counter ends 15000 below 2^64. */
  lemma {:induction false} SecondTransactionWraps(forks: Forks, base: Base, a: Address, k: Key, v: Word)
    requires !LegacyMetering(forks) && a in base && base[a].nonce != 0
    requires StorageAt(base[a].root, k) != 0 && v != 0 && v != StorageAt(base[a].root, k)
    ensures var ops := [DoSetStorage(forks, a, k, 0), DoClean(true), DoSetStorage(forks, a, k, v)];
            Runs(0, ops) && RunOps(base, Overlay(EMPTY_TREE, []), ops).cur.refund == U64 - 15000
  {
    var op1, op2, op3 := DoSetStorage(forks, a, k, 0), DoClean(true), DoSetStorage(forks, a, k, v);
    var ops := [op1, op2, op3];
    assert ops[1..] == [op2, op3] && [op2, op3][1..] == [op3] && [op3][1..] == [];
    assert Runs(0, [op3]) && Runs(0, [op2, op3]);
    var t1 := FirstTransaction(forks, base, a, k);
    var s2 := Overlay(CleanDelete(t1, true), []);
    SecondWrite(forks, base, s2.cur, a, k, v);
    var s3 := Overlay(SetStorage(forks, base, s2.cur, a, k, v).0, []);
    assert RunOps(base, s2, [op3]) == s3;
    assert RunOps(base, Overlay(t1, []), [op2, op3]) == s3;
  }

  lemma {:induction false} FirstTransaction(forks: Forks, base: Base, a: Address, k: Key) returns (t: Tree)
    requires !LegacyMetering(forks) && a in base && base[a].nonce != 0 && StorageAt(base[a].root, k) != 0
    ensures t == SetStorage(forks, base, EMPTY_TREE, a, k, 0).0
    ensures a in t.objs && CleanDelete(t, true).objs[a] == Obj(base[a], false, false, map[k := 0])
  {
    t := SetStorage(forks, base, EMPTY_TREE, a, k, 0).0;
    assert Lookup(base, EMPTY_TREE, a) == Some(Obj(base[a], false, false, map[]));
    assert t.objs[a] == Obj(base[a], false, false, map[k := 0]);
  }

  lemma {:induction false} SecondWrite(forks: Forks, base: Base, t: Tree, a: Address, k: Key, v: Word)
    requires !LegacyMetering(forks) && a in t.objs && t.refund == 0 && v != 0
    requires (a, k) in Cleared(t) && v != CommittedOf(base, t, a, k)
    ensures SetStorage(forks, base, t, a, k, v).0.refund == U64 - 15000
  {
    ClearedMeans(base, t, a, k);
  }

  // ---------- Exact laws ----------

  /** Net metering is on from Istanbul, and in Constantinople unless Petersburg took it back. */
  predicate NetMetering(forks: Forks) {
    forks.istanbul || (forks.constantinople && !forks.petersburg)
  }

  /** The status SetStorage answers, from the word before the block, the current one and the new one. */
  lemma {:induction false} StatusIff(forks: Forks, base: Base, t: Tree, a: Address, k: Key, v: Word)
    ensures var (t', status) := SetStorage(forks, base, t, a, k, v);
            var original, current, net := CommittedOf(base, t, a, k), StateOf(base, t, a, k), NetMetering(forks);
            && (status == StorageUnchanged <==> v == current)
            && (status == StorageModifiedAgain <==> v != current && net && original != current)
            && (status == StorageAdded <==> v != current && current == 0 && (net ==> original == 0))
            && (status == StorageDeleted <==> v == 0 && current != 0 && (net ==> original == current))
            && (status == StorageModified <==> v != current && v != 0 && current != 0 && (net ==> original == current))
            && (status == StorageUnchanged ==> t' == t)
  {}

  /** What a slot that holds `w` has in the counter: 15000 if it held a value before the block and is zero now. */
  function Cleaning(original: Word, w: Word): nat {
    if original != 0 && w == 0 then 15000 else 0
  }

  /** What bringing a slot back to its word from before the block pays. */
  function Resetting(forks: Forks, original: Word): nat {
    if original == 0 then if forks.istanbul then 19200 else 19800
    else if forks.istanbul then 4200 else 4800
  }

  predicate Resets(original: Word, current: Word, value: Word) {
    current != original && value == original
  }

  /** One write: the counter changes by what the slot has in it, and by the payment for a reset. */
  lemma {:induction false} MeteredExactly(forks: Forks, original: Word, current: Word, value: Word, refund: nat)
    requires NetMetering(forks) && Cleaning(original, current) <= refund && refund + 34800 < U64
    ensures Metered(forks, original, current, value, refund).0 + Cleaning(original, current) ==
            refund + Cleaning(original, value) +
            if Resets(original, current, value) then Resetting(forks, original) else 0
  {}

  /** The counter has 64 bits: by how many rounds an addition and a subtraction are off. */
  lemma {:induction false} RefundWraps(refund: nat, gas: nat) returns (added: int, subbed: int)
    ensures AddRefund(refund, gas) == refund + gas + added * U64
    ensures SubRefund(refund, gas) == refund - gas + subbed * U64
  {
    added, subbed := -((refund + gas) / U64), -((refund - gas) / U64);
  }

  lemma {:induction false} ResetModulo(forks: Forks, original: Word, current: Word, value: Word, refund: nat)
    returns (wraps: int)
    requires NetMetering(forks) && current != value && original != current
    ensures Metered(forks, original, current, value, refund).0 + Cleaning(original, current) ==
            refund + Cleaning(original, value) +
            (if value == original then Resetting(forks, original) else 0) + wraps * U64
  {
    var added, subbed := RefundWraps(refund, 15000);
    var r := if original != 0 && current == 0 then SubRefund(refund, 15000)
             else if original != 0 && value == 0 then AddRefund(refund, 15000)
             else refund;
    wraps := if original != 0 && current == 0 then subbed else if original != 0 && value == 0 then added else 0;
    if original == value {
      var again, _ := RefundWraps(r, Resetting(forks, original));
      wraps := wraps + again;
    }
  }

  /** So whatever is in the counter, but for the times it wraps. */
  lemma {:induction false} MeteredModulo(forks: Forks, original: Word, current: Word, value: Word, refund: nat)
    returns (wraps: int)
    ensures var refund' := Metered(forks, original, current, value, refund).0;
            if NetMetering(forks) then
              refund' + Cleaning(original, current) ==
              refund + Cleaning(original, value) +
              (if Resets(original, current, value) then Resetting(forks, original) else 0) + wraps * U64
            else
              refund' == refund + (if current != 0 && value == 0 then 15000 else 0) + wraps * U64
  {
    wraps := 0;
    if current != value && NetMetering(forks) && original != current {
      wraps := ResetModulo(forks, original, current, value, refund);
    } else if current != value && current != 0 && value == 0 {
      var added, _ := RefundWraps(refund, 15000);
      wraps := added;
    }
  }

  ghost predicate AllWrites(forks: Forks, ops: seq<Op>) {
    forall op :: op in ops ==> op.DoSetStorage? && op.forks == forks
  }

  /** The payments for resets along a run of writes. */
  ghost function Earned(forks: Forks, base: Base, t: Tree, ops: seq<Op>): nat
    requires AllWrites(forks, ops)
    decreases |ops|
  {
    if ops == [] then 0 else
      var original, current := CommittedOf(base, t, ops[0].a, ops[0].key), StateOf(base, t, ops[0].a, ops[0].key);
      (if Resets(original, current, ops[0].value) then Resetting(forks, original) else 0)
      + Earned(forks, base, TreeStep(base, t, ops[0]), ops[1..])
  }

  lemma {:induction false} ClearedChange(forks: Forks, base: Base, t: Tree, a: Address, k: Key, v: Word)
    ensures var t' := SetStorage(forks, base, t, a, k, v).0;
            var original, current := CommittedOf(base, t, a, k), StateOf(base, t, a, k);
            15000 * |Cleared(t')| + Cleaning(original, current) == 15000 * |Cleared(t)| + Cleaning(original, v)
    ensures Cleaning(CommittedOf(base, t, a, k), StateOf(base, t, a, k)) <= 15000 * |Cleared(t)|
  {
    var current := StateOf(base, t, a, k);
    ClearedMeans(base, t, a, k);
    if current != v {
      SetStateCleared(base, t, a, k, v);
      assert Cleared(SetStorage(forks, base, t, a, k, v).0) == Cleared(Upsert(base, t, a, SetState(k, v)));
    }
  }

  /** Any run of storage writes, over any accounts and slots, under net metering: the counter gains exactly 15000 for
      each slot more that is cleared, and the payments for resets. */
  lemma {:induction false} CounterIsExact(forks: Forks, base: Base, s: Overlay, ops: seq<Op>)
    requires NetMetering(forks) && AllWrites(forks, ops) && Runs(|s.saved|, ops)
    requires 15000 * |Cleared(s.cur)| <= s.cur.refund && s.cur.refund + 34800 * |ops| < U64
    ensures var t' := RunOps(base, s, ops).cur;
            t'.refund + 15000 * |Cleared(s.cur)| ==
            s.cur.refund + 15000 * |Cleared(t')| + Earned(forks, base, s.cur, ops)
    decreases |ops|
  {
    if ops != [] {
      var op, t := ops[0], s.cur;
      assert op in ops;
      var s' := Step(base, s, op);
      ClearedChange(forks, base, t, op.a, op.key, op.value);
      MeteredExactly(forks, CommittedOf(base, t, op.a, op.key), StateOf(base, t, op.a, op.key), op.value, t.refund);
      assert AllWrites(forks, ops[1..]);
      CounterIsExact(forks, base, s', ops[1..]);
    }
  }

  /** So modulo 2^64 from any state, whatever has been cleared and whatever is in the counter. */
  lemma {:induction false} CounterModulo(forks: Forks, base: Base, s: Overlay, ops: seq<Op>) returns (wraps: int)
    requires NetMetering(forks) && AllWrites(forks, ops) && Runs(|s.saved|, ops)
    ensures var t' := RunOps(base, s, ops).cur;
            t'.refund + 15000 * |Cleared(s.cur)| ==
            s.cur.refund + 15000 * |Cleared(t')| + Earned(forks, base, s.cur, ops) + wraps * U64
    decreases |ops|
  {
    wraps := 0;
    if ops != [] {
      var op, t := ops[0], s.cur;
      assert op in ops;
      ClearedChange(forks, base, t, op.a, op.key, op.value);
      var first :=
        MeteredModulo(forks, CommittedOf(base, t, op.a, op.key), StateOf(base, t, op.a, op.key), op.value, t.refund);
      assert AllWrites(forks, ops[1..]);
      var rest := CounterModulo(forks, base, Step(base, s, op), ops[1..]);
      wraps := first + rest;
    }
  }

  /** The writes of a run that put zero over another word. */
  ghost function Deletions(forks: Forks, base: Base, t: Tree, ops: seq<Op>): nat
    requires AllWrites(forks, ops)
    decreases |ops|
  {
    if ops == [] then 0 else
      (if StateOf(base, t, ops[0].a, ops[0].key) != 0 && ops[0].value == 0 then 1 else 0)
      + Deletions(forks, base, TreeStep(base, t, ops[0]), ops[1..])
  }

  /** Any run of storage writes under legacy metering: the counter gains 15000 modulo 2^64 for each deletion. */
  lemma {:induction false} LegacyIsExact(forks: Forks, base: Base, s: Overlay, ops: seq<Op>) returns (wraps: int)
    requires !NetMetering(forks) && AllWrites(forks, ops) && Runs(|s.saved|, ops)
    ensures RunOps(base, s, ops).cur.refund ==
            s.cur.refund + 15000 * Deletions(forks, base, s.cur, ops) + wraps * U64
    decreases |ops|
  {
    wraps := 0;
    if ops != [] {
      var op, t := ops[0], s.cur;
      assert op in ops;
      var first :=
        MeteredModulo(forks, CommittedOf(base, t, op.a, op.key), StateOf(base, t, op.a, op.key), op.value, t.refund);
      assert AllWrites(forks, ops[1..]);
      var rest := LegacyIsExact(forks, base, Step(base, s, op), ops[1..]);
      wraps := first + rest;
    }
  }

  ghost function SlotWrites(forks: Forks, a: Address, k: Key, ws: seq<Word>): seq<Op> {
    if ws == [] then [] else [DoSetStorage(forks, a, k, ws[0])] + SlotWrites(forks, a, k, ws[1..])
  }

  lemma {:induction false} SlotWritesRun(forks: Forks, a: Address, k: Key, ws: seq<Word>, n: nat)
    ensures Runs(n, SlotWrites(forks, a, k, ws))
    decreases |ws|
  {
    if ws != [] {
      SlotWritesRun(forks, a, k, ws[1..], n);
      assert SlotWrites(forks, a, k, ws)[1..] == SlotWrites(forks, a, k, ws[1..]);
    }
  }

  /** How often writing `ws` one after the other brings a slot that holds `current` back to `original`. */
  function Returns(original: Word, current: Word, ws: seq<Word>): nat
    decreases |ws|
  {
    if ws == [] then 0
    else (if current != original && ws[0] == original then 1 else 0) + Returns(original, ws[0], ws[1..])
  }

  lemma {:induction false} OneMore(n: nat, m: nat, first: bool, x: nat)
    requires m == n + if first then 1 else 0
    ensures m * x == n * x + if first then x else 0
  {
    assert (n + 1) * x == n * x + x;
  }

  /** Any words written to one slot, from whatever it holds. */
  lemma {:induction false} SlotFrom(forks: Forks, base: Base, s: Overlay, a: Address, k: Key, ws: seq<Word>,
                                    original: Word, current: Word)
    requires NetMetering(forks) && original == CommittedOf(base, s.cur, a, k) && current == StateOf(base, s.cur, a, k)
    requires Cleaning(original, current) <= s.cur.refund && s.cur.refund + 34800 * |ws| < U64
    requires Runs(|s.saved|, SlotWrites(forks, a, k, ws))
    ensures RunOps(base, s, SlotWrites(forks, a, k, ws)).cur.refund + Cleaning(original, current) ==
            s.cur.refund + Cleaning(original, if ws == [] then current else ws[|ws| - 1])
            + Returns(original, current, ws) * Resetting(forks, original)
    decreases |ws|
  {
    if ws != [] {
      var ops, v := SlotWrites(forks, a, k, ws), ws[0];
      assert ops[1..] == SlotWrites(forks, a, k, ws[1..]) && ops[0] == DoSetStorage(forks, a, k, v);
      MeteredExactly(forks, original, current, v, s.cur.refund);
      SetStorageReads(forks, base, s.cur, a, k, v, a, k);
      SlotFrom(forks, base, Step(base, s, ops[0]), a, k, ws[1..], original, v);
      OneMore(Returns(original, v, ws[1..]), Returns(original, current, ws), Resets(original, current, v),
              Resetting(forks, original));
    }
  }

  /** Any words written to one slot that holds its word from before the block: the counter gains 15000 if that word is
      not zero and the last one is, and the payment for a reset as often as the slot comes back to that word. */
  lemma {:induction false} SlotIsExact(forks: Forks, base: Base, s: Overlay, a: Address, k: Key, ws: seq<Word>)
    requires NetMetering(forks) && StateOf(base, s.cur, a, k) == CommittedOf(base, s.cur, a, k) && ws != []
    requires s.cur.refund + 34800 * |ws| < U64
    ensures var original := CommittedOf(base, s.cur, a, k); var ops := SlotWrites(forks, a, k, ws);
            && Runs(|s.saved|, ops)
            && RunOps(base, s, ops).cur.refund ==
               s.cur.refund + (if original != 0 && ws[|ws| - 1] == 0 then 15000 else 0)
               + Returns(original, original, ws) *
                 (if original == 0 then if forks.istanbul then 19200 else 19800
                  else if forks.istanbul then 4200 else 4800)
  {
    SlotWritesRun(forks, a, k, ws, |s.saved|);
    SlotFrom(forks, base, s, a, k, ws, CommittedOf(base, s.cur, a, k), StateOf(base, s.cur, a, k));
  }
}
