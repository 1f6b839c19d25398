/** Money is conserved: over every tree of calls, creations, reverts and selfdestructs the sum of all balances
    changes by exactly what was burned, and nothing is burned unless an account selfdestructs. */
module Conservation {
  import opened Common
  import opened World
  import opened Balances
  import opened Executor

  lemma {:induction false} TransferTotal(base: Base, t: Tree, src: Address, dst: Address, amount: Option<nat>)
    requires Transfer(base, t, src, dst, amount).Some?
    ensures Total(base, Transfer(base, t, src, dst, amount).value) == Total(base, t)
  {
    if amount.Some? {
      var x := amount.value;
      DebitTotal(base, t, src, x);
      CreditTotal(base, Debit(base, t, src, x).value, dst, x);
    }
  }

  lemma {:induction false} SweepTotal(base: Base, t: Tree, a: Address, b: Address, x: nat)
    requires x == BalanceOf(base, t, a)
    ensures var t' := Upsert(base, Upsert(base, t, b, AddBalance(x)), a, Suicide);
            Total(base, t') + (if a == b then x else 0) == Total(base, t)
  {
    CreditTotal(base, t, b, x);
    SuicideTotal(base, Upsert(base, t, b, AddBalance(x)), a);
  }

  lemma {:induction false} SelfdestructTotal(base: Base, t: Tree, a: Address, b: Address)
    ensures Total(base, Selfdestruct(base, t, a, b)) + (if a == b then BalanceOf(base, t, a) else 0) == Total(base, t)
  {
    var t1 := if HasSuicided(base, t, a) then t else t.(refund := AddRefund(t.refund, 24000));
    assert SameBalances(base, t, t1);
    SameTotal(base, t, t1);
    SweepTotal(base, t1, a, b, BalanceOf(base, t1, a));
  }

  lemma {:induction false} RunConserves(forks: Forks, base: Base, t: Tree, gas: nat, f: Frame)
    ensures var o := Run(forks, base, t, gas, f); Total(base, o.tree) + o.burned == Total(base, t)
    decreases f, 0
  {
    if f.Do? {
      HostConserves(forks, base, t, f.op);
      RunConserves(forks, base, Host(forks, base, t, f.op).0, gas, f.rest);
    }
  }

  lemma {:induction false} HostConserves(forks: Forks, base: Base, t: Tree, op: HostOp)
    ensures var (t', burned) := Host(forks, base, t, op); Total(base, t') + burned == Total(base, t)
    decreases op, 0
  {
    match op {
      case OpSetStorage(a, k, w) =>
        SetStorageBalance(forks, base, t, a, k, w);
        SameTotal(base, t, SetStorage(forks, base, t, a, k, w).0);
      case OpSetState(a, k, w) => NeutralTotal(base, t, a, SetState(k, w));
      case OpEmitLog(l) => SameTotal(base, t, t.(logs := t.logs + [l]));
      case OpSelfdestruct(a, b) => SelfdestructTotal(base, t, a, b);
      case OpTransfer(src, dst, x) =>
        if Transfer(base, t, src, dst, x).Some? {
          TransferTotal(base, t, src, dst, x);
        }
      case OpCall(kind, c, body) => CallConserves(forks, base, t, kind, c, body);
      case OpCreate(c, authorized, body) => CreateConserves(forks, base, t, c, authorized, body);
    }
  }

  lemma {:induction false} CallConserves(forks: Forks, base: Base, t: Tree, kind: CallKind, c: Contract, body: Frame)
    ensures var o := ApplyCall(forks, base, t, kind, c, body); Total(base, o.tree) + o.burned == Total(base, t)
    decreases body, 2
  {
    if c.depth <= 1025 {
      CalledConserves(forks, base, t, kind, c, body);
    }
  }

  lemma {:induction false} CalledConserves(forks: Forks, base: Base, t: Tree, kind: CallKind, c: Contract, body: Frame)
    ensures var o := Called(forks, base, t, kind, c, body); Total(base, o.tree) + o.burned == Total(base, t)
    decreases body, 1
  {
    var t1 := Upsert(base, t, c.address, Touch);
    NeutralTotal(base, t, c.address, Touch);
    var moved := if kind.Call? then Transfer(base, t1, c.caller, c.address, c.value) else Some(t1);
    if moved.Some? {
      if kind.Call? {
        TransferTotal(base, t1, c.caller, c.address, c.value);
      }
      RunConserves(forks, base, moved.value, c.gas, body);
    }
  }

  lemma {:induction false} CreateConserves(
    forks: Forks, base: Base, t: Tree, c: Contract, authorized: bool, body: Frame)
    ensures var o := ApplyCreate(forks, base, t, c, authorized, body); Total(base, o.tree) + o.burned == Total(base, t)
    decreases body, 2
  {
    CreateCases(forks, base, t, c, authorized, body);
    NeutralTotal(base, t, c.caller, IncrNonce);
    CreatedConserves(forks, base, Upsert(base, t, c.caller, IncrNonce), c, authorized, body);
  }

  lemma {:induction false} CreatedConserves(
    forks: Forks, base: Base, t: Tree, c: Contract, authorized: bool, body: Frame)
    ensures var o := Created(forks, base, t, c, authorized, body); Total(base, o.tree) + o.burned == Total(base, t)
    decreases body, 1
  {
    var t1 := CreateStart(forks, base, t, c);
    CreateStartBalances(forks, base, t, c);
    SameTotal(base, t, t1);
    var moved := Transfer(base, t1, c.caller, c.address, c.value);
    if moved.Some? {
      TransferTotal(base, t1, c.caller, c.address, c.value);
      RunConserves(forks, base, moved.value, c.gas, body);
      DeployedConserves(forks, base, t, c, Run(forks, base, moved.value, c.gas, body));
    }
  }

  lemma {:induction false} DeployedConserves(forks: Forks, base: Base, t1: Tree, c: Contract, o: Outcome)
    requires Total(base, o.tree) + o.burned == Total(base, t1)
    ensures var r := Deployed(forks, base, t1, c, o); Total(base, r.tree) + r.burned == Total(base, t1)
  {
    NeutralTotal(base, o.tree, c.address, SetCode(o.ret));
  }

  // ---------- Without selfdestructs ----------

  predicate NoDestruct(f: Frame) {
    f.Do? ==> NoDestructOp(f.op) && NoDestruct(f.rest)
  }

  predicate NoDestructOp(op: HostOp) {
    match op
    case OpSelfdestruct(_, _) => false
    case OpCall(_, _, body) => NoDestruct(body)
    case OpCreate(_, _, body) => NoDestruct(body)
    case _ => true
  }

  /** No account that exists is marked for deletion; true after every cleaning. */
  ghost predicate NoFlags(t: Tree) {
    forall a :: a in t.objs && t.objs[a].suicide ==> t.objs[a].deleted
  }

  lemma {:induction false} CleanHasNoFlags(t: Tree)
    ensures NoFlags(CleanDelete(t, true))
  {}

  lemma {:induction false} EditNoFlags(base: Base, t: Tree, a: Address, e: Edit)
    requires NoFlags(t) && !e.Suicide?
    ensures NoFlags(Upsert(base, t, a, e))
  {
    assert !LookupOrNew(base, t, a).suicide;
  }

  lemma {:induction false} TransferNoFlags(base: Base, t: Tree, src: Address, dst: Address, amount: Option<nat>)
    requires NoFlags(t) && Transfer(base, t, src, dst, amount).Some?
    ensures NoFlags(Transfer(base, t, src, dst, amount).value)
  {
    if amount.Some? {
      EditNoFlags(base, t, src, SubBalance(amount.value));
      EditNoFlags(base, Debit(base, t, src, amount.value).value, dst, AddBalance(amount.value));
    }
  }

  lemma {:induction false} RunBurnsNothing(forks: Forks, base: Base, t: Tree, gas: nat, f: Frame)
    requires NoDestruct(f) && NoFlags(t)
    ensures var o := Run(forks, base, t, gas, f); o.burned == 0 && NoFlags(o.tree)
    decreases f, 0
  {
    if f.Do? {
      HostBurnsNothing(forks, base, t, f.op);
      RunBurnsNothing(forks, base, Host(forks, base, t, f.op).0, gas, f.rest);
    }
  }

  lemma {:induction false} HostBurnsNothing(forks: Forks, base: Base, t: Tree, op: HostOp)
    requires NoDestructOp(op) && NoFlags(t)
    ensures var (t', burned) := Host(forks, base, t, op); burned == 0 && NoFlags(t')
    decreases op, 0
  {
    match op {
      case OpSetStorage(a, k, w) => EditNoFlags(base, t, a, SetState(k, w));
      case OpSetState(a, k, w) => EditNoFlags(base, t, a, SetState(k, w));
      case OpEmitLog(l) =>
      case OpTransfer(src, dst, x) =>
        if Transfer(base, t, src, dst, x).Some? {
          TransferNoFlags(base, t, src, dst, x);
        }
      case OpCall(kind, c, body) => CallBurnsNothing(forks, base, t, kind, c, body);
      case OpCreate(c, authorized, body) => CreateBurnsNothing(forks, base, t, c, authorized, body);
    }
  }

  lemma {:induction false} CallBurnsNothing(forks: Forks, base: Base, t: Tree, kind: CallKind, c: Contract, body: Frame)
    requires NoDestruct(body) && NoFlags(t)
    ensures var o := ApplyCall(forks, base, t, kind, c, body); o.burned == 0 && NoFlags(o.tree)
    decreases body, 2
  {
    if c.depth <= 1025 {
      CalledBurnsNothing(forks, base, t, kind, c, body);
    }
  }

  lemma {:induction false} CalledBurnsNothing(
    forks: Forks, base: Base, t: Tree, kind: CallKind, c: Contract, body: Frame)
    requires NoDestruct(body) && NoFlags(t)
    ensures var o := Called(forks, base, t, kind, c, body); o.burned == 0 && NoFlags(o.tree)
    decreases body, 1
  {
    var t1 := Upsert(base, t, c.address, Touch);
    EditNoFlags(base, t, c.address, Touch);
    var moved := if kind.Call? then Transfer(base, t1, c.caller, c.address, c.value) else Some(t1);
    if moved.Some? {
      if kind.Call? {
        TransferNoFlags(base, t1, c.caller, c.address, c.value);
      }
      RunBurnsNothing(forks, base, moved.value, c.gas, body);
    }
  }

  lemma {:induction false} CreateBurnsNothing(
    forks: Forks, base: Base, t: Tree, c: Contract, authorized: bool, body: Frame)
    requires NoDestruct(body) && NoFlags(t)
    ensures var o := ApplyCreate(forks, base, t, c, authorized, body); o.burned == 0 && NoFlags(o.tree)
    decreases body, 2
  {
    CreateCases(forks, base, t, c, authorized, body);
    EditNoFlags(base, t, c.caller, IncrNonce);
    CreatedBurnsNothing(forks, base, Upsert(base, t, c.caller, IncrNonce), c, authorized, body);
  }

  lemma {:induction false} CreateStartNoFlags(forks: Forks, base: Base, t: Tree, c: Contract)
    requires NoFlags(t)
    ensures NoFlags(CreateStart(forks, base, t, c))
  {
    if forks.eip158 {
      EditNoFlags(base, CreateAccount(base, t, c.address), c.address, IncrNonce);
    }
  }

  lemma {:induction false} CreatedBurnsNothing(
    forks: Forks, base: Base, t: Tree, c: Contract, authorized: bool, body: Frame)
    requires NoDestruct(body) && NoFlags(t)
    ensures var o := Created(forks, base, t, c, authorized, body); o.burned == 0 && NoFlags(o.tree)
    decreases body, 1
  {
    var t1 := CreateStart(forks, base, t, c);
    CreateStartNoFlags(forks, base, t, c);
    var moved := Transfer(base, t1, c.caller, c.address, c.value);
    if moved.Some? {
      TransferNoFlags(base, t1, c.caller, c.address, c.value);
      RunBurnsNothing(forks, base, moved.value, c.gas, body);
      var o := Run(forks, base, moved.value, c.gas, body);
      EditNoFlags(base, o.tree, c.address, SetCode(o.ret));
    }
  }

  lemma {:induction false} NoFlagsNoBurn(base: Base, t: Tree, s: set<Address>)
    requires NoFlags(t) && s <= Flagged(t)
    ensures Sum(base, t, s) == 0
    decreases s
  {
    if s != {} {
      var a :| a in s;
      SumPick(base, t, s, a);
      NoFlagsNoBurn(base, t, s - {a});
    }
  }

  // ---------- Failed creations ----------

  lemma {:induction false} BalanceInTotal(base: Base, t: Tree, a: Address)
    ensures BalanceOf(base, t, a) <= Total(base, t)
  {
    if a in Accounts(base, t) {
      SumPick(base, t, Accounts(base, t), a);
    }
  }

  lemma {:induction false} SomeBalance(base: Base, t: Tree, s: set<Address>) returns (a: Address)
    requires Sum(base, t, s) > 0
    ensures a in s && BalanceOf(base, t, a) > 0
    decreases s
  {
    var x :| x in s;
    SumPick(base, t, s, x);
    a := x;
    if BalanceOf(base, t, x) == 0 {
      a := SomeBalance(base, t, s - {x});
    }
  }

  /** If the creation fails, all balances are as before. */
  ghost predicate KeepsBalances(forks: Forks, base: Base, t: Tree, c: Contract, authorized: bool, body: Frame) {
    var o := ApplyCreate(forks, base, t, c, authorized, body);
    o.err != NoError ==> SameBalances(base, t, o.tree)
  }

  /** The creation gets past the checks of depth, collision and balance. */
  predicate Proceeds(base: Base, t: Tree, c: Contract) {
    && c.depth <= 1025 && !HasCodeOrNonce(base, Upsert(base, t, c.caller, IncrNonce), c.address)
    && (c.value.Some? ==> c.value.value <= BalanceOf(base, t, c.caller))
  }

  predicate MovesNothing(c: Contract) {
    c.value.None? || c.value.value == 0 || c.caller == c.address
  }

  /** What can be told before the call: every failure of the creation leaves all balances. */
  ghost predicate RevertsAlways(forks: Forks, base: Base, t: Tree, c: Contract, authorized: bool) {
    !Proceeds(base, t, c) || if authorized then forks.homestead || Total(base, t) == 0 else MovesNothing(c)
  }

  /** `t'` is `t` after the value of the creation was moved. */
  ghost predicate Moved(base: Base, t: Tree, t': Tree, c: Contract) {
    var x := if c.value.Some? then c.value.value else 0;
    forall b :: BalanceOf(base, t', b) + (if b == c.caller then x else 0) ==
                BalanceOf(base, t, b) + (if b == c.address then x else 0)
  }

  /** A creation that proceeds: the tree it would revert to, and the one its code starts in. */
  lemma {:induction false} Started(forks: Forks, base: Base, t: Tree, c: Contract) returns (saved: Tree, start: Tree)
    requires Proceeds(base, t, c)
    ensures saved == Upsert(base, t, c.caller, IncrNonce) && SameBalances(base, t, saved) && Moved(base, t, start, c)
    ensures Transfer(base, CreateStart(forks, base, saved, c), c.caller, c.address, c.value) == Some(start)
  {
    saved := Upsert(base, t, c.caller, IncrNonce);
    NeutralEdit(base, t, c.caller, IncrNonce);
    CreateStartBalances(forks, base, saved, c);
    var t1 := CreateStart(forks, base, saved, c);
    TransferMoves(base, t1, c.caller, c.address, c.value);
    start := Transfer(base, t1, c.caller, c.address, c.value).value;
  }

  /** A creation that does not proceed changes no balance. */
  lemma {:induction false} NotStarted(forks: Forks, base: Base, t: Tree, c: Contract, authorized: bool, body: Frame)
    requires !Proceeds(base, t, c)
    ensures SameBalances(base, t, ApplyCreate(forks, base, t, c, authorized, body).tree)
  {
    var saved := Upsert(base, t, c.caller, IncrNonce);
    CreateCases(forks, base, t, c, authorized, body);
    NeutralEdit(base, t, c.caller, IncrNonce);
    CreateStartBalances(forks, base, saved, c);
    TransferMoves(base, CreateStart(forks, base, saved, c), c.caller, c.address, c.value);
  }

  /** A creation the allow list refuses keeps the value it moved. */
  lemma {:induction false} RefusedCreateIff(forks: Forks, base: Base, t: Tree, c: Contract, body: Frame)
    requires Proceeds(base, t, c)
    ensures KeepsBalances(forks, base, t, c, false, body) <==> MovesNothing(c)
  {
    var saved, start := Started(forks, base, t, c);
    CreateCases(forks, base, t, c, false, body);
    assert Created(forks, base, saved, c, false, body) == Outcome(start, ErrNotAuth, 0, [], 0);
    if MovesNothing(c) {
      assert SameBalances(base, t, start);
    } else {
      assert BalanceOf(base, start, c.address) != BalanceOf(base, t, c.address);
    }
  }

  /** From Homestead on an authorized creation that fails goes back to its snapshot. */
  lemma {:induction false} AuthorizedFails(forks: Forks, base: Base, saved: Tree, c: Contract, o: Outcome)
    requires forks.homestead && Deployed(forks, base, saved, c, o).err != NoError
    ensures Deployed(forks, base, saved, c, o).tree == saved
  {}

  lemma {:induction false} NothingToLose(forks: Forks, base: Base, t: Tree, c: Contract, authorized: bool, body: Frame)
    requires Total(base, t) == 0
    ensures SameBalances(base, t, ApplyCreate(forks, base, t, c, authorized, body).tree)
  {
    var o := ApplyCreate(forks, base, t, c, authorized, body);
    CreateConserves(forks, base, t, c, authorized, body);
    forall a ensures BalanceOf(base, o.tree, a) == BalanceOf(base, t, a) {
      BalanceInTotal(base, t, a);
      BalanceInTotal(base, o.tree, a);
    }
  }

  lemma {:induction false} KeptWhenTold(forks: Forks, base: Base, t: Tree, c: Contract, authorized: bool, body: Frame)
    requires RevertsAlways(forks, base, t, c, authorized)
    ensures KeepsBalances(forks, base, t, c, authorized, body)
  {
    if !Proceeds(base, t, c) {
      NotStarted(forks, base, t, c, authorized, body);
    } else if !authorized {
      RefusedCreateIff(forks, base, t, c, body);
    } else if Total(base, t) == 0 {
      NothingToLose(forks, base, t, c, true, body);
    } else {
      var saved, start := Started(forks, base, t, c);
      var o := Run(forks, base, start, c.gas, body);
      RunsCreation(forks, base, t, c, saved, start, body);
      if Deployed(forks, base, saved, c, o).err != NoError {
        AuthorizedFails(forks, base, saved, c, o);
      }
    }
  }

  /** Code that returns one byte and leaves no gas to pay for it. */
  const UNPAID := Stop(false, 0, [0])

  /** Before Homestead such a creation fails and what its code did stays done. */
  lemma {:induction false} UnpaidStays(forks: Forks, base: Base, saved: Tree, c: Contract, t: Tree)
    requires !forks.homestead
    ensures Deployed(forks, base, saved, c, Outcome(t, NoError, 0, [0], 0)) ==
            Outcome(t, ErrCodeStoreOutOfGas, 0, [], 0)
  {}

  lemma {:induction false} RunsUnpaid(forks: Forks, base: Base, t: Tree, gas: nat, y: Address, t': Tree)
    requires Transfer(base, t, y, y + 1, Some(1)) == Some(t')
    ensures Run(forks, base, t, gas, UNPAID) == Outcome(t, NoError, 0, [0], 0)
    ensures Run(forks, base, t, gas, Do(OpTransfer(y, y + 1, Some(1)), UNPAID)) == Outcome(t', NoError, 0, [0], 0)
  {
    assert Host(forks, base, t, OpTransfer(y, y + 1, Some(1))) == (t', 0);
    assert Run(forks, base, t', gas, UNPAID) == Outcome(t', NoError, 0, [0], 0);
  }

  lemma {:induction false} RunsCreation(forks: Forks, base: Base, t: Tree, c: Contract, saved: Tree, start: Tree,
                                        body: Frame)
    requires Proceeds(base, t, c) && saved == Upsert(base, t, c.caller, IncrNonce)
    requires Transfer(base, CreateStart(forks, base, saved, c), c.caller, c.address, c.value) == Some(start)
    ensures ApplyCreate(forks, base, t, c, true, body) ==
            Deployed(forks, base, saved, c, Run(forks, base, start, c.gas, body))
  {
    CreateCases(forks, base, t, c, true, body);
  }

  lemma {:induction false} ChangedBalance(
      forks: Forks, base: Base, t: Tree, c: Contract, body: Frame, t': Tree, err: Error, y: Address)
    requires ApplyCreate(forks, base, t, c, true, body) == Outcome(t', err, 0, [], 0) && err != NoError
    requires BalanceOf(base, t', y) != BalanceOf(base, t, y)
    ensures !KeepsBalances(forks, base, t, c, true, body)
  {}

  lemma {:induction false} ValueLost(forks: Forks, base: Base, t: Tree, c: Contract) returns (body: Frame)
    requires !forks.homestead && Proceeds(base, t, c) && !MovesNothing(c)
    ensures !KeepsBalances(forks, base, t, c, true, body)
  {
    var saved, start := Started(forks, base, t, c);
    body := UNPAID;
    RunsCreation(forks, base, t, c, saved, start, body);
    UnpaidStays(forks, base, saved, c, start);
    ChangedBalance(forks, base, t, c, body, start, ErrCodeStoreOutOfGas, c.address);
  }

  lemma {:induction false} UnitMoves(base: Base, t: Tree, y: Address) returns (t': Tree)
    requires BalanceOf(base, t, y) > 0
    ensures Transfer(base, t, y, y + 1, Some(1)) == Some(t') && BalanceOf(base, t', y) + 1 == BalanceOf(base, t, y)
  {
    TransferMoves(base, t, y, y + 1, Some(1));
    t' := Transfer(base, t, y, y + 1, Some(1)).value;
  }

  lemma {:induction false} UnitLost(forks: Forks, base: Base, t: Tree, c: Contract) returns (body: Frame)
    requires !forks.homestead && Proceeds(base, t, c) && MovesNothing(c) && Total(base, t) > 0
    ensures !KeepsBalances(forks, base, t, c, true, body)
  {
    var saved, start := Started(forks, base, t, c);
    var y := SomeBalance(base, t, Accounts(base, t));
    assert BalanceOf(base, start, y) == BalanceOf(base, t, y);
    var t' := UnitMoves(base, start, y);
    body := Do(OpTransfer(y, y + 1, Some(1)), UNPAID);
    RunsUnpaid(forks, base, start, c.gas, y, t');
    RunsCreation(forks, base, t, c, saved, start, body);
    UnpaidStays(forks, base, saved, c, t');
    ChangedBalance(forks, base, t, c, body, t', ErrCodeStoreOutOfGas, y);
  }

  lemma {:induction false} LostWhenNot(forks: Forks, base: Base, t: Tree, c: Contract, authorized: bool)
    returns (body: Frame)
    requires !RevertsAlways(forks, base, t, c, authorized)
    ensures !KeepsBalances(forks, base, t, c, authorized, body)
  {
    if !authorized {
      body := Stop(false, 0, []);
      RefusedCreateIff(forks, base, t, c, body);
    } else if !MovesNothing(c) {
      body := ValueLost(forks, base, t, c);
    } else {
      body := UnitLost(forks, base, t, c);
    }
  }

  /** Every failure of a creation leaves all balances, whatever its code does, if and only if the creation does not get
      past its checks, or is authorized after Homestead or in a world without balances, or is refused with nothing to
      move. */
  lemma {:induction false} FailedCreateIff(forks: Forks, base: Base, t: Tree, c: Contract, authorized: bool)
    ensures (forall body :: KeepsBalances(forks, base, t, c, authorized, body)) <==>
            RevertsAlways(forks, base, t, c, authorized)
  {
    if RevertsAlways(forks, base, t, c, authorized) {
      forall body ensures KeepsBalances(forks, base, t, c, authorized, body) {
        KeptWhenTold(forks, base, t, c, authorized, body);
      }
    } else {
      var body := LostWhenNot(forks, base, t, c, authorized);
    }
  }
}
