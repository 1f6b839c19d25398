/** The executor on a Txn, with its own Snapshot and RevertToSnapshot: every call, creation and run of host operations
    ends in the tree that the functions of Executor give, and only ever reverts to live snapshots. */
module HeapExecutor {
  import opened Common
  import opened World
  import opened OverlayTxn
  import opened Executor
  import opened Effects

  method Transfer(s: Txn, src: Address, dst: Address, amount: Option<nat>) returns (ok: bool)
    requires s.Valid()
    modifies s`txn, s`view, s`heap, s`objects, s`accounts
    ensures s.Valid() && s.view.saved == old(s.view.saved)
    ensures var t := Executor.Transfer(s.base, old(s.view.cur), src, dst, amount);
            ok == t.Some? && s.view.cur == if ok then t.value else old(s.view.cur)
  {
    ok := true;
    if amount.Some? {
      ok := s.SubBalance(src, amount.value);
      if ok {
        s.UpsertAccount(dst, AddBalance(amount.value));
      }
    }
  }

  method HasSuicided(s: Txn, a: Address) returns (r: bool)
    requires s.Valid()
    ensures r == World.HasSuicided(s.base, s.view.cur, a)
  {
    var o := s.GetStateObject(a);
    r := o != null && o.suicide;
  }

  method GetBalance(s: Txn, a: Address) returns (x: nat)
    requires s.Valid()
    ensures x == BalanceOf(s.base, s.view.cur, a)
  {
    var o := s.GetStateObject(a);
    x := if o == null then 0 else o.account.balance;
  }

  method GetNonce(s: Txn, a: Address) returns (n: nat)
    requires s.Valid()
    ensures n == NonceOf(s.base, s.view.cur, a)
  {
    var o := s.GetStateObject(a);
    n := if o == null then 0 else o.account.nonce;
  }

  method Selfdestruct(s: Txn, a: Address, beneficiary: Address)
    requires s.Valid()
    modifies s`txn, s`view, s`heap, s`objects, s`accounts
    ensures s.Valid() && s.view.saved == old(s.view.saved)
    ensures s.view.cur == Executor.Selfdestruct(s.base, old(s.view.cur), a, beneficiary)
  {
    var gone := HasSuicided(s, a);
    if !gone {
      s.SetRefund(AddRefund(s.txn.refund, 24000));
    }
    var x := GetBalance(s, a);
    s.UpsertAccount(beneficiary, AddBalance(x));
    s.UpsertAccount(a, Suicide);
  }

  method HasCodeOrNonce(s: Txn, a: Address) returns (r: bool)
    requires s.Valid()
    ensures r == Executor.HasCodeOrNonce(s.base, s.view.cur, a)
  {
    var o := s.GetStateObject(a);
    r := o != null && (o.account.nonce != 0 || o.account.code != []);
  }

  /** The runtime's work on its host. */
  method Run(s: Txn, forks: Forks, gas: nat, f: Frame) returns (err: Error, left: nat, ret: Code, ghost burned: nat)
    requires s.Valid()
    modifies s, s.arrays
    ensures s.Valid()
    ensures old(s.arrays) <= s.arrays && forall x :: x in s.arrays ==> x in old(s.arrays) || fresh(x)
    ensures old(s.live) <= s.live && old(s.view.saved) <= s.view.saved
    ensures Outcome(s.view.cur, err, left, ret, burned) == Executor.Run(forks, s.base, old(s.view.cur), gas, f)
    decreases f, 0
  {
    match f {
      case Stop(failed, l, r) =>
        err, left, ret, burned := if failed then ErrRuntime else NoError, Min(l, gas), r, 0;
      case Do(op, rest) =>
        ghost var b := Host(s, forks, op);
        err, left, ret, burned := Run(s, forks, gas, rest);
        burned := burned + b;
    }
  }

  method Host(s: Txn, forks: Forks, op: HostOp) returns (ghost burned: nat)
    requires s.Valid()
    modifies s, s.arrays
    ensures s.Valid()
    ensures old(s.arrays) <= s.arrays && forall x :: x in s.arrays ==> x in old(s.arrays) || fresh(x)
    ensures old(s.live) <= s.live && old(s.view.saved) <= s.view.saved
    ensures (s.view.cur, burned) == Executor.Host(forks, s.base, old(s.view.cur), op)
    decreases op, 0
  {
    burned := 0;
    match op {
      case OpSetStorage(a, k, w) => var _ := s.SetStorage(forks, a, k, w);
      case OpSetState(a, k, w) => s.UpsertAccount(a, SetState(k, w));
      case OpEmitLog(l) => s.EmitLog(l);
      case OpSelfdestruct(a, b) =>
        burned := if a == b then BalanceOf(s.base, s.view.cur, a) else 0;
        Selfdestruct(s, a, b);
      case OpTransfer(src, dst, x) => var _ := Transfer(s, src, dst, x);
      case OpCall(kind, c, body) =>
        var _, _, _, b := ApplyCall(s, forks, kind, c, body);
        burned := b;
      case OpCreate(c, authorized, body) =>
        var _, _, _, b := ApplyCreate(s, forks, c, authorized, body);
        burned := b;
    }
  }

  /** The touch and the transfer at the start of a call. */
  method Enter(s: Txn, kind: CallKind, c: Contract) returns (ok: bool)
    requires s.Valid()
    modifies s`txn, s`view, s`heap, s`objects, s`accounts
    ensures s.Valid() && s.view.saved == old(s.view.saved)
    ensures var t1 := Upsert(s.base, old(s.view.cur), c.address, Touch); var t2 := Entered(s.base, t1, kind, c);
            ok == t2.Some? && s.view.cur == if ok then t2.value else t1
  {
    s.UpsertAccount(c.address, Touch);
    ok := true;
    if kind.Call? {
      ok := Transfer(s, c.caller, c.address, c.value);
    }
  }

  /** Runs code and, if it fails, goes back to a snapshot that was live before. */
  method RunOrRevert(s: Txn, forks: Forks, gas: nat, body: Frame, snapshot: nat)
    returns (err: Error, left: nat, ret: Code, ghost burned: nat)
    requires s.Valid() && snapshot in s.live && snapshot < |s.view.saved|
    modifies s, s.arrays
    ensures s.Valid()
    ensures old(s.arrays) <= s.arrays && forall x :: x in s.arrays ==> x in old(s.arrays) || fresh(x)
    ensures (forall j :: j in old(s.live) && j <= snapshot ==> j in s.live) && old(s.view.saved) <= s.view.saved
    ensures Outcome(s.view.cur, err, left, ret, burned) ==
            Reverting(old(s.view).saved[snapshot], Executor.Run(forks, s.base, old(s.view.cur), gas, body))
    decreases body, 1
  {
    err, left, ret, burned := Run(s, forks, gas, body);
    if err != NoError {
      s.RevertToSnapshot(snapshot);
      burned := 0;
    }
  }

  /** applyCall: the snapshot it reverts to is live, whatever the call did, so a failed call leaves the overlay as it
      was, logs and refund counter included, but for an account touched before the transfer failed. It fails for want of
      balance exactly when the caller of a plain call has less than the value, and code that stops at once leaves the
      value with the callee. */
  method ApplyCall(s: Txn, forks: Forks, kind: CallKind, c: Contract, body: Frame)
    returns (err: Error, left: nat, ret: Code, ghost burned: nat)
    requires s.Valid()
    modifies s, s.arrays
    ensures s.Valid()
    ensures old(s.arrays) <= s.arrays && forall x :: x in s.arrays ==> x in old(s.arrays) || fresh(x)
    ensures old(s.live) <= s.live && old(s.view.saved) <= s.view.saved
    ensures Outcome(s.view.cur, err, left, ret, burned) ==
            Executor.ApplyCall(forks, s.base, old(s.view.cur), kind, c, body)
    ensures err != NoError ==>
              || s.view.cur == old(s.view.cur)
              || (err == ErrInsufficientBalance && s.view.cur == Upsert(s.base, old(s.view.cur), c.address, Touch))
    ensures err == ErrDepth <==> c.depth > 1025
    ensures err == ErrInsufficientBalance <==>
              && c.depth <= 1025 && kind.Call? && c.value.Some?
              && BalanceOf(s.base, old(s.view.cur), c.caller) < c.value.value
    ensures body.Stop? && !body.failed && (err == NoError) ==>
              Moves(s.base, old(s.view.cur), s.view.cur, c.caller, c.address,
                    if kind.Call? && c.value.Some? then c.value.value else 0)
    decreases body, 3
  {
    CallErrs(forks, s.base, s.view.cur, kind, c, body);
    if body.Stop? && !body.failed && c.depth <= 1025 && !CannotPay(s.base, s.view.cur, kind, c) {
      CallPays(forks, s.base, s.view.cur, kind, c, body.gasLeft, body.ret);
    }
    if c.depth > 1025 {
      err, left, ret, burned := ErrDepth, c.gas, [], 0;
    } else {
      err, left, ret, burned := Call(s, forks, kind, c, body);
    }
  }

  /** applyCall from its snapshot on. */
  method Call(s: Txn, forks: Forks, kind: CallKind, c: Contract, body: Frame)
    returns (err: Error, left: nat, ret: Code, ghost burned: nat)
    requires s.Valid()
    modifies s, s.arrays
    ensures s.Valid()
    ensures old(s.arrays) <= s.arrays && forall x :: x in s.arrays ==> x in old(s.arrays) || fresh(x)
    ensures old(s.live) <= s.live && old(s.view.saved) <= s.view.saved
    ensures Outcome(s.view.cur, err, left, ret, burned) == Called(forks, s.base, old(s.view.cur), kind, c, body)
    decreases body, 2
  {
    var snapshot := s.Snapshot();
    var ok := Enter(s, kind, c);
    if ok {
      err, left, ret, burned := RunOrRevert(s, forks, c.gas, body, snapshot);
    } else {
      err, left, ret, burned := ErrInsufficientBalance, c.gas, [], 0;
    }
  }

  /** A message's call: the nonce of the caller goes up first. */
  method SpendAndCall(s: Txn, forks: Forks, c: Contract, body: Frame)
    returns (err: Error, left: nat, ret: Code, ghost burned: nat)
    requires s.Valid()
    modifies s, s.arrays
    ensures s.Valid()
    ensures old(s.arrays) <= s.arrays && forall x :: x in s.arrays ==> x in old(s.arrays) || fresh(x)
    ensures old(s.live) <= s.live && old(s.view.saved) <= s.view.saved
    ensures Outcome(s.view.cur, err, left, ret, burned) ==
            Executor.ApplyCall(forks, s.base, Upsert(s.base, old(s.view.cur), c.caller, IncrNonce), CallKind.Call, c,
                               body)
  {
    s.UpsertAccount(c.caller, IncrNonce);
    err, left, ret, burned := ApplyCall(s, forks, CallKind.Call, c, body);
  }

  /** The new account and the transfer at the start of a creation. */
  method StartCreate(s: Txn, forks: Forks, c: Contract) returns (ok: bool)
    requires s.Valid()
    modifies s`txn, s`view, s`heap, s`objects, s`accounts
    ensures s.Valid() && s.view.saved == old(s.view.saved)
    ensures var t1 := CreateStart(forks, s.base, old(s.view.cur), c);
            var t2 := Executor.Transfer(s.base, t1, c.caller, c.address, c.value);
            ok == t2.Some? && s.view.cur == if ok then t2.value else t1
  {
    if forks.eip158 {
      s.CreateAccount(c.address);
      s.UpsertAccount(c.address, IncrNonce);
    }
    ok := Transfer(s, c.caller, c.address, c.value);
  }

  /** applyCreate. */
  method ApplyCreate(s: Txn, forks: Forks, c: Contract, authorized: bool, body: Frame)
    returns (err: Error, left: nat, ret: Code, ghost burned: nat)
    requires s.Valid()
    modifies s, s.arrays
    ensures s.Valid()
    ensures old(s.arrays) <= s.arrays && forall x :: x in s.arrays ==> x in old(s.arrays) || fresh(x)
    ensures old(s.live) <= s.live && old(s.view.saved) <= s.view.saved
    ensures Outcome(s.view.cur, err, left, ret, burned) ==
            Executor.ApplyCreate(forks, s.base, old(s.view.cur), c, authorized, body)
    decreases body, 4
  {
    if c.depth > 1025 {
      err, left, ret, burned := ErrDepth, c.gas, [], 0;
    } else {
      s.UpsertAccount(c.caller, IncrNonce);
      err, left, ret, burned := CreateUnlessTaken(s, forks, c, authorized, body);
    }
  }

  /** applyCreate once the caller's nonce is spent. */
  method CreateUnlessTaken(s: Txn, forks: Forks, c: Contract, authorized: bool, body: Frame)
    returns (err: Error, left: nat, ret: Code, ghost burned: nat)
    requires s.Valid()
    modifies s, s.arrays
    ensures s.Valid()
    ensures old(s.arrays) <= s.arrays && forall x :: x in s.arrays ==> x in old(s.arrays) || fresh(x)
    ensures old(s.live) <= s.live && old(s.view.saved) <= s.view.saved
    ensures Outcome(s.view.cur, err, left, ret, burned) ==
            UnlessTaken(forks, s.base, old(s.view.cur), c, authorized, body)
    decreases body, 3
  {
    var taken := HasCodeOrNonce(s, c.address);
    if taken {
      err, left, ret, burned := ErrCollision, 0, [], 0;
    } else {
      err, left, ret, burned := Create(s, forks, c, authorized, body);
    }
  }

  /** applyCreate from its snapshot on. */
  method Create(s: Txn, forks: Forks, c: Contract, authorized: bool, body: Frame)
    returns (err: Error, left: nat, ret: Code, ghost burned: nat)
    requires s.Valid()
    modifies s, s.arrays
    ensures s.Valid()
    ensures old(s.arrays) <= s.arrays && forall x :: x in s.arrays ==> x in old(s.arrays) || fresh(x)
    ensures old(s.live) <= s.live && old(s.view.saved) <= s.view.saved
    ensures Outcome(s.view.cur, err, left, ret, burned) ==
            Created(forks, s.base, old(s.view.cur), c, authorized, body)
    decreases body, 2
  {
    var snapshot := s.Snapshot();
    var ok := StartCreate(s, forks, c);
    if !ok {
      return ErrInsufficientBalance, c.gas, [], 0;
    }
    if !authorized {
      return ErrNotAuth, 0, [], 0;
    }
    err, left, ret, burned := RunAndDeploy(s, forks, c, body, snapshot);
  }

  method RunAndDeploy(s: Txn, forks: Forks, c: Contract, body: Frame, snapshot: nat)
    returns (err: Error, left: nat, ret: Code, ghost burned: nat)
    requires s.Valid() && snapshot in s.live && snapshot < |s.view.saved|
    modifies s, s.arrays
    ensures s.Valid()
    ensures old(s.arrays) <= s.arrays && forall x :: x in s.arrays ==> x in old(s.arrays) || fresh(x)
    ensures (forall j :: j in old(s.live) && j <= snapshot ==> j in s.live) && old(s.view.saved) <= s.view.saved
    ensures Outcome(s.view.cur, err, left, ret, burned) ==
            Deployed(forks, s.base, old(s.view).saved[snapshot], c,
                     Executor.Run(forks, s.base, old(s.view.cur), c.gas, body))
    decreases body, 1
  {
    err, left, ret, burned := Run(s, forks, c.gas, body);
    err, left, ret, burned := Deploy(s, forks, c, snapshot, err, left, ret, burned);
  }

  /** The end of applyCreate: the code is stored, or the creation is reverted to its snapshot, or it fails as it
      stands. */
  method Deploy(s: Txn, forks: Forks, c: Contract, snapshot: nat, err: Error, left: nat, ret: Code, ghost burned: nat)
    returns (err': Error, left': nat, ret': Code, ghost burned': nat)
    requires s.Valid() && snapshot in s.live && snapshot < |s.view.saved|
    modifies s`txn, s`view, s`heap, s`objects, s`accounts, s`live
    ensures s.Valid() && s.view.saved == old(s.view.saved)
    ensures forall j :: j in old(s.live) && j <= snapshot ==> j in s.live
    ensures Outcome(s.view.cur, err', left', ret', burned') ==
            Deployed(forks, s.base, old(s.view).saved[snapshot], c, Outcome(old(s.view.cur), err, left, ret, burned))
  {
    err', left', ret', burned' := err, left, ret, burned;
    if err != NoError {
      s.RevertToSnapshot(snapshot);
      burned' := 0;
      return;
    }
    if forks.eip158 && |ret| > MAX_CODE_SIZE {
      s.RevertToSnapshot(snapshot);
      return ErrMaxCodeSize, 0, [], 0;
    }
    var gasCost := (|ret| * 200) % U64;
    if left < gasCost {
      err', ret' := ErrCodeStoreOutOfGas, [];
      if forks.homestead {
        s.RevertToSnapshot(snapshot);
        left', burned' := 0, 0;
      }
      return;
    }
    left' := left - gasCost;
    s.UpsertAccount(c.address, SetCode(ret));
  }
}
