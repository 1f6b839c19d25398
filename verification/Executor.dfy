/** Calls and creations of state/executor.go over the pure overlay. What a runtime does with its host is an
    arbitrary tree: a frame is a list of host operations, sub-calls included, that ends in an outcome. */
module Executor {
  import opened Common
  import opened World
  import opened Balances

  datatype CallKind = Call | CallCode | DelegateCall | StaticCall

  /** A nil value is None. */
  datatype Contract = Contract(depth: nat, caller: Address, address: Address, value: Option<nat>, gas: nat)

  datatype HostOp =
    | OpSetStorage(a: Address, key: Key, word: Word)
    | OpSetState(a: Address, key: Key, word: Word)
    | OpEmitLog(log: Log)
    | OpSelfdestruct(a: Address, beneficiary: Address)
    | OpTransfer(src: Address, dst: Address, amount: Option<nat>)
    | OpCall(kind: CallKind, c: Contract, body: Frame)
    | OpCreate(c: Contract, authorized: bool, body: Frame)

  datatype Frame =
    | Stop(failed: bool, gasLeft: nat, ret: Code)
    | Do(op: HostOp, rest: Frame)

  datatype Error =
    | NoError | ErrDepth | ErrInsufficientBalance | ErrRuntime | ErrCollision | ErrNotAuth
    | ErrMaxCodeSize | ErrCodeStoreOutOfGas

  /** `burned` is the balance destroyed by accounts that named themselves as beneficiary. */
  datatype Outcome = Outcome(tree: Tree, err: Error, gasLeft: nat, ret: Code, burned: nat)

  const MAX_CODE_SIZE := 24576

  function Transfer(base: Base, t: Tree, src: Address, dst: Address, amount: Option<nat>): Option<Tree> {
    match amount
    case None => Some(t)
    case Some(x) =>
      match Debit(base, t, src, x)
      case None => None
      case Some(t1) => Some(Upsert(base, t1, dst, AddBalance(x)))
  }

  function Selfdestruct(base: Base, t: Tree, a: Address, beneficiary: Address): Tree {
    var t1 := if HasSuicided(base, t, a) then t else t.(refund := AddRefund(t.refund, 24000));
    Upsert(base, Upsert(base, t1, beneficiary, AddBalance(BalanceOf(base, t1, a))), a, Suicide)
  }

  function Min(x: nat, y: nat): nat { if x < y then x else y }

  /** The runtime returns no more gas than it was given. */
  function Run(forks: Forks, base: Base, t: Tree, gas: nat, f: Frame): Outcome
    decreases f, 0
  {
    match f
    case Stop(failed, left, ret) => Outcome(t, if failed then ErrRuntime else NoError, Min(left, gas), ret, 0)
    case Do(op, rest) =>
      var (t1, b1) := Host(forks, base, t, op);
      var o := Run(forks, base, t1, gas, rest);
      o.(burned := o.burned + b1)
  }

  function Host(forks: Forks, base: Base, t: Tree, op: HostOp): (Tree, nat)
    decreases op, 0
  {
    match op
    case OpSetStorage(a, k, w) => (SetStorage(forks, base, t, a, k, w).0, 0)
    case OpSetState(a, k, w) => (Upsert(base, t, a, SetState(k, w)), 0)
    case OpEmitLog(l) => (t.(logs := t.logs + [l]), 0)
    case OpSelfdestruct(a, b) => (Selfdestruct(base, t, a, b), if a == b then BalanceOf(base, t, a) else 0)
    case OpTransfer(src, dst, x) => (match Transfer(base, t, src, dst, x) case Some(t1) => (t1, 0) case None => (t, 0))
    case OpCall(kind, c, body) => var o := ApplyCall(forks, base, t, kind, c, body); (o.tree, o.burned)
    case OpCreate(c, authorized, body) => var o := ApplyCreate(forks, base, t, c, authorized, body); (o.tree, o.burned)
  }

  /** The tree a call starts in, if the value can be paid. */
  function Entered(base: Base, t: Tree, kind: CallKind, c: Contract): Option<Tree> {
    if kind.Call? then Transfer(base, t, c.caller, c.address, c.value) else Some(t)
  }

  /** A failed run goes back to the tree `t` and burns nothing. */
  function Reverting(t: Tree, o: Outcome): Outcome {
    if o.err != NoError then o.(tree := t, burned := 0) else o
  }

  function ApplyCall(forks: Forks, base: Base, t: Tree, kind: CallKind, c: Contract, body: Frame): Outcome
    decreases body, 2
  {
    if c.depth > 1025 then Outcome(t, ErrDepth, c.gas, [], 0) else Called(forks, base, t, kind, c, body)
  }

  /** applyCall from its snapshot `t` on. */
  function Called(forks: Forks, base: Base, t: Tree, kind: CallKind, c: Contract, body: Frame): Outcome
    decreases body, 1
  {
    var t1 := Upsert(base, t, c.address, Touch);
    match Entered(base, t1, kind, c)
    case None => Outcome(t1, ErrInsufficientBalance, c.gas, [], 0)
    case Some(t2) => Reverting(t, Run(forks, base, t2, c.gas, body))
  }

  predicate HasCodeOrNonce(base: Base, t: Tree, a: Address) {
    NonceOf(base, t, a) != 0 || CodeOf(base, t, a) != []
  }

  /** The overlay with which the creation code starts, if the value can be paid. */
  function CreateStart(forks: Forks, base: Base, t: Tree, c: Contract): Tree {
    if forks.eip158 then Upsert(base, CreateAccount(base, t, c.address), c.address, IncrNonce) else t
  }

  function ApplyCreate(forks: Forks, base: Base, t: Tree, c: Contract, authorized: bool, body: Frame): Outcome
    decreases body, 3
  {
    if c.depth > 1025 then Outcome(t, ErrDepth, c.gas, [], 0)
    else UnlessTaken(forks, base, Upsert(base, t, c.caller, IncrNonce), c, authorized, body)
  }

  /** applyCreate once the caller's nonce is spent. */
  function UnlessTaken(forks: Forks, base: Base, t: Tree, c: Contract, authorized: bool, body: Frame): Outcome
    decreases body, 2
  {
    if HasCodeOrNonce(base, t, c.address) then Outcome(t, ErrCollision, 0, [], 0)
    else Created(forks, base, t, c, authorized, body)
  }

  /** applyCreate from its snapshot `t` on. */
  function Created(forks: Forks, base: Base, t: Tree, c: Contract, authorized: bool, body: Frame): Outcome
    decreases body, 1
  {
    var t1 := CreateStart(forks, base, t, c);
    match Transfer(base, t1, c.caller, c.address, c.value)
    case None => Outcome(t1, ErrInsufficientBalance, c.gas, [], 0)
    case Some(t2) =>
      if !authorized then Outcome(t2, ErrNotAuth, 0, [], 0)
      else Deployed(forks, base, t, c, Run(forks, base, t2, c.gas, body))
  }

  /** The end of applyCreate, after the creation code ran from a tree saved as `t1`. */
  function Deployed(forks: Forks, base: Base, t1: Tree, c: Contract, o: Outcome): Outcome {
    var gasCost := (|o.ret| * 200) % U64;
    if o.err != NoError then
      o.(tree := t1, burned := 0)
    else if forks.eip158 && |o.ret| > MAX_CODE_SIZE then
      Outcome(t1, ErrMaxCodeSize, 0, [], 0)
    else if o.gasLeft < gasCost then
      if forks.homestead then Outcome(t1, ErrCodeStoreOutOfGas, 0, [], 0)
      else o.(err := ErrCodeStoreOutOfGas, ret := [])
    else
      o.(gasLeft := o.gasLeft - gasCost, tree := Upsert(base, o.tree, c.address, SetCode(o.ret)))
  }

  /** The ways a creation goes before its snapshot. */
  lemma {:induction false} CreateCases(forks: Forks, base: Base, t: Tree, c: Contract, authorized: bool, body: Frame)
    ensures var t1 := Upsert(base, t, c.caller, IncrNonce);
            ApplyCreate(forks, base, t, c, authorized, body) ==
              if c.depth > 1025 then Outcome(t, ErrDepth, c.gas, [], 0)
              else if HasCodeOrNonce(base, t1, c.address) then Outcome(t1, ErrCollision, 0, [], 0)
              else Created(forks, base, t1, c, authorized, body)
  {
    assert c.depth <= 1025 ==> ApplyCreate(forks, base, t, c, authorized, body) ==
                               UnlessTaken(forks, base, Upsert(base, t, c.caller, IncrNonce), c, authorized, body);
  }

  /** A run never returns more gas than it was given, and fails only with its own error. */
  lemma {:induction false} RunReturns(forks: Forks, base: Base, t: Tree, gas: nat, f: Frame)
    ensures var o := Run(forks, base, t, gas, f); o.gasLeft <= gas && (o.err == NoError || o.err == ErrRuntime)
    decreases f
  {
    if f.Do? {
      RunReturns(forks, base, Host(forks, base, t, f.op).0, gas, f.rest);
    }
  }

  /** A transfer moves the amount from one balance to the other and touches no third one. */
  lemma {:induction false} TransferMoves(base: Base, t: Tree, src: Address, dst: Address, amount: Option<nat>)
    ensures Transfer(base, t, src, dst, amount).None? <==> amount.Some? && BalanceOf(base, t, src) < amount.value
    ensures Transfer(base, t, src, dst, amount).Some? ==>
            var t', x := Transfer(base, t, src, dst, amount).value, if amount.Some? then amount.value else 0;
            forall b :: BalanceOf(base, t', b) + (if b == src then x else 0) ==
              BalanceOf(base, t, b) + (if b == dst then x else 0)
  {
    if amount.Some? {
      var x := amount.value;
      EditedBalance(base, t, src, SubBalance(x));
      if Debit(base, t, src, x).Some? {
        EditedBalance(base, Debit(base, t, src, x).value, dst, AddBalance(x));
      }
    }
  }

  lemma {:induction false} CreateStartBalances(forks: Forks, base: Base, t: Tree, c: Contract)
    ensures SameBalances(base, t, CreateStart(forks, base, t, c))
  {
    CreatedBalance(base, t, c.address);
    NeutralEdit(base, CreateAccount(base, t, c.address), c.address, IncrNonce);
  }
}
