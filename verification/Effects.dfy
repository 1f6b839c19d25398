/** What calls, creations and selfdestructs do, in terms of the reads: which error they end with, who pays whom, and
    what their code finds when it starts. */
module Effects {
  import opened Common
  import opened World
  import opened Balances
  import opened Reads
  import opened Executor

  /** Nothing but balances differs, and accounts that were missing may exist. */
  ghost predicate OnlyBalances(base: Base, t: Tree, t': Tree) {
    && t'.logs == t.logs && t'.refund == t.refund
    && (forall b :: NonceOf(base, t', b) == NonceOf(base, t, b) && CodeOf(base, t', b) == CodeOf(base, t, b))
    && (forall b :: HasSuicided(base, t', b) == HasSuicided(base, t, b))
    && (forall b, k :: StateOf(base, t', b, k) == StateOf(base, t, b, k))
  }

  /** `x` has gone from the balance of `src` to that of `dst`. */
  ghost predicate Moves(base: Base, t: Tree, t': Tree, src: Address, dst: Address, x: nat) {
    forall b :: BalanceOf(base, t', b) + (if b == src then x else 0) ==
                BalanceOf(base, t, b) + if b == dst then x else 0
  }

  lemma {:induction false} EditOnlyBalances(base: Base, t: Tree, a: Address, e: Edit)
    requires e.Touch? || e.AddBalance? || e.SubBalance?
    ensures OnlyBalances(base, t, Upsert(base, t, a, e))
  {
    forall b, k ensures StateOf(base, Upsert(base, t, a, e), b, k) == StateOf(base, t, b, k) {
      EditsOne(base, t, a, e, b, k);
      EditReads(base, t, a, e, k);
    }
    forall b ensures NonceOf(base, Upsert(base, t, a, e), b) == NonceOf(base, t, b) &&
                     CodeOf(base, Upsert(base, t, a, e), b) == CodeOf(base, t, b) &&
                     HasSuicided(base, Upsert(base, t, a, e), b) == HasSuicided(base, t, b)
    {
      EditsOne(base, t, a, e, b, 0);
      EditReads(base, t, a, e, 0);
    }
  }

  lemma {:induction false} TransferReads(base: Base, t: Tree, src: Address, dst: Address, amount: Option<nat>)
    requires Transfer(base, t, src, dst, amount).Some?
    ensures var t' := Transfer(base, t, src, dst, amount).value;
            OnlyBalances(base, t, t') && Moves(base, t, t', src, dst, if amount.Some? then amount.value else 0)
  {
    TransferMoves(base, t, src, dst, amount);
    if amount.Some? {
      var t1 := Debit(base, t, src, amount.value).value;
      EditOnlyBalances(base, t, src, SubBalance(amount.value));
      EditOnlyBalances(base, t1, dst, AddBalance(amount.value));
    }
  }

  // ---------- Calls ----------

  /** The caller of a plain call cannot pay the value. */
  predicate CannotPay(base: Base, t: Tree, kind: CallKind, c: Contract) {
    kind.Call? && c.value.Some? && BalanceOf(base, t, c.caller) < c.value.value
  }

  /** What a call moves: its value, if it is a plain call. */
  function Value(kind: CallKind, c: Contract): nat {
    if kind.Call? && c.value.Some? then c.value.value else 0
  }

  /** The errors of a call; without one of its own it ends as its code does. */
  lemma {:induction false} CallErrs(forks: Forks, base: Base, t: Tree, kind: CallKind, c: Contract, body: Frame)
    ensures var o := ApplyCall(forks, base, t, kind, c, body);
            && (o.err == ErrDepth <==> c.depth > 1025)
            && (o.err == ErrInsufficientBalance <==> c.depth <= 1025 && CannotPay(base, t, kind, c))
            && (o.err == ErrDepth || o.err == ErrInsufficientBalance ==>
                  o.gasLeft == c.gas && o.burned == 0 && SameBalances(base, t, o.tree))
            && (o.err == ErrDepth || o.err == ErrInsufficientBalance || o.err == NoError || o.err == ErrRuntime)
  {
    if c.depth <= 1025 {
      var t1 := Upsert(base, t, c.address, Touch);
      NeutralEdit(base, t, c.address, Touch);
      TransferMoves(base, t1, c.caller, c.address, c.value);
      var e := Entered(base, t1, kind, c);
      if e.Some? {
        RunReturns(forks, base, e.value, c.gas, body);
      }
    }
  }

  /** Code called starts after the caller has paid the callee, and with everything else as it was; if it fails the tree
      is the one before the call. */
  lemma {:induction false} CallRunsFrom(forks: Forks, base: Base, t: Tree, kind: CallKind, c: Contract, body: Frame)
    returns (start: Tree)
    requires c.depth <= 1025 && !CannotPay(base, t, kind, c)
    ensures OnlyBalances(base, t, start) && Moves(base, t, start, c.caller, c.address, Value(kind, c))
    ensures var o, r := ApplyCall(forks, base, t, kind, c, body), Run(forks, base, start, c.gas, body);
            o == if r.err == NoError then r else Outcome(t, r.err, r.gasLeft, r.ret, 0)
  {
    var t1 := Upsert(base, t, c.address, Touch);
    NeutralEdit(base, t, c.address, Touch);
    EditOnlyBalances(base, t, c.address, Touch);
    start := t1;
    if kind.Call? {
      TransferMoves(base, t1, c.caller, c.address, c.value);
      TransferReads(base, t1, c.caller, c.address, c.value);
      start := Transfer(base, t1, c.caller, c.address, c.value).value;
    }
    assert Called(forks, base, t, kind, c, body) == Reverting(t, Run(forks, base, start, c.gas, body));
  }

  /** A call that fails, for whatever reason, moves no balance and burns none. */
  lemma {:induction false} FailedCallKeeps(forks: Forks, base: Base, t: Tree, kind: CallKind, c: Contract, body: Frame)
    requires ApplyCall(forks, base, t, kind, c, body).err != NoError
    ensures var o := ApplyCall(forks, base, t, kind, c, body); SameBalances(base, t, o.tree) && o.burned == 0
  {
    CallErrs(forks, base, t, kind, c, body);
    if c.depth <= 1025 && !CannotPay(base, t, kind, c) {
      var start := CallRunsFrom(forks, base, t, kind, c, body);
    }
  }

  /** A call of code that stops at once: the caller pays the callee, for the other three kinds nobody pays. */
  lemma {:induction false} CallPays(
    forks: Forks, base: Base, t: Tree, kind: CallKind, c: Contract, left: nat, ret: Code)
    requires c.depth <= 1025 && !CannotPay(base, t, kind, c)
    ensures var o := ApplyCall(forks, base, t, kind, c, Stop(false, left, ret));
            && o.err == NoError && OnlyBalances(base, t, o.tree)
            && (kind.Call? && c.value.Some? ==> Moves(base, t, o.tree, c.caller, c.address, c.value.value))
            && (!kind.Call? || c.value.None? ==> SameBalances(base, t, o.tree))
  {
    var start := CallRunsFrom(forks, base, t, kind, c, Stop(false, left, ret));
    assert Run(forks, base, start, c.gas, Stop(false, left, ret)).tree == start;
  }

  // ---------- Creations ----------

  /** Only the nonce of `a` differs, and is one more. */
  ghost predicate SpendsNonce(base: Base, t: Tree, t': Tree, a: Address) {
    && t'.logs == t.logs && t'.refund == t.refund && SameBalances(base, t, t')
    && (forall b :: NonceOf(base, t', b) == if b == a then (NonceOf(base, t, a) + 1) % U64 else NonceOf(base, t, b))
    && (forall b :: CodeOf(base, t', b) == CodeOf(base, t, b))
    && (forall b, k :: StateOf(base, t', b, k) == StateOf(base, t, b, k))
  }

  lemma {:induction false} NonceSpent(base: Base, t: Tree, a: Address)
    ensures SpendsNonce(base, t, Upsert(base, t, a, IncrNonce), a)
  {
    var t' := Upsert(base, t, a, IncrNonce);
    NeutralEdit(base, t, a, IncrNonce);
    forall b, k ensures StateOf(base, t', b, k) == StateOf(base, t, b, k) {
      EditsOne(base, t, a, IncrNonce, b, k);
      EditReads(base, t, a, IncrNonce, k);
    }
    forall b ensures NonceOf(base, t', b) ==
                     (if b == a then (NonceOf(base, t, a) + 1) % U64 else NonceOf(base, t, b)) &&
                     CodeOf(base, t', b) == CodeOf(base, t, b)
    {
      EditsOne(base, t, a, IncrNonce, b, 0);
      EditReads(base, t, a, IncrNonce, 0);
    }
  }

  /** What the creation code finds at the new address from EIP-158 on: nonce 1, no code and no storage. */
  ghost predicate StartsFresh(base: Base, t: Tree, start: Tree, a: Address) {
    && start.logs == t.logs && start.refund == t.refund && NonceOf(base, start, a) == 1 && CodeOf(base, start, a) == []
    && (forall k :: StateOf(base, start, a, k) == 0)
    && (forall b :: b != a ==>
          NonceOf(base, start, b) == NonceOf(base, t, b) && CodeOf(base, start, b) == CodeOf(base, t, b))
    && (forall b, k :: b != a ==> StateOf(base, start, b, k) == StateOf(base, t, b, k))
  }

  lemma {:induction false} FreshStart(base: Base, t: Tree, a: Address)
    ensures var t' := Upsert(base, CreateAccount(base, t, a), a, IncrNonce);
            StartsFresh(base, t, t', a) && SameBalances(base, t, t')
  {
    var t1 := CreateAccount(base, t, a);
    var t' := Upsert(base, t1, a, IncrNonce);
    CreatedBalance(base, t, a);
    NeutralEdit(base, t1, a, IncrNonce);
    forall k ensures StateOf(base, t', a, k) == 0 {
      CreateReads(base, t, a, a, k);
      EditReads(base, t1, a, IncrNonce, k);
    }
    forall b, k | b != a ensures StateOf(base, t', b, k) == StateOf(base, t, b, k) {
      CreateReads(base, t, a, b, k);
      EditsOne(base, t1, a, IncrNonce, b, k);
    }
    forall b | b != a ensures NonceOf(base, t', b) == NonceOf(base, t, b) && CodeOf(base, t', b) == CodeOf(base, t, b) {
      CreateReads(base, t, a, b, 0);
      EditsOne(base, t1, a, IncrNonce, b, 0);
    }
    CreateReads(base, t, a, a, 0);
    EditReads(base, t1, a, IncrNonce, 0);
  }

  /** The address of a creation is in use once the caller's nonce has gone up. */
  predicate Collides(base: Base, t: Tree, c: Contract) {
    var n := NonceOf(base, t, c.address);
    (if c.address == c.caller then (n + 1) % U64 else n) != 0 || CodeOf(base, t, c.address) != []
  }

  /** The errors of a creation before its code runs. */
  lemma {:induction false} CreateErrs(forks: Forks, base: Base, t: Tree, c: Contract, authorized: bool, body: Frame)
    ensures var o := ApplyCreate(forks, base, t, c, authorized, body);
            var short := c.value.Some? && BalanceOf(base, t, c.caller) < c.value.value;
            && (o.err == ErrDepth <==> c.depth > 1025)
            && (o.err == ErrCollision <==> c.depth <= 1025 && Collides(base, t, c))
            && (o.err == ErrInsufficientBalance <==> c.depth <= 1025 && !Collides(base, t, c) && short)
            && (o.err == ErrNotAuth <==> c.depth <= 1025 && !Collides(base, t, c) && !short && !authorized)
            && (o.err == ErrDepth || o.err == ErrInsufficientBalance ==> o.gasLeft == c.gas)
            && (o.err == ErrCollision || o.err == ErrNotAuth ==> o.gasLeft == 0)
  {
    var t1 := Upsert(base, t, c.caller, IncrNonce);
    CreateCases(forks, base, t, c, authorized, body);
    NonceSpent(base, t, c.caller);
    CreateStartBalances(forks, base, t1, c);
    var t2 := CreateStart(forks, base, t1, c);
    TransferMoves(base, t2, c.caller, c.address, c.value);
    var moved := Transfer(base, t2, c.caller, c.address, c.value);
    if moved.Some? {
      RunReturns(forks, base, moved.value, c.gas, body);
    }
  }

  /** The ends of a creation whose code ended as `r`, with `saved` to go back to. */
  ghost predicate EndsCreation(forks: Forks, base: Base, saved: Tree, a: Address, r: Outcome, o: Outcome) {
    var cost := (200 * |r.ret|) % U64;
    if r.err != NoError then
      o == Outcome(saved, r.err, r.gasLeft, r.ret, 0)
    else if forks.eip158 && |r.ret| > 24576 then
      o == Outcome(saved, ErrMaxCodeSize, 0, [], 0)
    else if r.gasLeft < cost then
      if forks.homestead then o == Outcome(saved, ErrCodeStoreOutOfGas, 0, [], 0)
      else o == Outcome(r.tree, ErrCodeStoreOutOfGas, r.gasLeft, [], r.burned)
    else
      && o.err == NoError && o.gasLeft == r.gasLeft - cost && o.ret == r.ret && o.burned == r.burned
      && CodeOf(base, o.tree, a) == r.ret && SameBalances(base, r.tree, o.tree)
      && (forall b :: b != a ==> CodeOf(base, o.tree, b) == CodeOf(base, r.tree, b))
      && (forall b :: NonceOf(base, o.tree, b) == NonceOf(base, r.tree, b))
      && (forall b, k :: StateOf(base, o.tree, b, k) == StateOf(base, r.tree, b, k))
      && o.tree.logs == r.tree.logs && o.tree.refund == r.tree.refund
  }

  lemma {:induction false} DeployedReads(forks: Forks, base: Base, saved: Tree, c: Contract, r: Outcome)
    ensures EndsCreation(forks, base, saved, c.address, r, Deployed(forks, base, saved, c, r))
  {
    var a := c.address;
    var t' := Upsert(base, r.tree, a, SetCode(r.ret));
    NeutralEdit(base, r.tree, a, SetCode(r.ret));
    forall b, k ensures StateOf(base, t', b, k) == StateOf(base, r.tree, b, k) {
      EditsOne(base, r.tree, a, SetCode(r.ret), b, k);
      EditReads(base, r.tree, a, SetCode(r.ret), k);
    }
    forall b ensures NonceOf(base, t', b) == NonceOf(base, r.tree, b) &&
                     CodeOf(base, t', b) == if b == a then r.ret else CodeOf(base, r.tree, b)
    {
      EditsOne(base, r.tree, a, SetCode(r.ret), b, 0);
      EditReads(base, r.tree, a, SetCode(r.ret), 0);
    }
    assert |r.ret| * 200 == 200 * |r.ret|;
  }

  /** A creation that gets past its checks: the caller's nonce is spent for good; the code starts at a fresh account,
      after the caller has paid it the value; and how it ends. */
  lemma {:induction false} CreateRunsFrom(forks: Forks, base: Base, t: Tree, c: Contract, body: Frame)
    returns (saved: Tree, blank: Tree, start: Tree)
    requires c.depth <= 1025 && !Collides(base, t, c)
    requires c.value.Some? ==> c.value.value <= BalanceOf(base, t, c.caller)
    ensures SpendsNonce(base, t, saved, c.caller) && SameBalances(base, saved, blank)
    ensures if forks.eip158 then StartsFresh(base, saved, blank, c.address) else blank == saved
    ensures OnlyBalances(base, blank, start)
    ensures Moves(base, blank, start, c.caller, c.address, if c.value.Some? then c.value.value else 0)
    ensures EndsCreation(forks, base, saved, c.address, Run(forks, base, start, c.gas, body),
                    ApplyCreate(forks, base, t, c, true, body))
    ensures ApplyCreate(forks, base, t, c, false, body) == Outcome(start, ErrNotAuth, 0, [], 0)
  {
    saved := Upsert(base, t, c.caller, IncrNonce);
    blank := CreateStart(forks, base, saved, c);
    NonceSpent(base, t, c.caller);
    FreshStart(base, saved, c.address);
    CreateCases(forks, base, t, c, true, body);
    CreateCases(forks, base, t, c, false, body);
    TransferMoves(base, blank, c.caller, c.address, c.value);
    TransferReads(base, blank, c.caller, c.address, c.value);
    start := Transfer(base, blank, c.caller, c.address, c.value).value;
    DeployedReads(forks, base, saved, c, Run(forks, base, start, c.gas, body));
  }

  // ---------- Selfdestruct ----------

  /** The account `b` after a selfdestruct of `a`. */
  ghost predicate DestroyedAt(base: Base, t: Tree, t': Tree, a: Address, beneficiary: Address, b: Address) {
    && BalanceOf(base, t', b) == (if b == a then 0
                                  else BalanceOf(base, t, b) + if b == beneficiary then BalanceOf(base, t, a) else 0)
    && NonceOf(base, t', b) == NonceOf(base, t, b) && CodeOf(base, t', b) == CodeOf(base, t, b)
    && HasSuicided(base, t', b) ==
       if b == a then Lookup(base, t, a).Some? || a == beneficiary else HasSuicided(base, t, b)
  }

  lemma {:induction false} PaidAndMarked(base: Base, t: Tree, a: Address, beneficiary: Address, b: Address)
    ensures var t' := Upsert(base, Upsert(base, t, beneficiary, AddBalance(BalanceOf(base, t, a))), a, Suicide);
            && DestroyedAt(base, t, t', a, beneficiary, b) && t'.logs == t.logs && t'.refund == t.refund
  {
    var x := BalanceOf(base, t, a);
    var t1 := Upsert(base, t, beneficiary, AddBalance(x));
    EditsOne(base, t, beneficiary, AddBalance(x), b, 0);
    EditsOne(base, t, beneficiary, AddBalance(x), a, 0);
    EditReads(base, t, beneficiary, AddBalance(x), 0);
    EditsOne(base, t1, a, Suicide, b, 0);
    SuicideReads(base, t1, a, 0);
  }

  /** The beneficiary gets the whole balance, the account is marked and empty, and 24000 is granted for an account that
      was not marked yet. */
  lemma {:induction false} SelfdestructReads(base: Base, t: Tree, a: Address, beneficiary: Address)
    ensures var t' := Selfdestruct(base, t, a, beneficiary);
            && t'.logs == t.logs && (forall b :: DestroyedAt(base, t, t', a, beneficiary, b))
            && t'.refund == (if HasSuicided(base, t, a) then t.refund else (t.refund + 24000) % U64)
  {
    var t1 := if HasSuicided(base, t, a) then t else t.(refund := AddRefund(t.refund, 24000));
    forall b ensures DestroyedAt(base, t, Selfdestruct(base, t, a, beneficiary), a, beneficiary, b) {
      assert Lookup(base, t1, b) == Lookup(base, t, b) && Lookup(base, t1, a) == Lookup(base, t, a);
      PaidAndMarked(base, t1, a, beneficiary, b);
    }
    PaidAndMarked(base, t1, a, beneficiary, a);
  }

  // ---------- Host operations ----------

  /** What each host operation that is not a call does, and what it burns. */
  lemma {:induction false} HostReads(forks: Forks, base: Base, t: Tree, op: HostOp, b: Address, k: Key)
    ensures var (t', burned) := Host(forks, base, t, op);
            match op
            case OpSetStorage(a, j, w) =>
              && StateOf(base, t', a, j) == w && BalanceOf(base, t', b) == BalanceOf(base, t, b) && burned == 0
              && ((b, k) != (a, j) ==> StateOf(base, t', b, k) == StateOf(base, t, b, k)) && t'.logs == t.logs
            case OpSetState(a, j, w) =>
              && StateOf(base, t', a, j) == w && BalanceOf(base, t', b) == BalanceOf(base, t, b) && burned == 0
              && ((b, k) != (a, j) ==> StateOf(base, t', b, k) == StateOf(base, t, b, k)) && SameElsewhere(t, t')
            case OpEmitLog(l) => t' == Tree(t.objs, t.logs + [l], t.refund) && burned == 0
            case OpTransfer(src, dst, x) =>
              && burned == 0
              && if x.Some? && BalanceOf(base, t, src) < x.value then t' == t
                 else OnlyBalances(base, t, t') && Moves(base, t, t', src, dst, if x.Some? then x.value else 0)
            case OpSelfdestruct(a, c) =>
              && DestroyedAt(base, t, t', a, c, b) && burned == if a == c then BalanceOf(base, t, a) else 0
            case OpCall(kind, c, body) =>
              var o := ApplyCall(forks, base, t, kind, c, body); t' == o.tree && burned == o.burned
            case OpCreate(c, authorized, body) =>
              var o := ApplyCreate(forks, base, t, c, authorized, body); t' == o.tree && burned == o.burned
  {
    match op {
      case OpSetStorage(a, j, w) => SetStorageReads(forks, base, t, a, j, w, b, k);
      case OpSetState(a, j, w) =>
        EditsOne(base, t, a, SetState(j, w), b, k);
        EditReads(base, t, a, SetState(j, w), k);
        EditReads(base, t, a, SetState(j, w), j);
      case OpEmitLog(l) =>
      case OpTransfer(src, dst, x) =>
        TransferMoves(base, t, src, dst, x);
        if Transfer(base, t, src, dst, x).Some? {
          TransferReads(base, t, src, dst, x);
        }
      case OpSelfdestruct(a, c) => SelfdestructReads(base, t, a, c);
      case OpCall(kind, c, body) =>
      case OpCreate(c, authorized, body) =>
    }
  }
}
