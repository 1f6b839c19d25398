/** What a message costs and to whom, from the state before it to the state after its cleaning. */
module Payments {
  import opened Common
  import opened World
  import opened Balances
  import opened Executor
  import opened Effects
  import opened Conservation
  import opened Blocks

  /** From `t` to `t'` the sender has paid `x` to `to` and the coinbase `fee`. */
  ghost predicate Pays(base: Base, t: Tree, t': Tree, src: Address, to: Address, x: nat, coinbase: Address, fee: nat) {
    forall b :: BalanceOf(base, t', b) + (if b == src then x + fee else 0) ==
                BalanceOf(base, t, b) + (if b == to then x else 0) + if b == coinbase then fee else 0
  }

  /** The upfront cost is taken from the sender alone. */
  lemma {:induction false} PaidUpfront(base: Base, t: Tree, m: Message)
    requires EntryError(base, t, m).None?
    ensures forall b :: BalanceOf(base, Paid(base, t, m), b) + (if b == m.src then Fee(m.gas, m.gasPrice) else 0) ==
                        BalanceOf(base, t, b)
    ensures NoFlags(t) ==> NoFlags(Paid(base, t, m))
  {
    PaidTotal(base, t, m);
    if m.kind.LegacyTx? {
      EditedBalance(base, t, m.src, SubBalance(Fee(m.gas, m.gasPrice)));
    }
  }

  /** Without marked accounts the cleaning leaves all balances. */
  lemma {:induction false} FinishedKeeps(base: Base, t: Tree)
    requires NoFlags(t)
    ensures SameBalances(base, t, Finished(t))
  {}

  /** What the cleaning after a message leaves of an account: a suicided or empty one is gone, any other is as it was;
      the logs have moved to the receipt and the refund counter is zero. */
  lemma {:induction false} FinishedReads(base: Base, t: Tree, a: Address)
    ensures var t' := Finished(t);
            && t'.logs == [] && t'.refund == 0
            && if a in t.objs && (t.objs[a].suicide || t.objs[a].Empty()) then Lookup(base, t', a).None?
               else Lookup(base, t', a) == Lookup(base, t, a)
  {}

  /** The payments of a message whose run moved `x` from the sender to `to`; Fee is the product of gas and price. */
  lemma {:induction false} AddUp(base: Base, was: Tree, paid: Tree, ran: Tree, settled: Tree, now: Tree, m: Message,
                                 to: Address, x: nat, coinbase: Address, used: nat)
    requires used <= m.gas && PaysOut(base, ran, settled, m, coinbase, used) && SameBalances(base, settled, now)
    requires forall b :: BalanceOf(base, paid, b) + (if b == m.src then Fee(m.gas, m.gasPrice) else 0) ==
                         BalanceOf(base, was, b)
    requires Moves(base, paid, ran, m.src, to, x)
    ensures Pays(base, was, now, m.src, to, x, coinbase, Fee(used, m.gasPrice))
  {
    FeesSplit(m.gas, used, m.gasPrice);
    FeeIsProduct(m.gas - used, m.gasPrice);
    FeeIsProduct(used, m.gasPrice);
  }

  /** The tree a message's call leaves, and what it has moved. */
  lemma {:induction false} CallMessage(forks: Forks, base: Base, paid: Tree, m: Message, left: nat, to: Address)
    requires m.to == Some(to) && NoFlags(paid)
    ensures var o := Dispatched(forks, base, paid, m, left);
            && (o.err != NoError || (m.body.Stop? && !m.body.failed) ==>
                  NonceOf(base, o.tree, m.src) == (NonceOf(base, paid, m.src) + 1) % U64)
            && (o.err != NoError ==> Moves(base, paid, o.tree, m.src, to, 0) && NoFlags(o.tree))
            && (m.body.Stop? && !m.body.failed ==>
                  (o.err == NoError <==> m.value <= BalanceOf(base, paid, m.src)))
            && (m.body.Stop? && !m.body.failed && o.err == NoError ==>
                  Moves(base, paid, o.tree, m.src, to, m.value) && NoFlags(o.tree))
  {
    var t1, c := Upsert(base, paid, m.src, IncrNonce), Contract(1, m.src, to, Some(m.value), left);
    NeutralEdit(base, paid, m.src, IncrNonce);
    EditNoFlags(base, paid, m.src, IncrNonce);
    NonceSpent(base, paid, m.src);
    CallErrs(forks, base, t1, Call, c, m.body);
    var o := ApplyCall(forks, base, t1, Call, c, m.body);
    if o.err != NoError {
      FailedCallKeeps(forks, base, t1, Call, c, m.body);
      FailedCallNoFlags(forks, base, t1, Call, c, m.body);
      FailedCallNonce(forks, base, t1, Call, c, m.body, m.src);
    }
    if m.body.Stop? && !m.body.failed && !CannotPay(base, t1, Call, c) {
      CallPays(forks, base, t1, Call, c, m.body.gasLeft, m.body.ret);
      CallBurnsNothing(forks, base, t1, Call, c, m.body);
    }
  }

  lemma {:induction false} FailedCallNonce(
    forks: Forks, base: Base, t: Tree, kind: CallKind, c: Contract, body: Frame, a: Address)
    requires ApplyCall(forks, base, t, kind, c, body).err != NoError
    ensures NonceOf(base, ApplyCall(forks, base, t, kind, c, body).tree, a) == NonceOf(base, t, a)
  {
    EditOnlyBalances(base, t, c.address, Touch);
  }

  lemma {:induction false} FailedCallNoFlags(
    forks: Forks, base: Base, t: Tree, kind: CallKind, c: Contract, body: Frame)
    requires NoFlags(t) && ApplyCall(forks, base, t, kind, c, body).err != NoError
    ensures NoFlags(ApplyCall(forks, base, t, kind, c, body).tree)
  {
    EditNoFlags(base, t, c.address, Touch);
  }

  /** The tree in which the run of a message ended before the fees were paid. */
  lemma {:induction false} RanTo(
    forks: Forks, base: Base, coinbase: Address, s: Stages, m: Message, now: Tree, r: Receipt, x: nat)
    returns (ran: Tree)
    requires Writes(forks, base, coinbase, s, m, now, r) && NoFlags(s.paid) && m.to.Some?
    requires if r.success then m.body.Stop? && !m.body.failed && x == m.value else x == 0
    ensures r.gasUsed <= m.gas && PaysOut(base, ran, s.settled, m, coinbase, r.gasUsed)
    ensures Moves(base, s.paid, ran, m.src, m.to.value, x) && SameBalances(base, s.settled, now)
  {
    ran := Dispatched(forks, base, s.paid, m, s.left).tree;
    CallMessage(forks, base, s.paid, m, s.left, m.to.value);
    WritesPaysOut(forks, base, coinbase, s, m, now, r);
    SettledKeeps(forks, base, coinbase, s, m, now, r);
  }

  lemma {:induction false} SettledKeeps(forks: Forks, base: Base, coinbase: Address, s: Stages, m: Message, now: Tree,
                                        r: Receipt)
    requires Writes(forks, base, coinbase, s, m, now, r)
    requires NoFlags(Dispatched(forks, base, s.paid, m, s.left).tree)
    ensures r.gasUsed <= m.gas && SameBalances(base, s.settled, now)
  {
    SettledFinishes(base, coinbase, Dispatched(forks, base, s.paid, m, s.left).tree, m.src,
                    Fee(m.gas - r.gasUsed, m.gasPrice), Fee(r.gasUsed, m.gasPrice), s.settled, now);
  }

  lemma {:induction false} SettledFinishes(base: Base, coinbase: Address, ran: Tree, src: Address, back: nat, fee: nat,
                                           settled: Tree, now: Tree)
    requires settled == Settled(base, coinbase, ran, src, back, fee) && now == Finished(settled) && NoFlags(ran)
    ensures SameBalances(base, settled, now)
  {
    SettledTotal(base, coinbase, ran, src, back, fee);
    FinishedKeeps(base, settled);
  }

  lemma {:induction false} PaidBefore(forks: Forks, base: Base, was: Tree, m: Message, s: Stages)
    requires Starts(forks, base, was, m, s) && NoFlags(was)
    ensures NoFlags(s.paid)
    ensures forall b :: BalanceOf(base, s.paid, b) + (if b == m.src then Fee(m.gas, m.gasPrice) else 0) ==
                        BalanceOf(base, was, b)
  {
    PaidUpfront(base, was, m);
  }

  lemma {:induction false} MessagePays(forks: Forks, base: Base, coinbase: Address, was: Tree, s: Stages, m: Message,
                                       now: Tree, r: Receipt, x: nat)
    requires Starts(forks, base, was, m, s) && Writes(forks, base, coinbase, s, m, now, r) && NoFlags(was) && m.to.Some?
    requires if r.success then m.body.Stop? && !m.body.failed && x == m.value else x == 0
    ensures Pays(base, was, now, m.src, m.to.value, x, coinbase, Fee(r.gasUsed, m.gasPrice))
  {
    PaidBefore(forks, base, was, m, s);
    var ran := RanTo(forks, base, coinbase, s, m, now, r, x);
    AddUp(base, was, s.paid, ran, s.settled, now, m, m.to.value, x, coinbase, r.gasUsed);
  }

  /** A message that calls and fails, whatever its code does, costs its sender the gas used and nothing else. */
  lemma {:induction false} FailedCallCosts(
    forks: Forks, base: Base, coinbase: Address, was: Tree, s: Stages, m: Message, now: Tree, r: Receipt)
    requires Starts(forks, base, was, m, s) && Writes(forks, base, coinbase, s, m, now, r) && NoFlags(was)
    requires m.to.Some? && !r.success
    ensures Pays(base, was, now, m.src, m.to.value, 0, coinbase, Fee(r.gasUsed, m.gasPrice))
  {
    MessagePays(forks, base, coinbase, was, s, m, now, r, 0);
  }

  lemma {:induction false} PlainSucceeds(forks: Forks, base: Base, coinbase: Address, s: Stages, m: Message, now: Tree,
                                         r: Receipt)
    requires Writes(forks, base, coinbase, s, m, now, r) && NoFlags(s.paid)
    requires m.to.Some? && m.body.Stop? && !m.body.failed
    ensures r.success <==> m.value <= BalanceOf(base, s.paid, m.src)
  {
    CallMessage(forks, base, s.paid, m, s.left, m.to.value);
  }

  /** A message to code that stops at once succeeds exactly when the sender has the upfront cost and the value; it then
      moves the value to the receiver, and in either case the fee for the gas used to the coinbase. */
  lemma {:induction false} PlainTransfer(forks: Forks, base: Base, coinbase: Address, was: Tree, s: Stages, m: Message,
                                         now: Tree, r: Receipt)
    requires Starts(forks, base, was, m, s) && Writes(forks, base, coinbase, s, m, now, r) && NoFlags(was)
    requires m.to.Some? && m.body.Stop? && !m.body.failed
    ensures r.success <==> Fee(m.gas, m.gasPrice) + m.value <= BalanceOf(base, was, m.src)
    ensures Pays(base, was, now, m.src, m.to.value, if r.success then m.value else 0,
                 coinbase, Fee(r.gasUsed, m.gasPrice))
  {
    PaidBefore(forks, base, was, m, s);
    PlainSucceeds(forks, base, coinbase, s, m, now, r);
    MessagePays(forks, base, coinbase, was, s, m, now, r, if r.success then m.value else 0);
  }

  /** A creation that gets past its checks, with code that stops at once. */
  lemma {:induction false} PlainDeploys(forks: Forks, base: Base, t: Tree, c: Contract, left: nat, ret: Code)
    requires c.depth <= 1025 && !Collides(base, t, c) && c.value.Some? && c.value.value <= BalanceOf(base, t, c.caller)
    ensures var o := ApplyCreate(forks, base, t, c, true, Stop(false, left, ret));
            var tooLong, cost, kept := forks.eip158 && |ret| > 24576, (200 * |ret|) % U64, Min(left, c.gas);
            && (o.err == ErrMaxCodeSize <==> tooLong)
            && (o.err == ErrCodeStoreOutOfGas <==> !tooLong && kept < cost)
            && (o.err == NoError <==> !tooLong && cost <= kept)
            && (o.err == NoError ==>
                  && Moves(base, t, o.tree, c.caller, c.address, c.value.value)
                  && CodeOf(base, o.tree, c.address) == ret && o.gasLeft == kept - cost
                  && (c.caller != c.address ==>
                        NonceOf(base, o.tree, c.caller) == (NonceOf(base, t, c.caller) + 1) % U64))
  {
    var saved, blank, start := CreateRunsFrom(forks, base, t, c, Stop(false, left, ret));
    assert Run(forks, base, start, c.gas, Stop(false, left, ret)) == Outcome(start, NoError, Min(left, c.gas), ret, 0);
  }

  /** A message that creates, with code that stops at once: it fails for an address in use, for want of balance, for a
      refusal by the allow list, for its size or for want of gas, in this order; otherwise the sender's nonce is spent,
      the value is with the new account and the code returned is its code. */
  lemma {:induction false} PlainCreation(forks: Forks, base: Base, paid: Tree, m: Message, left: nat)
    requires m.to.None? && m.body.Stop? && !m.body.failed
    ensures var o, n := Dispatched(forks, base, paid, m, left), NonceOf(base, paid, m.created);
            var taken := (if m.created == m.src then (n + 1) % U64 else n) != 0 || CodeOf(base, paid, m.created) != [];
            var short := BalanceOf(base, paid, m.src) < m.value;
            var runs, tooLong := !taken && !short && m.authorized, forks.eip158 && |m.body.ret| > 24576;
            var cost, kept := (200 * |m.body.ret|) % U64, Min(m.body.gasLeft, left);
            && (o.err == ErrCollision <==> taken) && (o.err == ErrInsufficientBalance <==> !taken && short)
            && (o.err == ErrNotAuth <==> !taken && !short && !m.authorized)
            && (o.err == ErrMaxCodeSize <==> runs && tooLong)
            && (o.err == ErrCodeStoreOutOfGas <==> runs && !tooLong && kept < cost)
            && (o.err == NoError <==> runs && !tooLong && cost <= kept)
            && (o.err == NoError ==>
                  && Moves(base, paid, o.tree, m.src, m.created, m.value)
                  && CodeOf(base, o.tree, m.created) == m.body.ret && o.gasLeft == kept - cost
                  && (m.src != m.created ==> NonceOf(base, o.tree, m.src) == (NonceOf(base, paid, m.src) + 1) % U64))
  {
    var c := Contract(1, m.src, m.created, Some(m.value), left);
    CreateErrs(forks, base, paid, c, m.authorized, m.body);
    if m.authorized && !Collides(base, paid, c) && m.value <= BalanceOf(base, paid, m.src) {
      PlainDeploys(forks, base, paid, c, m.body.gasLeft, m.body.ret);
    }
  }
}
