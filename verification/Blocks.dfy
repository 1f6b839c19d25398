/** The block transition of state/executor.go: fees, the gas pool, receipts and whole blocks. */
module Blocks {
  import opened Common
  import opened World
  import opened Balances
  import opened Executor
  import opened Conservation
  import opened OverlayTxn
  import HeapExecutor

  type Gas = g: nat | g < U64

  datatype TxType = LegacyTx | StateTx

  /** A transaction together with what code outside this model decides about it: the sender recovered from
      its signature, the address derived for a creation, the allow-list verdict and the run of its code. */
  datatype Message = Message(
    kind: TxType, src: Address, to: Option<Address>, nonce: nat, gasPrice: nat, gas: Gas, value: nat, input: seq<nat>,
    signer: Option<Address>, created: Address, authorized: bool, body: Frame)

  datatype TxError = GasLimitReached | Rejected(recoverable: bool)

  datatype Receipt = Receipt(success: bool, gasUsed: nat, cumulative: nat, logs: seq<Log>, contract: Option<Address>)

  const TX_GAS := 21000
  const TX_GAS_CREATION := 53000
  const STATE_TX_GAS := 1000000
  const SYSTEM_CALLER: Address := 0xffffFFFfFFffffffffffffffFfFFFfffFFFfFFfE

  // ---------- Intrinsic gas ----------

  function Zeros(input: seq<nat>): (n: nat)
    ensures n <= |input|
  {
    if input == [] then 0 else (if input[|input| - 1] == 0 then 1 else 0) + Zeros(input[..|input| - 1])
  }

  /** The cost of the payload, byte by byte, on unbounded integers. */
  function PayloadGas(nonZeroCost: nat, input: seq<nat>): nat {
    if input == [] then 0
    else (if input[|input| - 1] == 0 then 4 else nonZeroCost) + PayloadGas(nonZeroCost, input[..|input| - 1])
  }

  function IntrinsicGas(forks: Forks, m: Message): nat {
    (if m.to.None? && forks.homestead then TX_GAS_CREATION else TX_GAS)
    + PayloadGas(if forks.istanbul then 16 else 68, m.input)
  }

  /** The positions of the zero bytes. */
  ghost function ZerosAt(input: seq<nat>): set<nat> {
    set i: nat | i < |input| && input[i] == 0
  }

  lemma {:induction false} ZerosCount(input: seq<nat>)
    ensures Zeros(input) == |ZerosAt(input)|
    decreases |input|
  {
    if input != [] {
      var n := |input| - 1;
      ZerosCount(input[..n]);
      assert n !in ZerosAt(input[..n]);
      assert ZerosAt(input) == ZerosAt(input[..n]) + if input[n] == 0 then {n} else {};
    }
  }

  /** The intrinsic cost: 21000, or 53000 for a creation from Homestead on, 4 for each zero byte and 68, from Istanbul
      on 16, for each other. */
  lemma {:induction false} IntrinsicGasIs(forks: Forks, m: Message)
    ensures var zeros := |ZerosAt(m.input)|;
            && zeros <= |m.input|
            && IntrinsicGas(forks, m) == (if m.to.None? && forks.homestead then 53000 else 21000) + zeros * 4
                                         + (|m.input| - zeros) * if forks.istanbul then 16 else 68
  {
    ZerosCount(m.input);
    PayloadGasByCount(if forks.istanbul then 16 else 68, m.input);
  }

  lemma {:induction false} PayloadGasByCount(nonZeroCost: nat, input: seq<nat>)
    ensures PayloadGas(nonZeroCost, input) == (|input| - Zeros(input)) * nonZeroCost + Zeros(input) * 4
  {
    if input != [] {
      PayloadGasByCount(nonZeroCost, input[..|input| - 1]);
    }
  }

  /** The overflow checks are exact: the result is the unbounded cost whenever that fits in 64 bits. */
  method TransactionGasCost(forks: Forks, m: Message) returns (cost: Option<Gas>)
    requires |m.input| < U64
    ensures cost.Some? <==> IntrinsicGas(forks, m) < U64
    ensures cost.Some? ==> cost.value == IntrinsicGas(forks, m)
  {
    var c: nat := if m.to.None? && forks.homestead then TX_GAS_CREATION else TX_GAS;
    PayloadGasByCount(if forks.istanbul then 16 else 68, m.input);
    if |m.input| > 0 {
      var zeros := 0;
      for i := 0 to |m.input|
        invariant zeros == Zeros(m.input[..i])
      {
        assert m.input[..i + 1][..i] == m.input[..i];
        if m.input[i] == 0 {
          zeros := zeros + 1;
        }
      }
      assert m.input[..|m.input|] == m.input;
      var nonZeros := |m.input| - zeros;
      var nonZeroCost := if forks.istanbul then 16 else 68;
      if (U64 - 1 - c) / nonZeroCost < nonZeros {
        return None;
      }
      c := c + nonZeros * nonZeroCost;
      if (U64 - 1 - c) / 4 < zeros {
        return None;
      }
      c := c + zeros * 4;
    }
    cost := Some(c);
  }

  // ---------- One message, as a function ----------

  /** gas * price, written as a recursion to keep nonlinear terms out of the proofs. */
  function Fee(gas: nat, price: nat): nat {
    if gas == 0 then 0 else price + Fee(gas - 1, price)
  }

  lemma {:induction false} FeeIsProduct(gas: nat, price: nat)
    ensures Fee(gas, price) == gas * price
  {
    if gas != 0 {
      FeeIsProduct(gas - 1, price);
    }
  }

  function EntryError(base: Base, t: Tree, m: Message): Option<TxError> {
    match m.kind
    case StateTx =>
      if m.gasPrice != 0 || m.gas != STATE_TX_GAS || m.src != SYSTEM_CALLER || m.to.None? || m.to.value == 0
      then Some(Rejected(true)) else None
    case LegacyTx =>
      if NonceOf(base, t, m.src) != m.nonce || Debit(base, t, m.src, Fee(m.gas, m.gasPrice)).None?
      then Some(Rejected(true)) else None
  }

  /** Why a message is refused, in the order of the checks. */
  function ErrorOf(forks: Forks, base: Base, t: Tree, pool: nat, m: Message): Option<TxError> {
    if EntryError(base, t, m).Some? then EntryError(base, t, m)
    else if pool < m.gas then Some(GasLimitReached)
    else if IntrinsicGas(forks, m) > m.gas then Some(Rejected(false))
    else None
  }

  /** Why a message is refused, in terms of the reads. */
  lemma {:induction false} RefusedIff(forks: Forks, base: Base, t: Tree, pool: nat, m: Message)
    ensures var e := ErrorOf(forks, base, t, pool, m);
            var early := if m.kind.StateTx?
                         then m.gasPrice != 0 || m.gas != 1000000 || m.src != SYSTEM_CALLER
                              || m.to.None? || m.to.value == 0
                         else NonceOf(base, t, m.src) != m.nonce || BalanceOf(base, t, m.src) < m.gas * m.gasPrice;
            && (e == Some(Rejected(true)) <==> early)
            && (e == Some(GasLimitReached) <==> !early && pool < m.gas)
            && (e == Some(Rejected(false)) <==> !early && m.gas <= pool && m.gas < IntrinsicGas(forks, m))
  {
    FeeIsProduct(m.gas, m.gasPrice);
  }

  /** The upfront cost is taken. */
  function Paid(base: Base, t: Tree, m: Message): Tree
    requires EntryError(base, t, m).None?
  {
    if m.kind.StateTx? then t else Debit(base, t, m.src, Fee(m.gas, m.gasPrice)).value
  }

  /** Create2 or Call2 with the gas left after the intrinsic cost. */
  function Dispatched(forks: Forks, base: Base, t: Tree, m: Message, left: nat): Outcome {
    match m.to
    case None =>
      ApplyCreate(forks, base, t, Contract(1, m.src, m.created, Some(m.value), left), m.authorized, m.body)
    case Some(to) =>
      ApplyCall(forks, base, Upsert(base, t, m.src, IncrNonce), Call, Contract(1, m.src, to, Some(m.value), left),
                m.body)
  }

  /** UpdateGasUsed: the refund is capped at half the gas used. */
  function GasUsed(gas: Gas, left: nat, refund: nat): (used: Gas)
    requires left <= gas
    ensures used <= gas - left && gas - left <= 2 * used + 1
  {
    gas - left - Min(refund, (gas - left) / 2)
  }

  function Settled(base: Base, coinbase: Address, t: Tree, src: Address, back: nat, fee: nat): Tree {
    Upsert(base, Upsert(base, t, src, AddBalance(back)), coinbase, AddBalance(fee))
  }

  /** Who is paid when a message that used `used` gas ends in `t`: the sender for the gas left, the coinbase for the gas
      used. */
  ghost predicate PaysOut(base: Base, t: Tree, t': Tree, m: Message, coinbase: Address, used: nat) {
    forall b :: BalanceOf(base, t', b) ==
                BalanceOf(base, t, b) + (if b == m.src then (m.gas - used) * m.gasPrice else 0)
                + if b == coinbase then used * m.gasPrice else 0
  }

  lemma {:induction false} SettledPaysOut(base: Base, coinbase: Address, t: Tree, m: Message, used: nat)
    requires used <= m.gas
    ensures PaysOut(base, t, Settled(base, coinbase, t, m.src, Fee(m.gas - used, m.gasPrice), Fee(used, m.gasPrice)), m,
                    coinbase, used)
  {
    var back, fee := Fee(m.gas - used, m.gasPrice), Fee(used, m.gasPrice);
    FeeIsProduct(m.gas - used, m.gasPrice);
    FeeIsProduct(used, m.gasPrice);
    EditedBalance(base, t, m.src, AddBalance(back));
    EditedBalance(base, Upsert(base, t, m.src, AddBalance(back)), coinbase, AddBalance(fee));
  }

  lemma {:induction false} CallGas(forks: Forks, base: Base, t: Tree, kind: CallKind, c: Contract, body: Frame)
    ensures ApplyCall(forks, base, t, kind, c, body).gasLeft <= c.gas
  {
    var t1 := Upsert(base, t, c.address, Touch);
    var moved := if kind.Call? then Transfer(base, t1, c.caller, c.address, c.value) else Some(t1);
    if moved.Some? {
      RunReturns(forks, base, moved.value, c.gas, body);
    }
  }

  lemma {:induction false} CreateGas(forks: Forks, base: Base, t: Tree, c: Contract, authorized: bool, body: Frame)
    ensures ApplyCreate(forks, base, t, c, authorized, body).gasLeft <= c.gas
  {
    CreateCases(forks, base, t, c, authorized, body);
    var t2 := CreateStart(forks, base, Upsert(base, t, c.caller, IncrNonce), c);
    var moved := Transfer(base, t2, c.caller, c.address, c.value);
    if moved.Some? {
      RunReturns(forks, base, moved.value, c.gas, body);
    }
  }

  lemma {:induction false} DispatchedGas(forks: Forks, base: Base, t: Tree, m: Message, left: nat)
    ensures Dispatched(forks, base, t, m, left).gasLeft <= left
  {
    match m.to {
      case None => CreateGas(forks, base, t, Contract(1, m.src, m.created, Some(m.value), left), m.authorized, m.body);
      case Some(to) =>
        CallGas(forks, base, Upsert(base, t, m.src, IncrNonce), Call, Contract(1, m.src, to, Some(m.value), left),
                m.body);
    }
  }

  /** The upfront cost comes back as the sender's refund and the coinbase's fee. */
  lemma {:induction false} FeesSplit(gas: nat, used: nat, price: nat)
    requires used <= gas
    ensures Fee(gas - used, price) + Fee(used, price) == Fee(gas, price)
    decreases used
  {
    if used != 0 {
      FeesSplit(gas - 1, used - 1, price);
    }
  }

  lemma {:induction false} PaidTotal(base: Base, t: Tree, m: Message)
    requires EntryError(base, t, m).None?
    ensures Total(base, Paid(base, t, m)) + Fee(m.gas, m.gasPrice) == Total(base, t)
    ensures NoFlags(t) ==> NoFlags(Paid(base, t, m))
  {
    if m.kind.LegacyTx? {
      DebitTotal(base, t, m.src, Fee(m.gas, m.gasPrice));
      if NoFlags(t) {
        EditNoFlags(base, t, m.src, SubBalance(Fee(m.gas, m.gasPrice)));
      }
    } else {
      FeeIsProduct(m.gas, 0);
    }
  }

  lemma {:induction false} DispatchedTotal(forks: Forks, base: Base, t: Tree, m: Message, left: nat)
    ensures var o := Dispatched(forks, base, t, m, left); Total(base, o.tree) + o.burned == Total(base, t)
  {
    match m.to {
      case None =>
        CreateConserves(forks, base, t, Contract(1, m.src, m.created, Some(m.value), left), m.authorized, m.body);
      case Some(to) =>
        NeutralTotal(base, t, m.src, IncrNonce);
        CallConserves(forks, base, Upsert(base, t, m.src, IncrNonce), Call, Contract(1, m.src, to, Some(m.value), left),
                      m.body);
    }
  }

  lemma {:induction false} DispatchedBurnsNothing(forks: Forks, base: Base, t: Tree, m: Message, left: nat)
    requires NoDestruct(m.body) && NoFlags(t)
    ensures var o := Dispatched(forks, base, t, m, left); o.burned == 0 && NoFlags(o.tree)
  {
    match m.to {
      case None =>
        CreateBurnsNothing(forks, base, t, Contract(1, m.src, m.created, Some(m.value), left), m.authorized, m.body);
      case Some(to) =>
        EditNoFlags(base, t, m.src, IncrNonce);
        CallBurnsNothing(forks, base, Upsert(base, t, m.src, IncrNonce), Call,
                         Contract(1, m.src, to, Some(m.value), left), m.body);
    }
  }

  lemma {:induction false} SettledTotal(base: Base, coinbase: Address, t: Tree, src: Address, back: nat, fee: nat)
    ensures Total(base, Settled(base, coinbase, t, src, back, fee)) == Total(base, t) + back + fee
    ensures NoFlags(t) ==> NoFlags(Settled(base, coinbase, t, src, back, fee))
  {
    var t1 := Upsert(base, t, src, AddBalance(back));
    CreditTotal(base, t, src, back);
    CreditTotal(base, t1, coinbase, fee);
    if NoFlags(t) {
      EditNoFlags(base, t, src, AddBalance(back));
      EditNoFlags(base, t1, coinbase, AddBalance(fee));
    }
  }

  /** What the cleaning after an accepted message leaves. */
  function Finished(t: Tree): Tree {
    CleanDelete(t.(logs := []), true)
  }

  lemma {:induction false} SettledConserves(base: Base, coinbase: Address, t: Tree, src: Address, back: nat, fee: nat,
                                            t': Tree, total: nat)
    requires Total(base, t) + back + fee == total && t' == Settled(base, coinbase, t, src, back, fee)
    ensures Total(base, Finished(t')) + Sum(base, t', Flagged(t')) == total
    ensures NoFlags(t) ==> Total(base, Finished(t')) == total
  {
    SettledTotal(base, coinbase, t, src, back, fee);
    FinishedTotal(base, t');
    if NoFlags(t) {
      NoFlagsNoBurn(base, t', Flagged(t'));
    }
  }

  /** The law of conservation for one message whose upfront cost was taken: after fees and cleaning the sum of
      all balances is `total` less what was burned, and nothing is burned unless an account selfdestructs. */
  lemma {:induction false} MessageConserves(
    forks: Forks, base: Base, coinbase: Address, paid: Tree, m: Message, left: nat, o: Outcome, used: nat, t: Tree,
    total: nat)
    requires o == Dispatched(forks, base, paid, m, left) && used <= m.gas
    requires t == Settled(base, coinbase, o.tree, m.src, Fee(m.gas - used, m.gasPrice), Fee(used, m.gasPrice))
    requires Total(base, paid) + Fee(m.gas, m.gasPrice) == total
    ensures Total(base, Finished(t)) + o.burned + Sum(base, t, Flagged(t)) == total
    ensures NoDestruct(m.body) && NoFlags(paid) ==> o.burned == 0 && Total(base, Finished(t)) == total
  {
    DispatchedTotal(forks, base, paid, m, left);
    FeesSplit(m.gas, used, m.gasPrice);
    SettledConserves(base, coinbase, o.tree, m.src, Fee(m.gas - used, m.gasPrice), Fee(used, m.gasPrice), t,
                     total - o.burned);
    if NoDestruct(m.body) && NoFlags(paid) {
      DispatchedBurnsNothing(forks, base, paid, m, left);
    }
  }

  lemma {:induction false} FinishedNoFlags(t: Tree)
    ensures NoFlags(Finished(t))
  {
    CleanHasNoFlags(t.(logs := []));
  }

  lemma {:induction false} FinishedTotal(base: Base, t: Tree)
    ensures Total(base, Finished(t)) + Sum(base, t, Flagged(t)) == Total(base, t)
  {
    var t1 := t.(logs := []);
    CleanTotal(base, t1, true);
    SameTotal(base, t, t1);
    SumSame(base, t, base, t1, Flagged(t));
  }

  // ---------- The transition object ----------

  function SumGas(rs: seq<Receipt>): nat {
    if rs == [] then 0 else SumGas(rs[..|rs| - 1]) + rs[|rs| - 1].gasUsed
  }

  ghost predicate CumulativeSums(rs: seq<Receipt>) {
    forall i {:trigger rs[i]} :: 0 <= i < |rs| ==> rs[i].cumulative == SumGas(rs[..i + 1])
  }

  lemma {:induction false} CumulativePush(rs: seq<Receipt>, r: Receipt)
    requires CumulativeSums(rs) && r.cumulative == SumGas(rs) + r.gasUsed
    ensures CumulativeSums(rs + [r]) && SumGas(rs + [r]) == SumGas(rs) + r.gasUsed
  {
    assert (rs + [r])[..|rs|] == rs && (rs + [r])[..|rs| + 1] == rs + [r];
    forall i | 0 <= i < |rs| ensures (rs + [r])[i] == rs[i] && (rs + [r])[..i + 1] == rs[..i + 1] {}
  }

  /** The sender is recovered from the signature when a legacy transaction does not carry it. */
  function Signed(m: Message): Option<Message> {
    if m.src == 0 && m.kind.LegacyTx? then
      if m.signer.None? then None else Some(m.(src := m.signer.value))
    else
      Some(m)
  }

  /** Only a legacy transaction without a sender needs its signature. */
  lemma {:induction false} SignedIs(m: Message)
    ensures Signed(m).None? <==> m.kind == LegacyTx && m.src == 0 && m.signer.None?
    ensures Signed(m).Some? ==>
              var src := if m.kind == LegacyTx && m.src == 0 then m.signer.value else m.src;
              Signed(m).value == m.(src := src) && NoDestruct(Signed(m).value.body) == NoDestruct(m.body)
  {}

  /** An admitted message whose upfront cost left `paid`: it runs with `left` gas, uses `used`, and after the refund to
      the sender and the fee to the coinbase the tree is `t`. */
  ghost predicate Performs(forks: Forks, base: Base, coinbase: Address, paid: Tree, m: Message, left: nat, used: nat,
                           t: Tree) {
    var o := Dispatched(forks, base, paid, m, left);
    && o.gasLeft <= m.gas && used == GasUsed(m.gas, o.gasLeft, o.tree.refund)
    && t == Settled(base, coinbase, o.tree, m.src, Fee(m.gas - used, m.gasPrice), Fee(used, m.gasPrice))
  }

  /** The balance lost in a message that ends in `t`: what selfdestructs to oneself burned, and what accounts marked for
      deletion still hold. */
  ghost function Burnt(forks: Forks, base: Base, paid: Tree, m: Message, left: nat, t: Tree): nat {
    Dispatched(forks, base, paid, m, left).burned + Sum(base, t, Flagged(t))
  }

  /** The stages of an accepted message: the tree after its upfront cost, the gas its run starts with, the tree after
      the fees, and the balance that was lost. */
  datatype Stages = Stages(paid: Tree, left: nat, settled: Tree, lost: nat)

  /** A message goes through the stages and leaves the cleaned tree and a receipt with the verdict, the gas, the logs
      and the created address. */
  ghost predicate Writes(forks: Forks, base: Base, coinbase: Address, s: Stages, m: Message, now: Tree, r: Receipt) {
    && Performs(forks, base, coinbase, s.paid, m, s.left, r.gasUsed, s.settled)
    && (r.success <==> Dispatched(forks, base, s.paid, m, s.left).err == NoError)
    && now == Finished(s.settled) && r.logs == s.settled.logs
    && r.contract == (if m.to.None? then Some(m.created) else None)
    && s.lost == Burnt(forks, base, s.paid, m, s.left, s.settled)
  }

  lemma {:induction false} WritesPaysOut(forks: Forks, base: Base, coinbase: Address, s: Stages, m: Message, now: Tree,
                                         r: Receipt)
    requires Writes(forks, base, coinbase, s, m, now, r)
    ensures PaysOut(base, Dispatched(forks, base, s.paid, m, s.left).tree, s.settled, m, coinbase, r.gasUsed)
  {
    SettledPaysOut(base, coinbase, Dispatched(forks, base, s.paid, m, s.left).tree, m, r.gasUsed);
  }

  /** The stages start from the tree `was`. */
  ghost predicate Starts(forks: Forks, base: Base, was: Tree, m: Message, s: Stages) {
    && EntryError(base, was, m).None? && IntrinsicGas(forks, m) <= m.gas
    && s.paid == Paid(base, was, m) && s.left == m.gas - IntrinsicGas(forks, m)
  }

  /** The law of conservation for the tree in which an admitted message ends. */
  lemma {:induction false} PerformedConserves(forks: Forks, base: Base, coinbase: Address, paid: Tree, m: Message,
                                              left: nat, used: nat, t: Tree)
    requires Performs(forks, base, coinbase, paid, m, left, used, t)
    ensures Total(base, Finished(t)) + Burnt(forks, base, paid, m, left, t) ==
            Total(base, paid) + Fee(m.gas, m.gasPrice)
    ensures NoDestruct(m.body) && NoFlags(paid) ==> Burnt(forks, base, paid, m, left, t) == 0
  {
    var o := Dispatched(forks, base, paid, m, left);
    MessageConserves(forks, base, coinbase, paid, m, left, o, used, t, Total(base, paid) + Fee(m.gas, m.gasPrice));
  }

  class Transition {
    const forks: Forks
    const base: Base
    const coinbase: Address
    const gasLimit: Gas
    const txn: Txn
    var gasPool: Gas
    var totalGas: Gas
    var receipts: seq<Receipt>

    /** The overlay belongs to this transition. */
    ghost predicate Ready()
      reads txn, txn.objects, txn.accounts, txn.arrays
    {
      txn.Valid() && txn.base == base
    }

    /** Gas in the pool and gas used never exceed the block's limit, and each receipt's cumulative gas is the
        sum of the gas used up to it. */
    ghost predicate Accounted()
      reads this`gasPool, this`totalGas, this`receipts
    {
      && gasPool + totalGas <= gasLimit
      && totalGas == SumGas(receipts)
      && CumulativeSums(receipts)
    }

    constructor (forks: Forks, base: Base, coinbase: Address, gasLimit: Gas)
      ensures Ready() && Accounted() && fresh(txn) && txn.arrays == {} && txn.view.cur == EMPTY_TREE
      ensures receipts == [] && gasPool == gasLimit
      ensures this.forks == forks && this.base == base && this.coinbase == coinbase && this.gasLimit == gasLimit
    {
      var t := new Txn(base);
      this.forks, this.base, this.coinbase, this.gasLimit, txn := forks, base, coinbase, gasLimit, t;
      gasPool, totalGas, receipts := gasLimit, 0, [];
    }

    /** checkAndProcessLegacyTx and checkAndProcessStateTx. */
    method CheckAndProcess(m: Message) returns (e: Option<TxError>)
      requires Ready()
      modifies txn`txn, txn`view, txn`heap, txn`objects, txn`accounts
      ensures Ready() && txn.view.saved == old(txn.view.saved)
      ensures e == EntryError(base, old(txn.view.cur), m)
      ensures txn.view.cur == if e.None? then Paid(base, old(txn.view.cur), m) else old(txn.view.cur)
    {
      match m.kind {
        case StateTx =>
          if m.gasPrice != 0 || m.gas != STATE_TX_GAS || m.src != SYSTEM_CALLER || m.to.None? || m.to.value == 0 {
            return Some(Rejected(true));
          }
        case LegacyTx =>
          var nonce := HeapExecutor.GetNonce(txn, m.src);
          if nonce != m.nonce {
            return Some(Rejected(true));
          }
          var ok := txn.SubBalance(m.src, Fee(m.gas, m.gasPrice));
          if !ok {
            return Some(Rejected(true));
          }
      }
      e := None;
    }

    method SubGasPool(amount: Gas) returns (ok: bool)
      modifies this`gasPool
      ensures ok <==> amount <= old(gasPool)
      ensures gasPool == if ok then old(gasPool) - amount else old(gasPool)
    {
      ok := amount <= gasPool;
      if ok {
        gasPool := gasPool - amount;
      }
    }

    /** The checks of apply, in their order; the upfront cost is taken and the gas bought on the way. */
    method Admit(m: Message) returns (e: Option<TxError>)
      requires Ready() && |m.input| < U64
      modifies txn`txn, txn`view, txn`heap, txn`objects, txn`accounts, this`gasPool
      ensures Ready() && txn.view.saved == old(txn.view.saved)
      ensures e == ErrorOf(forks, base, old(txn.view.cur), old(gasPool), m)
      ensures e.Some? ==> gasPool == old(gasPool) - if e == Some(Rejected(false)) then m.gas else 0
      ensures e.None? ==> txn.view.cur == Paid(base, old(txn.view.cur), m) && gasPool == old(gasPool) - m.gas
    {
      e := CheckAndProcess(m);
      if e.Some? {
        return;
      }
      var ok := SubGasPool(m.gas);
      if !ok {
        return Some(GasLimitReached);
      }
      var cost := TransactionGasCost(forks, m);
      if cost.None? || cost.value > m.gas {
        return Some(Rejected(false));
      }
    }

    /** Create2 or Call2, on the overlay. */
    method Dispatch(m: Message, left: nat) returns (err: Error, gasLeft: nat, ghost o: Outcome)
      requires Ready()
      modifies txn, txn.arrays
      ensures Ready()
      ensures old(txn.arrays) <= txn.arrays && forall x :: x in txn.arrays ==> x in old(txn.arrays) || fresh(x)
      ensures old(txn.live) <= txn.live && old(txn.view.saved) <= txn.view.saved
      ensures o == Dispatched(forks, base, old(txn.view.cur), m, left)
      ensures txn.view.cur == o.tree && err == o.err && gasLeft == o.gasLeft
    {
      var ret;
      ghost var burned;
      if m.to.None? {
        var c := Contract(1, m.src, m.created, Some(m.value), left);
        err, gasLeft, ret, burned := HeapExecutor.ApplyCreate(txn, forks, c, m.authorized, m.body);
      } else {
        var c := Contract(1, m.src, m.to.value, Some(m.value), left);
        err, gasLeft, ret, burned := HeapExecutor.SpendAndCall(txn, forks, c, m.body);
      }
      o := Outcome(txn.view.cur, err, gasLeft, ret, burned);
    }

    /** Refunds the sender, pays the coinbase and returns the gas left to the pool. */
    method Settle(m: Message, gasLeft: nat) returns (used: Gas)
      requires Ready() && gasLeft <= m.gas && gasPool + m.gas < U64
      modifies txn`txn, txn`view, txn`heap, txn`objects, txn`accounts, this`gasPool
      ensures Ready() && txn.view.saved == old(txn.view.saved)
      ensures used == GasUsed(m.gas, gasLeft, old(txn.view.cur).refund) && gasPool == old(gasPool) + m.gas - used
      ensures txn.view.cur ==
              Settled(base, coinbase, old(txn.view.cur), m.src, Fee(m.gas - used, m.gasPrice), Fee(used, m.gasPrice))
      ensures PaysOut(base, old(txn.view.cur), txn.view.cur, m, coinbase, used)
    {
      used := UpdateGasUsed(m.gas, gasLeft);
      SettledPaysOut(base, coinbase, txn.view.cur, m, used);
      Pay(m.src, Fee(m.gas - used, m.gasPrice), Fee(used, m.gasPrice));
      AddGasPool(m.gas - used);
    }

    method UpdateGasUsed(gas: Gas, gasLeft: nat) returns (used: Gas)
      requires Ready() && gasLeft <= gas
      ensures used == GasUsed(gas, gasLeft, txn.view.cur.refund)
      ensures var spent, refund := gas - gasLeft, txn.view.cur.refund;
              used == if refund <= spent / 2 then spent - refund else spent - spent / 2
    {
      used := GasUsed(gas, gasLeft, txn.txn.refund);
    }

    method Pay(src: Address, back: nat, fee: nat)
      requires Ready()
      modifies txn`txn, txn`view, txn`heap, txn`objects, txn`accounts
      ensures Ready() && txn.view.saved == old(txn.view.saved)
      ensures txn.view.cur == Settled(base, coinbase, old(txn.view.cur), src, back, fee)
    {
      txn.UpsertAccount(src, AddBalance(back));
      txn.UpsertAccount(coinbase, AddBalance(fee));
    }

    method AddGasPool(amount: Gas)
      requires gasPool + amount < U64
      modifies this`gasPool
      ensures gasPool == old(gasPool) + amount
    {
      gasPool := (gasPool + amount) % U64;
    }

    /** The second half of apply: runs an admitted message, refunds the sender and pays the coinbase. */
    method Execute(m: Message, left: nat) returns (used: Gas, failed: bool)
      requires Ready() && left <= m.gas && gasPool + m.gas < U64
      modifies txn, txn.arrays, this`gasPool
      ensures Ready()
      ensures old(txn.arrays) <= txn.arrays && forall x :: x in txn.arrays ==> x in old(txn.arrays) || fresh(x)
      ensures old(txn.live) <= txn.live && old(txn.view.saved) <= txn.view.saved
      ensures used <= m.gas && gasPool == old(gasPool) + m.gas - used
      ensures failed <==> Dispatched(forks, base, old(txn.view.cur), m, left).err != NoError
      ensures Performs(forks, base, coinbase, old(txn.view.cur), m, left, used, txn.view.cur)
    {
      DispatchedGas(forks, base, txn.view.cur, m, left);
      var err, gasLeft, o := Dispatch(m, left);
      used := Settle(m, gasLeft);
      failed := err != NoError;
    }

    /** Admission under a snapshot: a refused message is reverted to it, but may keep gas out of the pool. */
    method AdmitOrRevert(m: Message) returns (e: Option<TxError>)
      requires Ready() && |m.input| < U64
      modifies txn, this`gasPool
      ensures Ready() && txn.arrays == old(txn.arrays) && old(txn.live) <= txn.live
      ensures old(txn.view.saved) <= txn.view.saved && e == ErrorOf(forks, base, old(txn.view.cur), old(gasPool), m)
      ensures e.Some? ==>
                && txn.view.cur == old(txn.view.cur)
                && gasPool == old(gasPool) - if e == Some(Rejected(false)) then m.gas else 0
      ensures e.None? ==> txn.view.cur == Paid(base, old(txn.view.cur), m) && gasPool == old(gasPool) - m.gas
    {
      var snapshot := txn.Snapshot();
      e := Admit(m);
      if e.Some? {
        txn.RevertToSnapshot(snapshot);
      }
    }

    /** apply under a snapshot. */
    method Apply(m: Message) returns (e: Option<TxError>, used: Gas, failed: bool, ghost paid: Tree, ghost left: nat)
      requires Ready() && gasPool + totalGas <= gasLimit && |m.input| < U64
      modifies txn, txn.arrays, this`gasPool
      ensures Ready()
      ensures old(txn.arrays) <= txn.arrays && forall x :: x in txn.arrays ==> x in old(txn.arrays) || fresh(x)
      ensures old(txn.live) <= txn.live && old(txn.view.saved) <= txn.view.saved
      ensures e == ErrorOf(forks, base, old(txn.view.cur), old(gasPool), m)
      ensures e.Some? ==>
                && txn.view.cur == old(txn.view.cur)
                && gasPool == old(gasPool) - if e == Some(Rejected(false)) then m.gas else 0
      ensures e.None? ==> used <= m.gas && gasPool == old(gasPool) - used
      ensures e.None? ==> paid == Paid(base, old(txn.view.cur), m) && left == m.gas - IntrinsicGas(forks, m)
      ensures e.None? ==> (failed <==> Dispatched(forks, base, paid, m, left).err != NoError)
      ensures e.None? ==> Performs(forks, base, coinbase, paid, m, left, used, txn.view.cur)
    {
      used, failed, left := 0, false, 0;
      e := AdmitOrRevert(m);
      paid := txn.view.cur;
      if e.None? {
        var gas := m.gas - IntrinsicGas(forks, m);
        left := gas;
        used, failed := Execute(m, gas);
      }
    }

    method Append(r: Receipt)
      requires gasPool + totalGas + r.gasUsed <= gasLimit && r.cumulative == totalGas + r.gasUsed
      requires totalGas == SumGas(receipts) && CumulativeSums(receipts)
      modifies this`receipts, this`totalGas
      ensures Accounted() && receipts == old(receipts) + [r] && totalGas == r.cumulative
    {
      CumulativePush(receipts, r);
      totalGas := totalGas + r.gasUsed;
      receipts := receipts + [r];
    }

    method Finish() returns (logs: seq<Log>)
      requires Ready()
      modifies txn`txn, txn`view, txn`heap, txn`objects, txn`accounts
      ensures Ready() && txn.view.saved == old(txn.view.saved)
      ensures logs == old(txn.view.cur).logs && txn.view.cur == Finished(old(txn.view.cur))
    {
      logs := txn.TakeLogs();
      txn.CleanDeleteObjects(true);
    }

    /** The end of Write for an applied message: the log list moves to the receipt, suicided and empty
        accounts are deleted and the refund counter is cleared. */
    method Conclude(m: Message, used: Gas, failed: bool)
      requires Ready() && gasPool + totalGas + used <= gasLimit && totalGas == SumGas(receipts) &&
               CumulativeSums(receipts)
      modifies txn`txn, txn`view, txn`heap, txn`objects, txn`accounts, this`receipts, this`totalGas
      ensures Ready() && Accounted()
      ensures txn.view.cur == Finished(old(txn.view.cur)) && txn.view.saved == old(txn.view.saved)
      ensures receipts == old(receipts) + [Receipt(!failed, used, totalGas, old(txn.view.cur).logs,
                                                   if m.to.None? then Some(m.created) else None)]
    {
      var logs := Finish();
      var r := Receipt(!failed, used, totalGas + used, logs, if m.to.None? then Some(m.created) else None);
      Append(r);
    }

    /** Write once the sender is known. */
    method WriteSigned(m: Message) returns (e: Option<TxError>, ghost s: Stages)
      requires Ready() && Accounted() && |m.input| < U64
      modifies txn, txn.arrays, this`gasPool, this`totalGas, this`receipts
      ensures Ready() && Accounted()
      ensures old(txn.arrays) <= txn.arrays && forall x :: x in txn.arrays ==> x in old(txn.arrays) || fresh(x)
      ensures e == ErrorOf(forks, base, old(txn.view.cur), old(gasPool), m)
      ensures e.Some? ==> txn.view.cur == old(txn.view.cur) && receipts == old(receipts)
      ensures e.Some? ==> gasPool == old(gasPool) - if e == Some(Rejected(false)) then m.gas else 0
      ensures e.None? ==> |receipts| == |old(receipts)| + 1 && receipts[..|old(receipts)|] == old(receipts)
      ensures e.None? ==> receipts[|old(receipts)|].gasUsed == old(gasPool) - gasPool
      ensures e.None? ==> Starts(forks, base, old(txn.view.cur), m, s)
      ensures e.None? ==> Writes(forks, base, coinbase, s, m, txn.view.cur, receipts[|old(receipts)|])
    {
      var used, failed;
      ghost var paid, left;
      e, used, failed, paid, left := Apply(m);
      s := Stages(paid, left, txn.view.cur, 0);
      if e.None? {
        s := s.(lost := Burnt(forks, base, paid, m, left, txn.view.cur));
        Conclude(m, used, failed);
      }
    }

    method WriteCounted(m: Message) returns (e: Option<TxError>, ghost s: Stages)
      requires Ready() && Accounted() && |m.input| < U64
      modifies txn, txn.arrays, this`gasPool, this`totalGas, this`receipts
      ensures Ready() && Accounted()
      ensures old(txn.arrays) <= txn.arrays && forall x :: x in txn.arrays ==> x in old(txn.arrays) || fresh(x)
      ensures e == ErrorOf(forks, base, old(txn.view.cur), old(gasPool), m)
      ensures e.Some? ==> txn.view.cur == old(txn.view.cur) && receipts == old(receipts)
      ensures e.Some? ==> gasPool == old(gasPool) - if e == Some(Rejected(false)) then m.gas else 0
      ensures e.None? ==> |receipts| == |old(receipts)| + 1 && receipts[..|old(receipts)|] == old(receipts)
      ensures e.None? ==> receipts[|old(receipts)|].gasUsed == old(gasPool) - gasPool
      ensures e.None? ==> Starts(forks, base, old(txn.view.cur), m, s)
      ensures e.None? ==> Writes(forks, base, coinbase, s, m, txn.view.cur, receipts[|old(receipts)|])
      ensures e.None? ==> Conserves(base, old(txn.view.cur), NoDestruct(m.body), txn.view.cur, s.lost)
      ensures e.None? ==> PaysOut(base, Dispatched(forks, base, s.paid, m, s.left).tree, s.settled, m, coinbase,
                                  receipts[|old(receipts)|].gasUsed)
    {
      ghost var was, n := txn.view.cur, |receipts|;
      e, s := WriteSigned(m);
      if e.None? {
        WritesConserve(forks, base, coinbase, was, s, m, txn.view.cur, receipts[n]);
        WritesPaysOut(forks, base, coinbase, s, m, txn.view.cur, receipts[n]);
      }
    }

    /** A refused transaction changes nothing but the pool; an accepted one goes through its stages, and the sum of
        balances falls by exactly what was lost. */
    method Write(tx: Message) returns (e: Option<TxError>, ghost s: Stages)
      requires Ready() && Accounted() && |tx.input| < U64
      modifies txn, txn.arrays, this`gasPool, this`totalGas, this`receipts
      ensures Ready() && Accounted()
      ensures old(txn.arrays) <= txn.arrays && forall x :: x in txn.arrays ==> x in old(txn.arrays) || fresh(x)
      ensures e == if Signed(tx).None? then Some(Rejected(false))
                   else ErrorOf(forks, base, old(txn.view.cur), old(gasPool), Signed(tx).value)
      ensures e.Some? ==> txn.view.cur == old(txn.view.cur) && receipts == old(receipts)
      ensures e.Some? ==>
                gasPool == old(gasPool) - if Signed(tx).Some? && e == Some(Rejected(false)) then tx.gas else 0
      ensures e.None? ==> |receipts| == |old(receipts)| + 1 && receipts[..|old(receipts)|] == old(receipts)
      ensures e.None? ==> receipts[|old(receipts)|].gasUsed == old(gasPool) - gasPool
      ensures e.None? ==> Starts(forks, base, old(txn.view.cur), Signed(tx).value, s)
      ensures e.None? ==> Writes(forks, base, coinbase, s, Signed(tx).value, txn.view.cur, receipts[|old(receipts)|])
      ensures e.None? ==> Conserves(base, old(txn.view.cur), NoDestruct(tx.body), txn.view.cur, s.lost)
      ensures e.None? ==> PaysOut(base, Dispatched(forks, base, s.paid, Signed(tx).value, s.left).tree, s.settled,
                                  Signed(tx).value, coinbase, receipts[|old(receipts)|].gasUsed)
    {
      var signed := Signed(tx);
      if signed.None? {
        return Some(Rejected(false)), Stages(EMPTY_TREE, 0, EMPTY_TREE, 0);
      }
      SignedIs(tx);
      e, s := WriteCounted(signed.value);
    }

    /** The receipt of a transaction whose gas exceeds the block's limit. */
    method WriteFailedReceipt(tx: Message) returns (e: Option<TxError>)
      requires Ready() && Accounted()
      modifies txn`txn, txn`view, this`totalGas, this`receipts
      ensures Ready() && Accounted() && totalGas == old(totalGas)
      ensures e == if Signed(tx).None? then Some(Rejected(false)) else None
      ensures e.Some? ==> txn.view.cur == old(txn.view.cur) && receipts == old(receipts)
      ensures e.None? ==> txn.view.cur == old(txn.view.cur).(logs := [])
      ensures e.None? ==>
              receipts == old(receipts) + [Receipt(false, 0, totalGas, old(txn.view.cur).logs,
                                                   if tx.to.None? then Some(tx.created) else None)]
    {
      if Signed(tx).None? {
        return Some(Rejected(false));
      }
      var logs := txn.TakeLogs();
      Append(Receipt(false, 0, totalGas, logs, if tx.to.None? then Some(tx.created) else None));
      e := None;
    }

    /** One step of ProcessBlock. */
    method Process(tx: Message) returns (e: Option<TxError>, ghost lost: nat)
      requires Ready() && Accounted() && |tx.input| < U64
      modifies txn, txn.arrays, this`gasPool, this`totalGas, this`receipts
      ensures Ready() && Accounted()
      ensures old(txn.arrays) <= txn.arrays && forall x :: x in txn.arrays ==> x in old(txn.arrays) || fresh(x)
      ensures Conserves(base, old(txn.view.cur), NoDestruct(tx.body), txn.view.cur, lost)
      ensures e.None? ==> |receipts| == |old(receipts)| + 1 && receipts[..|old(receipts)|] == old(receipts)
      ensures e.None? && tx.gas > gasLimit ==> receipts[|old(receipts)|].gasUsed == 0
    {
      if tx.gas > gasLimit {
        LogsDoNotCount(base, txn.view.cur, NoDestruct(tx.body));
        e := WriteFailedReceipt(tx);
        lost := 0;
      } else {
        e, lost := WriteLosing(tx);
      }
    }

    method WriteLosing(tx: Message) returns (e: Option<TxError>, ghost lost: nat)
      requires Ready() && Accounted() && |tx.input| < U64
      modifies txn, txn.arrays, this`gasPool, this`totalGas, this`receipts
      ensures Ready() && Accounted()
      ensures old(txn.arrays) <= txn.arrays && forall x :: x in txn.arrays ==> x in old(txn.arrays) || fresh(x)
      ensures Conserves(base, old(txn.view.cur), NoDestruct(tx.body), txn.view.cur, lost)
      ensures e.None? ==> |receipts| == |old(receipts)| + 1 && receipts[..|old(receipts)|] == old(receipts)
    {
      LogsDoNotCount(base, txn.view.cur, NoDestruct(tx.body));
      ghost var s;
      e, s := Write(tx);
      lost := if e.None? then s.lost else 0;
    }
  }

  lemma {:induction false} LogsDoNotCount(base: Base, t: Tree, harmless: bool)
    ensures Conserves(base, t, harmless, t, 0) && Conserves(base, t, harmless, t.(logs := []), 0)
  {
    SameTotal(base, t, t.(logs := []));
  }

  /** The sum of balances fell by `lost`, which is nothing when no code selfdestructs; no account stays marked. */
  ghost predicate Conserves(base: Base, was: Tree, harmless: bool, now: Tree, lost: nat) {
    && Total(base, now) + lost == Total(base, was) && (NoFlags(was) ==> NoFlags(now))
    && (harmless && NoFlags(was) ==> lost == 0)
  }

  /** What an accepted message does to the sum of balances. */
  lemma {:induction false} WritesConserve(forks: Forks, base: Base, coinbase: Address, was: Tree, s: Stages, m: Message,
                                          now: Tree, r: Receipt)
    requires Starts(forks, base, was, m, s) && Writes(forks, base, coinbase, s, m, now, r)
    ensures Conserves(base, was, NoDestruct(m.body), now, s.lost)
  {
    PaidTotal(base, was, m);
    PerformedConserves(forks, base, coinbase, s.paid, m, s.left, r.gasUsed, s.settled);
    FinishedNoFlags(s.settled);
  }

  /** A transaction over the block's limit has a receipt without gas. */
  ghost predicate OverLimit(rs: seq<Receipt>, txs: seq<Message>, gasLimit: nat) {
    |rs| <= |txs| && forall i :: 0 <= i < |rs| && txs[i].gas > gasLimit ==> rs[i].gasUsed == 0
  }

  lemma {:induction false} OverLimitOn(rs: seq<Receipt>, rs': seq<Receipt>, txs: seq<Message>, gasLimit: nat)
    requires OverLimit(rs, txs, gasLimit) && |rs'| == |rs| + 1 <= |txs| && rs'[..|rs|] == rs
    requires txs[|rs|].gas > gasLimit ==> rs'[|rs|].gasUsed == 0
    ensures OverLimit(rs', txs, gasLimit)
  {
    forall i | 0 <= i < |rs| ensures rs'[i] == rs[i] {
      assert rs'[..|rs|][i] == rs'[i];
    }
  }

  /** The books after the first transactions of a block, which left `receipts` and the tree `t`. */
  ghost predicate Booked(base: Base, t: Tree, receipts: seq<Receipt>, txs: seq<Message>, gasLimit: nat, burned: nat) {
    && NoFlags(t) && OverLimit(receipts, txs, gasLimit) && Total(base, t) + burned == Total(base, EMPTY_TREE)
    && ((forall i :: 0 <= i < |receipts| ==> NoDestruct(txs[i].body)) ==> burned == 0)
  }

  lemma {:induction false} BookedOn(base: Base, t: Tree, rs: seq<Receipt>, txs: seq<Message>, gasLimit: nat,
                                    burned: nat, t': Tree, rs': seq<Receipt>, lost: nat)
    requires Booked(base, t, rs, txs, gasLimit, burned) && |rs'| == |rs| + 1 <= |txs| && rs'[..|rs|] == rs
    requires Conserves(base, t, NoDestruct(txs[|rs|].body), t', lost)
    requires txs[|rs|].gas > gasLimit ==> rs'[|rs|].gasUsed == 0
    ensures Booked(base, t', rs', txs, gasLimit, burned + lost)
  {
    OverLimitOn(rs, rs', txs, gasLimit);
  }

  /** The next transaction of a block. */
  method ProcessNext(t: Transition, txs: seq<Message>, ghost burned: nat)
    returns (e: Option<TxError>, ghost burned': nat)
    requires t.Ready() && t.Accounted() && |t.receipts| < |txs| && |txs[|t.receipts|].input| < U64
    requires Booked(t.base, t.txn.view.cur, t.receipts, txs, t.gasLimit, burned)
    modifies t.txn, t.txn.arrays, t`gasPool, t`totalGas, t`receipts
    ensures t.Ready() && t.Accounted()
    ensures old(t.txn.arrays) <= t.txn.arrays && forall x :: x in t.txn.arrays ==> x in old(t.txn.arrays) || fresh(x)
    ensures NoFlags(t.txn.view.cur) && Total(t.base, t.txn.view.cur) + burned' == Total(t.base, EMPTY_TREE)
    ensures (forall i :: 0 <= i < |txs| ==> NoDestruct(txs[i].body)) ==> burned' == 0
    ensures e.None? ==> |t.receipts| == |old(t.receipts)| + 1
    ensures e.None? ==> Booked(t.base, t.txn.view.cur, t.receipts, txs, t.gasLimit, burned')
  {
    ghost var was, cur := t.receipts, t.txn.view.cur;
    ghost var lost;
    e, lost := t.Process(txs[|t.receipts|]);
    burned' := burned + lost;
    if e.None? {
      BookedOn(t.base, cur, was, txs, t.gasLimit, burned, t.txn.view.cur, t.receipts, lost);
    }
  }

  /** A whole block: one receipt for each transaction with the right cumulative gas, the gas within the limit, and the
      sum of balances less by exactly what was lost, which is nothing when no transaction selfdestructs. */
  method ProcessBlock(forks: Forks, base: Base, coinbase: Address, gasLimit: Gas, txs: seq<Message>)
    returns (t: Transition, e: Option<TxError>, ghost burned: nat)
    requires forall i :: 0 <= i < |txs| ==> |txs[i].input| < U64
    ensures fresh(t) && fresh(t.txn) && t.Ready() && t.Accounted() && t.base == base && t.gasLimit == gasLimit
    ensures e.None? ==> |t.receipts| == |txs|
    ensures NoFlags(t.txn.view.cur)
    ensures e.None? ==> OverLimit(t.receipts, txs, gasLimit)
    ensures Total(base, t.txn.view.cur) + burned == Total(base, EMPTY_TREE)
    ensures (forall i :: 0 <= i < |txs| ==> NoDestruct(txs[i].body)) ==> burned == 0
  {
    t := new Transition(forks, base, coinbase, gasLimit);
    e, burned := None, 0;
    for i := 0 to |txs|
      invariant fresh(t) && fresh(t.txn) && forall x :: x in t.txn.arrays ==> fresh(x)
      invariant t.Ready() && t.Accounted() && |t.receipts| == i
      invariant Booked(base, t.txn.view.cur, t.receipts, txs, gasLimit, burned)
    {
      e, burned := ProcessNext(t, txs, burned);
      if e.Some? {
        return;
      }
    }
  }
}
