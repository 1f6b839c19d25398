/** Values of the world state: accounts, the overlay kept while a block is processed, and the meaning
    of every overlay operation as a function from overlay to overlay.

    Two hashes are idealised as what they commit to: a storage root is the storage map itself and a code
    hash is the code itself. Storing the zero word is the same as not storing the key.
 */
module World {
  import opened Common

  type Address = nat
  type Key = nat
  type Word = nat
  type Code = seq<nat>
  type Root = map<Key, Word>
  type Base = map<Address, Account>

  datatype Log = Log(address: Address, topics: seq<Word>, data: seq<nat>)

  datatype Forks = Forks(
    homestead: bool, eip155: bool, eip158: bool, constantinople: bool, petersburg: bool, istanbul: bool)

  datatype Account = Account(nonce: nat, balance: nat, root: Root, code: Code)

  /** A state object of the overlay; `storage` holds the slots written in this block, zero for a cleared one. */
  datatype Obj = Obj(account: Account, suicide: bool, deleted: bool, storage: map<Key, Word>) {
    predicate Empty() {
      account.nonce == 0 && account.balance == 0 && account.code == []
    }
  }

  /** The radix tree of a Txn: state objects, the log list and the refund counter. */
  datatype Tree = Tree(objs: map<Address, Obj>, logs: seq<Log>, refund: nat)

  /** A Txn over a fixed base: the current tree and the trees saved by Snapshot. */
  datatype Overlay = Overlay(cur: Tree, saved: seq<Tree>)

  const EMPTY_TREE := Tree(map[], [], 0)
  const NEW_ACCOUNT := Account(0, 0, map[], [])
  const NEW_OBJ := Obj(NEW_ACCOUNT, false, false, map[])

  // ---------- Reads ----------

  function Lookup(base: Base, t: Tree, a: Address): Option<Obj> {
    if a in t.objs then
      if t.objs[a].deleted then None else Some(t.objs[a])
    else if a in base then
      Some(Obj(base[a], false, false, map[]))
    else
      None
  }

  function StorageAt(root: Root, k: Key): Word {
    if k in root then root[k] else 0
  }

  function SlotOf(o: Obj, k: Key): Word {
    if k in o.storage then o.storage[k] else StorageAt(o.account.root, k)
  }

  function BalanceOf(base: Base, t: Tree, a: Address): nat {
    match Lookup(base, t, a) case Some(o) => o.account.balance case None => 0
  }

  function NonceOf(base: Base, t: Tree, a: Address): nat {
    match Lookup(base, t, a) case Some(o) => o.account.nonce case None => 0
  }

  function CodeOf(base: Base, t: Tree, a: Address): Code {
    match Lookup(base, t, a) case Some(o) => o.account.code case None => []
  }

  predicate HasSuicided(base: Base, t: Tree, a: Address) {
    match Lookup(base, t, a) case Some(o) => o.suicide case None => false
  }

  function StateOf(base: Base, t: Tree, a: Address, k: Key): Word {
    match Lookup(base, t, a) case Some(o) => SlotOf(o, k) case None => 0
  }

  /** The word in the trie the account's root points to, that is before this block. */
  function CommittedOf(base: Base, t: Tree, a: Address, k: Key): Word {
    match Lookup(base, t, a) case Some(o) => StorageAt(o.account.root, k) case None => 0
  }

  // ---------- Writes ----------

  /** The callbacks handed to upsertAccount. */
  datatype Edit =
    | Touch
    | AddBalance(amount: nat)
    | SubBalance(amount: nat)
    | SetBalance(amount: nat)
    | AddSealingReward(amount: nat)
    | IncrNonce
    | SetNonce(nonce: nat)
    | SetCode(code: Code)
    | SetState(key: Key, value: Word)
    | Suicide

  function EditAccount(c: Account, e: Edit): Account {
    match e
    case AddBalance(x) => c.(balance := c.balance + x)
    case SubBalance(x) => c.(balance := if x <= c.balance then c.balance - x else 0)
    case SetBalance(x) => c.(balance := x)
    case AddSealingReward(x) => c.(balance := c.balance + x)
    case IncrNonce => c.(nonce := (c.nonce + 1) % U64)
    case SetNonce(n) => c.(nonce := n)
    case SetCode(code) => c.(code := code)
    case Suicide => c.(balance := 0)
    case _ => c
  }

  function EditObj(o: Obj, e: Edit): Obj {
    if e.AddSealingReward? && o.suicide then
      NEW_OBJ.(account := NEW_ACCOUNT.(balance := e.amount))
    else
      o.(account := EditAccount(o.account, e),
         suicide := o.suicide || e.Suicide?,
         storage := if e.SetState? then o.storage[e.key := e.value] else o.storage)
  }

  function Put(t: Tree, a: Address, o: Obj): Tree {
    t.(objs := t.objs[a := o])
  }

  function LookupOrNew(base: Base, t: Tree, a: Address): Obj {
    match Lookup(base, t, a) case Some(o) => o case None => NEW_OBJ
  }

  /** upsertAccount: every edit but Suicide creates a missing account. */
  function Upsert(base: Base, t: Tree, a: Address, e: Edit): Tree {
    if Lookup(base, t, a).None? && e.Suicide? then t
    else Put(t, a, EditObj(LookupOrNew(base, t, a), e))
  }

  function CreateAccount(base: Base, t: Tree, a: Address): Tree {
    Put(t, a, NEW_OBJ.(account := NEW_ACCOUNT.(balance := BalanceOf(base, t, a))))
  }

  /** A zero amount is a no-op and a missing balance an error. */
  function Debit(base: Base, t: Tree, a: Address, amount: nat): Option<Tree> {
    if amount == 0 then Some(t)
    else if BalanceOf(base, t, a) < amount then None
    else Some(Upsert(base, t, a, SubBalance(amount)))
  }

  function AddRefund(refund: nat, gas: nat): nat {
    (refund + gas) % U64
  }

  function SubRefund(refund: nat, gas: nat): nat {
    (refund - gas) % U64
  }

  predicate LegacyMetering(forks: Forks) {
    !forks.istanbul && (forks.petersburg || !forks.constantinople)
  }

  datatype StorageStatus =
    StorageUnchanged | StorageModified | StorageModifiedAgain | StorageAdded | StorageDeleted

  /** True on the branch of SetStorage that takes a refund back. */
  predicate TakesBack(forks: Forks, original: Word, current: Word, value: Word) {
    !LegacyMetering(forks) && current != value && original != current && original != 0 && current == 0
  }

  function Metered(forks: Forks, original: Word, current: Word, value: Word, refund: nat): (nat, StorageStatus) {
    if current == value then
      (refund, StorageUnchanged)
    else if LegacyMetering(forks) then
      if current == 0 then (refund, StorageAdded)
      else if value == 0 then (AddRefund(refund, 15000), StorageDeleted)
      else (refund, StorageModified)
    else if original == current then
      if original == 0 then (refund, StorageAdded)
      else if value == 0 then (AddRefund(refund, 15000), StorageDeleted)
      else (refund, StorageModified)
    else
      var r :=
        if original != 0 && current == 0 then SubRefund(refund, 15000)
        else if original != 0 && value == 0 then AddRefund(refund, 15000)
        else refund;
      var r' :=
        if original != value then r
        else if original == 0 then AddRefund(r, if forks.istanbul then 19200 else 19800)
        else AddRefund(r, if forks.istanbul then 4200 else 4800);
      (r', StorageModifiedAgain)
  }

  function SetStorage(forks: Forks, base: Base, t: Tree, a: Address, k: Key, v: Word): (Tree, StorageStatus) {
    var current := StateOf(base, t, a, k);
    var (refund, status) := Metered(forks, CommittedOf(base, t, a, k), current, v, t.refund);
    if current == v then (t, status)
    else (Upsert(base, t, a, SetState(k, v)).(refund := refund), status)
  }

  function Cleaned(o: Obj, deleteEmpty: bool): Obj {
    if o.suicide || (o.Empty() && deleteEmpty) then o.(deleted := true) else o
  }

  function CleanDelete(t: Tree, deleteEmpty: bool): Tree {
    Tree(map a | a in t.objs :: Cleaned(t.objs[a], deleteEmpty), t.logs, 0)
  }

  // ---------- Runs of overlay operations ----------

  datatype Op =
    | DoEdit(a: Address, e: Edit)
    | DoDebit(a: Address, amount: nat)
    | DoCreateAccount(a: Address)
    | DoSetStorage(forks: Forks, a: Address, key: Key, value: Word)
    | DoAddRefund(gas: nat)
    | DoEmitLog(log: Log)
    | DoTakeLogs
    | DoClean(deleteEmpty: bool)
    | DoSnapshot
    | DoRevert(id: nat)

  predicate Enabled(s: Overlay, op: Op) {
    op.DoRevert? ==> op.id < |s.saved|
  }

  /** The effect of an operation on the current tree; Snapshot and Revert are in Step. */
  function TreeStep(base: Base, t: Tree, op: Op): Tree {
    match op
    case DoEdit(a, e) => Upsert(base, t, a, e)
    case DoDebit(a, x) => (match Debit(base, t, a, x) case Some(t') => t' case None => t)
    case DoCreateAccount(a) => CreateAccount(base, t, a)
    case DoSetStorage(forks, a, k, v) => SetStorage(forks, base, t, a, k, v).0
    case DoAddRefund(g) => t.(refund := AddRefund(t.refund, g))
    case DoEmitLog(l) => t.(logs := t.logs + [l])
    case DoTakeLogs => t.(logs := [])
    case DoClean(d) => CleanDelete(t, d)
    case _ => t
  }

  function Step(base: Base, s: Overlay, op: Op): Overlay
    requires Enabled(s, op)
  {
    match op
    case DoSnapshot => s.(saved := s.saved + [s.cur])
    case DoRevert(id) => s.(cur := s.saved[id])
    case _ => s.(cur := TreeStep(base, s.cur, op))
  }

  /** Every revert of the run names a snapshot already taken. */
  predicate Runs(n: nat, ops: seq<Op>)
    decreases |ops|
  {
    ops != [] ==>
      && (ops[0].DoRevert? ==> ops[0].id < n)
      && Runs(if ops[0].DoSnapshot? then n + 1 else n, ops[1..])
  }

  function RunOps(base: Base, s: Overlay, ops: seq<Op>): Overlay
    requires Runs(|s.saved|, ops)
    decreases |ops|
  {
    if ops == [] then s else RunOps(base, Step(base, s, ops[0]), ops[1..])
  }
}
