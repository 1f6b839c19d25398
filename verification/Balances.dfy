/** Balances of the overlay: what one operation does to each of them, and their sum over all accounts. */
module Balances {
  import opened Common
  import opened World

  ghost predicate SameBalances(base: Base, t: Tree, t': Tree) {
    forall a :: BalanceOf(base, t', a) == BalanceOf(base, t, a)
  }

  /** Only the balance of `a` changes, to `x`. */
  ghost predicate OnlyBalance(base: Base, t: Tree, t': Tree, a: Address, x: nat) {
    forall b :: BalanceOf(base, t', b) == if b == a then x else BalanceOf(base, t, b)
  }

  lemma {:induction false} PutBalance(base: Base, t: Tree, a: Address, o: Obj)
    ensures OnlyBalance(base, t, Put(t, a, o), a, if o.deleted then 0 else o.account.balance)
  {}

  function EditBalance(x: nat, e: Edit): nat {
    match e
    case AddBalance(y) => x + y
    case SubBalance(y) => if y <= x then x - y else 0
    case SetBalance(y) => y
    case Suicide => 0
    case _ => x
  }

  lemma {:induction false} EditedBalance(base: Base, t: Tree, a: Address, e: Edit)
    requires !e.AddSealingReward?
    ensures OnlyBalance(base, t, Upsert(base, t, a, e), a, EditBalance(BalanceOf(base, t, a), e))
  {
    if !(Lookup(base, t, a).None? && e.Suicide?) {
      var o := LookupOrNew(base, t, a);
      assert EditObj(o, e).account.balance == EditBalance(o.account.balance, e);
      PutBalance(base, t, a, EditObj(o, e));
    }
  }

  /** An edit that moves no money. */
  predicate Neutral(e: Edit) {
    e.Touch? || e.IncrNonce? || e.SetNonce? || e.SetCode? || e.SetState?
  }

  lemma {:induction false} NeutralEdit(base: Base, t: Tree, a: Address, e: Edit)
    requires Neutral(e)
    ensures SameBalances(base, t, Upsert(base, t, a, e))
  {
    EditedBalance(base, t, a, e);
  }

  lemma {:induction false} CreatedBalance(base: Base, t: Tree, a: Address)
    ensures SameBalances(base, t, CreateAccount(base, t, a))
  {
    PutBalance(base, t, a, CreateAccount(base, t, a).objs[a]);
  }

  lemma {:induction false} SetStorageBalance(forks: Forks, base: Base, t: Tree, a: Address, k: Key, v: Word)
    ensures SameBalances(base, t, SetStorage(forks, base, t, a, k, v).0)
  {
    var t1 := Upsert(base, t, a, SetState(k, v));
    NeutralEdit(base, t, a, SetState(k, v));
    assert forall r :: SameBalances(base, t1, t1.(refund := r));
  }

  // ---------- Sums ----------

  ghost function Sum(base: Base, t: Tree, s: set<Address>): nat {
    if s == {} then 0 else
      var a :| a in s;
      BalanceOf(base, t, a) + Sum(base, t, s - {a})
  }

  lemma {:induction false} SumPick(base: Base, t: Tree, s: set<Address>, a: Address)
    requires a in s
    ensures Sum(base, t, s) == BalanceOf(base, t, a) + Sum(base, t, s - {a})
    decreases s
  {
    var x :| x in s && Sum(base, t, s) == BalanceOf(base, t, x) + Sum(base, t, s - {x});
    if x != a {
      SumPick(base, t, s - {x}, a);
      SumPick(base, t, s - {a}, x);
      assert s - {x} - {a} == s - {a} - {x};
    }
  }

  lemma {:induction false} SumSame(base: Base, t: Tree, base': Base, t': Tree, s: set<Address>)
    requires forall a :: a in s ==> BalanceOf(base, t, a) == BalanceOf(base', t', a)
    ensures Sum(base, t, s) == Sum(base', t', s)
    decreases s
  {
    if s != {} {
      var a :| a in s;
      SumPick(base, t, s, a);
      SumPick(base', t', s, a);
      SumSame(base, t, base', t', s - {a});
    }
  }

  lemma {:induction false} SumPadded(base: Base, t: Tree, s: set<Address>, d: set<Address>)
    requires s <= d && forall a :: a in d - s ==> BalanceOf(base, t, a) == 0
    ensures Sum(base, t, d) == Sum(base, t, s)
    decreases d
  {
    if d - s == {} {
      assert forall a :: a in d ==> a in s || a in d - s;
      assert d == s;
    } else {
      var a :| a in d - s;
      SumPick(base, t, d, a);
      SumPadded(base, t, s, d - {a});
    }
  }

  ghost function Accounts(base: Base, t: Tree): set<Address> {
    base.Keys + t.objs.Keys
  }

  /** The sum of all balances of the world state. */
  ghost function Total(base: Base, t: Tree): nat {
    Sum(base, t, Accounts(base, t))
  }

  lemma {:induction false} TotalOver(base: Base, t: Tree, d: set<Address>)
    requires Accounts(base, t) <= d
    ensures Total(base, t) == Sum(base, t, d)
  {
    SumPadded(base, t, Accounts(base, t), d);
  }

  /** States with the same balances have the same sum, whatever is in the base and what in the overlay. */
  lemma {:induction false} EqualTotals(base: Base, t: Tree, base': Base, t': Tree)
    requires forall a :: BalanceOf(base', t', a) == BalanceOf(base, t, a)
    ensures Total(base', t') == Total(base, t)
  {
    var d := Accounts(base, t) + Accounts(base', t');
    TotalOver(base, t, d);
    TotalOver(base', t', d);
    SumSame(base, t, base', t', d);
  }

  lemma {:induction false} SameTotal(base: Base, t: Tree, t': Tree)
    requires SameBalances(base, t, t')
    ensures Total(base, t') == Total(base, t)
  {
    EqualTotals(base, t, base, t');
  }

  lemma {:induction false} OneChange(base: Base, t: Tree, t': Tree, a: Address, x: nat)
    requires OnlyBalance(base, t, t', a, x)
    ensures Total(base, t') + BalanceOf(base, t, a) == Total(base, t) + x
  {
    var d := Accounts(base, t) + Accounts(base, t') + {a};
    TotalOver(base, t, d);
    TotalOver(base, t', d);
    SumPick(base, t, d, a);
    SumPick(base, t', d, a);
    SumSame(base, t, base, t', d - {a});
  }

  lemma {:induction false} EditedTotal(base: Base, t: Tree, a: Address, e: Edit)
    requires !e.AddSealingReward?
    ensures Total(base, Upsert(base, t, a, e)) + BalanceOf(base, t, a) ==
            Total(base, t) + EditBalance(BalanceOf(base, t, a), e)
  {
    EditedBalance(base, t, a, e);
    OneChange(base, t, Upsert(base, t, a, e), a, EditBalance(BalanceOf(base, t, a), e));
  }

  lemma {:induction false} CreditTotal(base: Base, t: Tree, a: Address, x: nat)
    ensures Total(base, Upsert(base, t, a, AddBalance(x))) == Total(base, t) + x
    ensures BalanceOf(base, Upsert(base, t, a, AddBalance(x)), a) == BalanceOf(base, t, a) + x
    ensures forall b :: b != a ==> BalanceOf(base, Upsert(base, t, a, AddBalance(x)), b) == BalanceOf(base, t, b)
  {
    EditedBalance(base, t, a, AddBalance(x));
    EditedTotal(base, t, a, AddBalance(x));
  }

  lemma {:induction false} DebitTotal(base: Base, t: Tree, a: Address, x: nat)
    requires Debit(base, t, a, x).Some?
    ensures Total(base, Debit(base, t, a, x).value) + x == Total(base, t)
  {
    EditedTotal(base, t, a, SubBalance(x));
  }

  lemma {:induction false} SuicideTotal(base: Base, t: Tree, a: Address)
    ensures Total(base, Upsert(base, t, a, Suicide)) + BalanceOf(base, t, a) == Total(base, t)
  {
    EditedTotal(base, t, a, Suicide);
  }

  lemma {:induction false} NeutralTotal(base: Base, t: Tree, a: Address, e: Edit)
    requires Neutral(e)
    ensures Total(base, Upsert(base, t, a, e)) == Total(base, t)
  {
    NeutralEdit(base, t, a, e);
    SameTotal(base, t, Upsert(base, t, a, e));
  }

  /** The balance that cleaning destroys: what suicided accounts still hold. */
  ghost function Flagged(t: Tree): set<Address> {
    set a | a in t.objs && t.objs[a].suicide
  }

  lemma {:induction false} CleanSum(base: Base, t: Tree, deleteEmpty: bool, s: set<Address>)
    ensures Sum(base, CleanDelete(t, deleteEmpty), s) + Sum(base, t, s * Flagged(t)) == Sum(base, t, s)
    decreases s
  {
    if s != {} {
      var a :| a in s;
      var t' := CleanDelete(t, deleteEmpty);
      SumPick(base, t, s, a);
      SumPick(base, t', s, a);
      CleanSum(base, t, deleteEmpty, s - {a});
      if a in Flagged(t) {
        SumPick(base, t, s * Flagged(t), a);
        assert s * Flagged(t) - {a} == (s - {a}) * Flagged(t);
      } else {
        assert s * Flagged(t) == (s - {a}) * Flagged(t);
        assert BalanceOf(base, t', a) == BalanceOf(base, t, a);
      }
    } else {
      assert s * Flagged(t) == {};
    }
  }

  lemma {:induction false} CleanTotal(base: Base, t: Tree, deleteEmpty: bool)
    ensures Total(base, CleanDelete(t, deleteEmpty)) + Sum(base, t, Flagged(t)) == Total(base, t)
  {
    CleanSum(base, t, deleteEmpty, Accounts(base, t));
    assert Accounts(base, t) * Flagged(t) == Flagged(t);
    assert Accounts(base, CleanDelete(t, deleteEmpty)) == Accounts(base, t);
  }
}
