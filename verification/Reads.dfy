/** What the reads answer after each write of the overlay, account by account and slot by slot. */
module Reads {
  import opened Common
  import opened World

  /** Every read about account `b` and its slot `k` has the same answer in both trees. */
  predicate SameAt(base: Base, t: Tree, t': Tree, b: Address, k: Key) {
    && (Lookup(base, t', b).Some? <==> Lookup(base, t, b).Some?)
    && BalanceOf(base, t', b) == BalanceOf(base, t, b) && NonceOf(base, t', b) == NonceOf(base, t, b)
    && CodeOf(base, t', b) == CodeOf(base, t, b) && HasSuicided(base, t', b) == HasSuicided(base, t, b)
    && StateOf(base, t', b, k) == StateOf(base, t, b, k) && CommittedOf(base, t', b, k) == CommittedOf(base, t, b, k)
  }

  predicate SameElsewhere(t: Tree, t': Tree) {
    t'.logs == t.logs && t'.refund == t.refund
  }

  /** No account but `a` is touched, and neither are logs and refund counter. */
  lemma {:induction false} EditsOne(base: Base, t: Tree, a: Address, e: Edit, b: Address, k: Key)
    ensures var t' := Upsert(base, t, a, e); SameElsewhere(t, t') && (b != a ==> SameAt(base, t, t', b, k))
  {}

  /** What an edit makes of the account it is made on. */
  lemma {:induction false} EditReads(base: Base, t: Tree, a: Address, e: Edit, k: Key)
    requires !e.AddSealingReward? && !e.Suicide?
    ensures var t' := Upsert(base, t, a, e); var x, n := BalanceOf(base, t, a), NonceOf(base, t, a);
            && Lookup(base, t', a).Some? && HasSuicided(base, t', a) == HasSuicided(base, t, a)
            && BalanceOf(base, t', a) == (match e
                                          case AddBalance(y) => x + y
                                          case SubBalance(y) => if y <= x then x - y else 0
                                          case SetBalance(y) => y
                                          case _ => x)
            && NonceOf(base, t', a) == (match e
                                        case IncrNonce => (n + 1) % U64
                                        case SetNonce(m) => m
                                        case _ => n)
            && CodeOf(base, t', a) == (if e.SetCode? then e.code else CodeOf(base, t, a))
            && StateOf(base, t', a, k) == (if e.SetState? && e.key == k then e.value else StateOf(base, t, a, k))
            && CommittedOf(base, t', a, k) == CommittedOf(base, t, a, k)
  {}

  /** Suicide marks an account that exists and empties its balance; a missing one stays missing. */
  lemma {:induction false} SuicideReads(base: Base, t: Tree, a: Address, k: Key)
    ensures var t' := Upsert(base, t, a, Suicide);
            if Lookup(base, t, a).None? then SameAt(base, t, t', a, k)
            else
              && HasSuicided(base, t', a) && BalanceOf(base, t', a) == 0 && NonceOf(base, t', a) == NonceOf(base, t, a)
              && CodeOf(base, t', a) == CodeOf(base, t, a) && StateOf(base, t', a, k) == StateOf(base, t, a, k)
  {}

  /** A sealing reward brings a suicided account back, with nothing but the reward. */
  lemma {:induction false} SealingRewardReads(base: Base, t: Tree, a: Address, x: nat, k: Key)
    ensures var t' := Upsert(base, t, a, AddSealingReward(x));
            && Lookup(base, t', a).Some? && !HasSuicided(base, t', a)
            && if HasSuicided(base, t, a) then
                 && BalanceOf(base, t', a) == x && NonceOf(base, t', a) == 0 && CodeOf(base, t', a) == []
                 && StateOf(base, t', a, k) == 0
               else
                 && BalanceOf(base, t', a) == BalanceOf(base, t, a) + x && NonceOf(base, t', a) == NonceOf(base, t, a)
                 && CodeOf(base, t', a) == CodeOf(base, t, a) && StateOf(base, t', a, k) == StateOf(base, t, a, k)
  {}

  /** A created account has the old balance and nothing else. */
  lemma {:induction false} CreateReads(base: Base, t: Tree, a: Address, b: Address, k: Key)
    ensures var t' := CreateAccount(base, t, a);
            && SameElsewhere(t, t') && (b != a ==> SameAt(base, t, t', b, k))
            && Lookup(base, t', a).Some? && BalanceOf(base, t', a) == BalanceOf(base, t, a) && NonceOf(base, t', a) == 0
            && CodeOf(base, t', a) == [] && !HasSuicided(base, t', a) && StateOf(base, t', a, k) == 0
  {}

  /** A storage write changes the word of its slot and no other read. */
  lemma {:induction false} SetStorageReads(
    forks: Forks, base: Base, t: Tree, a: Address, k: Key, v: Word, b: Address, j: Key)
    ensures var t' := SetStorage(forks, base, t, a, k, v).0;
            && t'.logs == t.logs && StateOf(base, t', a, k) == v && (b != a ==> SameAt(base, t, t', b, j))
            && BalanceOf(base, t', a) == BalanceOf(base, t, a) && NonceOf(base, t', a) == NonceOf(base, t, a)
            && CodeOf(base, t', a) == CodeOf(base, t, a) && CommittedOf(base, t', a, j) == CommittedOf(base, t, a, j)
            && (j != k ==> StateOf(base, t', a, j) == StateOf(base, t, a, j))
  {
    EditReads(base, t, a, SetState(k, v), j);
  }
}
