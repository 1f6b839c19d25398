/** Flushing the overlay: the objects emitted by Txn.Commit, applied to the base snapshot, give a state that
    answers every read of a fresh Txn as the cleaned overlay did. */
module Commit {
  import opened Common
  import opened World
  import opened Balances
  import opened OverlayTxn

  datatype StorageObject = StorageObject(key: Key, deleted: bool, val: Word)
  datatype Object = Object(
    address: Address, nonce: nat, balance: nat, root: Root, code: Code, deleted: bool, storage: seq<StorageObject>)

  // ---------- What a walk over the tree emits, in any order ----------

  ghost predicate FlushesStorage(es: seq<StorageObject>, m: map<Key, Word>) {
    && (forall i, j :: 0 <= i < j < |es| ==> es[i].key != es[j].key)
    && (forall k :: k in m ==> exists i :: 0 <= i < |es| && es[i].key == k)
    && (forall i :: 0 <= i < |es| ==> es[i].key in m && EntryOf(es[i], m[es[i].key]))
  }

  predicate EntryOf(e: StorageObject, w: Word) {
    if w == 0 then e.deleted else !e.deleted && e.val == w
  }

  ghost predicate Flushes(o: Object, v: Obj) {
    && o.nonce == v.account.nonce && o.balance == v.account.balance
    && o.root == v.account.root && o.code == v.account.code && o.deleted == v.deleted
    && (if v.deleted then o.storage == [] else FlushesStorage(o.storage, v.storage))
  }

  ghost predicate Emits(t: Tree, objs: seq<Object>) {
    && (forall i, j :: 0 <= i < j < |objs| ==> objs[i].address != objs[j].address)
    && (forall a :: a in t.objs ==> exists i :: 0 <= i < |objs| && objs[i].address == a)
    && (forall i :: 0 <= i < |objs| ==> objs[i].address in t.objs && Flushes(objs[i], t.objs[objs[i].address]))
  }

  /** The objects of all accounts but those in `remaining`. */
  ghost predicate EmitsBut(t: Tree, objs: seq<Object>, remaining: set<Address>) {
    && remaining <= t.objs.Keys
    && (forall i, j :: 0 <= i < j < |objs| ==> objs[i].address != objs[j].address)
    && (forall a :: a in t.objs && a !in remaining ==> exists i :: 0 <= i < |objs| && objs[i].address == a)
    && (forall i :: 0 <= i < |objs| ==>
      objs[i].address in t.objs && objs[i].address !in remaining && Flushes(objs[i], t.objs[objs[i].address]))
  }

  lemma {:induction false} EmitOne(t: Tree, objs: seq<Object>, o: Object, remaining: set<Address>)
    requires EmitsBut(t, objs, remaining + {o.address}) && o.address !in remaining && Flushes(o, t.objs[o.address])
    ensures EmitsBut(t, objs + [o], remaining)
  {
    forall b | b in t.objs && b !in remaining
      ensures exists i :: 0 <= i < |objs + [o]| && (objs + [o])[i].address == b
    {
      if b == o.address {
        assert (objs + [o])[|objs|].address == b;
      } else {
        var i :| 0 <= i < |objs| && objs[i].address == b;
        assert (objs + [o])[i].address == b;
      }
    }
  }

  method WalkStorage(m: map<Key, Word>) returns (es: seq<StorageObject>)
    ensures FlushesStorage(es, m)
  {
    es := [];
    var remaining := m.Keys;
    while remaining != {}
      invariant remaining <= m.Keys
      invariant forall i, j :: 0 <= i < j < |es| ==> es[i].key != es[j].key
      invariant forall k :: k in m && k !in remaining ==> exists i :: 0 <= i < |es| && es[i].key == k
      invariant forall i :: 0 <= i < |es| ==> es[i].key in m && es[i].key !in remaining && EntryOf(es[i], m[es[i].key])
      decreases remaining
    {
      var k :| k in remaining;
      ghost var was := es;
      es := es + [if m[k] == 0 then StorageObject(k, true, 0) else StorageObject(k, false, m[k])];
      remaining := remaining - {k};
      forall j | j in m && j !in remaining ensures exists i :: 0 <= i < |es| && es[i].key == j {
        if j == k {
          assert es[|es| - 1].key == j;
        } else {
          var i :| 0 <= i < |was| && was[i].key == j;
          assert es[i].key == j;
        }
      }
    }
  }

  /** The flushed form of a state object that shows `v`. */
  method Flush(a: Address, o: StateObject, ghost v: Obj) returns (r: Object)
    requires o.Shows(v)
    ensures r.address == a && Flushes(r, v)
  {
    var storage := [];
    if !o.deleted {
      storage := WalkStorage(o.storage);
    }
    r := Object(a, o.account.nonce, o.account.balance, o.account.root, o.account.code, o.deleted, storage);
  }

  /** The walk of Txn.Commit over the state objects of the tree. */
  method Walk(s: Txn) returns (objs: seq<Object>)
    requires s.Valid()
    ensures Emits(s.view.cur, objs)
  {
    objs := [];
    var remaining := s.txn.objs.Keys;
    while remaining != {}
      invariant EmitsBut(s.view.cur, objs, remaining)
      decreases remaining
    {
      var a :| a in remaining;
      ghost var was, before := objs, remaining;
      var o := Flush(a, s.txn.objs[a], s.view.cur.objs[a]);
      objs, remaining := objs + [o], remaining - {a};
      assert remaining + {a} == before;
      EmitOne(s.view.cur, was, o, remaining);
    }
  }

  /** Txn.Commit: one object for each account of the cleaned overlay. */
  method Commit(s: Txn, deleteEmpty: bool) returns (objs: seq<Object>)
    requires s.Valid()
    modifies s
    ensures s.Valid() && s.view.cur == CleanDelete(old(s.view.cur), deleteEmpty) && Emits(s.view.cur, objs)
  {
    s.CleanDeleteObjects(deleteEmpty);
    objs := Walk(s);
  }

  // ---------- Snapshot.Commit ----------

  function ApplyStorage(root: Root, es: seq<StorageObject>): Root
    decreases |es|
  {
    if es == [] then root
    else ApplyStorage(if es[0].deleted then root - {es[0].key} else root[es[0].key := es[0].val], es[1..])
  }

  function ApplyOne(base: Base, o: Object): Base {
    if o.deleted then base - {o.address}
    else base[o.address :=
      Account(o.nonce, o.balance, if o.storage == [] then o.root else ApplyStorage(o.root, o.storage), o.code)]
  }

  function ApplyObjs(base: Base, objs: seq<Object>): Base
    decreases |objs|
  {
    if objs == [] then base else ApplyObjs(ApplyOne(base, objs[0]), objs[1..])
  }

  lemma {:induction false} ApplyStorageElsewhere(root: Root, es: seq<StorageObject>, k: Key)
    requires forall i :: 0 <= i < |es| ==> es[i].key != k
    ensures StorageAt(ApplyStorage(root, es), k) == StorageAt(root, k)
    decreases |es|
  {
    if es != [] {
      ApplyStorageElsewhere(if es[0].deleted then root - {es[0].key} else root[es[0].key := es[0].val], es[1..], k);
    }
  }

  lemma {:induction false} ApplyStorageAt(root: Root, es: seq<StorageObject>, i: nat)
    requires i < |es| && forall x, y :: 0 <= x < y < |es| ==> es[x].key != es[y].key
    ensures StorageAt(ApplyStorage(root, es), es[i].key) == if es[i].deleted then 0 else es[i].val
    decreases |es|
  {
    var root' := if es[0].deleted then root - {es[0].key} else root[es[0].key := es[0].val];
    if i == 0 {
      ApplyStorageElsewhere(root', es[1..], es[0].key);
    } else {
      ApplyStorageAt(root', es[1..], i - 1);
    }
  }

  /** The flushed storage trie reads as the dirty slots over the old root. */
  lemma {:induction false} StorageRefines(v: Obj, es: seq<StorageObject>, k: Key)
    requires FlushesStorage(es, v.storage)
    ensures StorageAt(ApplyStorage(v.account.root, es), k) == SlotOf(v, k)
  {
    if k in v.storage {
      var i :| 0 <= i < |es| && es[i].key == k;
      ApplyStorageAt(v.account.root, es, i);
    } else {
      ApplyStorageElsewhere(v.account.root, es, k);
    }
  }

  lemma {:induction false} ApplyObjsElsewhere(base: Base, objs: seq<Object>, a: Address)
    requires forall i :: 0 <= i < |objs| ==> objs[i].address != a
    ensures a in ApplyObjs(base, objs) <==> a in base
    ensures a in base ==> ApplyObjs(base, objs)[a] == base[a]
    decreases |objs|
  {
    if objs != [] {
      ApplyObjsElsewhere(ApplyOne(base, objs[0]), objs[1..], a);
    }
  }

  lemma {:induction false} ApplyObjsAt(base: Base, objs: seq<Object>, i: nat)
    requires i < |objs| && forall x, y :: 0 <= x < y < |objs| ==> objs[x].address != objs[y].address
    ensures var a, one := objs[i].address, ApplyOne(map[], objs[i]);
            && (a in ApplyObjs(base, objs) <==> a in one)
            && (a in one ==> ApplyObjs(base, objs)[a] == one[a])
    decreases |objs|
  {
    if i == 0 {
      ApplyObjsElsewhere(ApplyOne(base, objs[0]), objs[1..], objs[0].address);
    } else {
      ApplyObjsAt(ApplyOne(base, objs[0]), objs[1..], i - 1);
    }
  }

  // ---------- Refinement ----------

  /** Both states give the same answer to every read about account `a` and its slot `k`. */
  predicate SameReads(base: Base, t: Tree, base': Base, t': Tree, a: Address, k: Key) {
    && (Lookup(base, t, a).Some? <==> Lookup(base', t', a).Some?)
    && BalanceOf(base, t, a) == BalanceOf(base', t', a)
    && NonceOf(base, t, a) == NonceOf(base', t', a)
    && CodeOf(base, t, a) == CodeOf(base', t', a)
    && HasSuicided(base, t, a) == HasSuicided(base', t', a)
    && StateOf(base, t, a, k) == StateOf(base', t', a, k)
  }

  lemma {:induction false} FlushedReads(base: Base, x: Tree, objs: seq<Object>, i: nat, k: Key)
    requires Emits(x, objs) && i < |objs| && (x.objs[objs[i].address].suicide ==> x.objs[objs[i].address].deleted)
    ensures SameReads(base, x, ApplyObjs(base, objs), EMPTY_TREE, objs[i].address, k)
  {
    var v := x.objs[objs[i].address];
    ApplyObjsAt(base, objs, i);
    assert Flushes(objs[i], v);
    if !v.deleted {
      StorageRefines(v, objs[i].storage, k);
      assert ApplyStorage(objs[i].root, []) == objs[i].root;
    }
  }

  lemma {:induction false} CommitRefines(base: Base, t: Tree, deleteEmpty: bool, objs: seq<Object>, a: Address, k: Key)
    requires Emits(CleanDelete(t, deleteEmpty), objs)
    ensures SameReads(base, CleanDelete(t, deleteEmpty), ApplyObjs(base, objs), EMPTY_TREE, a, k)
    ensures CommittedOf(ApplyObjs(base, objs), EMPTY_TREE, a, k) == StateOf(base, CleanDelete(t, deleteEmpty), a, k)
  {
    var x := CleanDelete(t, deleteEmpty);
    if a in x.objs {
      var i :| 0 <= i < |objs| && objs[i].address == a;
      FlushedReads(base, x, objs, i, k);
    } else {
      ApplyObjsElsewhere(base, objs, a);
    }
  }

  /** What cleaning itself does to the reads: only suicided accounts, and empty ones on request, disappear. */
  lemma {:induction false} CleanDeleteReads(base: Base, t: Tree, deleteEmpty: bool, a: Address, k: Key)
    ensures var gone := a in t.objs && (t.objs[a].suicide || (deleteEmpty && t.objs[a].Empty()));
            && CleanDelete(t, deleteEmpty).logs == t.logs && CleanDelete(t, deleteEmpty).refund == 0
            && if gone then Lookup(base, CleanDelete(t, deleteEmpty), a).None?
               else SameReads(base, t, base, CleanDelete(t, deleteEmpty), a, k)
  {}

  /** The committed base has the sum of balances the overlay had, less what suicided accounts still held. */
  lemma {:induction false} CommitTotal(base: Base, t: Tree, deleteEmpty: bool, objs: seq<Object>)
    requires Emits(CleanDelete(t, deleteEmpty), objs)
    ensures Total(ApplyObjs(base, objs), EMPTY_TREE) + Sum(base, t, Flagged(t)) == Total(base, t)
  {
    var x := CleanDelete(t, deleteEmpty);
    forall a ensures BalanceOf(ApplyObjs(base, objs), EMPTY_TREE, a) == BalanceOf(base, x, a) {
      CommitRefines(base, t, deleteEmpty, objs, a, 0);
    }
    EqualTotals(base, x, ApplyObjs(base, objs), EMPTY_TREE);
    CleanTotal(base, t, deleteEmpty);
  }
}
