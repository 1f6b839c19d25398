/** The Txn of state/txn.go on the heap: state objects are shared by reference between the current tree and
    the saved trees, log lists are slices over shared backing arrays, and every operation is proved to
    refine the pure overlay of World. */
module OverlayTxn {
  import opened Common
  import opened World

  class AccountRef {
    var nonce: nat
    var balance: nat
    var root: Root
    var code: Code

    ghost predicate Shows(v: Account) reads this {
      nonce == v.nonce && balance == v.balance && root == v.root && code == v.code
    }

    constructor (nonce: nat, balance: nat, root: Root, code: Code)
      ensures Shows(Account(nonce, balance, root, code))
    {
      this.nonce, this.balance, this.root, this.code := nonce, balance, root, code;
    }

    /** Account.Copy: the balance is copied, not shared. */
    method Copy() returns (r: AccountRef)
      ensures fresh(r) && r.Shows(Account(nonce, balance, root, code))
    {
      r := new AccountRef(nonce, balance, root, code);
    }
  }

  class StateObject {
    var account: AccountRef
    var suicide: bool
    var deleted: bool
    var storage: map<Key, Word>

    ghost predicate Shows(v: Obj) reads this, account {
      account.Shows(v.account) && suicide == v.suicide && deleted == v.deleted && storage == v.storage
    }

    ghost function Value(): Obj reads this, account {
      Obj(Account(account.nonce, account.balance, account.root, account.code), suicide, deleted, storage)
    }

    constructor (account: AccountRef)
      ensures this.account == account && !suicide && !deleted && storage == map[]
    {
      this.account, suicide, deleted, storage := account, false, false, map[];
    }

    method Copy() returns (r: StateObject)
      ensures fresh(r) && fresh(r.account) && r.Shows(Value())
    {
      var c := account.Copy();
      r := new StateObject(c);
      r.suicide, r.deleted, r.storage := suicide, deleted, storage;
    }

    predicate Removable(deleteEmpty: bool) reads this, account {
      suicide || (account.nonce == 0 && account.balance == 0 && account.code == [] && deleteEmpty)
    }

    /** Runs one of upsertAccount's callbacks, updating the object in place. */
    method Run(e: Edit)
      modifies this, account
      ensures Shows(EditObj(old(Value()), e))
      ensures account == old(account) || fresh(account)
    {
      match e {
        case Touch =>
        case AddBalance(x) => account.balance := account.balance + x;
        case SubBalance(x) => account.balance := if x <= account.balance then account.balance - x else 0;
        case SetBalance(x) => account.balance := x;
        case AddSealingReward(x) =>
          if suicide {
            account := new AccountRef(0, x, map[], []);
            suicide, deleted, storage := false, false, map[];
          } else {
            account.balance := account.balance + x;
          }
        case IncrNonce => account.nonce := (account.nonce + 1) % U64;
        case SetNonce(n) => account.nonce := n;
        case SetCode(c) => account.code := c;
        case SetState(k, v) => storage := storage[k := v];
        case Suicide => suicide := true; account.balance := 0;
      }
    }
  }

  /** A Go slice of logs: a backing array, possibly shared, and a length. */
  datatype LogSlice = LogSlice(arr: array<Log>, len: nat)

  /** The capacity append gives a full slice of length `n`. */
  function Capacity(n: nat): (c: nat)
    ensures n < c
  {
    if n == 0 then 1 else 2 * n
  }

  datatype HeapTree = HeapTree(objs: map<Address, StateObject>, logs: Option<LogSlice>, refund: nat)

  /** What the heap holds: the value each inserted state object shows, and the contents of each log array.
      The relations between trees and their values below are about these maps, so they are heap-free. */
  datatype Heap = Heap(frozen: map<StateObject, Obj>, logs: map<array<Log>, seq<Log>>) {
    ghost predicate Real(objects: set<StateObject>, accounts: set<AccountRef>, arrays: set<array<Log>>)
      reads objects, accounts, arrays
    {
      && (forall o :: o in frozen ==> o in objects && o.account in accounts && o.Shows(frozen[o]))
      && (forall arr :: arr in logs ==> arr in arrays && arr[..] == logs[arr])
    }
  }

  lemma {:induction false} RealPut(h: Heap, objects: set<StateObject>, accounts: set<AccountRef>,
                                   arrays: set<array<Log>>, o: StateObject, v: Obj)
    requires h.Real(objects, accounts, arrays) && o.Shows(v)
    ensures h.(frozen := h.frozen[o := v]).Real(objects + {o}, accounts + {o.account}, arrays)
  {}

  lemma {:induction false} RealGrow(h: Heap, objects: set<StateObject>, accounts: set<AccountRef>,
                                    arrays: set<array<Log>>, arr: array<Log>)
    requires h.Real(objects, accounts, arrays)
    ensures h.(logs := h.logs[arr := arr[..]]).Real(objects, accounts, arrays + {arr})
  {}

  /** The tree shows every value of `v` but its logs. */
  ghost predicate TreeHolds(h: Heap, t: HeapTree, v: Tree) {
    && t.refund == v.refund
    && t.objs.Keys == v.objs.Keys
    && forall a :: a in t.objs ==> t.objs[a] in h.frozen && h.frozen[t.objs[a]] == v.objs[a]
  }

  ghost predicate SliceOk(h: Heap, t: HeapTree) {
    t.logs.Some? ==> t.logs.value.arr in h.logs && 0 < t.logs.value.len <= |h.logs[t.logs.value.arr]|
  }

  ghost function LogsOf(h: Heap, t: HeapTree): seq<Log>
    requires SliceOk(h, t)
  {
    if t.logs.Some? then h.logs[t.logs.value.arr][..t.logs.value.len] else []
  }

  /** The slice of `x` is not longer than that of `y` when both lie over the same array. */
  ghost predicate NotPast(x: HeapTree, y: HeapTree) {
    x.logs.Some? && y.logs.Some? && x.logs.value.arr == y.logs.value.arr ==> x.logs.value.len <= y.logs.value.len
  }

  /** The log slice of `now` is over an array that is none of `arrays`, or it is that of `was` or grown from it. */
  ghost predicate SliceFollows(was: HeapTree, now: HeapTree, arrays: set<array<Log>>) {
    now.logs.Some? ==>
      || now.logs.value.arr !in arrays
      || (was.logs.Some? && was.logs.value.arr == now.logs.value.arr && was.logs.value.len <= now.logs.value.len)
  }

  /** Which slices there are after an operation. */
  ghost predicate SlicesAfter(cur: HeapTree, saved: seq<HeapTree>, arrays: set<array<Log>>, op: Op,
                              cur': HeapTree, saved': seq<HeapTree>) {
    && saved' == (if op.DoSnapshot? then saved + [cur] else saved)
    && if op.DoRevert? then op.id < |saved| && cur' == saved[op.id] else SliceFollows(cur, cur', arrays)
  }

  /** The slice of `u` is shorter than that of `t`, over the same array. */
  ghost predicate Shorter(u: HeapTree, t: HeapTree) {
    && u.logs.Some? && t.logs.Some? && u.logs.value.arr == t.logs.value.arr && u.logs.value.len < t.logs.value.len
  }

  /** No tree, current or saved, has a shorter slice over the array of `t`. */
  ghost predicate Secure(cur: HeapTree, saved: seq<HeapTree>, t: HeapTree) {
    !Shorter(cur, t) && forall j :: 0 <= j < |saved| ==> !Shorter(saved[j], t)
  }

  lemma {:induction false} StaysSecure(cur: HeapTree, saved: seq<HeapTree>, arrays: set<array<Log>>, op: Op,
                                       cur': HeapTree, saved': seq<HeapTree>, t: HeapTree)
    requires Secure(cur, saved, t) && SlicesAfter(cur, saved, arrays, op, cur', saved')
    requires t.logs.Some? ==> t.logs.value.arr in arrays
    ensures Secure(cur', saved', t)
  {}

  ghost predicate SavedHold(h: Heap, ts: seq<HeapTree>, vs: seq<Tree>) {
    |ts| == |vs| && forall j :: 0 <= j < |ts| ==> TreeHolds(h, ts[j], vs[j]) && SliceOk(h, ts[j])
  }

  /** The log lists of the live trees are as saved, and no live slice reaches past a later one or `cur`. */
  ghost predicate LogsHold(h: Heap, ts: seq<HeapTree>, vs: seq<Tree>, live: set<nat>, cur: HeapTree)
    requires SavedHold(h, ts, vs)
  {
    && (forall j :: j in live ==> j < |ts| && LogsOf(h, ts[j]) == vs[j].logs && NotPast(ts[j], cur))
    && (forall i, j :: i in live && i < j < |ts| ==> NotPast(ts[i], ts[j]))
  }

  ghost predicate Holds(h: Heap, cur: HeapTree, saved: seq<HeapTree>, live: set<nat>, view: Overlay) {
    && TreeHolds(h, cur, view.cur) && SliceOk(h, cur) && LogsOf(h, cur) == view.cur.logs
    && SavedHold(h, saved, view.saved) && LogsHold(h, saved, view.saved, live, cur)
  }

  lemma {:induction false} HoldsPut(h: Heap, cur: HeapTree, saved: seq<HeapTree>, live: set<nat>, view: Overlay,
                                    a: Address, o: StateObject, v: Obj, h': Heap, cur': HeapTree, view': Overlay)
    requires Holds(h, cur, saved, live, view) && o !in h.frozen
    requires h' == h.(frozen := h.frozen[o := v]) && cur' == cur.(objs := cur.objs[a := o])
    requires view' == view.(cur := Put(view.cur, a, v))
    ensures Holds(h', cur', saved, live, view')
  {
    assert TreeHolds(h', cur', view'.cur);
    assert SavedHold(h', saved, view.saved);
    assert LogsHold(h', saved, view.saved, live, cur') by {
      forall j | j in live ensures LogsOf(h', saved[j]) == view.saved[j].logs && NotPast(saved[j], cur') {
        assert NotPast(saved[j], cur);
      }
    }
  }

  lemma {:induction false} HoldsSnapshot(h: Heap, cur: HeapTree, saved: seq<HeapTree>, live: set<nat>, view: Overlay,
                                         saved': seq<HeapTree>, live': set<nat>, view': Overlay)
    requires Holds(h, cur, saved, live, view)
    requires saved' == saved + [cur] && live' == live + {|saved|} && view' == view.(saved := view.saved + [view.cur])
    ensures Holds(h, cur, saved', live', view')
  {
    assert SavedHold(h, saved', view'.saved);
  }

  /** What reverting to any saved tree gives: its value, with the logs its slice shows now. */
  ghost function Restored(h: Heap, t: HeapTree, v: Tree): Tree
    requires SliceOk(h, t)
  {
    v.(logs := LogsOf(h, t))
  }

  lemma {:induction false} HoldsRevert(h: Heap, cur: HeapTree, saved: seq<HeapTree>, live: set<nat>, view: Overlay,
                                       id: nat, live': set<nat>, view': Overlay)
    requires Holds(h, cur, saved, live, view) && id < |saved|
    requires live' == (set j | j in live && j <= id) && view' == view.(cur := Restored(h, saved[id], view.saved[id]))
    ensures Holds(h, saved[id], saved, live', view')
    ensures id in live ==> view' == view.(cur := view.saved[id])
  {
    assert TreeHolds(h, saved[id], view.saved[id]);
  }

  /** Appending in place overwrites a slot of `t`: both lie over one array with room, and `t` is longer. */
  ghost predicate Overwrites(h: Heap, cur: HeapTree, t: HeapTree)
    requires SliceOk(h, cur)
  {
    && cur.logs.Some? && cur.logs.value.len < |h.logs[cur.logs.value.arr]|
    && t.logs.Some? && t.logs.value.arr == cur.logs.value.arr && cur.logs.value.len < t.logs.value.len
  }

  ghost function LogsAfterEmit(h: Heap, cur: HeapTree, t: HeapTree, log: Log): seq<Log>
    requires SliceOk(h, cur) && SliceOk(h, t)
  {
    if Overwrites(h, cur, t) then LogsOf(h, t)[cur.logs.value.len := log] else LogsOf(h, t)
  }

  /** A saved log list survives an append exactly when the append does not overwrite one of its slots with
      a different log. */
  lemma {:induction false} SurvivesEmitIff(h: Heap, cur: HeapTree, t: HeapTree, log: Log)
    requires SliceOk(h, cur) && SliceOk(h, t)
    ensures LogsAfterEmit(h, cur, t, log) == LogsOf(h, t) <==>
            !(Overwrites(h, cur, t) && h.logs[cur.logs.value.arr][cur.logs.value.len] != log)
  {
    if Overwrites(h, cur, t) {
      assert LogsAfterEmit(h, cur, t, log)[cur.logs.value.len] == log;
    }
  }

  lemma {:induction false} HoldsAppend(h: Heap, cur: HeapTree, saved: seq<HeapTree>, live: set<nat>, view: Overlay,
                                       log: Log)
    requires Holds(h, cur, saved, live, view)
    requires cur.logs.Some? && cur.logs.value.len < |h.logs[cur.logs.value.arr]|
    ensures var LogSlice(arr, n) := cur.logs.value;
            var h' := h.(logs := h.logs[arr := h.logs[arr][n := log]]);
            && Holds(h', cur.(logs := Some(LogSlice(arr, n + 1))), saved, live,
                     view.(cur := view.cur.(logs := view.cur.logs + [log])))
            && forall j :: 0 <= j < |saved| ==> LogsOf(h', saved[j]) == LogsAfterEmit(h, cur, saved[j], log)
  {
    var LogSlice(arr, n) := cur.logs.value;
    var h' := h.(logs := h.logs[arr := h.logs[arr][n := log]]);
    assert SavedHold(h', saved, view.saved);
    forall j | 0 <= j < |saved| ensures LogsOf(h', saved[j]) == LogsAfterEmit(h, cur, saved[j], log) {}
    assert LogsOf(h', cur.(logs := Some(LogSlice(arr, n + 1)))) == view.cur.logs + [log];
  }

  lemma {:induction false} HoldsGrow(h: Heap, cur: HeapTree, saved: seq<HeapTree>, live: set<nat>, view: Overlay,
                                     log: Log, arr: array<Log>, contents: seq<Log>, h': Heap, cur': HeapTree,
                                     view': Overlay)
    requires Holds(h, cur, saved, live, view) && arr !in h.logs
    requires |view.cur.logs| < |contents| && contents[..|view.cur.logs| + 1] == view.cur.logs + [log]
    requires h' == h.(logs := h.logs[arr := contents])
    requires cur' == cur.(logs := Some(LogSlice(arr, |view.cur.logs| + 1)))
    requires view' == view.(cur := view.cur.(logs := view.cur.logs + [log]))
    ensures Holds(h', cur', saved, live, view')
    ensures forall j :: 0 <= j < |saved| ==> LogsOf(h', saved[j]) == LogsOf(h, saved[j])
  {
    assert SavedHold(h', saved, view.saved);
  }

  ghost function Removable(t: Tree, deleteEmpty: bool): set<Address> {
    set a | a in t.objs && (t.objs[a].suicide || (t.objs[a].Empty() && deleteEmpty))
  }

  ghost function Marked(t: Tree, done: set<Address>): Tree {
    t.(objs := map a | a in t.objs :: if a in done then t.objs[a].(deleted := true) else t.objs[a])
  }

  lemma {:induction false} MarkedFirst(t: Tree, remove: set<Address>, a: Address)
    requires a in t.objs && a in remove
    ensures Marked(Put(t, a, t.objs[a].(deleted := true)), remove - {a}) == Marked(t, remove)
  {
    assert Marked(Put(t, a, t.objs[a].(deleted := true)), remove - {a}).objs == Marked(t, remove).objs;
  }

  lemma {:induction false} MarkedNone(t: Tree)
    ensures Marked(t, {}) == t
  {
    assert Marked(t, {}).objs == t.objs;
  }

  lemma {:induction false} MarkedAll(t: Tree, deleteEmpty: bool)
    ensures Marked(t, Removable(t, deleteEmpty)).(refund := 0) == CleanDelete(t, deleteEmpty)
  {
    assert Marked(t, Removable(t, deleteEmpty)).objs == CleanDelete(t, deleteEmpty).objs;
  }

  class Txn {
    const base: Base
    var txn: HeapTree
    var snapshots: seq<HeapTree>

    /** The pure overlay this object stands for. */
    ghost var view: Overlay
    /** The snapshots a nested caller may still revert to: no revert has gone below them. */
    ghost var live: set<nat>
    ghost var heap: Heap
    ghost var objects: set<StateObject>
    ghost var accounts: set<AccountRef>
    ghost var arrays: set<array<Log>>

    ghost predicate Valid()
      reads this, objects, accounts, arrays
    {
      heap.Real(objects, accounts, arrays) && Holds(heap, txn, snapshots, live, view)
    }

    constructor (base: Base)
      ensures Valid() && this.base == base && view == Overlay(EMPTY_TREE, []) && live == {}
      ensures arrays == {}
    {
      this.base := base;
      txn, snapshots := HeapTree(map[], None, 0), [];
      view, live, heap := Overlay(EMPTY_TREE, []), {}, Heap(map[], map[]);
      objects, accounts, arrays := {}, {}, {};
    }

    method Snapshot() returns (id: nat)
      requires Valid()
      modifies this`snapshots, this`view, this`live
      ensures Valid() && id == |old(view.saved)| && live == old(live) + {id} && snapshots == old(snapshots) + [txn]
      ensures view == Step(base, old(view), DoSnapshot)
    {
      id := |snapshots|;
      var ss := snapshots + [txn];
      ghost var l, v := live + {id}, view.(saved := view.saved + [view.cur]);
      HoldsSnapshot(heap, txn, snapshots, live, view, ss, l, v);
      snapshots, live, view := ss, l, v;
    }

    /** Restores everything the tree held; the log list as well unless a revert has gone below the snapshot. */
    method RevertToSnapshot(id: nat)
      requires Valid() && id < |snapshots|
      modifies this`txn, this`view, this`live
      ensures Valid() && txn == snapshots[id]
      ensures live == set j | j in old(live) && j <= id
      ensures view.saved == old(view.saved) && view.cur == Restored(heap, snapshots[id], view.saved[id])
      ensures id in live ==> view == Step(base, old(view), DoRevert(id))
    {
      ghost var v := view.(cur := Restored(heap, snapshots[id], view.saved[id]));
      ghost var l := set j | j in live && j <= id;
      HoldsRevert(heap, txn, snapshots, live, view, id, l, v);
      txn, view, live := snapshots[id], v, l;
    }

    /** Always a copy: the caller may update it without touching any tree. */
    method GetStateObject(a: Address) returns (o: StateObject?)
      requires Valid()
      ensures o == null <==> Lookup(base, view.cur, a).None?
      ensures o != null ==> fresh(o) && fresh(o.account) && o.Value() == Lookup(base, view.cur, a).value
    {
      if a in txn.objs {
        if txn.objs[a].deleted {
          return null;
        }
        o := txn.objs[a].Copy();
      } else if a in base {
        var c := new AccountRef(base[a].nonce, base[a].balance, base[a].root, base[a].code);
        o := new StateObject(c);
      } else {
        o := null;
      }
    }

    /** The tree becomes `t`, which holds one object more. */
    method Place(t: HeapTree, ghost o: StateObject, ghost h: Heap, ghost v: Overlay)
      requires h.Real(objects + {o}, accounts + {o.account}, arrays) && Holds(h, t, snapshots, live, v)
      modifies this`txn, this`view, this`heap, this`objects, this`accounts
      ensures Valid() && txn == t && heap == h && view == v
    {
      txn, heap, view, objects, accounts := t, h, v, objects + {o}, accounts + {o.account};
    }

    method Insert(a: Address, o: StateObject, ghost v: Obj)
      requires Valid() && o.Shows(v) && o !in heap.frozen
      modifies this`txn, this`view, this`heap, this`objects, this`accounts
      ensures Valid() && txn.logs == old(txn.logs) && heap.logs == old(heap.logs)
      ensures view.cur == Put(old(view.cur), a, v) && view.saved == old(view.saved)
    {
      var t := txn.(objs := txn.objs[a := o]);
      ghost var h, put := heap.(frozen := heap.frozen[o := v]), view.(cur := Put(view.cur, a, v));
      HoldsPut(heap, txn, snapshots, live, view, a, o, v, h, t, put);
      RealPut(heap, objects, accounts, arrays, o, v);
      Place(t, o, h, put);
    }

    /** The object upsertAccount inserts: a copy of the account's object, or a new one if it is missing and
        `create` is set, after the callback has run on it. */
    method EditedCopy(a: Address, create: bool, e: Edit) returns (o: StateObject?)
      requires Valid()
      ensures o == null <==> Lookup(base, view.cur, a).None? && !create
      ensures o != null ==> fresh(o) && fresh(o.account) && o.Shows(EditObj(LookupOrNew(base, view.cur, a), e))
    {
      o := GetStateObject(a);
      if o == null && create {
        var c := new AccountRef(0, 0, map[], []);
        o := new StateObject(c);
      }
      if o != null {
        o.Run(e);
      }
    }

    method UpsertAccount(a: Address, e: Edit)
      requires Valid()
      modifies this`txn, this`view, this`heap, this`objects, this`accounts
      ensures Valid() && txn.logs == old(txn.logs) && heap.logs == old(heap.logs)
      ensures view.cur == Upsert(base, old(view.cur), a, e) && view.saved == old(view.saved)
    {
      var o := EditedCopy(a, !e.Suicide?, e);
      if o != null {
        Insert(a, o, EditObj(LookupOrNew(base, view.cur, a), e));
      }
    }

    method CreateAccount(a: Address)
      requires Valid()
      modifies this`txn, this`view, this`heap, this`objects, this`accounts
      ensures Valid() && txn.logs == old(txn.logs) && heap.logs == old(heap.logs)
      ensures view.cur == World.CreateAccount(base, old(view.cur), a) && view.saved == old(view.saved)
    {
      var prev := GetStateObject(a);
      var c := new AccountRef(0, if prev != null then prev.account.balance else 0, map[], []);
      var o := new StateObject(c);
      Insert(a, o, o.Value());
    }

    ghost predicate HasRoom()
      reads this
    {
      txn.logs.Some? && txn.logs.value.arr in heap.logs && txn.logs.value.len < |heap.logs[txn.logs.value.arr]|
    }

    /** append with spare capacity: the slot after the slice is overwritten. */
    method AppendInPlace(log: Log)
      requires Valid() && HasRoom()
      modifies this`txn, this`view, this`heap, txn.logs.value.arr
      ensures Valid()
      ensures view == old(view).(cur := old(view.cur).(logs := old(view.cur.logs) + [log]))
      ensures txn.logs == Some(LogSlice(old(txn.logs.value.arr), old(txn.logs.value.len) + 1))
      ensures |heap.logs[txn.logs.value.arr]| == old(|heap.logs[txn.logs.value.arr]|)
      ensures forall j :: 0 <= j < |snapshots| ==>
              LogsOf(heap, snapshots[j]) == LogsAfterEmit(old(heap), old(txn), snapshots[j], log)
    {
      HoldsAppend(heap, txn, snapshots, live, view, log);
      var LogSlice(arr, n) := txn.logs.value;
      arr[n] := log;
      heap := heap.(logs := heap.logs[arr := heap.logs[arr][n := log]]);
      txn := txn.(logs := Some(LogSlice(arr, n + 1)));
      view := view.(cur := view.cur.(logs := view.cur.logs + [log]));
    }

    method GrownCopy(n: nat, log: Log) returns (arr: array<Log>)
      requires Valid() && n == |view.cur.logs|
      ensures fresh(arr) && arr.Length == Capacity(n) && arr[..][..n + 1] == view.cur.logs + [log]
    {
      arr := new Log[Capacity(n)];
      if txn.logs.Some? {
        forall i | 0 <= i < n { arr[i] := txn.logs.value.arr[i]; }
      }
      arr[n] := log;
    }

    /** The log slice moves to an array of its own. */
    method MoveLogs(arr: array<Log>, n: nat, ghost h: Heap, ghost v: Overlay)
      requires h.Real(objects, accounts, arrays + {arr})
      requires Holds(h, txn.(logs := Some(LogSlice(arr, n))), snapshots, live, v)
      modifies this`txn, this`view, this`heap, this`arrays
      ensures Valid() && txn.logs == Some(LogSlice(arr, n)) && heap == h && view == v && arrays == old(arrays) + {arr}
    {
      txn, heap, view, arrays := txn.(logs := Some(LogSlice(arr, n))), h, v, arrays + {arr};
    }

    /** append without spare capacity: the slice moves to a larger array. */
    method AppendGrown(log: Log)
      requires Valid() && !HasRoom()
      modifies this`txn, this`view, this`heap, this`arrays
      ensures Valid()
      ensures old(arrays) <= arrays && forall x :: x in arrays ==> x in old(arrays) || fresh(x)
      ensures view == old(view).(cur := old(view.cur).(logs := old(view.cur.logs) + [log]))
      ensures txn.logs.Some? && |heap.logs[txn.logs.value.arr]| == Capacity(|old(view.cur.logs)|)
      ensures txn.logs.value.arr !in old(arrays)
      ensures forall j :: 0 <= j < |snapshots| ==> LogsOf(heap, snapshots[j]) == LogsOf(old(heap), snapshots[j])
    {
      var n := if txn.logs.Some? then txn.logs.value.len else 0;
      var arr := GrownCopy(n, log);
      ghost var t := txn.(logs := Some(LogSlice(arr, n + 1)));
      ghost var h := heap.(logs := heap.logs[arr := arr[..]]);
      ghost var v := view.(cur := view.cur.(logs := view.cur.logs + [log]));
      HoldsGrow(heap, txn, snapshots, live, view, log, arr, arr[..], h, t, v);
      RealGrow(heap, objects, accounts, arrays, arr);
      MoveLogs(arr, n + 1, h, v);
    }

    /** Appends to the log slice as Go does; every saved log list, dead ones too, is accounted for. */
    method EmitLog(log: Log)
      requires Valid()
      modifies this`txn, this`view, this`heap, this`arrays, if txn.logs.Some? then {txn.logs.value.arr} else {}
      ensures Valid()
      ensures old(arrays) <= arrays && forall x :: x in arrays ==> x in old(arrays) || fresh(x)
      ensures view == old(view).(cur := old(view.cur).(logs := old(view.cur.logs) + [log]))
      ensures txn.logs.Some? && (old(HasRoom()) ==> txn.logs.value.arr == old(txn.logs.value.arr))
      ensures SliceFollows(old(txn), txn, old(arrays))
      ensures |heap.logs[txn.logs.value.arr]| ==
              if old(HasRoom()) then old(|heap.logs[txn.logs.value.arr]|) else Capacity(|old(view.cur.logs)|)
      ensures forall j :: 0 <= j < |snapshots| ==>
              LogsOf(heap, snapshots[j]) == LogsAfterEmit(old(heap), old(txn), snapshots[j], log)
    {
      if txn.logs.Some? && txn.logs.value.len < txn.logs.value.arr.Length {
        AppendInPlace(log);
      } else {
        AppendGrown(log);
      }
    }

    method PeekLogs() returns (logs: seq<Log>)
      requires Valid()
      ensures logs == view.cur.logs
    {
      logs := if txn.logs.Some? then txn.logs.value.arr[..txn.logs.value.len] else [];
    }

    /** Logs: hands out the log list and removes it from the tree. */
    method TakeLogs() returns (logs: seq<Log>)
      requires Valid()
      modifies this`txn, this`view
      ensures Valid()
      ensures txn.logs.None? && logs == old(view.cur.logs) && view == old(view).(cur := old(view.cur).(logs := []))
    {
      logs := PeekLogs();
      txn := txn.(logs := None);
      view := view.(cur := view.cur.(logs := []));
    }

    method SetRefund(refund: nat)
      requires Valid()
      modifies this`txn, this`view
      ensures Valid() && txn.logs == old(txn.logs)
      ensures view == old(view).(cur := old(view.cur).(refund := refund))
    {
      txn := txn.(refund := refund);
      view := view.(cur := view.cur.(refund := refund));
    }

    method SubBalance(a: Address, amount: nat) returns (ok: bool)
      requires Valid()
      modifies this`txn, this`view, this`heap, this`objects, this`accounts
      ensures Valid() && view.saved == old(view.saved) && txn.logs == old(txn.logs) && heap.logs == old(heap.logs)
      ensures ok <==> Debit(base, old(view.cur), a, amount).Some?
      ensures view.cur == TreeStep(base, old(view.cur), DoDebit(a, amount))
    {
      if amount == 0 {
        return true;
      }
      var o := GetStateObject(a);
      if (if o == null then 0 else o.account.balance) < amount {
        return false;
      }
      UpsertAccount(a, Edit.SubBalance(amount));
      ok := true;
    }

    method GetState(a: Address, k: Key) returns (current: Word, original: Word)
      requires Valid()
      ensures current == StateOf(base, view.cur, a, k) && original == CommittedOf(base, view.cur, a, k)
    {
      var o := GetStateObject(a);
      if o == null {
        return 0, 0;
      }
      original := StorageAt(o.account.root, k);
      current := if k in o.storage then o.storage[k] else original;
    }

    method SetStorage(forks: Forks, a: Address, k: Key, value: Word) returns (status: StorageStatus)
      requires Valid()
      modifies this`txn, this`view, this`heap, this`objects, this`accounts
      ensures Valid() && view.saved == old(view.saved) && txn.logs == old(txn.logs) && heap.logs == old(heap.logs)
      ensures (view.cur, status) == World.SetStorage(forks, base, old(view.cur), a, k, value)
    {
      var current, original := GetState(a, k);
      if current == value {
        return StorageUnchanged;
      }
      UpsertAccount(a, SetState(k, value));
      status := Meter(forks, original, current, value);
    }

    /** The gas metering half of SetStorage, with SubRefund and AddRefund in its order. */
    method Meter(forks: Forks, original: Word, current: Word, value: Word) returns (status: StorageStatus)
      requires Valid() && current != value
      modifies this`txn, this`view
      ensures Valid() && txn.logs == old(txn.logs)
      ensures status == Metered(forks, original, current, value, old(view.cur.refund)).1
      ensures view == old(view).(cur :=
                old(view.cur).(refund := Metered(forks, original, current, value, old(view.cur.refund)).0))
    {
      var legacy := !forks.istanbul && (forks.petersburg || !forks.constantinople);
      var r := txn.refund;
      if legacy || original == current {
        if current == 0 {
          return StorageAdded;
        } else if value == 0 {
          SetRefund(World.AddRefund(r, 15000));
          return StorageDeleted;
        }
        return StorageModified;
      }
      if original != 0 {
        if current == 0 {
          r := World.SubRefund(r, 15000);
        } else if value == 0 {
          r := World.AddRefund(r, 15000);
        }
      }
      if original == value {
        if original == 0 {
          r := World.AddRefund(r, if forks.istanbul then 19200 else 19800);
        } else {
          r := World.AddRefund(r, if forks.istanbul then 4200 else 4800);
        }
      }
      SetRefund(r);
      status := StorageModifiedAgain;
    }

    /** The walk of CleanDeleteObjects: the accounts to mark. */
    method ToRemove(deleteEmpty: bool) returns (remove: set<Address>)
      requires Valid()
      ensures remove == Removable(view.cur, deleteEmpty)
    {
      remove := set a | a in txn.objs && txn.objs[a].Removable(deleteEmpty);
    }

    method MarkDeleted(a: Address)
      requires Valid() && a in view.cur.objs
      modifies this`txn, this`view, this`heap, this`objects, this`accounts
      ensures Valid() && view.saved == old(view.saved) && txn.logs == old(txn.logs) && heap.logs == old(heap.logs)
      ensures view.cur == Put(old(view.cur), a, old(view.cur).objs[a].(deleted := true))
    {
      var o := txn.objs[a].Copy();
      o.deleted := true;
      Insert(a, o, view.cur.objs[a].(deleted := true));
    }

    method MarkAll(remove: set<Address>)
      requires Valid() && remove <= view.cur.objs.Keys
      modifies this`txn, this`view, this`heap, this`objects, this`accounts
      ensures Valid() && view.saved == old(view.saved) && txn.logs == old(txn.logs) && heap.logs == old(heap.logs)
      ensures view.cur == Marked(old(view.cur), remove)
      decreases remove
    {
      MarkedNone(view.cur);
      if remove != {} {
        var a :| a in remove;
        MarkedFirst(view.cur, remove, a);
        MarkDeleted(a);
        MarkAll(remove - {a});
      }
    }

    method CleanDeleteObjects(deleteEmpty: bool)
      requires Valid()
      modifies this`txn, this`view, this`heap, this`objects, this`accounts
      ensures Valid() && view.saved == old(view.saved) && txn.logs == old(txn.logs) && heap.logs == old(heap.logs)
      ensures view.cur == CleanDelete(old(view.cur), deleteEmpty)
    {
      var remove := ToRemove(deleteEmpty);
      MarkedAll(view.cur, deleteEmpty);
      MarkAll(remove);
      SetRefund(0);
    }

    /** The operations that leave snapshots and log arrays alone. */
    method DoQuiet(op: Op)
      requires Valid() && !op.DoSnapshot? && !op.DoRevert? && !op.DoEmitLog?
      modifies this`txn, this`view, this`heap, this`objects, this`accounts
      ensures Valid() && heap.logs == old(heap.logs) && (txn.logs == old(txn.logs) || txn.logs.None?)
      ensures view.cur == TreeStep(base, old(view.cur), op) && view.saved == old(view.saved)
    {
      match op {
        case DoEdit(a, e) => UpsertAccount(a, e);
        case DoDebit(a, x) => var _ := SubBalance(a, x);
        case DoCreateAccount(a) => CreateAccount(a);
        case DoSetStorage(forks, a, k, v) => var _ := SetStorage(forks, a, k, v);
        case DoAddRefund(g) => SetRefund(World.AddRefund(txn.refund, g));
        case DoEmitLog(_) =>
        case DoTakeLogs => var _ := TakeLogs();
        case DoClean(d) => CleanDeleteObjects(d);
        case DoSnapshot =>
        case DoRevert(_) =>
      }
    }

    /** The operations that leave the snapshots alone; of the saved log lists only an append changes any. */
    method DoPlain(op: Op)
      requires Valid() && !op.DoSnapshot? && !op.DoRevert?
      modifies this`txn, this`view, this`heap, this`objects, this`accounts, this`arrays, arrays
      ensures Valid()
      ensures old(arrays) <= arrays && forall x :: x in arrays ==> x in old(arrays) || fresh(x)
      ensures view == Step(base, old(view), op) && SliceFollows(old(txn), txn, old(arrays))
      ensures forall j :: 0 <= j < |snapshots| ==>
              LogsOf(heap, snapshots[j]) == LogsAfter(old(heap), old(txn), snapshots[j], op)
    {
      if op.DoEmitLog? {
        EmitLog(op.log);
      } else {
        DoQuiet(op);
      }
    }

    /** One operation of a run, with a revert to any saved tree: everything is as on values but the log list after a
        revert, which is what the saved slice shows by then; for a live snapshot that is the saved list. */
    method Do(op: Op)
      requires Valid() && Enabled(view, op)
      modifies this, arrays
      ensures Valid()
      ensures old(arrays) <= arrays && forall x :: x in arrays ==> x in old(arrays) || fresh(x)
      ensures live == LiveAfter(old(live), |old(view.saved)|, op) && old(snapshots) <= snapshots
      ensures SlicesAfter(old(txn), old(snapshots), old(arrays), op, txn, snapshots)
      ensures op.DoRevert? ==>
                view == old(view).(cur := Restored(old(heap), old(snapshots)[op.id], old(view).saved[op.id]))
      ensures op.DoRevert? ==> op.id in old(live) ==> view == Step(base, old(view), op)
      ensures !op.DoRevert? ==> view == Step(base, old(view), op)
      ensures forall j :: 0 <= j < |old(snapshots)| ==>
              LogsOf(heap, snapshots[j]) == LogsAfter(old(heap), old(txn), snapshots[j], op)
    {
      if op.DoSnapshot? {
        var _ := Snapshot();
      } else if op.DoRevert? {
        RevertToSnapshot(op.id);
      } else {
        DoPlain(op);
      }
    }

    /** Every run on the heap, with all its sharing: all but the log lists is as in the run of the pure overlay, and
        the log lists are too when the run only reverts to live snapshots. */
    method Run(ops: seq<Op>)
      requires Valid() && Runs(|view.saved|, ops)
      modifies this, arrays
      ensures Valid() && old(snapshots) <= snapshots
      ensures old(arrays) <= arrays && forall x :: x in arrays ==> x in old(arrays) || fresh(x)
      ensures Ran(base, old(view), old(live), ops, view, live)
    {
      ghost var v, l := view, live;
      if ops == [] {
        RanNothing(base, v, l);
      } else {
        Do(ops[0]);
        ghost var v', l' := view, live;
        Run(ops[1..]);
        RanOne(base, v, l, ops, v', l', view, live);
      }
    }

    /** Whatever runs between a snapshot and the revert to it, every object and the refund are back; the log list is
        what the saved slice shows, which is the old one unless the run reverted below the snapshot. */
    method RevertRestores(mid: seq<Op>) returns (id: nat)
      requires Valid() && Runs(|view.saved| + 1, mid)
      modifies this, arrays
      ensures Valid() && id < |snapshots| && view.cur == Restored(heap, snapshots[id], old(view.cur))
      ensures NoneBelow(|old(view.saved)|, mid) ==> view.cur == old(view.cur)
    {
      id := Snapshot();
      ghost var now := live;
      Run(mid);
      StaysLive(now, id + 1, mid, id);
      RevertToSnapshot(id);
    }

    /** When no tree has a shorter slice over the array of a snapshot, its log list survives every run. */
    method RunKeepsLogs(ops: seq<Op>, id: nat)
      requires Valid() && Runs(|view.saved|, ops) && id < |snapshots| && Secure(txn, snapshots, snapshots[id])
      modifies this, arrays
      ensures Valid() && old(snapshots) <= snapshots
      ensures old(arrays) <= arrays && forall x :: x in arrays ==> x in old(arrays) || fresh(x)
      ensures LogsOf(heap, snapshots[id]) == old(LogsOf(heap, snapshots[id]))
      decreases |ops|
    {
      if ops != [] {
        ghost var cur, saved, was, h := txn, snapshots, arrays, heap;
        Do(ops[0]);
        StaysSecure(cur, saved, was, ops[0], txn, snapshots, snapshots[id]);
        NotOverwritten(h, cur, saved[id], ops[0]);
        RunKeepsLogs(ops[1..], id);
      }
    }

    /** Otherwise a run loses it: from the shorter slice, of the current tree or of the one saved under `shorter`, the
        next log is written into the list, and the revert shows it. */
    method RunLosesLogs(id: nat, shorter: Option<nat>, log: Log)
      requires Valid() && id < |snapshots| && (shorter.Some? ==> shorter.value < |snapshots|)
      requires var u := if shorter.Some? then snapshots[shorter.value] else txn;
               Shorter(u, snapshots[id]) && LogsOf(heap, snapshots[id])[u.logs.value.len] != log
      modifies this, arrays
      ensures Valid() && txn == old(snapshots)[id] && view.cur.logs != old(LogsOf(heap, snapshots[id]))
    {
      if shorter.Some? {
        RevertToSnapshot(shorter.value);
      }
      SurvivesEmitIff(heap, txn, snapshots[id], log);
      EmitLog(log);
      RevertToSnapshot(id);
    }
  }

  /** What an operation makes of a saved log list. */
  ghost function LogsAfter(h: Heap, cur: HeapTree, t: HeapTree, op: Op): seq<Log>
    requires SliceOk(h, cur) && SliceOk(h, t)
  {
    if op.DoEmitLog? then LogsAfterEmit(h, cur, t, op.log) else LogsOf(h, t)
  }

  lemma {:induction false} NotOverwritten(h: Heap, cur: HeapTree, t: HeapTree, op: Op)
    requires SliceOk(h, cur) && SliceOk(h, t) && !Shorter(cur, t)
    ensures LogsAfter(h, cur, t, op) == LogsOf(h, t)
  {}

  function LiveAfter(live: set<nat>, n: nat, op: Op): set<nat> {
    match op
    case DoSnapshot => live + {n}
    case DoRevert(id) => set j | j in live && j <= id
    case _ => live
  }

  function LiveRun(live: set<nat>, n: nat, ops: seq<Op>): set<nat>
    decreases |ops|
  {
    if ops == [] then live
    else LiveRun(LiveAfter(live, n, ops[0]), if ops[0].DoSnapshot? then n + 1 else n, ops[1..])
  }

  /** The run only reverts to snapshots that no revert has gone below. */
  predicate Nested(live: set<nat>, n: nat, ops: seq<Op>)
    decreases |ops|
  {
    ops != [] ==>
      && (ops[0].DoRevert? ==> ops[0].id in live)
      && Nested(LiveAfter(live, n, ops[0]), if ops[0].DoSnapshot? then n + 1 else n, ops[1..])
  }

  /** What the run `ops` on the heap has made of the overlay `v` and its live snapshots: saved trees are never changed
      or removed, all but the log lists is as on values, and the log lists are too when every revert names a live
      snapshot. */
  ghost predicate Ran(base: Base, v: Overlay, live: set<nat>, ops: seq<Op>, v': Overlay, live': set<nat>)
    requires Runs(|v.saved|, ops)
  {
    && live' == LiveRun(live, |v.saved|, ops) && v.saved <= v'.saved && SameButLogs(v', RunOps(base, v, ops))
    && (Nested(live, |v.saved|, ops) ==> v' == RunOps(base, v, ops))
  }

  lemma {:induction false} RanNothing(base: Base, v: Overlay, live: set<nat>)
    ensures Ran(base, v, live, [], v, live)
  {}

  /** One step, with everything but the log lists as on values, and a run after it. */
  lemma {:induction false} RanOne(base: Base, v: Overlay, live: set<nat>, ops: seq<Op>, v': Overlay, live': set<nat>,
                                  v'': Overlay, live'': set<nat>)
    requires ops != [] && Runs(|v.saved|, ops) && |v'.saved| == |Step(base, v, ops[0]).saved|
    requires SameButLogs(v', Step(base, v, ops[0])) && v.saved <= v'.saved
    requires (ops[0].DoRevert? ==> ops[0].id in live) ==> v' == Step(base, v, ops[0])
    requires live' == LiveAfter(live, |v.saved|, ops[0]) && Ran(base, v', live', ops[1..], v'', live'')
    ensures Ran(base, v, live, ops, v'', live'')
  {
    IgnoresLogs(base, v', Step(base, v, ops[0]), ops[1..]);
  }

  /** No revert of the run goes below snapshot `id`. */
  predicate NoneBelow(id: nat, ops: seq<Op>) {
    forall op :: op in ops && op.DoRevert? ==> id <= op.id
  }

  /** A snapshot stays live exactly as long as no revert goes below it. */
  lemma {:induction false} StaysLive(live: set<nat>, n: nat, ops: seq<Op>, id: nat)
    requires id in live && id < n
    ensures id in LiveRun(live, n, ops) <==> NoneBelow(id, ops)
    decreases |ops|
  {
    if ops != [] {
      assert ops == [ops[0]] + ops[1..];
      var live', n' := LiveAfter(live, n, ops[0]), if ops[0].DoSnapshot? then n + 1 else n;
      if id in live' {
        StaysLive(live', n', ops[1..], id);
      } else {
        StaysDead(live', n', ops[1..], id);
      }
    }
  }

  lemma {:induction false} StaysDead(live: set<nat>, n: nat, ops: seq<Op>, id: nat)
    requires id !in live && id < n
    ensures id !in LiveRun(live, n, ops)
    decreases |ops|
  {
    if ops != [] {
      StaysDead(LiveAfter(live, n, ops[0]), if ops[0].DoSnapshot? then n + 1 else n, ops[1..], id);
    }
  }

  // ---------- Log lists matter to nothing else ----------

  ghost predicate SameBut(t: Tree, t': Tree) {
    t.objs == t'.objs && t.refund == t'.refund
  }

  ghost predicate SameButLogs(s: Overlay, s': Overlay) {
    && SameBut(s.cur, s'.cur) && |s.saved| == |s'.saved|
    && forall i :: 0 <= i < |s.saved| ==> SameBut(s.saved[i], s'.saved[i])
  }

  lemma {:induction false} TreeIgnoresLogs(base: Base, t: Tree, t': Tree, op: Op)
    requires SameBut(t, t')
    ensures SameBut(TreeStep(base, t, op), TreeStep(base, t', op))
  {}

  lemma {:induction false} StepIgnoresLogs(base: Base, s: Overlay, s': Overlay, op: Op)
    requires SameButLogs(s, s') && Enabled(s, op)
    ensures SameButLogs(Step(base, s, op), Step(base, s', op))
  {
    TreeIgnoresLogs(base, s.cur, s'.cur, op);
  }

  lemma {:induction false} IgnoresLogs(base: Base, s: Overlay, s': Overlay, ops: seq<Op>)
    requires SameButLogs(s, s') && Runs(|s.saved|, ops)
    ensures SameButLogs(RunOps(base, s, ops), RunOps(base, s', ops))
    decreases |ops|
  {
    if ops != [] {
      StepIgnoresLogs(base, s, s', ops[0]);
      IgnoresLogs(base, Step(base, s, ops[0]), Step(base, s', ops[0]), ops[1..]);
    }
  }

  method TwoLogs(a: Log, b: Log) returns (t: Txn)
    ensures fresh(t) && fresh(t.arrays) && t.Valid() && !t.HasRoom() && t.snapshots == [] && t.view.cur.logs == [a, b]
  {
    t := new Txn(map[]);
    t.AppendGrown(a);
    t.AppendGrown(b);
  }

  method ThreeLogs(a: Log, b: Log, c: Log) returns (t: Txn)
    ensures fresh(t) && fresh(t.arrays) && t.Valid() && t.HasRoom() && t.snapshots == [] && t.view.cur.logs == [a, b, c]
  {
    t := TwoLogs(a, b);
    t.AppendGrown(c);
  }

  /** Two nested snapshots whose log slices share an array, the younger one longer by `d`. */
  method TwoSnapshots(a: Log, b: Log, c: Log, d: Log) returns (t: Txn)
    ensures fresh(t) && fresh(t.arrays) && t.Valid() && |t.snapshots| == 2 && t.view.saved[1].logs == [a, b, c, d]
    ensures t.snapshots[0].logs.Some? && t.snapshots[0].logs.value.arr in t.arrays
    ensures Overwrites(t.heap, t.snapshots[0], t.snapshots[1])
    ensures LogsOf(t.heap, t.snapshots[0]) == [a, b, c] && LogsOf(t.heap, t.snapshots[1]) == [a, b, c, d]
  {
    t := ThreeLogs(a, b, c);
    var _ := t.Snapshot();
    t.AppendInPlace(d);
    var _ := t.Snapshot();
  }

  /** A snapshot that a revert has gone below can lose its log list: after the revert to the older snapshot the next log
      is written into the slot that the younger one's slice still shows. The current tree is the one saved under id 1,
      with `d` as its last log, and shows `e`. */
  method DeadSnapshotLosesLog(a: Log, b: Log, c: Log, d: Log, e: Log) returns (t: Txn)
    ensures fresh(t) && t.Valid() && |t.snapshots| == 2 && t.txn == t.snapshots[1]
    ensures t.view.saved[1].logs == [a, b, c, d] && t.view.cur.logs == [a, b, c, e]
  {
    t := TwoSnapshots(a, b, c, d);
    t.RevertToSnapshot(0);
    t.AppendInPlace(e);
    t.RevertToSnapshot(1);
  }
}
