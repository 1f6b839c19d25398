/** Fork choice of blockchain/blockchain.go: total difficulties, the caches in front of storage, and the walk that
    a reorganisation makes back to the common ancestor. A hash is idealised as the name of one header. */
module ForkChoice {
  import opened Common

  type Hash = nat

  const ZERO_HASH: Hash := 0

  datatype Header = Header(hash: Hash, parentHash: Hash, number: nat, difficulty: nat)

  ghost function Lookup<T>(m: map<Hash, T>, h: Hash): Option<T> {
    if h in m then Some(m[h]) else None
  }

  /** Every cached entry is the stored one. */
  ghost predicate Agrees<T>(cache: map<Hash, T>, store: map<Hash, T>) {
    forall h :: h in cache ==> h in store && cache[h] == store[h]
  }

  // ---------- Recorded headers ----------

  /** `world` gives every hash the one header it names. */
  ghost predicate Known(world: map<Hash, Header>, h: Header) {
    h.hash in world && world[h.hash] == h
  }

  ghost function Parent(world: map<Hash, Header>, h: Hash): Hash {
    if h in world then world[h].parentHash else ZERO_HASH
  }

  ghost function Num(world: map<Hash, Header>, h: Hash): nat {
    if h in world then world[h].number else 0
  }

  ghost predicate Stored(world: map<Hash, Header>, headers: map<Hash, Header>) {
    forall h :: h in headers ==> headers[h].hash == h && Known(world, headers[h])
  }

  /** Every header with a total difficulty is the genesis or continues another such header. */
  ghost predicate Ledger(world: map<Hash, Header>, td: map<Hash, nat>, genesis: Hash) {
    && genesis in td && ZERO_HASH !in td && Parent(world, genesis) == ZERO_HASH
    && (forall h :: h in td ==> h in world && Num(world, genesis) <= Num(world, h))
    && (forall h :: h in td && h != genesis ==> Continues(world, td, h))
  }

  ghost predicate Database(world: map<Hash, Header>, headers: map<Hash, Header>, td: map<Hash, nat>, genesis: Hash) {
    Stored(world, headers) && Ledger(world, td, genesis) && td.Keys <= headers.Keys
  }

  lemma {:induction false} Rewritten(td: map<Hash, nat>, h: Hash, d: nat)
    requires h in td && td[h] == d
    ensures td[h := d] == td
  {}

  ghost predicate Continues(world: map<Hash, Header>, td: map<Hash, nat>, h: Hash)
    requires h in td
  {
    var p := Parent(world, h);
    h in world && p in td && Num(world, h) == Num(world, p) + 1 && td[h] == td[p] + world[h].difficulty
  }

  ghost predicate Best(td: map<Hash, nat>, head: Hash) {
    head in td && forall h :: h in td ==> td[h] <= td[head]
  }

  ghost predicate Leaf(world: map<Hash, Header>, td: map<Hash, nat>, head: Hash) {
    forall h :: h in td ==> Parent(world, h) != head
  }

  /** What a header must satisfy to be written: its hash names it, is not the zero hash, and its number extends
      that of its parent. */
  ghost predicate Proper(world: map<Hash, Header>, h: Header) {
    Known(world, h) && h.hash != ZERO_HASH && (h.parentHash in world ==> h.number == Num(world, h.parentHash) + 1)
  }

  /** The total difficulties with that of `h` written. */
  ghost function Weighed(td: map<Hash, nat>, h: Header): map<Hash, nat>
    requires h.parentHash in td
  {
    td[h.hash := td[h.parentHash] + h.difficulty]
  }

  /** Recording a header, again or for the first time. */
  lemma {:induction false} Recorded(world: map<Hash, Header>, td: map<Hash, nat>, genesis: Hash, h: Header)
    requires Ledger(world, td, genesis) && Proper(world, h) && h.parentHash in td
    ensures var td' := Weighed(td, h);
            Ledger(world, td', genesis) && (h.hash in td ==> td' == td)
  {
    assert h.hash != genesis;
    if h.hash in td {
      RecordedAgain(world, td, genesis, h);
    } else {
      var td' := Weighed(td, h);
      forall k | k in td' && k != genesis ensures Continues(world, td', k) {
        if k != h.hash { assert Continues(world, td, k); }
      }
    }
  }

  /** The difficulty of a recorded header is that of its parent and its own. */
  lemma {:induction false} RecordedAgain(world: map<Hash, Header>, td: map<Hash, nat>, genesis: Hash, h: Header)
    requires Ledger(world, td, genesis) && Proper(world, h) && h.parentHash in td && h.hash in td && h.hash != genesis
    ensures Weighed(td, h) == td
  {
    assert Continues(world, td, h.hash);
    assert td[h.hash := td[h.hash]] == td;
  }

  lemma {:induction false} RecordedLeaf(world: map<Hash, Header>, td: map<Hash, nat>, genesis: Hash, h: Header)
    requires Ledger(world, td, genesis) && Proper(world, h) && h.parentHash in td && h.hash !in td
    ensures Leaf(world, Weighed(td, h), h.hash)
  {
    forall k | k in td ensures Parent(world, k) != h.hash {
      if k != genesis { assert Continues(world, td, k); }
    }
  }

  lemma {:induction false} StoredToo(world: map<Hash, Header>, headers: map<Hash, Header>, td: map<Hash, nat>,
                                     genesis: Hash, h: Header, cache: map<Hash, Header>)
    requires Database(world, headers, td, genesis) && Agrees(cache, headers) && Known(world, h)
    ensures Database(world, headers[h.hash := h], td, genesis) && Agrees(cache, headers[h.hash := h])
  {}

  /** The cache of difficulties stays right, because a header recorded again has the same difficulty. */
  lemma {:induction false} WeighedToo(world: map<Hash, Header>, headers: map<Hash, Header>, td: map<Hash, nat>,
                                      genesis: Hash, h: Header, cache: map<Hash, nat>, td': map<Hash, nat>)
    requires Database(world, headers, td, genesis) && Agrees(cache, td) && h.hash in headers
    requires Proper(world, h) && h.parentHash in td && td' == td[h.hash := td[h.parentHash] + h.difficulty]
    ensures Database(world, headers, td', genesis) && Agrees(cache, td') && td' == Weighed(td, h)
  {
    assert td' == Weighed(td, h);
    Recorded(world, td, genesis, h);
    if h.hash in td {
      assert td' == td;
    }
  }

  /** A child of the head is new, and becomes the best leaf. */
  lemma {:induction false} Extended(world: map<Hash, Header>, td: map<Hash, nat>, genesis: Hash, head: Hash, h: Header)
    requires Ledger(world, td, genesis) && Best(td, head) && Leaf(world, td, head) && Proper(world, h) &&
             h.parentHash == head
    ensures var td' := Weighed(td, h); Best(td', h.hash) && Leaf(world, td', h.hash)
  {
    RecordedLeaf(world, td, genesis, h);
  }

  /** The head is a recorded header of maximal total difficulty that no recorded header extends. */
  ghost predicate IsHead(world: map<Hash, Header>, td: map<Hash, nat>, head: Header) {
    Known(world, head) && Best(td, head.hash) && Leaf(world, td, head.hash)
  }

  ghost predicate StoredHead(td: map<Hash, nat>, head: Header, hash: Hash, number: nat, difficulty: nat) {
    head.hash in td && hash == head.hash && number == head.number && difficulty == td[head.hash]
  }

  /** A header that does not beat the head leaves it the best leaf. */
  lemma {:induction false} Forked(world: map<Hash, Header>, td: map<Hash, nat>, genesis: Hash, head: Header, h: Header)
    requires Ledger(world, td, genesis) && IsHead(world, td, head) && Proper(world, h)
    requires h.parentHash in td && h.parentHash != head.hash && td[h.parentHash] + h.difficulty <= td[head.hash]
    ensures var td' := Weighed(td, h); IsHead(world, td', head) && td'[head.hash] == td[head.hash]
  {
    Recorded(world, td, genesis, h);
  }

  /** A header that beats the head is new; it is the best, and both are leaves. */
  lemma {:induction false} Outweighed(world: map<Hash, Header>, td: map<Hash, nat>, genesis: Hash, head: Header,
                                      h: Header)
    requires Ledger(world, td, genesis) && IsHead(world, td, head) && Proper(world, h)
    requires h.parentHash in td && h.parentHash != head.hash && td[h.parentHash] + h.difficulty > td[head.hash]
    ensures IsHead(world, Weighed(td, h), h) && Tips(world, Weighed(td, h), head, h) && h.hash != genesis
  {
    Recorded(world, td, genesis, h);
    RecordedLeaf(world, td, genesis, h);
  }

  lemma {:induction false} SideHeader(world: map<Hash, Header>, td: map<Hash, nat>, genesis: Hash, head: Header,
                                      h: Header)
    requires Ledger(world, td, genesis) && IsHead(world, td, head) && Proper(world, h)
    requires h.parentHash in td && h.parentHash != head.hash
    ensures var td' := Weighed(td, h);
            if Heavier(td, head, h) then IsHead(world, td', h) && Tips(world, td', head, h) && h.hash != genesis
            else IsHead(world, td', head) && td'[head.hash] == td[head.hash]
  {
    if Heavier(td, head, h) {
      Outweighed(world, td, genesis, head, h);
    } else {
      Forked(world, td, genesis, head, h);
    }
  }

  /** Two different recorded leaves. */
  ghost predicate Tips(world: map<Hash, Header>, td: map<Hash, nat>, a: Header, b: Header) {
    && Known(world, a) && Known(world, b) && a.hash in td && b.hash in td
    && a.hash != b.hash && Leaf(world, td, a.hash) && Leaf(world, td, b.hash)
  }

  // ---------- Walking back ----------

  ghost function Back(world: map<Hash, Header>, h: Hash, k: nat): Hash {
    if k == 0 then h else Parent(world, Back(world, h, k - 1))
  }

  /** `chain` lists the headers behind `from`, nearest first. */
  ghost predicate IsTrail(world: map<Hash, Header>, chain: seq<Header>, from: Header) {
    forall i :: 0 <= i < |chain| ==>
      Known(world, chain[i]) && chain[i].hash == Back(world, from.hash, i + 1) && chain[i].number + i + 1 == from.number
  }

  /** `h` is reached from `from` by `chain`. */
  ghost predicate Reached(world: map<Hash, Header>, td: map<Hash, nat>, from: Header, h: Header, chain: seq<Header>) {
    && Known(world, h) && h.hash in td && h.number + |chain| == from.number
    && h.hash == Back(world, from.hash, |chain|) && IsTrail(world, chain, from)
    && forall i :: 0 <= i < |chain| ==> chain[i].hash in td
  }

  lemma {:induction false} ReachedParent(
      world: map<Hash, Header>, td: map<Hash, nat>, from: Header, h: Header, chain: seq<Header>, parent: Header)
    requires Reached(world, td, from, h, chain)
    requires ParentOf(world, td, h, parent)
    ensures Reached(world, td, from, parent, chain + [parent])
  {}

  lemma {:induction false} OneGenesis(world: map<Hash, Header>, td: map<Hash, nat>, genesis: Hash, h: Hash)
    requires Ledger(world, td, genesis) && h in td && Num(world, h) == Num(world, genesis)
    ensures h == genesis
  {
    assert h != genesis ==> Continues(world, td, h);
  }

  /** No walk back from a recorded header passes through a leaf. */
  lemma {:induction false} LeafNotBehind(
      world: map<Hash, Header>, td: map<Hash, nat>, leaf: Header, from: Header, h: Header, chain: seq<Header>)
    requires Leaf(world, td, leaf.hash) && from.hash in td && Reached(world, td, from, h, chain) && chain != []
    ensures h.hash != leaf.hash
  {
    var last := if |chain| == 1 then from.hash else chain[|chain| - 2].hash;
    assert last == Back(world, from.hash, |chain| - 1);
  }

  lemma {:induction false} ApartAboveGenesis(world: map<Hash, Header>, td: map<Hash, nat>, genesis: Hash, a: Header,
                                             b: Header)
    requires Ledger(world, td, genesis) && Known(world, a) && Known(world, b) && a.hash in td && b.hash in td
    requires a.hash != b.hash && a.number == b.number
    ensures Num(world, genesis) < a.number
  {
    if a.number == Num(world, genesis) {
      OneGenesis(world, td, genesis, a.hash);
      OneGenesis(world, td, genesis, b.hash);
    }
  }

  ghost function Low(a: Header, b: Header): nat {
    if a.number <= b.number then a.number else b.number
  }

  /** The hash that the chain ending in `h` has at height `n`. */
  ghost function At(world: map<Hash, Header>, h: Header, n: nat): Hash
    requires n <= h.number
  {
    Back(world, h.hash, h.number - n)
  }

  /** From `n` upwards the chains of `a` and `b` have nothing in common. */
  ghost predicate ApartFrom(world: map<Hash, Header>, a: Header, b: Header, n: nat) {
    forall m :: n <= m <= Low(a, b) ==> At(world, a, m) != At(world, b, m)
  }

  /** `n` is the height of the last common header of the chains ending in `a` and `b`. */
  ghost predicate Meet(world: map<Hash, Header>, a: Header, b: Header, n: nat) {
    n <= Low(a, b) && At(world, a, n) == At(world, b, n) && ApartFrom(world, a, b, n + 1)
  }

  /** The state of the walk: `o` and `w` have been reached from the two heads and nothing above them is shared. */
  ghost predicate Walking(world: map<Hash, Header>, td: map<Hash, nat>, oldHead: Header, newHead: Header,
                          o: Header, w: Header, chain: seq<Header>, trail: seq<Header>) {
    && Reached(world, td, oldHead, o, chain) && Reached(world, td, newHead, w, trail)
    && o.number == w.number && o.number <= Low(oldHead, newHead) && ApartFrom(world, oldHead, newHead, o.number + 1)
  }

  ghost predicate ParentOf(world: map<Hash, Header>, td: map<Hash, nat>, h: Header, parent: Header) {
    && Known(world, parent) && parent.hash == h.parentHash && parent.hash in td && parent.number + 1 == h.number
  }

  lemma {:induction false} WalkingOn(world: map<Hash, Header>, td: map<Hash, nat>, oldHead: Header, newHead: Header,
                                     o: Header, w: Header, chain: seq<Header>, trail: seq<Header>, o': Header,
                                     w': Header)
    requires Walking(world, td, oldHead, newHead, o, w, chain, trail) && o.hash != w.hash
    requires ParentOf(world, td, o, o') && ParentOf(world, td, w, w')
    ensures Walking(world, td, oldHead, newHead, o', w', chain + [o'], trail + [w'])
  {
    ReachedParent(world, td, oldHead, o, chain, o');
    ReachedParent(world, td, newHead, w, trail, w');
    assert At(world, oldHead, o.number) == o.hash && At(world, newHead, w.number) == w.hash;
  }

  // ---------- The number-to-hash index ----------

  /** The index names the chain of `head` at every height from `low` up to its own. */
  ghost predicate Canonical(world: map<Hash, Header>, index: map<nat, Hash>, head: Header, low: nat) {
    forall n :: low <= n <= head.number ==> n in index && index[n] == At(world, head, n)
  }

  ghost function Indexed(index: map<nat, Hash>, chain: seq<Header>): map<nat, Hash> {
    if chain == [] then index else
      var h := chain[|chain| - 1];
      Indexed(index, chain[..|chain| - 1])[h.number := h.hash]
  }

  lemma {:induction false} IndexedAt(world: map<Hash, Header>, index: map<nat, Hash>, from: Header, chain: seq<Header>,
                                     n: nat)
    requires IsTrail(world, chain, from) && |chain| <= from.number
    ensures var index' := Indexed(index, chain);
            if from.number - |chain| <= n < from.number then n in index' && index'[n] == At(world, from, n)
            else (n in index' <==> n in index) && (n in index ==> index'[n] == index[n])
    decreases |chain|
  {
    if chain != [] {
      IndexedAt(world, index, from, chain[..|chain| - 1], n);
    }
  }

  /** A reorganisation makes the index right again exactly when the branches part just below the lower head. */
  lemma {:induction false} ReindexedIff(world: map<Hash, Header>, index: map<nat, Hash>, oldHead: Header,
                                        newHead: Header, chain: seq<Header>, n: nat, low: nat)
    requires Canonical(world, index, oldHead, low) && Meet(world, oldHead, newHead, n) &&
             low <= n < Low(oldHead, newHead)
    requires IsTrail(world, chain, newHead)
    requires |chain| == if oldHead.number < newHead.number then newHead.number - oldHead.number else 0
    ensures Canonical(world, Indexed(index, chain)[newHead.number := newHead.hash], newHead, low) <==>
            n + 1 == Low(oldHead, newHead)
  {
    var index' := Indexed(index, chain)[newHead.number := newHead.hash];
    forall m | low <= m <= newHead.number
      ensures m in index' && (index'[m] == At(world, newHead, m) <==> m <= n || Low(oldHead, newHead) <= m)
    {
      IndexedAt(world, index, newHead, chain, m);
      if m <= n { SharedBelow(world, oldHead, newHead, n, m); }
    }
    if n + 1 < Low(oldHead, newHead) {
      assert low <= n + 1 <= newHead.number && index'[n + 1] != At(world, newHead, n + 1);
    }
  }

  lemma {:induction false} SharedBelow(world: map<Hash, Header>, a: Header, b: Header, n: nat, m: nat)
    requires m <= n <= Low(a, b) && At(world, a, n) == At(world, b, n)
    ensures At(world, a, m) == At(world, b, m)
    decreases n - m
  {
    if m < n {
      SharedBelow(world, a, b, n, m + 1);
    }
  }

  /** Two leaves part above the header where their walks meet. */
  lemma {:induction false} TipsPart(world: map<Hash, Header>, td: map<Hash, nat>, oldHead: Header, newHead: Header,
                                    o: Header, chain: seq<Header>, trail: seq<Header>)
    requires Walking(world, td, oldHead, newHead, o, o, chain, trail)
    requires Tips(world, td, oldHead, newHead)
    ensures Meet(world, oldHead, newHead, o.number) && o.number < Low(oldHead, newHead)
  {
    if trail != [] { LeafNotBehind(world, td, oldHead, newHead, o, trail); }
    if chain != [] { LeafNotBehind(world, td, newHead, oldHead, o, chain); }
  }

  lemma {:induction false} BackShift(world: map<Hash, Header>, h: Hash, k: nat)
    ensures Back(world, h, k + 1) == Back(world, Parent(world, h), k)
    decreases k
  {
    if k > 0 { BackShift(world, h, k - 1); }
  }

  lemma {:induction false} IndexExtended(world: map<Hash, Header>, index: map<nat, Hash>, head: Header, h: Header,
                                         low: nat)
    requires Known(world, h) && h.parentHash == head.hash && h.number == head.number + 1
    ensures Canonical(world, index, head, low) ==> Canonical(world, index[h.number := h.hash], h, low)
  {
    forall n: nat | n <= head.number ensures At(world, h, n) == At(world, head, n) {
      BackShift(world, h.hash, head.number - n);
    }
  }

  lemma {:induction false} IndexSwitched(world: map<Hash, Header>, index: map<nat, Hash>, oldHead: Header,
                                         newHead: Header, newChain: seq<Header>, n: nat, low: nat)
    requires Meet(world, oldHead, newHead, n) && low <= n < Low(oldHead, newHead) &&
             Adopted(world, newChain, oldHead, newHead)
    ensures Canonical(world, index, oldHead, low) ==>
              (Canonical(world, Indexed(index, newChain[1..])[newHead.number := newHead.hash], newHead, low) <==>
               n + 1 == Low(oldHead, newHead))
  {
    if Canonical(world, index, oldHead, low) {
      ReindexedIff(world, index, oldHead, newHead, newChain[1..], n, low);
    }
  }

  /** Whether the fork choice moves to `h`. */
  ghost predicate Wins(td: map<Hash, nat>, head: Header, h: Header)
    requires head.hash in td && h.parentHash in td
  {
    h.parentHash == head.hash || Heavier(td, head, h)
  }

  ghost predicate Heavier(td: map<Hash, nat>, head: Header, h: Header)
    requires head.hash in td && h.parentHash in td
  {
    td[h.parentHash] + h.difficulty > td[head.hash]
  }

  /** `h` takes the place of its parent among the fork heads. */
  ghost predicate ForkAdded(before: seq<Hash>, after: seq<Hash>, h: Header) {
    forall f :: f in after <==> f == h.hash || (f in before && f != h.parentHash)
  }

  /** The branch of `head` above height `n`: its parents, nearest first, and then `head` itself. */
  ghost predicate Abandoned(world: map<Hash, Header>, chain: seq<Header>, head: Header, n: nat) {
    |chain| == head.number - n && |chain| > 0 && chain[|chain| - 1] == head &&
      IsTrail(world, chain[..|chain| - 1], head)
  }

  /** The new head followed by its parents down to the height of the old head. */
  ghost predicate Adopted(world: map<Hash, Header>, chain: seq<Header>, oldHead: Header, newHead: Header) {
    && |chain| > 0 && chain[0] == newHead && IsTrail(world, chain[1..], newHead)
    && |chain[1..]| == if oldHead.number < newHead.number then newHead.number - oldHead.number else 0
  }

  lemma {:induction false} Branches(world: map<Hash, Header>, olds: seq<Header>, news: seq<Header>,
                                    oldHead: Header, newHead: Header, n: nat, oldChain: seq<Header>,
                                    newChain: seq<Header>)
    requires IsTrail(world, olds, oldHead) && |olds| == oldHead.number - n && n < oldHead.number
    requires IsTrail(world, news, newHead)
    requires |news| == if oldHead.number < newHead.number then newHead.number - oldHead.number else 0
    requires oldChain == olds[..|olds| - 1] + [oldHead] && newChain == [newHead] + news
    ensures Abandoned(world, oldChain, oldHead, n) && Adopted(world, newChain, oldHead, newHead) &&
            newChain[1..] == news
  {
    assert newChain[1..] == news && oldChain[..|oldChain| - 1] == olds[..|olds| - 1];
  }

  class Event {
    var oldChain: seq<Header>
    var newChain: seq<Header>
    var difficulty: nat
    var kind: EventType

    constructor ()
      ensures oldChain == [] && newChain == []
    {
      oldChain, newChain, difficulty, kind := [], [], 0, EventHead;
    }

    method AddOldHeaders(chain: seq<Header>)
      modifies this`oldChain
      ensures oldChain == old(oldChain) + chain
    {
      for i := 0 to |chain|
        invariant oldChain == old(oldChain) + chain[..i]
      {
        oldChain := oldChain + [chain[i]];
      }
    }

    method AddNewHeaders(chain: seq<Header>)
      modifies this`newChain
      ensures newChain == old(newChain) + chain
    {
      for i := 0 to |chain|
        invariant newChain == old(newChain) + chain[..i]
      {
        newChain := newChain + [chain[i]];
      }
    }

    /** The two branches of a reorganisation; the last of the old headers is the common ancestor. */
    method AddBranches(olds: seq<Header>, oldHead: Header, news: seq<Header>, newHead: Header)
      requires olds != [] && oldChain == [] && newChain == []
      modifies this`oldChain, this`newChain
      ensures oldChain == olds[..|olds| - 1] + [oldHead] && newChain == [newHead] + news
    {
      AddOldHeaders(olds[..|olds| - 1]);
      AddOldHeaders([oldHead]);
      AddNewHeaders([newHead]);
      AddNewHeaders(news);
    }
  }

  datatype EventType = EventHead | EventReorg | EventFork

  class Blockchain {
    ghost const world: map<Hash, Header>
    var genesis: Hash
    var headers: map<Hash, Header>
    var td: map<Hash, nat>
    var canonical: map<nat, Hash>
    var headHash: Hash
    var headNumber: nat
    var forks: seq<Hash>
    var current: Header
    var currentDifficulty: nat
    var headersCache: map<Hash, Header>
    var difficultyCache: map<Hash, nat>

    ghost predicate Sound()
      reads this`headers, this`td, this`genesis, this`headersCache, this`difficultyCache
    {
      Database(world, headers, td, genesis) && Agrees(headersCache, headers) && Agrees(difficultyCache, td)
    }

    /** readHeader: through the cache, whatever the cache has evicted, the answer is that of storage. */
    method ReadHeader(hash: Hash) returns (h: Option<Header>)
      requires Sound()
      modifies this`headersCache
      ensures Sound() && h == Lookup(headers, hash)
    {
      if hash in headersCache {
        return Some(headersCache[hash]);
      }
      if hash !in headers {
        return None;
      }
      var evicted: set<Hash> := *;
      headersCache := headersCache[hash := headers[hash]] - evicted;
      h := Some(headers[hash]);
    }

    method ReadTotalDifficulty(hash: Hash) returns (d: Option<nat>)
      requires Sound()
      modifies this`difficultyCache
      ensures Sound() && d == Lookup(td, hash)
    {
      if hash in difficultyCache {
        return Some(difficultyCache[hash]);
      }
      if hash !in td {
        return None;
      }
      var evicted: set<Hash> := *;
      difficultyCache := difficultyCache[hash := td[hash]] - evicted;
      d := Some(td[hash]);
    }

    /** The two loops that bring one side of a reorganisation down to the height of the other. */
    method Descend(from: Header, number: nat) returns (h: Header, chain: seq<Header>)
      requires Sound() && from.hash in td && Known(world, from) && Num(world, genesis) <= number
      modifies this`headersCache
      ensures Sound() && Reached(world, td, from, h, chain)
      ensures h.number == if number < from.number then number else from.number
    {
      h, chain := from, [];
      while h.number > number
        invariant Sound() && Reached(world, td, from, h, chain) && (number <= h.number || h == from)
      {
        var parent := ReadParent(h);
        ReachedParent(world, td, from, h, chain, parent);
        h, chain := parent, chain + [parent];
      }
    }

    /** The loop that steps both sides back until they meet; it ends at the last common header. */
    method StepBack(oldHead: Header, newHead: Header, old0: Header, new0: Header, chain0: seq<Header>,
                    ghost trail0: seq<Header>)
      returns (chain: seq<Header>, ghost trail: seq<Header>, ghost o: Header)
      requires Sound() && Walking(world, td, oldHead, newHead, old0, new0, chain0, trail0)
      modifies this`headersCache
      ensures Sound() && Walking(world, td, oldHead, newHead, o, o, chain, trail)
    {
      var x, y := old0, new0;
      chain, trail := chain0, trail0;
      while x.hash != y.hash
        invariant Sound() && Walking(world, td, oldHead, newHead, x, y, chain, trail)
        decreases x.number
      {
        ApartAboveGenesis(world, td, genesis, x, y);
        var x' := ReadParent(x);
        var y' := ReadParent(y);
        WalkingOn(world, td, oldHead, newHead, x, y, chain, trail, x', y');
        x, y, chain, trail := x', y', chain + [x'], trail + [y'];
      }
      o := x;
    }

    /** readHeader of a recorded header's parent succeeds above the genesis. */
    method ReadParent(h: Header) returns (parent: Header)
      requires Sound() && h.hash in td && Known(world, h) && Num(world, genesis) < h.number
      modifies this`headersCache
      ensures Sound() && ParentOf(world, td, h, parent)
    {
      assert Continues(world, td, h.hash);
      var found := ReadHeader(h.parentHash);
      parent := found.value;
    }

    ghost predicate Valid()
      reads this`headers, this`td, this`genesis, this`headersCache, this`difficultyCache
      reads this`current, this`headHash, this`headNumber, this`currentDifficulty
    {
      Sound() && IsHead(world, td, current) && StoredHead(td, current, headHash, headNumber, currentDifficulty)
    }

    /** Both sides of a reorganisation walk back to the last common header, which the old side never starts from. */
    method Walk(oldHead: Header, newHead: Header) returns (oldChain: seq<Header>, newChain: seq<Header>, ghost n: nat)
      requires Sound() && Tips(world, td, oldHead, newHead)
      modifies this`headersCache
      ensures Sound() && Meet(world, oldHead, newHead, n) && Num(world, genesis) <= n < Low(oldHead, newHead)
      ensures IsTrail(world, oldChain, oldHead) && |oldChain| == oldHead.number - n
      ensures IsTrail(world, newChain, newHead)
      ensures |newChain| == if oldHead.number < newHead.number then newHead.number - oldHead.number else 0
    {
      var o, c := Descend(oldHead, newHead.number);
      var w, d := Descend(newHead, o.number);
      newChain := d;
      ghost var trail, top;
      oldChain, trail, top := StepBack(oldHead, newHead, o, w, c, d);
      n := top.number;
      TipsPart(world, td, oldHead, newHead, top, oldChain, trail);
    }

    /** writeFork: the header takes the place of its parent among the fork heads. */
    method WriteFork(h: Header)
      modifies this`forks
      ensures ForkAdded(old(forks), forks, h)
    {
      var newForks := [];
      for i := 0 to |forks|
        invariant forall f :: f in newForks <==> f in forks[..i] && f != h.parentHash
      {
        if forks[i] != h.parentHash {
          newForks := newForks + [forks[i]];
        }
      }
      forks := newForks + [h.hash];
    }

    /** The loop that rewrites canonical hashes after a reorganisation. */
    method WriteCanonicalHashes(chain: seq<Header>)
      modifies this`canonical
      ensures canonical == Indexed(old(canonical), chain)
    {
      for i := 0 to |chain|
        invariant canonical == Indexed(old(canonical), chain[..i])
      {
        assert chain[..i + 1][..i] == chain[..i];
        canonical := canonical[chain[i].number := chain[i].hash];
      }
      assert chain[..|chain|] == chain;
    }

    method ParentDifficulty(h: Header) returns (parentTD: nat)
      requires Sound() && h.hash in td && Known(world, h) && h.hash != genesis
      modifies this`difficultyCache
      ensures Sound() && parentTD + h.difficulty == td[h.hash]
    {
      assert Continues(world, td, h.hash);
      parentTD := 0;
      if h.parentHash != ZERO_HASH {
        var d := ReadTotalDifficulty(h.parentHash);
        parentTD := d.value;
      }
    }

    /** advanceHead of a header whose total difficulty is recorded: writing it again repeats the recorded value. */
    method AdvanceHead(h: Header) returns (newTD: nat)
      requires Sound() && h.hash in td && Known(world, h) && h.hash != genesis
      modifies this`headHash, this`headNumber, this`canonical, this`td, this`current, this`currentDifficulty,
               this`difficultyCache
      ensures Sound() && td == old(td) && newTD == td[h.hash]
      ensures headHash == h.hash && headNumber == h.number && current == h && currentDifficulty == newTD
      ensures canonical == old(canonical)[h.number := h.hash]
    {
      var parentTD := ParentDifficulty(h);
      newTD := parentTD + h.difficulty;
      Rewritten(td, h.hash, newTD);
      td := td[h.hash := newTD];
      SetHead(h, newTD);
    }

    method SetHead(h: Header, d: nat)
      modifies this`headHash, this`headNumber, this`canonical, this`current, this`currentDifficulty
      ensures headHash == h.hash && headNumber == h.number && current == h && currentDifficulty == d
      ensures canonical == old(canonical)[h.number := h.hash]
    {
      headHash, headNumber, canonical := h.hash, h.number, canonical[h.number := h.hash];
      current, currentDifficulty := h, d;
    }

    /** What a reorganisation writes: the old head becomes a fork, the index and the head move over. */
    method Switch(oldHead: Header, newHead: Header, newChain: seq<Header>) returns (newTD: nat)
      requires Sound() && newHead.hash in td && Known(world, newHead) && newHead.hash != genesis
      modifies this`forks, this`headHash, this`headNumber, this`canonical, this`td, this`current,
               this`currentDifficulty, this`difficultyCache
      ensures Sound() && td == old(td) && newTD == td[newHead.hash]
      ensures headHash == newHead.hash && headNumber == newHead.number && current == newHead &&
              currentDifficulty == newTD
      ensures canonical == Indexed(old(canonical), newChain)[newHead.number := newHead.hash]
      ensures ForkAdded(old(forks), forks, oldHead)
    {
      WriteFork(oldHead);
      WriteCanonicalHashes(newChain);
      newTD := AdvanceHead(newHead);
    }

    /** handleReorg: the event's old chain is the abandoned branch, parents first and the old head last. */
    method HandleReorg(evnt: Event, oldHead: Header, newHead: Header) returns (ghost n: nat)
      requires Sound() && Tips(world, td, oldHead, newHead) && newHead.hash != genesis && evnt.oldChain == [] &&
               evnt.newChain == []
      modifies evnt, this`forks, this`headHash, this`headNumber, this`canonical, this`td, this`current,
               this`currentDifficulty, this`difficultyCache, this`headersCache
      ensures Sound() && td == old(td)
      ensures headHash == newHead.hash && headNumber == newHead.number && current == newHead
      ensures currentDifficulty == evnt.difficulty == td[newHead.hash] && evnt.kind == EventReorg
      ensures Meet(world, oldHead, newHead, n) && Abandoned(world, evnt.oldChain, oldHead, n)
      ensures Num(world, genesis) <= n < Low(oldHead, newHead)
      ensures Adopted(world, evnt.newChain, oldHead, newHead)
      ensures canonical == Indexed(old(canonical), evnt.newChain[1..])[newHead.number := newHead.hash]
      ensures ForkAdded(old(forks), forks, oldHead)
    {
      var oldChain, newChain;
      oldChain, newChain, n := Walk(oldHead, newHead);
      evnt.AddBranches(oldChain, oldHead, newChain, newHead);
      Branches(world, oldChain, newChain, oldHead, newHead, n, evnt.oldChain, evnt.newChain);
      var diff := Switch(oldHead, newHead, newChain);
      evnt.kind, evnt.difficulty := EventReorg, diff;
    }

    /** writeGenesisImpl into empty storage. */
    constructor (ghost names: map<Hash, Header>, g: Header)
      requires Known(names, g) && g.hash != ZERO_HASH && g.parentHash == ZERO_HASH
      ensures Valid() && world == names && genesis == g.hash && current == g && td == map[g.hash := g.difficulty]
      ensures Canonical(world, canonical, current, g.number)
    {
      world, genesis := names, g.hash;
      headers, td, canonical := map[g.hash := g], map[g.hash := g.difficulty], map[g.number := g.hash];
      headHash, headNumber, current, currentDifficulty := g.hash, g.number, g, g.difficulty;
      forks, headersCache, difficultyCache := [], map[], map[];
    }

    method WriteHeader(h: Header)
      requires Sound() && Known(world, h)
      modifies this`headers
      ensures Sound() && headers == old(headers)[h.hash := h]
    {
      StoredToo(world, headers, td, genesis, h, headersCache);
      headers := headers[h.hash := h];
    }

    /** Writing the total difficulty of a stored header. */
    method WriteTotalDifficulty(h: Header, d: nat)
      requires Sound() && h.hash in headers && Proper(world, h) && h.parentHash in td &&
               d == td[h.parentHash] + h.difficulty
      modifies this`td
      ensures Sound() && td == Weighed(old(td), h)
    {
      var td' := td[h.hash := d];
      WeighedToo(world, headers, td, genesis, h, difficultyCache, td');
      td := td';
    }

    method CacheHeader(h: Header)
      requires Sound() && h.hash in headers && headers[h.hash] == h
      modifies this`headersCache
      ensures Sound()
    {
      var evicted: set<Hash> := *;
      headersCache := headersCache[h.hash := h] - evicted;
    }

    /** writeCanonicalHeader: the header extends the head and becomes the head. */
    method WriteCanonicalHeader(evnt: Event, h: Header)
      requires Valid() && Proper(world, h) && h.parentHash == current.hash && evnt.newChain == []
      modifies evnt, this`headers, this`td, this`headHash, this`headNumber, this`canonical, this`current,
               this`currentDifficulty, this`difficultyCache
      ensures Valid() && td == Weighed(old(td), h) && current == h && headers == old(headers)[h.hash := h]
      ensures canonical == old(canonical)[h.number := h.hash]
      ensures evnt.kind == EventHead && evnt.newChain == [h] && evnt.difficulty == td[h.hash] &&
              evnt.oldChain == old(evnt.oldChain)
    {
      var newTD := ExtendHead(h);
      evnt.kind, evnt.newChain, evnt.difficulty := EventHead, [h], newTD;
    }

    method ExtendHead(h: Header) returns (newTD: nat)
      requires Valid() && Proper(world, h) && h.parentHash == current.hash
      modifies this`headers, this`td, this`headHash, this`headNumber, this`canonical, this`current,
               this`currentDifficulty, this`difficultyCache
      ensures Valid() && td == Weighed(old(td), h) && newTD == td[h.hash] && current == h &&
              headers == old(headers)[h.hash := h]
      ensures canonical == old(canonical)[h.number := h.hash]
    {
      Extended(world, td, genesis, current.hash, h);
      var parentTD := ReadTotalDifficulty(h.parentHash);
      newTD := parentTD.value + h.difficulty;
      WriteHeader(h);
      WriteTotalDifficulty(h, newTD);
      SetHead(h, newTD);
    }

    /** The writes of writeHeaderImpl off the head's fast path; without a recorded parent only the header is stored. */
    method RecordSide(h: Header) returns (found: bool, currentTD: nat, incomingTD: nat)
      requires Sound() && current.hash in td && Proper(world, h)
      modifies this`headers, this`td, this`headersCache, this`difficultyCache
      ensures Sound() && found == (h.parentHash in old(td)) && headers == old(headers)[h.hash := h]
      ensures if found then td == Weighed(old(td), h) && (incomingTD > currentTD <==> Heavier(old(td), current, h))
              else td == old(td)
    {
      WriteHeader(h);
      var own := ReadTotalDifficulty(current.hash);
      currentTD, incomingTD := own.value, 0;
      var parent := ReadTotalDifficulty(h.parentHash);
      found := parent.Some?;
      if found {
        incomingTD := Weigh(h, parent.value);
      }
    }

    method Weigh(h: Header, parentTD: nat) returns (incomingTD: nat)
      requires Sound() && Lookup(headers, h.hash) == Some(h) && Proper(world, h) &&
               Lookup(td, h.parentHash) == Some(parentTD)
      modifies this`td, this`headersCache
      ensures Sound() && td == Weighed(old(td), h) && incomingTD == td[h.hash]
    {
      incomingTD := parentTD + h.difficulty;
      WriteTotalDifficulty(h, incomingTD);
      CacheHeader(h);
    }

    /** A header that is not heavier than the head is announced as a fork. */
    method Fork(evnt: Event, h: Header)
      requires Valid() && evnt.oldChain == [] && evnt.newChain == []
      modifies evnt, this`forks
      ensures Valid() && evnt.kind == EventFork && evnt.oldChain == [h] && evnt.newChain == [] &&
              ForkAdded(old(forks), forks, h)
    {
      evnt.oldChain, evnt.kind := evnt.oldChain + [h], EventFork;
      WriteFork(h);
    }

    method Reorg(evnt: Event, h: Header) returns (ghost n: nat)
      requires Sound() && Tips(world, td, current, h) && h.hash != genesis && IsHead(world, td, h)
      requires evnt.oldChain == [] && evnt.newChain == []
      modifies evnt, this`forks, this`headHash, this`headNumber, this`canonical, this`td, this`current,
               this`currentDifficulty, this`difficultyCache, this`headersCache
      ensures Valid() && td == old(td) && current == h && Reorganised(evnt, old(current), n, old(canonical))
      ensures ForkAdded(old(forks), forks, old(current))
    {
      n := HandleReorg(evnt, current, h);
    }

    /** A recorded side header becomes the head or a fork. */
    method Choose(evnt: Event, h: Header, heavier: bool) returns (ghost n: nat)
      requires Sound() && evnt.oldChain == [] && evnt.newChain == []
      requires if heavier then Tips(world, td, current, h) && h.hash != genesis && IsHead(world, td, h) else Valid()
      modifies evnt, this`forks, this`headHash, this`headNumber, this`canonical, this`td, this`current,
               this`currentDifficulty, this`difficultyCache, this`headersCache
      ensures Valid() && td == old(td) && current == if heavier then h else old(current)
      ensures heavier ==>
                ForkAdded(old(forks), forks, old(current)) && Reorganised(evnt, old(current), n, old(canonical))
      ensures !heavier ==> ForkAdded(old(forks), forks, h)
      ensures !heavier ==>
                evnt.kind == EventFork && evnt.oldChain == [h] && evnt.newChain == [] && canonical == old(canonical)
    {
      n := 0;
      if heavier {
        n := Reorg(evnt, h);
      } else {
        Fork(evnt, h);
      }
    }

    /** Records a side header and says whether it is heavier than the head. */
    method Compare(h: Header) returns (ok: bool, heavier: bool)
      requires Valid() && Proper(world, h) && h.parentHash != current.hash
      modifies this`headers, this`td, this`headersCache, this`difficultyCache
      ensures Sound() && ok == (h.parentHash in old(td)) && headers == old(headers)[h.hash := h]
      ensures !ok ==> Valid() && td == old(td)
      ensures ok ==> td == Weighed(old(td), h) && heavier == Heavier(old(td), current, h)
      ensures ok ==> if heavier then Tips(world, td, current, h) && h.hash != genesis && IsHead(world, td, h)
              else Valid()
    {
      ghost var was := td;
      var currentTD, incomingTD;
      ok, currentTD, incomingTD := RecordSide(h);
      heavier := incomingTD > currentTD;
      if ok {
        SideHeader(world, was, genesis, current, h);
      }
    }

    /** writeHeaderImpl for a header that does not extend the head: a fork, or a reorganisation if it is heavier. */
    method WriteSide(evnt: Event, h: Header) returns (ok: bool, ghost n: nat)
      requires Valid() && Proper(world, h) && h.parentHash != current.hash && evnt.oldChain == [] && evnt.newChain == []
      modifies evnt, this`headers, this`td, this`headHash, this`headNumber, this`canonical, this`forks, this`current,
               this`currentDifficulty, this`headersCache, this`difficultyCache
      ensures Valid() && ok == (h.parentHash in old(td)) && headers == old(headers)[h.hash := h]
      ensures !ok ==> td == old(td) && current == old(current) && canonical == old(canonical) && forks == old(forks)
      ensures ok ==> td == Weighed(old(td), h)
      ensures ok && Wins(old(td), old(current), h) ==>
                current == h && ForkAdded(old(forks), forks, old(current)) &&
                  Reorganised(evnt, old(current), n, old(canonical))
      ensures ok && !Wins(old(td), old(current), h) ==>
                && current == old(current) && ForkAdded(old(forks), forks, h) && canonical == old(canonical)
                && evnt.kind == EventFork && evnt.oldChain == [h] && evnt.newChain == []
    {
      n := 0;
      var heavier;
      ok, heavier := Compare(h);
      if ok {
        n := Choose(evnt, h, heavier);
      }
    }

    /** What a reorganisation announces and what it does to the index. */
    ghost predicate Reorganised(evnt: Event, oldHead: Header, n: nat, index: map<nat, Hash>)
      reads this, evnt
    {
      && evnt.kind == EventReorg && Lookup(td, current.hash) == Some(evnt.difficulty)
      && Num(world, genesis) <= n < Low(oldHead, current) && Meet(world, oldHead, current, n)
      && Abandoned(world, evnt.oldChain, oldHead, n) && Adopted(world, evnt.newChain, oldHead, current)
      && canonical == Indexed(index, evnt.newChain[1..])[current.number := current.hash]
    }

    /** writeHeaderImpl. The header is refused exactly when its parent has no total difficulty; it becomes the head
        exactly when it extends the head or is heavier; and the index stays right except after a deep reorganisation. */
    method WriteHeaderImpl(evnt: Event, h: Header) returns (ok: bool, ghost n: nat)
      requires Valid() && Proper(world, h) && evnt.oldChain == [] && evnt.newChain == []
      modifies evnt, this`headers, this`td, this`headHash, this`headNumber, this`canonical, this`forks, this`current,
               this`currentDifficulty, this`headersCache, this`difficultyCache
      ensures Valid() && ok == (h.parentHash in old(td)) && headers == old(headers)[h.hash := h]
      ensures td == if ok then Weighed(old(td), h) else old(td)
      ensures current == if ok && Wins(old(td), old(current), h) then h else old(current)
      ensures ok && h.parentHash == old(current).hash ==>
                evnt.kind == EventHead && evnt.newChain == [h] && evnt.oldChain == [] && evnt.difficulty == td[h.hash]
      ensures if !ok || h.parentHash == old(current).hash then forks == old(forks)
              else ForkAdded(old(forks), forks, if current == old(current) then h else old(current))
      ensures ok && h.parentHash != old(current).hash && current == old(current) ==>
                evnt.kind == EventFork && evnt.oldChain == [h] && evnt.newChain == []
      ensures ok && h.parentHash != old(current).hash && current != old(current) ==>
                Reorganised(evnt, old(current), n, old(canonical))
      ensures Canonical(world, old(canonical), old(current), Num(world, genesis)) ==>
                (Canonical(world, canonical, current, Num(world, genesis)) <==>
                 (ok && h.parentHash != old(current).hash && current != old(current) ==> n + 1 == Low(old(current), h)))
    {
      n := 0;
      ghost var head, index := current, canonical;
      if h.parentHash == current.hash {
        WriteCanonicalHeader(evnt, h);
        ok := true;
        IndexExtended(world, index, head, h, Num(world, genesis));
      } else {
        ok, n := WriteSide(evnt, h);
        if ok && current != head {
          IndexSwitched(world, index, head, current, evnt.newChain, n, Num(world, genesis));
        }
      }
    }

    /** Over every run of writes the head is a recorded header of maximal total difficulty, recorded difficulties
        never change, and the head's own never falls. */
    method WriteAll(hs: seq<Header>)
      requires Valid() && forall i :: 0 <= i < |hs| ==> Proper(world, hs[i])
      modifies this`headers, this`td, this`headHash, this`headNumber, this`canonical, this`forks, this`current,
               this`currentDifficulty, this`headersCache, this`difficultyCache
      ensures Valid() && Agrees(old(td), td) && Best(td, current.hash) && old(td)[old(current).hash] <= td[current.hash]
    {
      for i := 0 to |hs|
        invariant Valid() && Agrees(old(td), td)
      {
        WriteOne(hs[i]);
      }
    }

    method WriteOne(h: Header)
      requires Valid() && Proper(world, h)
      modifies this`headers, this`td, this`headHash, this`headNumber, this`canonical, this`forks, this`current,
               this`currentDifficulty, this`headersCache, this`difficultyCache
      ensures Valid() && Agrees(old(td), td)
    {
      var evnt := new Event();
      ghost var was := td;
      var ok, _ := WriteHeaderImpl(evnt, h);
      if ok {
        Recorded(world, was, genesis, h);
      }
    }
  }

  /** Five headers: a chain 1-2-3, and a branch 1-4-5 whose last header is heavier. */
  ghost function TwoBranches(): map<Hash, Header> {
    map[1 := Header(1, 0, 0, 1), 2 := Header(2, 1, 1, 1), 3 := Header(3, 2, 2, 1), 4 := Header(4, 1, 1, 1),
        5 := Header(5, 4, 2, 2)]
  }

  method FirstHeaders() returns (b: Blockchain)
    ensures fresh(b) && b.Valid() && b.world == TwoBranches() && b.genesis == 1 && b.current == Header(2, 1, 1, 1)
    ensures b.td == map[1 := 1, 2 := 2] && Canonical(b.world, b.canonical, b.current, 0)
  {
    b := new Blockchain(TwoBranches(), Header(1, 0, 0, 1));
    var e := new Event();
    var _, _ := b.WriteHeaderImpl(e, Header(2, 1, 1, 1));
  }

  method FirstBranch() returns (b: Blockchain)
    ensures fresh(b) && b.Valid() && b.world == TwoBranches() && b.genesis == 1 && b.current == Header(3, 2, 2, 1)
    ensures b.td == map[1 := 1, 2 := 2, 3 := 3, 4 := 2] && Canonical(b.world, b.canonical, b.current, 0)
  {
    b := FirstHeaders();
    var e := new Event();
    var _, _ := b.WriteHeaderImpl(e, Header(3, 2, 2, 1));
    e := new Event();
    var _, _ := b.WriteHeaderImpl(e, Header(4, 1, 1, 1));
  }

  /** After a reorganisation two deep the index still names the abandoned header at height 1. */
  method DeepReorg() returns (b: Blockchain)
    ensures fresh(b) && b.Valid() && b.current.hash == 5 && !Canonical(b.world, b.canonical, b.current, 0)
  {
    ghost var world := TwoBranches();
    b := FirstBranch();
    var e := new Event();
    var _, n := b.WriteHeaderImpl(e, Header(5, 4, 2, 2));
    assert At(world, Header(3, 2, 2, 1), 1) == Back(world, 3, 1) == Parent(world, 3) == 2;
    assert At(world, Header(5, 4, 2, 2), 1) == Back(world, 5, 1) == Parent(world, 5) == 4;
  }
}
