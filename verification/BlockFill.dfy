/** Filling a block from the pool: Prepare, Peek, Pop, Demote and Drop driven by arbitrary outcomes of Write.
    The loop sells each account's promoted run from its lowest nonce, always the head whose price has the highest
    low 64 bits. */
module BlockFill {
  import opened Common
  import opened TxQueue
  import opened PoolAccount

  const MAX_ACCOUNT_DEMOTIONS: nat := 10

  // ---------- The sale, independently of the heaps ----------

  /** What Write answers: success, no gas left in the block, a recoverable error, any other error. */
  datatype Verdict = Written | GasLimitReached | Recoverable | Unrecoverable

  /** Each account's promoted transactions in nonce order, its demotions, and the accounts the loop has excluded. */
  datatype Market = Market(runs: map<nat, seq<Tx>>, demotions: map<nat, nat>, excluded: set<nat>)

  predicate IsHead(m: Market, t: Tx) {
    t.from in m.runs && t.from !in m.excluded && m.runs[t.from] != [] && t == m.runs[t.from][0]
  }

  /** No head has a higher price, as far as the low 64 bits show, which are all the price heap compares. */
  ghost predicate BestHead(m: Market, t: Tx) {
    IsHead(m, t) && forall h :: IsHead(m, h) ==> h.gasPrice % U64 <= t.gasPrice % U64
  }

  ghost predicate PaysMost(m: Market, t: Tx) {
    forall h :: IsHead(m, h) ==> h.gasPrice <= t.gasPrice
  }

  ghost predicate HeadsBelow(m: Market, bound: nat) {
    forall h :: IsHead(m, h) ==> h.gasPrice < bound
  }

  /** With all head prices below 2^64 the best head pays most. */
  lemma {:induction false} BestPaysMost(m: Market, t: Tx)
    requires BestHead(m, t) && HeadsBelow(m, U64)
    ensures PaysMost(m, t)
  {
    forall h | IsHead(m, h) ensures h.gasPrice <= t.gasPrice {
      assert h.gasPrice % U64 == h.gasPrice && t.gasPrice % U64 == t.gasPrice;
    }
  }

  /** A market of two heads. */
  function Pair(s: Tx, t: Tx): Market
    requires s.from != t.from
  {
    Market(map[s.from := [s], t.from := [t]], map[s.from := 0, t.from := 0], {})
  }

  lemma {:induction false} HeadsOfPair(s: Tx, t: Tx)
    requires s.from != t.from
    ensures forall h :: IsHead(Pair(s, t), h) <==> h == s || h == t
  {
    forall h | IsHead(Pair(s, t), h) ensures h == s || h == t {
      assert h.from in {s.from, t.from};
    }
  }

  /** Two heads of which the one that pays 1 is best, although the other pays 2^64. */
  lemma {:induction false} CheapestIsBest(dear: Tx, cheap: Tx)
    requires dear.from != cheap.from && dear.gasPrice == U64 && cheap.gasPrice == 1
    ensures BestHead(Pair(dear, cheap), cheap) && !PaysMost(Pair(dear, cheap), cheap)
    ensures HeadsBelow(Pair(dear, cheap), U64 + 1)
  {
    HeadsOfPair(dear, cheap);
    assert U64 % U64 == 0 && 1 % U64 == 1;
  }

  ghost predicate BestAlwaysPaysMost(bound: nat) {
    forall m, t :: HeadsBelow(m, bound) && BestHead(m, t) ==> PaysMost(m, t)
  }

  /** 2^64 is the exact bound: in all markets with lower head prices, and with no higher bound, the best head pays
      most. */
  lemma {:induction false} PaysMostIff(bound: nat)
    ensures BestAlwaysPaysMost(bound) <==> bound <= U64
  {
    if bound <= U64 {
      forall m, t | HeadsBelow(m, bound) && BestHead(m, t) ensures PaysMost(m, t) {
        BestPaysMost(m, t);
      }
    } else {
      var dear, cheap := Tx(0, 0, 0, U64, 0, 0), Tx(0, 1, 0, 1, 0, 0);
      CheapestIsBest(dear, cheap);
      assert HeadsBelow(Pair(dear, cheap), bound);
    }
  }

  /** A transaction over the block gas limit is dropped without being written. */
  function Outcome(t: Tx, gasLimit: nat, v: Verdict): Verdict {
    if t.gas > gasLimit then Unrecoverable else v
  }

  ghost function Excluding(m: Market, a: nat): Market {
    m.(excluded := m.excluded + {a})
  }

  ghost function Demoting(m: Market, a: nat, n: nat): Market {
    m.(demotions := m.demotions[a := n])
  }

  ghost function Dropping(m: Market, a: nat): Market {
    Excluding(m.(runs := m.runs[a := []]), a)
  }

  ghost function After(m: Market, t: Tx, o: Verdict): Market
    requires IsHead(m, t) && t.from in m.demotions
  {
    var a := t.from;
    match o
    case Written => Demoting(m.(runs := m.runs[a := m.runs[a][1..]]), a, 0)
    case GasLimitReached => m
    case Recoverable =>
      if m.demotions[a] >= MAX_ACCOUNT_DEMOTIONS then Demoting(Dropping(m, a), a, 0)
      else Excluding(Demoting(m, a, m.demotions[a] + 1), a)
    case Unrecoverable => Dropping(m, a)
  }

  ghost predicate Ok(m: Market) {
    m.demotions.Keys == m.runs.Keys && forall a, i :: a in m.runs && 0 <= i < |m.runs[a]| ==> m.runs[a][i].from == a
  }

  /** The best head `t` of `m` is handed to Write, which answers `v`. */
  ghost predicate Sells(m: Market, m': Market, t: Tx, gasLimit: nat, v: Verdict) {
    Ok(m) && BestHead(m, t) && m' == After(m, t, Outcome(t, gasLimit, v))
  }

  /** `picks` are sold one after the other from the first market to the last. */
  ghost predicate Sale(markets: seq<Market>, picks: seq<Tx>, gasLimit: nat, write: nat -> Verdict) {
    && |markets| == |picks| + 1
    && forall i :: 0 <= i < |picks| ==> Sells(markets[i], markets[i + 1], picks[i], gasLimit, write(i))
  }

  ghost function Taken(picks: seq<Tx>, gasLimit: nat, write: nat -> Verdict): seq<Tx> {
    if picks == [] then [] else
      var n := |picks| - 1;
      Taken(picks[..n], gasLimit, write) + if Outcome(picks[n], gasLimit, write(n)).Written? then [picks[n]] else []
  }

  ghost function Of(txs: seq<Tx>, a: nat): seq<Tx> {
    if txs == [] then [] else Of(txs[..|txs| - 1], a) + if txs[|txs| - 1].from == a then [txs[|txs| - 1]] else []
  }

  lemma {:induction false} OfPush(txs: seq<Tx>, t: Tx, a: nat)
    ensures Of(txs + [t], a) == Of(txs, a) + if t.from == a then [t] else []
  {
    assert (txs + [t])[..|txs|] == txs;
  }

  /** What an account has sold and, unless it is excluded, what it still holds make up its original run. */
  ghost predicate Sold(first: Market, m: Market, taken: seq<Tx>, a: nat) {
    && a in first.runs && a in m.runs && Of(taken, a) <= first.runs[a]
    && (a !in m.excluded ==> Of(taken, a) + m.runs[a] == first.runs[a])
  }

  lemma {:induction false} SoldOne(first: Market, m: Market, taken: seq<Tx>, t: Tx, o: Verdict, a: nat)
    requires Sold(first, m, taken, a) && IsHead(m, t) && Ok(m)
    ensures Sold(first, After(m, t, o), taken + if o.Written? then [t] else [], a)
  {
    if o.Written? {
      OfPush(taken, t, a);
      if t.from == a {
        assert m.runs[a] == [t] + m.runs[a][1..];
        assert Of(taken, a) + m.runs[a] == (Of(taken, a) + [t]) + m.runs[a][1..];
      }
    } else {
      assert taken + [] == taken;
    }
  }

  lemma {:induction false} SoldNext(first: Market, m: Market, m': Market, t: Tx, gasLimit: nat, v: Verdict,
                                    taken: seq<Tx>, a: nat)
    requires Sold(first, m, taken, a) && Sells(m, m', t, gasLimit, v)
    ensures Sold(first, m', taken + if Outcome(t, gasLimit, v).Written? then [t] else [], a)
  {
    SoldOne(first, m, taken, t, Outcome(t, gasLimit, v), a);
  }

  lemma {:induction false} SoldAfter(markets: seq<Market>, picks: seq<Tx>, gasLimit: nat, write: nat -> Verdict, a: nat,
                                     k: nat)
    requires Sale(markets, picks, gasLimit, write) && a in markets[0].runs && a !in markets[0].excluded && k <= |picks|
    ensures Sold(markets[0], markets[k], Taken(picks[..k], gasLimit, write), a)
    decreases k
  {
    if k == 0 {
      assert [] + markets[0].runs[a] == markets[0].runs[a];
    } else {
      var n := k - 1;
      SoldAfter(markets, picks, gasLimit, write, a, n);
      SoldNext(markets[0], markets[n], markets[k], picks[n], gasLimit, write(n), Taken(picks[..n], gasLimit, write), a);
      assert picks[..k][..n] == picks[..n];
    }
  }

  /** For every outcome of the writes, the transactions taken from a sender are a prefix of its run, and all of it
      when the sender is not excluded and has no head left. */
  lemma {:induction false} SalePerSender(markets: seq<Market>, picks: seq<Tx>, gasLimit: nat, write: nat -> Verdict,
                                         a: nat)
    requires Sale(markets, picks, gasLimit, write) && a in markets[0].runs && a !in markets[0].excluded
    ensures var m := markets[|picks|]; var sold := Of(Taken(picks, gasLimit, write), a);
            && sold <= markets[0].runs[a]
            && a in m.runs && (a !in m.excluded && m.runs[a] == [] ==> sold == markets[0].runs[a])
  {
    SoldAfter(markets, picks, gasLimit, write, a, |picks|);
    assert picks[..|picks|] == picks;
  }

  ghost predicate AllBelow(m: Market, bound: nat) {
    forall a, i :: a in m.runs && 0 <= i < |m.runs[a]| ==> m.runs[a][i].gasPrice < bound
  }

  lemma {:induction false} StillBelow(m: Market, t: Tx, o: Verdict, bound: nat)
    requires AllBelow(m, bound) && IsHead(m, t) && Ok(m)
    ensures AllBelow(After(m, t, o), bound)
  {}

  lemma {:induction false} BelowAfter(markets: seq<Market>, picks: seq<Tx>, gasLimit: nat, write: nat -> Verdict,
                                      bound: nat, k: nat)
    requires Sale(markets, picks, gasLimit, write) && AllBelow(markets[0], bound) && k <= |picks|
    ensures AllBelow(markets[k], bound)
    decreases k
  {
    if k > 0 {
      BelowAfter(markets, picks, gasLimit, write, bound, k - 1);
      assert Sells(markets[k - 1], markets[k], picks[k - 1], gasLimit, write(k - 1));
      StillBelow(markets[k - 1], picks[k - 1], Outcome(picks[k - 1], gasLimit, write(k - 1)), bound);
    }
  }

  /** When all prices are below 2^64, every pick of a sale pays most. */
  lemma {:induction false} PicksPayMost(markets: seq<Market>, picks: seq<Tx>, gasLimit: nat, write: nat -> Verdict)
    requires Sale(markets, picks, gasLimit, write) && AllBelow(markets[0], U64)
    ensures forall i :: 0 <= i < |picks| ==> PaysMost(markets[i], picks[i])
  {
    forall i | 0 <= i < |picks| ensures PaysMost(markets[i], picks[i]) {
      BelowAfter(markets, picks, gasLimit, write, U64, i);
      assert Sells(markets[i], markets[i + 1], picks[i], gasLimit, write(i));
      BestPaysMost(markets[i], picks[i]);
    }
  }

  /** What a round does to the market, verdict by verdict: only the account `a` of the pick is touched. */
  ghost predicate Follows(m: Market, m': Market, t: Tx, gasLimit: nat, v: Verdict) {
    var a := t.from;
    && a in m.runs && a in m.demotions && m.runs[a] != [] && t == m.runs[a][0]
    && if t.gas > gasLimit || v.Unrecoverable? then
         m' == Market(m.runs[a := []], m.demotions, m.excluded + {a})
       else if v.Written? then
         m' == Market(m.runs[a := m.runs[a][1..]], m.demotions[a := 0], m.excluded)
       else if v.GasLimitReached? then
         m' == m
       else if m.demotions[a] < 10 then
         m' == Market(m.runs, m.demotions[a := m.demotions[a] + 1], m.excluded + {a})
       else
         m' == Market(m.runs[a := []], m.demotions[a := 0], m.excluded + {a})
  }

  lemma {:induction false} SellsFollows(m: Market, m': Market, t: Tx, gasLimit: nat, v: Verdict)
    requires Sells(m, m', t, gasLimit, v)
    ensures Follows(m, m', t, gasLimit, v)
  {}

  /** `at` lists, in order, the rounds whose pick fits into a block and was written, and `successful` their picks. */
  ghost predicate Chosen(picks: seq<Tx>, gasLimit: nat, write: nat -> Verdict, at: seq<nat>, successful: seq<Tx>) {
    && |at| == |successful| && (forall i, j :: 0 <= i < j < |at| ==> at[i] < at[j])
    && (forall j :: 0 <= j < |at| ==> at[j] < |picks| && successful[j] == picks[at[j]])
    && (forall i :: 0 <= i < |picks| ==> (i in at <==> picks[i].gas <= gasLimit && write(i).Written?))
  }

  lemma {:induction false} ChosenWritten(picks: seq<Tx>, gasLimit: nat, write: nat -> Verdict, at: seq<nat>,
                                         successful: seq<Tx>, t: Tx)
    requires Chosen(picks, gasLimit, write, at, successful) && t.gas <= gasLimit && write(|picks|).Written?
    ensures Chosen(picks + [t], gasLimit, write, at + [|picks|], successful + [t])
  {
    var picks', at' := picks + [t], at + [|picks|];
    forall i | 0 <= i < |picks'| ensures i in at' <==> picks'[i].gas <= gasLimit && write(i).Written? {
      if i < |picks| {
        assert picks'[i] == picks[i] && (i in at' <==> i in at);
      } else {
        assert at'[|at|] == i;
      }
    }
  }

  lemma {:induction false} ChosenNot(picks: seq<Tx>, gasLimit: nat, write: nat -> Verdict, at: seq<nat>,
                                     successful: seq<Tx>, t: Tx)
    requires Chosen(picks, gasLimit, write, at, successful) && !(t.gas <= gasLimit && write(|picks|).Written?)
    ensures Chosen(picks + [t], gasLimit, write, at, successful)
  {
    var picks' := picks + [t];
    forall i | 0 <= i < |picks'| ensures i in at <==> picks'[i].gas <= gasLimit && write(i).Written? {
      assert i < |picks| ==> picks'[i] == picks[i];
    }
  }

  lemma {:induction false} TakenIsChosen(picks: seq<Tx>, gasLimit: nat, write: nat -> Verdict) returns (at: seq<nat>)
    ensures Chosen(picks, gasLimit, write, at, Taken(picks, gasLimit, write))
    decreases |picks|
  {
    at := [];
    if picks != [] {
      var n := |picks| - 1;
      var taken := Taken(picks[..n], gasLimit, write);
      at := TakenIsChosen(picks[..n], gasLimit, write);
      assert picks == picks[..n] + [picks[n]];
      if picks[n].gas <= gasLimit && write(n).Written? {
        ChosenWritten(picks[..n], gasLimit, write, at, taken, picks[n]);
        at := at + [n];
      } else {
        ChosenNot(picks[..n], gasLimit, write, at, taken, picks[n]);
        assert Taken(picks, gasLimit, write) == taken;
      }
    }
  }

  ghost predicate AllFit(m: Market, gasLimit: nat) {
    forall a, i :: a in m.runs && 0 <= i < |m.runs[a]| ==> m.runs[a][i].gas <= gasLimit
  }

  /** While everything fits and is written no account is excluded. */
  lemma {:induction false} NoneExcluded(markets: seq<Market>, picks: seq<Tx>, gasLimit: nat, write: nat -> Verdict,
                                        k: nat)
    requires Sale(markets, picks, gasLimit, write) && AllFit(markets[0], gasLimit) && markets[0].excluded == {}
    requires (forall i: nat :: write(i).Written?) && k <= |picks|
    ensures AllFit(markets[k], gasLimit) && markets[k].excluded == {}
    decreases k
  {
    if k > 0 {
      NoneExcluded(markets, picks, gasLimit, write, k - 1);
      assert Sells(markets[k - 1], markets[k], picks[k - 1], gasLimit, write(k - 1));
      SellsFollows(markets[k - 1], markets[k], picks[k - 1], gasLimit, write(k - 1));
    }
  }

  /** If everything fits and is written, a sale that leaves no head sells every run completely. */
  lemma {:induction false} SellsEverything(markets: seq<Market>, picks: seq<Tx>, gasLimit: nat, write: nat -> Verdict,
                                           a: nat)
    requires Sale(markets, picks, gasLimit, write) && AllFit(markets[0], gasLimit) && markets[0].excluded == {}
    requires (forall i: nat :: write(i).Written?) && a in markets[0].runs
    requires Ok(markets[|picks|]) && forall t :: !IsHead(markets[|picks|], t)
    ensures Of(Taken(picks, gasLimit, write), a) == markets[0].runs[a]
  {
    var m := markets[|picks|];
    NoneExcluded(markets, picks, gasLimit, write, |picks|);
    SalePerSender(markets, picks, gasLimit, write, a);
    if m.runs[a] != [] {
      assert m.runs[a][0].from == a && IsHead(m, m.runs[a][0]);
    }
  }

  // ---------- The executables heap ----------

  /** The price heap holds each head once and nothing else. */
  ghost predicate Heads(ex: seq<Tx>, m: Market) {
    IsHeap(ByPrice, ex) && forall t :: multiset(ex)[t] == if IsHead(m, t) then 1 else 0
  }

  lemma {:induction false} PeekIsBest(ex: seq<Tx>, m: Market)
    requires Heads(ex, m) && ex != []
    ensures BestHead(m, ex[0]) && Heads(Pop(ByPrice, ex).1, Excluding(m, ex[0].from))
  {
    HeadPrecedesAll(ByPrice, ex);
    PopKeepsHeap(ByPrice, ex);
    assert multiset(ex)[ex[0]] > 0;
    forall h | IsHead(m, h) ensures h.gasPrice % U64 <= ex[0].gasPrice % U64 {
      assert h in multiset(ex) && h in ex;
    }
  }

  lemma {:induction false} NoneLeft(m: Market, t: Tx)
    requires Heads([], m)
    ensures !IsHead(m, t)
  {
    var none: seq<Tx> := [];
    assert multiset(none)[t] == 0;
  }

  /** After a written head the account's next transaction, if any, takes its place. */
  lemma {:induction false} NextHead(ex: seq<Tx>, m: Market, t: Tx)
    requires IsHead(m, t) && Ok(m) && Heads(ex, Excluding(m, t.from))
    ensures var m' := After(m, t, Written); var rest := m'.runs[t.from];
            Heads(if rest == [] then ex else Push(ByPrice, ex, rest[0]), m')
  {
    var m' := After(m, t, Written);
    var rest := m'.runs[t.from];
    var was := Excluding(m, t.from);
    forall h: Tx | h.from != t.from ensures IsHead(m', h) <==> IsHead(was, h) {}
    if rest != [] {
      PushKeepsHeap(ByPrice, ex, rest[0]);
      assert m.runs[t.from][1].from == t.from;
    }
  }

  lemma {:induction false} NoNextHead(ex: seq<Tx>, m: Market, t: Tx, o: Verdict)
    requires IsHead(m, t) && Ok(m) && Heads(ex, Excluding(m, t.from)) && (o.Recoverable? || o.Unrecoverable?)
    ensures Heads(ex, After(m, t, o))
  {
    var m', was := After(m, t, o), Excluding(m, t.from);
    forall h ensures IsHead(m', h) <==> IsHead(was, h) {}
  }

  // ---------- The pool ----------

  /** One account of the pool. */
  datatype Queues = Queues(promoted: seq<Tx>, enqueued: seq<Tx>, nextNonce: nat, demotions: nat)

  /** The promoted heap holds the account's run of consecutive nonces ending below nextNonce. */
  ghost predicate HoldsRun(a: nat, q: Queues, run: seq<Tx>) {
    && IsHeap(ByNonce, q.promoted) && multiset(q.promoted) == multiset(run) && RunsUpTo(run, q.nextNonce)
    && forall i :: 0 <= i < |run| ==> run[i].from == a
  }

  ghost predicate Holds(accounts: map<nat, Queues>, m: Market) {
    && accounts.Keys == m.runs.Keys == m.demotions.Keys
    && forall a :: a in accounts ==> HoldsRun(a, accounts[a], m.runs[a]) && accounts[a].demotions == m.demotions[a]
  }

  /** From `m` to `m'` only account `a` has another run and another count of demotions. */
  ghost predicate Changes(m: Market, m': Market, a: nat, run: seq<Tx>, demotions: nat) {
    a in m.runs && m'.runs == m.runs[a := run] && m'.demotions == m.demotions[a := demotions]
  }

  lemma {:induction false} HoldsUpdate(accounts: map<nat, Queues>, m: Market, a: nat, q: Queues, m': Market,
                                       run: seq<Tx>)
    requires Holds(accounts, m) && Changes(m, m', a, run, q.demotions) && HoldsRun(a, q, run)
    ensures Holds(accounts[a := q], m')
  {}

  /** A demotion below the limit changes a count; at the limit it is a drop followed by a reset of the count. */
  lemma {:induction false} Demotes(m: Market, t: Tx)
    requires IsHead(m, t) && Ok(m)
    ensures var after := After(m, t, Recoverable); var n := m.demotions[t.from];
            if n >= MAX_ACCOUNT_DEMOTIONS then Changes(After(m, t, Unrecoverable), after, t.from, [], 0)
            else Changes(m, after, t.from, m.runs[t.from], n + 1)
  {}

  lemma {:induction false} WrittenChanges(m: Market, t: Tx)
    requires IsHead(m, t) && Ok(m)
    ensures Changes(m, After(m, t, Written), t.from, m.runs[t.from][1..], 0)
  {}

  lemma {:induction false} HoldsOk(accounts: map<nat, Queues>, m: Market)
    requires Holds(accounts, m)
    ensures Ok(m)
  {}

  function WithoutHead(q: Queues): Queues {
    q.(promoted := if q.promoted == [] then [] else Pop(ByNonce, q.promoted).1, demotions := 0)
  }

  lemma {:induction false} PoppedRun(a: nat, q: Queues, run: seq<Tx>)
    requires HoldsRun(a, q, run) && run != []
    ensures q.promoted != [] && q.promoted[0] == run[0]
    ensures var q' := WithoutHead(q);
            && HoldsRun(a, q', run[1..])
            && if run[1..] == [] then q'.promoted == [] else q'.promoted != [] && q'.promoted[0] == run[1]
  {
    assert |multiset(run)| == |run|;
    HeadOfRun(q.promoted, run, q.nextNonce);
    PopKeepsHeap(ByNonce, q.promoted);
    var rest := Pop(ByNonce, q.promoted).1;
    TailOf(run, rest);
    assert |multiset(run[1..])| == |rest|;
    if rest != [] {
      HeadOfRun(rest, run[1..], q.nextNonce);
    }
  }

  /** `sold` is a run of consecutive nonces starting at the lowest promoted one. */
  ghost predicate FromLowest(promoted: seq<Tx>, sold: seq<Tx>) {
    && (forall i :: 0 <= i < |sold| ==> sold[i] in promoted && sold[i].nonce == sold[0].nonce + i)
    && (sold != [] ==> forall t :: t in promoted ==> sold[0].nonce <= t.nonce)
  }

  lemma {:induction false} SoldFromLowest(a: nat, q: Queues, run: seq<Tx>, sold: seq<Tx>)
    requires HoldsRun(a, q, run) && sold <= run
    ensures FromLowest(q.promoted, sold)
  {
    forall t ensures t in q.promoted <==> t in run {
      assert t in multiset(q.promoted) <==> t in multiset(run);
    }
    assert forall i :: 0 <= i < |sold| ==> sold[i] == run[i];
  }

  lemma {:induction false} PutTwice(accounts: map<nat, Queues>, a: nat, p: Queues, q: Queues)
    ensures accounts[a := p][a := q] == accounts[a := q]
  {}

  ghost predicate GasWithin(accounts: map<nat, Queues>, gasLimit: nat) {
    forall a, t :: a in accounts && t in accounts[a].promoted ==> t.gas <= gasLimit
  }

  lemma {:induction false} RunsFit(accounts: map<nat, Queues>, m: Market, gasLimit: nat)
    requires Holds(accounts, m) && GasWithin(accounts, gasLimit)
    ensures AllFit(m, gasLimit)
  {
    forall a, i | a in m.runs && 0 <= i < |m.runs[a]| ensures m.runs[a][i].gas <= gasLimit {
      assert HoldsRun(a, accounts[a], m.runs[a]);
      assert m.runs[a][i] in multiset(m.runs[a]);
      assert m.runs[a][i] in accounts[a].promoted;
    }
  }

  ghost predicate PricesBelow(accounts: map<nat, Queues>, bound: nat) {
    forall a, t :: a in accounts && t in accounts[a].promoted ==> t.gasPrice < bound
  }

  lemma {:induction false} RunsBelow(accounts: map<nat, Queues>, m: Market, bound: nat)
    requires Holds(accounts, m) && PricesBelow(accounts, bound)
    ensures AllBelow(m, bound)
  {
    forall a, i | a in m.runs && 0 <= i < |m.runs[a]| ensures m.runs[a][i].gasPrice < bound {
      assert HoldsRun(a, accounts[a], m.runs[a]);
      assert m.runs[a][i] in multiset(m.runs[a]);
      assert m.runs[a][i] in accounts[a].promoted;
    }
  }

  class Pool {
    var accounts: map<nat, Queues>
    var executables: seq<Tx>
    ghost var market: Market

    ghost predicate Valid()
      reads this
    {
      Holds(accounts, market)
    }

    /** The heads of the promoted queues, in any order of the accounts. */
    method GetPrimaries() returns (primaries: seq<Tx>)
      requires Valid()
      ensures forall t :: multiset(primaries)[t] == if IsHead(market.(excluded := {}), t) then 1 else 0
    {
      primaries := [];
      var left := accounts.Keys;
      while left != {}
        invariant left <= accounts.Keys
        invariant forall t :: multiset(primaries)[t] == if IsHead(market.(excluded := left), t) then 1 else 0
        decreases left
      {
        var a :| a in left;
        left := left - {a};
        assert HoldsRun(a, accounts[a], market.runs[a]);
        if accounts[a].promoted != [] {
          HeadOfRun(accounts[a].promoted, market.runs[a], accounts[a].nextNonce);
          primaries := primaries + [accounts[a].promoted[0]];
        } else {
          assert |multiset(market.runs[a])| == 0;
        }
      }
    }

    method Prepare()
      requires Valid()
      modifies this
      ensures Valid() && accounts == old(accounts) && market == old(market).(excluded := {})
      ensures Heads(executables, market)
    {
      executables := [];
      var primaries := GetPrimaries();
      for i := 0 to |primaries|
        invariant accounts == old(accounts) && market == old(market)
        invariant IsHeap(ByPrice, executables) && multiset(executables) == multiset(primaries[..i])
      {
        PushKeepsHeap(ByPrice, executables, primaries[i]);
        assert primaries[..i + 1] == primaries[..i] + [primaries[i]];
        executables := Push(ByPrice, executables, primaries[i]);
      }
      assert primaries[..|primaries|] == primaries;
      market := market.(excluded := {});
    }

    /** Peek takes the best head out of the executables; its account waits until Pop puts it back. */
    method Peek() returns (tx: seq<Tx>)
      requires Valid() && Heads(executables, market)
      modifies this`executables
      ensures if tx == [] then executables == old(executables) && forall t :: !IsHead(market, t)
              else |tx| == 1 && BestHead(market, tx[0]) && Heads(executables, Excluding(market, tx[0].from))
                   && |executables| < |old(executables)|
    {
      if |executables| == 0 {
        tx := [];
        forall t ensures !IsHead(market, t) { NoneLeft(market, t); }
      } else {
        PeekIsBest(executables, market);
        var (x, rest) := Pop(ByPrice, executables);
        tx, executables := [x], rest;
      }
    }

    /** Replaces the queues of one account. */
    method Put(a: nat, q: Queues, ghost run: seq<Tx>, ghost after: Market)
      requires Valid() && Changes(market, after, a, run, q.demotions) && HoldsRun(a, q, run)
      modifies this`accounts, this`market
      ensures Valid() && accounts == old(accounts)[a := q] && market == after
    {
      HoldsUpdate(accounts, market, a, q, after, run);
      accounts, market := accounts[a := q], after;
    }

    method PopTx(tx: Tx)
      requires Valid() && IsHead(market, tx) && Heads(executables, Excluding(market, tx.from))
      modifies this
      ensures Valid() && market == After(old(market), tx, Written) && Heads(executables, market)
      ensures accounts == old(accounts)[tx.from := WithoutHead(old(accounts)[tx.from])]
    {
      var a := tx.from;
      ghost var after := After(market, tx, Written);
      PoppedRun(a, accounts[a], market.runs[a]);
      NextHead(executables, market, tx);
      WrittenChanges(market, tx);
      var q := WithoutHead(accounts[a]);
      Put(a, q, market.runs[a][1..], after);
      if q.promoted != [] {
        executables := Push(ByPrice, executables, q.promoted[0]);
      }
    }

    /** Drop clears both queues of the account and rolls its nonce back. */
    method Drop(tx: Tx)
      requires Valid() && IsHead(market, tx) && Heads(executables, Excluding(market, tx.from))
      modifies this`accounts, this`market
      ensures Valid() && market == After(old(market), tx, Unrecoverable) && Heads(executables, market)
      ensures accounts == old(accounts)[tx.from := Queues([], [], tx.nonce, old(accounts)[tx.from].demotions)]
    {
      NoNextHead(executables, market, tx, Unrecoverable);
      Put(tx.from, Queues([], [], tx.nonce, accounts[tx.from].demotions), [], After(market, tx, Unrecoverable));
    }

    /** Demote counts a recoverable failure; at the limit the account is dropped and its count reset. */
    method Demote(tx: Tx)
      requires Valid() && IsHead(market, tx) && Heads(executables, Excluding(market, tx.from))
      modifies this`accounts, this`market
      ensures Valid() && market == After(old(market), tx, Recoverable) && Heads(executables, market)
      ensures var q := old(accounts)[tx.from];
              accounts == old(accounts)[tx.from := if q.demotions < 10 then q.(demotions := q.demotions + 1)
                                                   else Queues([], [], tx.nonce, 0)]
    {
      var a := tx.from;
      ghost var after := After(market, tx, Recoverable);
      NoNextHead(executables, market, tx, Recoverable);
      Demotes(market, tx);
      var n := accounts[a].demotions;
      if n >= MAX_ACCOUNT_DEMOTIONS {
        ghost var was := accounts;
        Drop(tx);
        PutTwice(was, a, accounts[a], accounts[a].(demotions := 0));
        Put(a, accounts[a].(demotions := 0), [], after);
      } else {
        Put(a, accounts[a].(demotions := n + 1), market.runs[a], after);
      }
    }

    /** What the loop does with the transaction it peeked. */
    method Handle(tx: Tx, o: Verdict)
      requires Valid() && IsHead(market, tx) && Heads(executables, Excluding(market, tx.from)) && !o.GasLimitReached?
      modifies this
      ensures Valid() && market == After(old(market), tx, o) && Heads(executables, market)
      ensures o.Recoverable? ==> executables == old(executables)
    {
      match o {
        case Written => PopTx(tx);
        case GasLimitReached =>
        case Recoverable => Demote(tx);
        case Unrecoverable => Drop(tx);
      }
    }

    /** One round of the loop: what was peeked, if anything, and what Write answered. */
    method Round(gasLimit: nat, v: Verdict) returns (tx: seq<Tx>, o: Verdict)
      requires Valid() && Heads(executables, market)
      modifies this
      ensures Valid() && |tx| <= 1
      ensures tx == [] ==> market == old(market) && forall t :: !IsHead(market, t)
      ensures tx != [] ==> o == (if tx[0].gas > gasLimit then Unrecoverable else v)
      ensures tx != [] ==> o == Outcome(tx[0], gasLimit, v) && Sells(old(market), market, tx[0], gasLimit, v)
      ensures tx != [] && !o.GasLimitReached? ==>
                && Heads(executables, market)
                && (|| Unsold(market) < Unsold(old(market))
                    || (Unsold(market) == Unsold(old(market)) && |executables| < |old(executables)|))
    {
      o := v;
      tx := Peek();
      if tx != [] {
        o := Outcome(tx[0], gasLimit, v);
        HoldsOk(accounts, market);
        if !o.GasLimitReached? {
          UnsoldShrinks(market, tx[0], o);
          Handle(tx[0], o);
        }
      }
    }

    /** The loop has sold `picks` so far and goes on. */
    ghost predicate Selling(markets: seq<Market>, picks: seq<Tx>, gasLimit: nat, write: nat -> Verdict)
      reads this
    {
      Valid() && Heads(executables, market) && Sale(markets, picks, gasLimit, write) && markets[|picks|] == market
    }

    /** One round of the loop, with the books: `more` is false when the loop ends. */
    method SellNext(gasLimit: nat, write: nat -> Verdict, n: nat, successful: seq<Tx>, ghost markets: seq<Market>,
                    ghost picks: seq<Tx>)
      returns (more: bool, successful': seq<Tx>, ghost markets': seq<Market>, ghost picks': seq<Tx>)
      requires n == |picks| && Selling(markets, picks, gasLimit, write) && successful == Taken(picks, gasLimit, write)
      modifies this
      ensures Valid() && Sale(markets', picks', gasLimit, write) && markets'[|picks'|] == market
      ensures markets' != [] && markets'[0] == markets[0] && successful' == Taken(picks', gasLimit, write)
      ensures more ==> Heads(executables, market) && |picks'| == n + 1
      ensures more ==> || Unsold(market) < Unsold(old(market))
                       || (Unsold(market) == Unsold(old(market)) && |executables| < |old(executables)|)
      ensures !more ==>
                || (picks' != [] && Outcome(picks'[|picks'| - 1], gasLimit, write(|picks'| - 1)).GasLimitReached?)
                || forall t :: !IsHead(market, t)
    {
      var tx, o := Round(gasLimit, write(n));
      successful', markets', picks' := successful, markets, picks;
      more := tx != [] && !o.GasLimitReached?;
      if tx != [] {
        SaleGrows(markets, picks, gasLimit, write, tx[0], market);
        picks', markets' := picks + [tx[0]], markets + [market];
        if o.Written? {
          successful' := successful + [tx[0]];
        }
      }
    }

    /** The loop of writeTransactions. */
    method Sell(gasLimit: nat, write: nat -> Verdict)
      returns (successful: seq<Tx>, ghost markets: seq<Market>, ghost picks: seq<Tx>)
      requires Valid()
      modifies this
      ensures Valid() && Sale(markets, picks, gasLimit, write) && markets[0] == old(market).(excluded := {})
      ensures markets[|picks|] == market && successful == Taken(picks, gasLimit, write)
      ensures (picks != [] && Outcome(picks[|picks| - 1], gasLimit, write(|picks| - 1)).GasLimitReached?)
              || forall t :: !IsHead(market, t)
    {
      Prepare();
      successful, markets, picks := [], [market], [];
      var n, more := 0, true;
      while more
        invariant more ==> n == |picks| && Selling(markets, picks, gasLimit, write)
        invariant Valid() && Sale(markets, picks, gasLimit, write) && markets[|picks|] == market
        invariant markets[0] == old(market).(excluded := {}) && successful == Taken(picks, gasLimit, write)
        invariant !more ==>
                    || (picks != [] && Outcome(picks[|picks| - 1], gasLimit, write(|picks| - 1)).GasLimitReached?)
                    || forall t :: !IsHead(market, t)
        decreases more, Unsold(market), |executables|
      {
        more, successful, markets, picks := SellNext(gasLimit, write, n, successful, markets, picks);
        n := n + 1;
      }
    }

    /** writeTransactions of the dev consensus and Fill of the block builder, for every answer of Write. Each round
        takes the best head and does with it what the answer asks for; a pick is successful exactly when it fits into a
        block and was written; each sender's part of the result is a run from its lowest nonce, and all of it when
        everything fits and is written; and when all prices are below 2^64 every pick pays most. */
    method Fill(gasLimit: nat, write: nat -> Verdict)
      returns (successful: seq<Tx>, ghost markets: seq<Market>, ghost picks: seq<Tx>, ghost at: seq<nat>)
      requires Valid()
      modifies this
      ensures Valid() && Sale(markets, picks, gasLimit, write) && markets[0] == old(market).(excluded := {})
      ensures markets[|picks|] == market && Chosen(picks, gasLimit, write, at, successful)
      ensures (picks != [] && picks[|picks| - 1].gas <= gasLimit && write(|picks| - 1).GasLimitReached?)
              || forall t :: !IsHead(market, t)
      ensures forall i :: 0 <= i < |picks| ==> Follows(markets[i], markets[i + 1], picks[i], gasLimit, write(i))
      ensures forall a :: a in old(accounts) ==> FromLowest(old(accounts)[a].promoted, Of(successful, a))
      ensures GasWithin(old(accounts), gasLimit) && (forall i: nat :: write(i).Written?) ==>
                forall a :: a in old(accounts) ==> multiset(Of(successful, a)) == multiset(old(accounts)[a].promoted)
      ensures PricesBelow(old(accounts), U64) ==> forall i :: 0 <= i < |picks| ==> PaysMost(markets[i], picks[i])
    {
      ghost var q, first := accounts, market;
      successful, markets, picks := Sell(gasLimit, write);
      at := TakenIsChosen(picks, gasLimit, write);
      HoldsOk(accounts, market);
      forall i | 0 <= i < |picks| ensures Follows(markets[i], markets[i + 1], picks[i], gasLimit, write(i)) {
        SellsFollows(markets[i], markets[i + 1], picks[i], gasLimit, write(i));
      }
      forall a | a in q ensures FromLowest(q[a].promoted, Of(successful, a)) {
        SalePerSender(markets, picks, gasLimit, write, a);
        SoldFromLowest(a, q[a], first.runs[a], Of(successful, a));
      }
      if GasWithin(q, gasLimit) && forall i: nat :: write(i).Written? {
        SoldOut(q, first, markets, picks, gasLimit, write, successful);
      }
      if PricesBelow(q, U64) {
        RunsBelow(q, first, U64);
        PicksPayMost(markets, picks, gasLimit, write);
      }
    }
  }

  lemma {:induction false} SoldOut(accounts: map<nat, Queues>, first: Market, markets: seq<Market>, picks: seq<Tx>,
                                   gasLimit: nat, write: nat -> Verdict, successful: seq<Tx>)
    requires Holds(accounts, first) && GasWithin(accounts, gasLimit) && forall i: nat :: write(i).Written?
    requires Sale(markets, picks, gasLimit, write) && markets[0] == first.(excluded := {})
    requires successful == Taken(picks, gasLimit, write) && Ok(markets[|picks|])
    requires (picks != [] && Outcome(picks[|picks| - 1], gasLimit, write(|picks| - 1)).GasLimitReached?)
             || forall t :: !IsHead(markets[|picks|], t)
    ensures forall a :: a in accounts ==> multiset(Of(successful, a)) == multiset(accounts[a].promoted)
  {
    RunsFit(accounts, first, gasLimit);
    forall a | a in accounts ensures multiset(Of(successful, a)) == multiset(accounts[a].promoted) {
      SellsEverything(markets, picks, gasLimit, write, a);
      assert HoldsRun(a, accounts[a], first.runs[a]);
    }
  }

  lemma {:induction false} SaleGrows(markets: seq<Market>, picks: seq<Tx>, gasLimit: nat, write: nat -> Verdict,
                                       t: Tx, after: Market)
    requires Sale(markets, picks, gasLimit, write) && Sells(markets[|picks|], after, t, gasLimit, write(|picks|))
    ensures var o := Outcome(t, gasLimit, write(|picks|));
            && Sale(markets + [after], picks + [t], gasLimit, write)
            && Taken(picks + [t], gasLimit, write) == Taken(picks, gasLimit, write) + if o.Written? then [t] else []
  {
    assert (picks + [t])[..|picks|] == picks;
  }

  /** The places of all runs: every outcome but a demotion removes some. */
  ghost function Unsold(m: Market): set<(nat, nat)> {
    set a, i | a in m.runs && 0 <= i < |m.runs[a]| :: (a, i)
  }

  lemma {:induction false} UnsoldShrinks(m: Market, t: Tx, o: Verdict)
    requires IsHead(m, t) && Ok(m) && !o.GasLimitReached?
    ensures Unsold(After(m, t, o)) < Unsold(m) || (o.Recoverable? && Unsold(After(m, t, o)) == Unsold(m))
  {
    var m' := After(m, t, o);
    assert Unsold(m') <= Unsold(m);
    if m'.runs != m.runs {
      var last := (t.from, |m.runs[t.from]| - 1);
      assert last in Unsold(m) && last !in Unsold(m');
    }
  }
}
