/** Event delivery of the tracker store: logs are stored under consecutive indices, a reorganisation removes the last
    ones, and every new block hands the logs with enough confirmations to the subscriber. */
module Tracker {
  import opened Common

  datatype Log = Log(blockNumber: nat, data: nat)

  /** A log handed to the subscriber, with its index and the block that confirmed it. */
  datatype Delivery = Delivery(index: nat, log: Log, at: nat)

  /** The keys of the bucket are exactly the indices below n. */
  ghost predicate Dense(logs: map<nat, Log>, n: nat) {
    forall k :: k in logs <==> 0 <= k < n
  }

  function Cursor(next: Option<nat>): nat {
    match next
    case None => 0
    case Some(k) => k
  }

  /** Each index below the cursor was delivered once, in order, and with enough confirmations. */
  ghost predicate Exact(delivered: seq<Delivery>, cursor: nat, confirmations: nat) {
    && |delivered| == cursor
    && forall i :: 0 <= i < |delivered| ==>
         delivered[i].index == i && delivered[i].log.blockNumber + confirmations <= delivered[i].at
  }

  ghost predicate Nondecreasing(logs: map<nat, Log>, n: nat)
    requires Dense(logs, n)
  {
    forall i, j :: 0 <= i <= j < n ==> logs[i].blockNumber <= logs[j].blockNumber
  }

  /** `ls` are the logs from index c up to the first one above block `until`. */
  ghost predicate Finalized(logs: map<nat, Log>, c: nat, until: nat, ls: seq<Log>) {
    OldEnough(logs, c, until, ls) && (c + |ls| in logs ==> logs[c + |ls|].blockNumber > until)
  }

  ghost predicate OldEnough(logs: map<nat, Log>, c: nat, until: nat, ls: seq<Log>) {
    forall i :: 0 <= i < |ls| ==> c + i in logs && ls[i] == logs[c + i] && ls[i].blockNumber <= until
  }

  /** An entry's fields, with the number of stored logs. */
  datatype Contents = Contents(logs: map<nat, Log>, n: nat, cursor: nat, delivered: seq<Delivery>)

  class Entry {
    const confirmations: nat
    var logs: map<nat, Log>
    var next: Option<nat>
    var delivered: seq<Delivery>
    ghost var n: nat

    ghost function View(): Contents
      reads this
    {
      Contents(logs, n, Cursor(next), delivered)
    }

    ghost predicate Valid()
      reads this
    {
      Dense(logs, n) && Exact(delivered, Cursor(next), confirmations)
    }

    constructor (c: nat)
      ensures Valid() && confirmations == c && View() == Contents(map[], 0, 0, [])
    {
      confirmations, logs, next, delivered, n := c, map[], None, [], 0;
    }

    /** getLastIndex: one past the greatest key. */
    method LastIndex() returns (i: nat)
      requires Valid()
      ensures i == n
    {
      i := 0;
      while i in logs
        invariant i <= n
        decreases n - i
      {
        i := i + 1;
      }
    }

    /** StoreLogs appends. */
    method StoreLogs(ls: seq<Log>)
      requires Valid()
      modifies this`logs, this`n
      ensures Valid() && n == old(n) + |ls|
      ensures forall k :: 0 <= k < n ==> logs[k] == if k < old(n) then old(logs)[k] else ls[k - old(n)]
    {
      var first := LastIndex();
      for i := 0 to |ls|
        invariant n == old(n) == first && Dense(logs, first + i)
        invariant forall k :: 0 <= k < first + i ==> logs[k] == if k < first then old(logs)[k] else ls[k - first]
      {
        logs := logs[first + i := ls[i]];
      }
      n := n + |ls|;
    }

    /** RemoveLogs drops the logs from an index on. */
    method RemoveLogs(index: nat)
      requires Valid()
      modifies this`logs, this`n
      ensures Valid() && n == if index < old(n) then index else old(n)
      ensures forall k :: 0 <= k < n ==> logs[k] == old(logs)[k]
    {
      var k := index;
      while k in logs
        invariant n == old(n) && index <= k && (index <= n ==> k <= n)
        invariant forall j :: j in logs <==> 0 <= j < n && (j < index || k <= j)
        invariant forall j :: j in logs ==> logs[j] == old(logs)[j]
        decreases n - k
      {
        logs := logs - {k};
        k := k + 1;
      }
      n := if index < n then index else n;
    }

    /** getFinalizedLogs: from the cursor up to the first log that is too young. */
    method GetFinalizedLogs(until: nat) returns (ls: seq<Log>, last: Option<nat>)
      requires Valid()
      ensures Finalized(logs, Cursor(next), until, ls)
      ensures last == if ls == [] then None else Some(Cursor(next) + |ls| - 1)
    {
      var c := Cursor(next);
      var key := c;
      ls, last := [], None;
      while key in logs && logs[key].blockNumber <= until
        invariant key == c + |ls| && last == (if ls == [] then None else Some(key - 1))
        invariant OldEnough(logs, c, until, ls)
        decreases n - key
      {
        ls, last := ls + [logs[key]], Some(key);
        key := key + 1;
      }
    }

    /** onNewBlock: delivers the finalized logs and moves the cursor past them; a block up to the number of
        confirmations does nothing. */
    method OnNewBlock(block: nat)
      requires Valid()
      modifies this`next, this`delivered
      ensures Valid() && Delivers(old(delivered), delivered, Cursor(old(next)), Cursor(next), logs, block)
      ensures block <= confirmations ==> next == old(next) && delivered == old(delivered)
      ensures confirmations < block && Cursor(next) in logs ==> logs[Cursor(next)].blockNumber + confirmations > block
    {
      if block <= confirmations {
        return;
      }
      var ls, last := GetFinalizedLogs(block - confirmations);
      if |ls| == 0 {
        return;
      }
      var first := Cursor(next);
      next := Some(last.value + 1);
      for i := 0 to |ls|
        invariant next == Some(first + |ls|) && Delivers(old(delivered), delivered, first, first + i, logs, block)
      {
        delivered := delivered + [Delivery(first + i, ls[i], block)];
      }
      StillExact(old(delivered), delivered, first, ls, logs, n, block, confirmations);
    }
  }

  lemma {:induction false} StillExact(before: seq<Delivery>, after: seq<Delivery>, c: nat, ls: seq<Log>,
                                      logs: map<nat, Log>, n: nat, block: nat, confirmations: nat)
    requires Exact(before, c, confirmations) && Dense(logs, n) && confirmations < block
    requires Finalized(logs, c, block - confirmations, ls) && Delivers(before, after, c, c + |ls|, logs, block)
    ensures Exact(after, c + |ls|, confirmations)
  {
    forall i | c <= i < c + |ls| ensures logs[i].blockNumber + confirmations <= block {
      assert ls[i - c] == logs[c + (i - c)];
    }
  }

  /** The logs from index c to c' - 1 were delivered in order at this block. */
  ghost predicate Delivers(before: seq<Delivery>, after: seq<Delivery>, c: nat, c': nat, logs: map<nat, Log>,
                           block: nat) {
    && c <= c' && |before| == c && |after| == c' && before <= after
    && forall i :: c <= i < c' ==> i in logs && after[i] == Delivery(i, logs[i], block)
  }

  /** With stored block numbers in order, a new block leaves no confirmed log undelivered. */
  lemma {:induction false} NothingConfirmedWaits(logs: map<nat, Log>, n: nat, cursor: nat, confirmations: nat,
                                                 block: nat, k: nat)
    requires Dense(logs, n) && Nondecreasing(logs, n) && k in logs && logs[k].blockNumber + confirmations <= block
    requires cursor in logs ==> logs[cursor].blockNumber + confirmations > block
    ensures k < cursor
  {
    assert cursor <= k ==> cursor in logs;
  }

  datatype Step = Store(ls: seq<Log>) | Remove(index: nat) | NewBlock(block: nat)

  /** Every index below the cursor was delivered with the log that is stored there. */
  ghost predicate Matches(v: Contents) {
    v.cursor <= v.n && forall k :: 0 <= k < v.cursor ==>
      k in v.logs && k < |v.delivered| && v.delivered[k].log == v.logs[k]
  }

  predicate RemovesDelivered(v: Contents, st: Step) {
    st.Remove? && st.index < v.cursor
  }

  /** Every stored log that this block confirms has been delivered. */
  ghost predicate AllDelivered(v: Contents, confirmations: nat, block: nat) {
    forall k :: k in v.logs && v.logs[k].blockNumber + confirmations <= block ==>
      k < |v.delivered| && v.delivered[k].log == v.logs[k]
  }

  /** The block number equals the confirmations and the next log to deliver is from block 0: the one case in which a
      block passes over a log it confirms. */
  predicate PassesOver(v: Contents, confirmations: nat, block: nat) {
    block == confirmations && v.cursor in v.logs && v.logs[v.cursor].blockNumber == 0
  }

  /** What any step does: it only adds deliveries; they go on matching the store exactly when no delivered log is
      removed; and as long as they match and the block numbers are in order, a new block leaves every log it confirms
      delivered exactly when it does not pass over one. */
  ghost predicate Keeps(v: Contents, st: Step, v': Contents, confirmations: nat) {
    && v.delivered <= v'.delivered && Exact(v'.delivered, v'.cursor, confirmations) && Dense(v'.logs, v'.n)
    && (Matches(v) ==> (Matches(v') <==> !RemovesDelivered(v, st)))
    && (st.NewBlock? && st.block <= confirmations ==> v' == v)
    && (Matches(v) && st.NewBlock? && Nondecreasing(v'.logs, v'.n) ==>
          (AllDelivered(v', confirmations, st.block) <==> !PassesOver(v, confirmations, st.block)))
  }

  /** A block past the confirmations leaves nothing it confirms undelivered. */
  lemma {:induction false} LateBlockDelivers(v: Contents, confirmations: nat, block: nat)
    requires Dense(v.logs, v.n) && Nondecreasing(v.logs, v.n) && Matches(v)
    requires v.cursor in v.logs ==> v.logs[v.cursor].blockNumber + confirmations > block
    ensures AllDelivered(v, confirmations, block)
  {
    forall k | k in v.logs && v.logs[k].blockNumber + confirmations <= block
      ensures k < |v.delivered| && v.delivered[k].log == v.logs[k]
    {
      NothingConfirmedWaits(v.logs, v.n, v.cursor, confirmations, block, k);
    }
  }

  /** A block up to the confirmations, which delivers nothing. */
  lemma {:induction false} EarlyBlockDeliversIff(v: Contents, confirmations: nat, block: nat)
    requires Dense(v.logs, v.n) && Nondecreasing(v.logs, v.n) && Matches(v) && |v.delivered| == v.cursor
    requires block <= confirmations
    ensures AllDelivered(v, confirmations, block) <==> !PassesOver(v, confirmations, block)
  {
    if !PassesOver(v, confirmations, block) {
      LateBlockDelivers(v, confirmations, block);
    }
  }

  lemma {:induction false} StillMatches(v: Contents, v': Contents, block: nat)
    requires Matches(v) && v'.logs == v.logs && v'.n == v.n && Dense(v.logs, v.n)
    requires Delivers(v.delivered, v'.delivered, v.cursor, v'.cursor, v.logs, block)
    ensures Matches(v')
  {
    assert v.cursor < v'.cursor ==> v'.cursor - 1 in v.logs;
    forall k | 0 <= k < v'.cursor ensures k in v'.logs && v'.delivered[k].log == v'.logs[k] {
      assert k < v.cursor ==> v'.delivered[k] == v.delivered[k];
    }
  }

  lemma {:induction false} NewBlockKeeps(v: Contents, v': Contents, confirmations: nat, block: nat)
    requires Dense(v.logs, v.n) && v'.logs == v.logs && v'.n == v.n && Exact(v'.delivered, v'.cursor, confirmations)
    requires Delivers(v.delivered, v'.delivered, v.cursor, v'.cursor, v.logs, block)
    requires if block <= confirmations then v' == v
             else v'.cursor in v.logs ==> v.logs[v'.cursor].blockNumber + confirmations > block
    ensures Keeps(v, NewBlock(block), v', confirmations)
  {
    if Matches(v) {
      StillMatches(v, v', block);
      if Nondecreasing(v'.logs, v'.n) {
        if block <= confirmations {
          EarlyBlockDeliversIff(v, confirmations, block);
        } else {
          LateBlockDelivers(v', confirmations, block);
        }
      }
    }
  }

  method Perform(e: Entry, st: Step)
    requires e.Valid()
    modifies e
    ensures e.Valid() && Keeps(old(e.View()), st, e.View(), e.confirmations)
  {
    match st {
      case Store(ls) => e.StoreLogs(ls);
      case Remove(index) => e.RemoveLogs(index);
      case NewBlock(block) =>
        e.OnNewBlock(block);
        NewBlockKeeps(old(e.View()), e.View(), e.confirmations, block);
    }
  }

  /** One of the deliveries from position `from` on. */
  ghost predicate DeliveredSince(delivered: seq<Delivery>, from: nat, x: Delivery) {
    exists j :: from <= j < |delivered| && delivered[j] == x
  }

  /** The logs `ls`, stored from index `first` on, were delivered after the first `from` deliveries, at this block. */
  ghost predicate DeliversAll(delivered: seq<Delivery>, from: nat, first: nat, ls: seq<Log>, block: nat) {
    forall i :: 0 <= i < |ls| ==> DeliveredSince(delivered, from, Delivery(first + i, ls[i], block))
  }

  /** `v` ends with the logs `ls`, stored from index `first` on. */
  ghost predicate EndsWith(v: Contents, first: nat, ls: seq<Log>) {
    && Dense(v.logs, v.n) && first + |ls| == v.n
    && forall i :: 0 <= i < |ls| ==> first + i in v.logs && v.logs[first + i] == ls[i]
  }

  ghost predicate AllConfirmed(ls: seq<Log>, logs: map<nat, Log>, confirmations: nat, block: nat) {
    && (forall k :: k in logs ==> logs[k].blockNumber + confirmations <= block)
    && (forall i :: 0 <= i < |ls| ==> ls[i].blockNumber + confirmations <= block)
  }

  /** The logs from an index on give way to others. */
  method Replace(e: Entry, index: nat, ls: seq<Log>) returns (ghost first: nat)
    requires e.Valid()
    modifies e`logs, e`n
    ensures e.Valid() && first == (if index < old(e.n) then index else old(e.n)) && EndsWith(e.View(), first, ls)
    ensures forall k :: 0 <= k < first ==> k in old(e.logs) && e.logs[k] == old(e.logs)[k]
  {
    e.RemoveLogs(index);
    first := e.n;
    e.StoreLogs(ls);
  }

  lemma {:induction false} StillConfirmed(logs: map<nat, Log>, v: Contents, first: nat, ls: seq<Log>,
                                          confirmations: nat, block: nat)
    requires AllConfirmed(ls, logs, confirmations, block) && EndsWith(v, first, ls)
    requires forall k :: 0 <= k < first ==> k in logs && v.logs[k] == logs[k]
    ensures AllConfirmed(ls, v.logs, confirmations, block)
  {
    forall k | k in v.logs ensures v.logs[k].blockNumber + confirmations <= block {
      if first <= k {
        assert v.logs[first + (k - first)] == ls[k - first];
      }
    }
  }

  /** After a removal the logs stored next are all delivered by a block that confirms everything exactly when they were
      not stored below the cursor and the block is past the confirmations. */
  method StoreAfterRemoval(e: Entry, index: nat, ls: seq<Log>, block: nat) returns (ghost first: nat)
    requires e.Valid() && ls != [] && AllConfirmed(ls, e.logs, e.confirmations, block)
    modifies e
    ensures e.Valid() && first == (if index < old(e.n) then index else old(e.n)) && EndsWith(e.View(), first, ls)
    ensures DeliversAll(e.delivered, old(|e.delivered|), first, ls, block) <==>
              Cursor(old(e.next)) <= first && e.confirmations < block
  {
    ghost var logs := e.logs;
    first := Replace(e, index, ls);
    ghost var v := e.View();
    StillConfirmed(logs, v, first, ls, e.confirmations, block);
    e.OnNewBlock(block);
    DeliveredIff(v, e.View(), first, ls, e.confirmations, block);
  }

  lemma {:induction false} DeliveredFrom(v: Contents, v': Contents, first: nat, ls: seq<Log>, block: nat)
    requires EndsWith(v, first, ls) && Delivers(v.delivered, v'.delivered, v.cursor, v'.cursor, v.logs, block)
    requires v'.cursor !in v.logs && v.cursor <= first
    ensures DeliversAll(v'.delivered, v.cursor, first, ls, block)
  {
    forall i | 0 <= i < |ls| ensures DeliveredSince(v'.delivered, v.cursor, Delivery(first + i, ls[i], block)) {
      assert v'.delivered[first + i] == Delivery(first + i, v.logs[first + i], block);
    }
  }

  lemma {:induction false} DeliveredIff(v: Contents, v': Contents, first: nat, ls: seq<Log>, confirmations: nat,
                                        block: nat)
    requires EndsWith(v, first, ls) && ls != [] && AllConfirmed(ls, v.logs, confirmations, block)
    requires Delivers(v.delivered, v'.delivered, v.cursor, v'.cursor, v.logs, block)
    requires if block <= confirmations then v'.delivered == v.delivered
             else v'.cursor in v.logs ==> v.logs[v'.cursor].blockNumber + confirmations > block
    ensures DeliversAll(v'.delivered, v.cursor, first, ls, block) <==> v.cursor <= first && confirmations < block
  {
    if v.cursor <= first && confirmations < block {
      DeliveredFrom(v, v', first, ls, block);
    } else {
      assert !DeliveredSince(v'.delivered, v.cursor, Delivery(first + 0, ls[0], block));
    }
  }

  /** A log of block 0 that is stored when the block with the number of confirmations arrives is confirmed by it and is
      not delivered. */
  method PassedOver(confirmations: nat, log: Log) returns (e: Entry)
    requires log.blockNumber == 0
    ensures fresh(e) && e.confirmations == confirmations && e.Valid() && e.View() == Contents(map[0 := log], 1, 0, [])
    ensures !AllDelivered(e.View(), confirmations, confirmations)
  {
    e := new Entry(confirmations);
    e.StoreLogs([log]);
    assert e.logs == map[0 := log];
    e.OnNewBlock(confirmations);
    assert 0 in e.logs && e.logs[0].blockNumber + confirmations <= confirmations;
  }

  ghost predicate KeepsAll(trace: seq<Contents>, steps: seq<Step>, confirmations: nat) {
    && |trace| == |steps| + 1
    && forall i :: 0 <= i < |steps| ==> Keeps(trace[i], steps[i], trace[i + 1], confirmations)
  }

  lemma {:induction false} KeepsOn(trace: seq<Contents>, steps: seq<Step>, confirmations: nat, st: Step, v: Contents)
    requires KeepsAll(trace, steps, confirmations) && Keeps(trace[|steps|], st, v, confirmations)
    ensures KeepsAll(trace + [v], steps + [st], confirmations)
  {}

  lemma {:induction false} MatchesUntil(trace: seq<Contents>, steps: seq<Step>, confirmations: nat, k: nat)
    requires KeepsAll(trace, steps, confirmations) && Matches(trace[0]) && k <= |steps|
    requires forall i :: 0 <= i < k ==> !RemovesDelivered(trace[i], steps[i])
    ensures Matches(trace[k])
  {
    if k > 0 {
      MatchesUntil(trace, steps, confirmations, k - 1);
    }
  }

  /** Whole runs from an empty store, of any stores, removals and new blocks: at all times each index below the cursor
      was delivered once, in order and confirmed; and until a delivered log is removed every new block that does not
      pass over one leaves all logs it confirms delivered. */
  method Run(confirmations: nat, steps: seq<Step>) returns (e: Entry, ghost trace: seq<Contents>)
    ensures fresh(e) && e.confirmations == confirmations && e.Valid()
    ensures KeepsAll(trace, steps, confirmations) && trace[|steps|] == e.View() && trace[0] == Contents(map[], 0, 0, [])
    ensures forall k: nat :: k <= |steps| && (forall i :: 0 <= i < k ==> !RemovesDelivered(trace[i], steps[i])) ==>
              Matches(trace[k])
  {
    e := new Entry(confirmations);
    trace := [e.View()];
    for i := 0 to |steps|
      invariant fresh(e) && e.confirmations == confirmations && e.Valid()
      invariant KeepsAll(trace, steps[..i], confirmations) && trace[i] == e.View() &&
                trace[0] == Contents(map[], 0, 0, [])
    {
      Perform(e, steps[i]);
      KeepsOn(trace, steps[..i], confirmations, steps[i], e.View());
      trace := trace + [e.View()];
      assert steps[..i + 1] == steps[..i] + [steps[i]];
    }
    assert steps[..|steps|] == steps;
    forall k: nat | k <= |steps| && (forall i :: 0 <= i < k ==> !RemovesDelivered(trace[i], steps[i]))
      ensures Matches(trace[k])
    {
      MatchesUntil(trace, steps, confirmations, k);
    }
  }
}
