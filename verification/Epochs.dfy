/** Uptime accounting of plgBFT: each epoch's commit input walks back over headers and counts who signed their parents.
    Across all epochs of a run every block's commit signature is counted exactly once. */
module Epochs {
  import opened Common

  type Address = nat

  const COMMIT_EPOCH_LOOKBACK_SIZE: nat := 2

  /** A header as the runtime reads it: the epoch in its checkpoint data and the bitmap of its parent's signers. */
  datatype Block = Block(epoch: nat, bitmap: seq<bool>)

  /** The blocks by number, the validators after each block (GetValidators), and the configured epoch size. */
  datatype Chain = Chain(blocks: seq<Block>, validators: seq<seq<Address>>, size: nat)

  // ---------- Epochs of a fixed size ----------

  function First(size: nat, e: nat): (n: nat)
    ensures n >= 1
  {
    if e <= 1 then 1 else First(size, e - 1) + size
  }

  lemma {:induction false} FirstGrows(size: nat, e: nat, f: nat)
    requires 1 <= e <= f
    ensures First(size, e) <= First(size, f) && (e < f ==> First(size, e) + size <= First(size, f))
    decreases f
  {
    if e < f { FirstGrows(size, e, f - 1); }
  }

  /** Block n lies in epoch e. */
  ghost predicate Within(size: nat, e: nat, n: nat) {
    1 <= e && First(size, e) <= n < First(size, e + 1)
  }

  lemma {:induction false} OneEpoch(size: nat, e: nat, f: nat, n: nat)
    requires Within(size, e, n) && Within(size, f, n)
    ensures e == f
  {
    if e < f { FirstGrows(size, e + 1, f); }
    if f < e { FirstGrows(size, f + 1, e); }
  }

  predicate IsSet(bitmap: seq<bool>, i: nat) {
    i < |bitmap| && bitmap[i]
  }

  ghost predicate Fits(bitmap: seq<bool>, validators: seq<Address>) {
    forall i :: |validators| <= i < |bitmap| ==> !bitmap[i]
  }

  ghost predicate Distinct(xs: seq<Address>) {
    forall i, j :: 0 <= i < j < |xs| ==> xs[i] != xs[j]
  }

  /** The bitmap of block n fits the validators after block n - 2, against which its signatures were checked. */
  ghost predicate Checked(c: Chain) {
    && |c.blocks| == |c.validators|
    && (forall n :: 2 <= n < |c.blocks| ==> Fits(c.blocks[n].bitmap, c.validators[n - 2]))
    && (forall n :: 0 <= n < |c.blocks| ==> Distinct(c.validators[n]))
  }

  /** Epochs change on schedule, and the validator set only at an epoch's last block. */
  ghost predicate Scheduled(c: Chain) {
    && |c.blocks| == |c.validators| && c.size >= 1 && (|c.blocks| > 0 ==> c.blocks[0].epoch == 0)
    && (forall n :: 1 <= n < |c.blocks| ==> Within(c.size, c.blocks[n].epoch, n))
    && (forall n :: 1 <= n < |c.blocks| && n + 1 < First(c.size, c.blocks[n].epoch + 1) ==>
        c.validators[n] == c.validators[n - 1])
  }

  /** Up to its last block an epoch is run by the validators after the block before its first. */
  lemma {:induction false} SameValidators(c: Chain, e: nat, n: nat)
    requires Scheduled(c) && 1 <= e && First(c.size, e) - 1 <= n < First(c.size, e + 1) - 1 && n < |c.blocks|
    ensures c.validators[n] == c.validators[First(c.size, e) - 1]
    decreases n
  {
    if First(c.size, e) - 1 < n {
      OneEpoch(c.size, e, c.blocks[n].epoch, n);
      SameValidators(c, e, n - 1);
    }
  }

  // ---------- Who signed ----------

  ghost predicate Signs(validators: seq<Address>, bitmap: seq<bool>, a: Address) {
    exists i :: 0 <= i < |validators| && validators[i] == a && IsSet(bitmap, i)
  }

  /** `a` signed block b: its bit is set in the next header, among the validators that verified it. */
  ghost predicate Signed(c: Chain, b: nat, a: Address)
    requires 1 <= b && b + 1 < |c.blocks| && |c.blocks| == |c.validators|
  {
    Signs(c.validators[b - 1], c.blocks[b + 1].bitmap, a)
  }

  /** How many of the blocks from lo to hi - 1 were signed by `a`. */
  ghost function SignedIn(c: Chain, lo: nat, hi: nat, a: Address): nat
    requires 1 <= lo <= hi && |c.blocks| == |c.validators| && (lo < hi ==> hi < |c.blocks|)
    decreases hi - lo
  {
    if lo == hi then 0 else SignedIn(c, lo + 1, hi, a) + if Signed(c, lo, a) then 1 else 0
  }

  lemma {:induction false} SignedInSplits(c: Chain, lo: nat, mid: nat, hi: nat, a: Address)
    requires 1 <= lo <= mid <= hi && |c.blocks| == |c.validators| && (lo < hi ==> hi < |c.blocks|)
    ensures SignedIn(c, lo, hi, a) == SignedIn(c, lo, mid, a) + SignedIn(c, mid, hi, a)
    decreases mid - lo
  {
    if lo < mid { SignedInSplits(c, lo + 1, mid, hi, a); }
  }

  lemma {:induction false} SignedAtMost(c: Chain, lo: nat, hi: nat, a: Address)
    requires 1 <= lo <= hi && |c.blocks| == |c.validators| && (lo < hi ==> hi < |c.blocks|)
    ensures SignedIn(c, lo, hi, a) <= hi - lo
    decreases hi - lo
  {
    if lo < hi { SignedAtMost(c, lo + 1, hi, a); }
  }

  // ---------- Counting ----------

  function Count(counter: map<Address, nat>, a: Address): nat {
    if a in counter then counter[a] else 0
  }

  /** AccountSet.GetFilteredValidators: the validators whose bit is set; a bit beyond a nonempty set is an error. */
  method GetFilteredValidators(validators: seq<Address>, bitmap: seq<bool>) returns (r: Result<seq<Address>>)
    ensures r.Error? <==> validators != [] && !Fits(bitmap, validators)
    ensures r.Ok? ==> forall a :: a in r.value <==> Signs(validators, bitmap, a)
    ensures r.Ok? && Distinct(validators) ==> Distinct(r.value)
  {
    var filtered: seq<Address> := [];
    if |validators| == 0 {
      return Ok(filtered);
    }
    if |bitmap| > |validators| {
      for i := |validators| to |bitmap|
        invariant forall j :: |validators| <= j < i ==> !bitmap[j]
      {
        if IsSet(bitmap, i) {
          return Error("invalid bitmap filter provided");
        }
      }
    }
    for i := 0 to |validators|
      invariant forall a :: a in filtered <==> Signs(validators[..i], bitmap, a)
      invariant Distinct(validators) ==> Distinct(filtered)
    {
      SignsNext(validators, bitmap, i);
      if IsSet(bitmap, i) {
        assert Distinct(validators) ==> validators[i] !in filtered;
        filtered := filtered + [validators[i]];
      }
    }
    assert validators[..|validators|] == validators;
    r := Ok(filtered);
  }

  lemma {:induction false} SignsNext(validators: seq<Address>, bitmap: seq<bool>, i: nat)
    requires i < |validators|
    ensures forall a :: Signs(validators[..i + 1], bitmap, a) <==>
                        Signs(validators[..i], bitmap, a) || (IsSet(bitmap, i) && a == validators[i])
  {
    forall a ensures Signs(validators[..i + 1], bitmap, a) <==>
                     Signs(validators[..i], bitmap, a) || (IsSet(bitmap, i) && a == validators[i])
    {
      if Signs(validators[..i], bitmap, a) {
        var j :| 0 <= j < i && validators[..i][j] == a && IsSet(bitmap, j);
        assert validators[..i + 1][j] == a;
      }
      if IsSet(bitmap, i) && a == validators[i] {
        assert validators[..i + 1][i] == a;
      }
      if Signs(validators[..i + 1], bitmap, a) {
        var j :| 0 <= j < i + 1 && validators[..i + 1][j] == a && IsSet(bitmap, j);
        assert j < i ==> validators[..i][j] == a;
      }
    }
  }

  /** The counter holds, for every address, how many of the blocks from lo to hi - 1 it signed. */
  ghost predicate Tally(c: Chain, counter: map<Address, nat>, lo: nat, hi: nat)
    requires 1 <= lo <= hi && |c.blocks| == |c.validators| && (lo < hi ==> hi < |c.blocks|)
  {
    forall a :: Count(counter, a) == SignedIn(c, lo, hi, a)
  }

  /** getSealersForBlock: every signer's count goes up by one. */
  method CountSealers(counter: map<Address, nat>, signers: seq<Address>) returns (counter': map<Address, nat>)
    requires Distinct(signers)
    ensures forall a :: Count(counter', a) == Count(counter, a) + if a in signers then 1 else 0
  {
    counter' := counter;
    for i := 0 to |signers|
      invariant forall a :: Count(counter', a) == Count(counter, a) + if a in signers[..i] then 1 else 0
    {
      assert signers[..i + 1] == signers[..i] + [signers[i]];
      assert signers[i] !in signers[..i];
      counter' := counter'[signers[i] := Count(counter', signers[i]) + 1];
    }
    assert signers[..|signers|] == signers;
  }

  /** Counting the signers recorded in the header of block n, who signed block n - 1. */
  method CountHeader(c: Chain, counter: map<Address, nat>, n: nat, ghost hi: nat, validators: seq<Address>)
    returns (counter': map<Address, nat>)
    requires Checked(c) && 2 <= n <= hi && n < |c.blocks| && (n < hi ==> hi < |c.blocks|)
    requires validators == c.validators[n - 2] && Tally(c, counter, n, hi)
    ensures Tally(c, counter', n - 1, hi)
  {
    var signers := GetFilteredValidators(validators, c.blocks[n].bitmap);
    counter' := CountSealers(counter, signers.value);
    forall a ensures Count(counter', a) == SignedIn(c, n - 1, hi, a) {
      assert Signed(c, n - 1, a) <==> a in signers.value;
    }
  }

  // ---------- The commit input of an epoch ----------

  /** epochMetadata. */
  datatype Epoch = Epoch(number: nat, first: nat, validators: seq<Address>)

  /** Epoch metadata that restartEpoch built. */
  ghost predicate Current(c: Chain, epoch: Epoch) {
    && epoch.number >= 1 && epoch.first == First(c.size, epoch.number)
    && epoch.first <= |c.validators| && epoch.validators == c.validators[epoch.first - 1]
  }

  datatype Uptime = Uptime(epochID: nat, counter: map<Address, nat>, totalBlocks: nat)

  /** The lowest block whose signatures a walk that stops at header s counts. */
  function Lowest(s: nat): (lo: nat)
    ensures lo >= 1
  {
    if s > COMMIT_EPOCH_LOOKBACK_SIZE then s - COMMIT_EPOCH_LOOKBACK_SIZE else if s == 0 then 1 else s
  }

  function Max(a: nat, b: nat): nat {
    if a < b then b else a
  }

  function Min(a: nat, b: nat): nat {
    if a < b then a else b
  }

  /** The epoch's validators verified every block it counts itself. */
  ghost predicate OwnSet(c: Chain, current: nat, epoch: Epoch) {
    current < |c.validators| && forall n: nat :: epoch.first <= n + 1 < current ==> c.validators[n] == epoch.validators
  }

  lemma {:induction false} OwnValidators(c: Chain, current: nat, epoch: Epoch)
    requires Scheduled(c) && current < |c.blocks| && Current(c, epoch) && current + 2 == epoch.first + c.size
    ensures OwnSet(c, current, epoch)
  {
    forall n: nat | epoch.first <= n + 1 < current ensures c.validators[n] == epoch.validators {
      SameValidators(c, epoch.number, n);
    }
  }

  /** The walk over the epoch's own blocks, against the epoch's validators. */
  method CountOwnBlocks(c: Chain, current: nat, epoch: Epoch) returns (counter: map<Address, nat>, total: nat, n: nat)
    requires Checked(c) && OwnSet(c, current, epoch) && epoch.first >= 1
    ensures n == Min(epoch.first, current)
    ensures Tally(c, counter, Max(1, n), Max(1, current)) && total == Max(1, current) - Max(1, n)
  {
    counter, total, n := map[], 0, current;
    while n > epoch.first
      invariant Min(epoch.first, current) <= n <= current
      invariant Tally(c, counter, Max(1, n), Max(1, current)) && total == Max(1, current) - Max(1, n)
    {
      counter := CountHeader(c, counter, n, current, epoch.validators);
      total, n := total + 1, n - 1;
    }
  }

  /** The two headers of the previous epoch whose parents' signatures it could not count itself. */
  method LookBack(c: Chain, counter: map<Address, nat>, total: nat, s: nat, ghost hi: nat)
    returns (counter': map<Address, nat>, total': nat)
    requires Checked(c) && COMMIT_EPOCH_LOOKBACK_SIZE < s <= hi < |c.blocks| && Tally(c, counter, s, hi) &&
             total == hi - s
    ensures Tally(c, counter', s - 2, hi) && total' == hi - (s - 2)
  {
    counter', total' := counter, total;
    for i := 0 to COMMIT_EPOCH_LOOKBACK_SIZE
      invariant Tally(c, counter', s - i, hi) && total' == hi - (s - i)
    {
      counter' := CountHeader(c, counter', s - i, hi, c.validators[s - i - 2]);
      total' := total' + 1;
    }
  }

  /** What the commit input of an epoch counts when block `current` is the last built. */
  ghost predicate Counts(c: Chain, u: Uptime, first: nat, current: nat)
    requires |c.blocks| == |c.validators| && current < |c.blocks|
  {
    var lo := Lowest(Min(first, current));
    Tally(c, u.counter, lo, Max(lo, current)) && u.totalBlocks == Max(lo, current) - lo
  }

  /** The two loops of calculateCommitEpochInput. */
  method CountBlocks(c: Chain, current: nat, epoch: Epoch) returns (u: Uptime)
    requires Checked(c) && OwnSet(c, current, epoch) && epoch.first >= 1
    ensures Counts(c, u, epoch.first, current) && u.epochID == epoch.number
  {
    var counter, total, n := CountOwnBlocks(c, current, epoch);
    if n > COMMIT_EPOCH_LOOKBACK_SIZE {
      counter, total := LookBack(c, counter, total, n, current);
    }
    u := Uptime(epoch.number, counter, total);
  }

  /** calculateCommitEpochInput: counts the signers of one stretch of blocks, each against the set that verified it. */
  method CalculateCommitEpochInput(c: Chain, current: nat, epoch: Epoch) returns (u: Uptime)
    requires Checked(c) && Scheduled(c) && current < |c.blocks| && Current(c, epoch) &&
             current + 2 == epoch.first + c.size
    ensures Counts(c, u, epoch.first, current) && u.epochID == epoch.number
  {
    OwnValidators(c, current, epoch);
    u := CountBlocks(c, current, epoch);
  }

  /** No validator is credited with more blocks than were counted. */
  lemma {:induction false} NoneExceedsTotal(c: Chain, u: Uptime, first: nat, current: nat, a: Address)
    requires |c.blocks| == |c.validators| && current < |c.blocks| && Counts(c, u, first, current)
    ensures Count(u.counter, a) <= u.totalBlocks
  {
    var lo := Lowest(Min(first, current));
    SignedAtMost(c, lo, Max(lo, current), a);
  }

  // ---------- The runtime over a run of blocks ----------

  /** getFirstBlockOfEpoch: after an epoch's last block the next one, otherwise found by walking back. */
  method GetFirstBlockOfEpoch(c: Chain, epochNumber: nat, latest: nat) returns (first: nat)
    requires latest < |c.blocks| && c.blocks[0].epoch == 0 && (latest > 0 ==> c.blocks[latest].epoch > 0)
    ensures latest == 0 || epochNumber != c.blocks[latest].epoch ==> first == latest + 1
    ensures latest > 0 && epochNumber == c.blocks[latest].epoch ==>
              && 1 <= first <= latest && c.blocks[first - 1].epoch != epochNumber
              && (forall n :: first <= n <= latest ==> c.blocks[n].epoch == epochNumber)
  {
    if latest == 0 {
      return 1;
    }
    if epochNumber != c.blocks[latest].epoch {
      return latest + 1;
    }
    var n := latest;
    first := 0;
    while c.blocks[n].epoch == epochNumber
      invariant n <= latest && (n < latest ==> first == n + 1)
      invariant forall m :: n < m <= latest ==> c.blocks[m].epoch == epochNumber
      decreases n
    {
      first, n := n, n - 1;
    }
  }

  /** On a scheduled chain the walk finds the scheduled first block. */
  lemma {:induction false} WalkFindsFirst(c: Chain, latest: nat, first: nat)
    requires Scheduled(c) && 1 <= first <= latest < |c.blocks|
    requires c.blocks[first - 1].epoch != c.blocks[latest].epoch
    requires forall n :: first <= n <= latest ==> c.blocks[n].epoch == c.blocks[latest].epoch
    ensures first == First(c.size, c.blocks[latest].epoch)
  {
    var e := c.blocks[latest].epoch;
    assert c.blocks[first].epoch == e && Within(c.size, e, first);
    if First(c.size, e) < first {
      OneEpoch(c.size, e, c.blocks[first - 1].epoch, first - 1);
    }
  }

  /** The epoch id in the system state after block n: the next epoch's after an epoch's last block. */
  function StateEpoch(c: Chain, n: nat): nat
    requires n < |c.blocks|
  {
    if n == 0 then 1 else c.blocks[n].epoch + if n + 1 == First(c.size, c.blocks[n].epoch + 1) then 1 else 0
  }

  /** The metadata are those of the epoch that block `n` + 1 belongs to. */
  ghost predicate Follows(c: Chain, epoch: Epoch, n: nat) {
    Current(c, epoch) && epoch.first <= n + 1 < epoch.first + c.size
  }

  /** restartEpoch after block n: the last epoch if it is still running, otherwise new metadata. */
  method RestartEpoch(c: Chain, last: Option<Epoch>, n: nat) returns (epoch: Epoch)
    requires Scheduled(c) && n < |c.blocks| && (last.Some? ==> Current(c, last.value))
    ensures Follows(c, epoch, n) && epoch.number == StateEpoch(c, n)
  {
    var number := StateEpoch(c, n);
    assert n > 0 ==> Within(c.size, c.blocks[n].epoch, n);
    if last.Some? && last.value.number == number {
      return last.value;
    }
    var first := GetFirstBlockOfEpoch(c, number, n);
    if n > 0 && number == c.blocks[n].epoch {
      WalkFindsFirst(c, n, first);
      SameValidators(c, number, n);
    }
    epoch := Epoch(number, first, c.validators[n]);
  }

  ghost function Credits(inputs: seq<Uptime>, a: Address): nat {
    if inputs == [] then 0 else Credits(inputs[..|inputs| - 1], a) + Count(inputs[|inputs| - 1].counter, a)
  }

  class Runtime {
    const c: Chain
    var epoch: Epoch
    var lastBuilt: nat

    ghost predicate Valid()
      reads this
    {
      lastBuilt < |c.blocks| && Follows(c, epoch, lastBuilt)
    }

    constructor (chain: Chain, n: nat)
      requires Scheduled(chain) && n < |chain.blocks|
      ensures Valid() && c == chain && lastBuilt == n
    {
      var e := RestartEpoch(chain, None, n);
      c, epoch, lastBuilt := chain, e, n;
    }

    /** OnBlockInserted: blocks already handled are ignored, and an epoch's last block starts the next one. */
    method OnBlockInserted(n: nat)
      requires Scheduled(c) && Valid() && n <= lastBuilt + 1 && n < |c.blocks|
      modifies this
      ensures Valid() && lastBuilt == if old(lastBuilt) < n then n else old(lastBuilt)
      ensures if n == old(lastBuilt) + 1 && n + 1 == old(epoch).first + c.size
              then epoch.number == old(epoch).number + 1
              else epoch == old(epoch)
    {
      if lastBuilt >= n {
        return;
      }
      if epoch.first + c.size - 1 == n {
        OneEpoch(c.size, epoch.number, c.blocks[n].epoch, n);
        epoch := RestartEpoch(c, Some(epoch), n);
      }
      lastBuilt := n;
    }

    /** FSM: the commit input that goes into the pending block, if it is an epoch's last. */
    method CommitEpochInput() returns (u: Option<Uptime>)
      requires Checked(c) && Scheduled(c) && Valid()
      ensures u.Some? <==> lastBuilt + 2 == epoch.first + c.size
      ensures u.Some? ==> Counts(c, u.value, epoch.first, lastBuilt) && u.value.epochID == epoch.number
    {
      if epoch.first + c.size - 1 == lastBuilt + 1 {
        var uptime := CalculateCommitEpochInput(c, lastBuilt, epoch);
        return Some(uptime);
      }
      u := None;
    }

    /** The next block is built with its commit input and inserted. */
    method Build() returns (u: Option<Uptime>)
      requires Checked(c) && Scheduled(c) && Valid() && lastBuilt + 1 < |c.blocks|
      modifies this
      ensures Valid() && lastBuilt == old(lastBuilt) + 1 && Builds(c, old(epoch), old(lastBuilt), u, epoch)
    {
      u := CommitEpochInput();
      OnBlockInserted(lastBuilt + 1);
    }
  }

  /** What one more block leaves: the input it carries and the epoch after it. */
  ghost predicate Builds(c: Chain, epoch: Epoch, current: nat, u: Option<Uptime>, next: Epoch)
    requires |c.blocks| == |c.validators| && current < |c.blocks|
  {
    && Current(c, epoch) && Current(c, next) && (u.None? ==> next == epoch)
    && (u.Some? ==> next.number == epoch.number + 1 && current + 2 == epoch.first + c.size)
    && (u.Some? ==> Counts(c, u.value, epoch.first, current) && u.value.epochID == epoch.number)
  }

  /** The inputs so far credit every address once for every block it signed, up to the first block still to come. */
  ghost predicate Balanced(c: Chain, inputs: seq<Uptime>, first: nat) {
    && |c.blocks| == |c.validators| && (1 < Lowest(first) ==> Lowest(first) < |c.blocks|)
    && forall a :: Credits(inputs, a) == SignedIn(c, 1, Lowest(first), a)
  }

  /** An epoch of size at least two continues the account exactly where the last one stopped. */
  lemma {:induction false} BalancedOn(c: Chain, inputs: seq<Uptime>, u: Uptime, first: nat, current: nat)
    requires Balanced(c, inputs, first) && c.size >= 2 && first >= 1 && current + 2 == first + c.size &&
             current < |c.blocks|
    requires first == 1 || first > 2
    requires Counts(c, u, first, current)
    ensures Balanced(c, inputs + [u], first + c.size)
    ensures u.totalBlocks == if first == 1 then c.size - 2 else c.size
  {
    var lo := Lowest(first);
    assert Min(first, current) == first && Max(lo, current) == current == Lowest(first + c.size);
    forall a ensures Credits(inputs + [u], a) == SignedIn(c, 1, current, a) {
      assert (inputs + [u])[..|inputs|] == inputs;
      SignedInSplits(c, 1, lo, current, a);
    }
  }

  lemma {:induction false} FirstIsOneOrLate(size: nat, e: nat)
    requires size >= 2 && e >= 1
    ensures First(size, e) == 1 || First(size, e) > 2
  {
    if e > 1 { FirstGrows(size, 1, e); }
  }

  /** Every run from the genesis: for each address, the uptimes committed for all finished epochs add up to the number
      of blocks it signed, each block counted once; the first epoch counts size - 2 blocks and every later one size. */
  method RunChain(c: Chain) returns (inputs: seq<Uptime>, r: Runtime)
    requires Checked(c) && Scheduled(c) && c.size >= 2 && |c.blocks| > 0
    ensures fresh(r) && r.Valid() && r.c == c && r.lastBuilt == |c.blocks| - 1
    ensures Account(c, inputs, r.epoch)
  {
    r := new Runtime(c, 0);
    inputs := [];
    while r.lastBuilt + 1 < |c.blocks|
      invariant fresh(r) && r.c == c && r.Valid() && Account(c, inputs, r.epoch)
      decreases |c.blocks| - r.lastBuilt
    {
      inputs := BuildNext(r, inputs);
    }
  }

  /** The inputs of all epochs before `epoch`, in order. */
  ghost predicate Account(c: Chain, inputs: seq<Uptime>, epoch: Epoch) {
    && Balanced(c, inputs, epoch.first) && |inputs| == epoch.number - 1
    && forall i :: 0 <= i < |inputs| ==>
         inputs[i].epochID == i + 1 && inputs[i].totalBlocks == c.size - if i == 0 then 2 else 0
  }

  lemma {:induction false} AccountOn(c: Chain, inputs: seq<Uptime>, u: Uptime, epoch: Epoch, next: Epoch)
    requires Account(c, inputs, epoch) && Balanced(c, inputs + [u], next.first) && next.number == epoch.number + 1
    requires u.epochID == epoch.number && u.totalBlocks == c.size - if |inputs| == 0 then 2 else 0
    ensures Account(c, inputs + [u], next)
  {}

  /** The uptime committed at the end of an epoch. */
  lemma {:induction false} AccountNext(c: Chain, inputs: seq<Uptime>, u: Uptime, epoch: Epoch, current: nat,
                                       next: Epoch)
    requires Account(c, inputs, epoch) && c.size >= 2 && Current(c, epoch) && Current(c, next)
    requires next.number == epoch.number + 1 && current + 2 == epoch.first + c.size && current < |c.blocks|
    requires Counts(c, u, epoch.first, current) && u.epochID == epoch.number
    ensures Account(c, inputs + [u], next)
  {
    FirstIsOneOrLate(c.size, epoch.number);
    BalancedOn(c, inputs, u, epoch.first, current);
    if epoch.number > 1 { FirstGrows(c.size, 1, epoch.number); }
    AccountOn(c, inputs, u, epoch, next);
  }

  method Append(c: Chain, inputs: seq<Uptime>, u: Option<Uptime>, ghost epoch: Epoch, ghost current: nat,
                ghost next: Epoch)
    returns (inputs': seq<Uptime>)
    requires Account(c, inputs, epoch) && c.size >= 2 && current < |c.blocks| && Builds(c, epoch, current, u, next)
    ensures Account(c, inputs', next)
  {
    inputs' := inputs;
    if u.Some? {
      AccountNext(c, inputs, u.value, epoch, current, next);
      inputs' := inputs + [u.value];
    }
  }

  /** One block of the run. */
  method BuildNext(r: Runtime, inputs: seq<Uptime>) returns (inputs': seq<Uptime>)
    requires Checked(r.c) && Scheduled(r.c) && r.Valid() && r.c.size >= 2 && Account(r.c, inputs, r.epoch) &&
             r.lastBuilt + 1 < |r.c.blocks|
    modifies r
    ensures r.Valid() && Account(r.c, inputs', r.epoch) && r.lastBuilt == old(r.lastBuilt) + 1
  {
    ghost var epoch, current := r.epoch, r.lastBuilt;
    var u := r.Build();
    inputs' := Append(r.c, inputs, u, epoch, current, r.epoch);
  }

  // ---------- Epochs of one block ----------

  /** After `n` inputs the blocks 1 to n - 3 and once more the blocks 2 to n - 2 have been counted. */
  ghost predicate Doubled(c: Chain, inputs: seq<Uptime>) {
    var n := |inputs|;
    && n < |c.blocks| == |c.validators|
    && forall a :: Credits(inputs, a) == if n < 4 then 0 else SignedIn(c, 1, n - 2, a) + SignedIn(c, 2, n - 1, a)
  }

  lemma {:induction false} DoubledOn(c: Chain, inputs: seq<Uptime>, u: Uptime)
    requires Doubled(c, inputs) && |inputs| + 1 < |c.blocks| && Counts(c, u, |inputs| + 1, |inputs|)
    ensures Doubled(c, inputs + [u])
  {
    var n := |inputs|;
    forall a ensures Credits(inputs + [u], a) ==
                     if n < 3 then 0 else SignedIn(c, 1, n - 1, a) + SignedIn(c, 2, n, a)
    {
      assert (inputs + [u])[..n] == inputs;
      if n >= 3 {
        assert Lowest(n) == n - 2;
        SignedInSplits(c, n - 2, n - 1, n, a);
        SignedInSplits(c, 1, n - 2, n - 1, a);
        SignedInSplits(c, 2, n - 1, n, a);
      }
    }
  }

  /** With epochs of a single block every epoch looks back over the same two headers as its neighbours: from the fourth
      input on all signatures but those of the first and the last counted block are counted twice. */
  method RunSizeOne(c: Chain) returns (inputs: seq<Uptime>, r: Runtime)
    requires Checked(c) && Scheduled(c) && c.size == 1 && |c.blocks| > 0
    ensures fresh(r) && r.Valid() && r.c == c && r.lastBuilt == |c.blocks| - 1
    ensures |inputs| == |c.blocks| - 1 && Doubled(c, inputs)
  {
    r := new Runtime(c, 0);
    inputs := [];
    while r.lastBuilt + 1 < |c.blocks|
      invariant fresh(r) && r.c == c && r.Valid() && |inputs| == r.lastBuilt && Doubled(c, inputs)
      decreases |c.blocks| - r.lastBuilt
    {
      var u := r.Build();
      DoubledOn(c, inputs, u.value);
      inputs := inputs + [u.value];
    }
  }
}
