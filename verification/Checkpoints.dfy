/** Checkpoint submission of plgBFT: a submission first sends every epoch-ending block that the rootchain has missed,
    then the latest block, and a failed send is made up for by the next submission. */
module Checkpoints {
  /** A checkpoint transaction: the block and whether it carries the next epoch's validators. */
  datatype Checkpoint = Checkpoint(number: nat, endOfEpoch: bool)

  ghost predicate Ends(epochs: seq<nat>, b: nat) {
    b + 1 < |epochs| && epochs[b] != epochs[b + 1]
  }

  /** The epoch-ending blocks from lo to hi - 1, lowest first. */
  ghost function Pending(epochs: seq<nat>, lo: nat, hi: nat): seq<Checkpoint>
    decreases hi
  {
    if hi <= lo then [] else
      Pending(epochs, lo, hi - 1) + if Ends(epochs, hi - 1) then [Checkpoint(hi - 1, true)] else []
  }

  ghost predicate Increasing(s: seq<Checkpoint>) {
    forall i, j :: 0 <= i < j < |s| ==> s[i].number < s[j].number
  }

  lemma {:induction false} PendingInRange(epochs: seq<nat>, lo: nat, hi: nat)
    ensures forall i :: 0 <= i < |Pending(epochs, lo, hi)| ==> lo <= Pending(epochs, lo, hi)[i].number < hi
    decreases hi
  {
    if lo < hi { PendingInRange(epochs, lo, hi - 1); }
  }

  lemma {:induction false} PendingIncreasing(epochs: seq<nat>, lo: nat, hi: nat)
    ensures Increasing(Pending(epochs, lo, hi))
    decreases hi
  {
    if lo < hi {
      PendingIncreasing(epochs, lo, hi - 1);
      PendingInRange(epochs, lo, hi - 1);
    }
  }

  lemma {:induction false} PendingHas(epochs: seq<nat>, lo: nat, hi: nat, x: Checkpoint)
    ensures x in Pending(epochs, lo, hi) <==> x.endOfEpoch && lo <= x.number < hi && Ends(epochs, x.number)
    decreases hi
  {
    if lo < hi { PendingHas(epochs, lo, hi - 1, x); }
  }

  /** Pending lists exactly the epoch-ending blocks of its range, flagged as such, in increasing order. */
  lemma {:induction false} PendingIsExact(epochs: seq<nat>, lo: nat, hi: nat)
    ensures Increasing(Pending(epochs, lo, hi))
    ensures forall x :: x in Pending(epochs, lo, hi) <==> x.endOfEpoch && lo <= x.number < hi && Ends(epochs, x.number)
  {
    PendingIncreasing(epochs, lo, hi);
    forall x ensures x in Pending(epochs, lo, hi) <==> x.endOfEpoch && lo <= x.number < hi && Ends(epochs, x.number) {
      PendingHas(epochs, lo, hi, x);
    }
  }

  class CheckpointManager {
    const epochs: seq<nat>
    /** The rootchain contract's current checkpoint block, and every transaction it accepted. */
    var current: nat
    var sent: seq<Checkpoint>

    constructor (es: seq<nat>)
      ensures epochs == es && current == 0 && sent == []
    {
      epochs, current, sent := es, 0, [];
    }

    /** encodeAndSendCheckpoint, with the relayer's answer. */
    method Send(x: Checkpoint, ok: bool)
      modifies this
      ensures if ok then sent == old(sent) + [x] && current == x.number
              else sent == old(sent) && current == old(current)
    {
      if ok {
        sent, current := sent + [x], x.number;
      }
    }

    /** The loop that sends the pending epoch-ending blocks, up to the first send that fails. */
    method SendPending(initial: nat, latest: nat, relay: nat -> bool) returns (ok: bool, ghost k: nat)
      requires 1 <= initial < latest < |epochs|
      modifies this
      ensures Sends(old(sent), sent, old(current), current, Pending(epochs, initial, latest), k, relay)
      ensures ok == (k == |Pending(epochs, initial, latest)|)
    {
      var parent := initial;
      k := 0;
      for b := initial + 1 to latest + 1
        invariant parent == b - 1 && k == |Pending(epochs, initial, parent)|
        invariant Sends(old(sent), sent, old(current), current, Pending(epochs, initial, parent), k, relay)
      {
        if b == 1 || epochs[parent] == epochs[b] {
          parent := b;
          continue;
        }
        if !relay(parent) {
          PendingGrows(epochs, initial, b, latest);
          SendsStop(old(sent), sent, old(current), current, Pending(epochs, initial, parent),
                    Pending(epochs, initial, latest), k, relay);
          return false, k;
        }
        SendsOn(old(sent), sent, old(current), current, Pending(epochs, initial, parent), k, relay,
                Checkpoint(parent, true));
        Send(Checkpoint(parent, true), true);
        parent, k := b, k + 1;
      }
      ok := true;
    }

    /** submitCheckpoint: the plan is every missed epoch-ending block and then the latest block; it is sent in order up
        to the first refusal. */
    method SubmitCheckpoint(latest: nat, isEndOfEpoch: bool, relay: nat -> bool) returns (ok: bool, ghost k: nat)
      requires latest < |epochs|
      modifies this
      ensures var plan := Plan(epochs, old(current), latest, isEndOfEpoch);
              Sends(old(sent), sent, old(current), current, plan, k, relay) && ok == (k == |plan|)
    {
      var initial := current + 1;
      ghost var pending := Pending(epochs, initial, latest);
      ok, k := true, 0;
      if initial < latest {
        ok, k := SendPending(initial, latest, relay);
      }
      ghost var last := Checkpoint(latest, isEndOfEpoch);
      if !ok {
        SendsPrefix(old(sent), sent, old(current), current, pending, k, relay, last);
        return;
      }
      ok := relay(latest);
      if ok {
        SendsOn(old(sent), sent, old(current), current, pending, k, relay, last);
        k := k + 1;
      } else {
        SendsStop(old(sent), sent, old(current), current, pending, pending + [last], k, relay);
      }
      Send(Checkpoint(latest, isEndOfEpoch), ok);
    }
  }

  /** What a submission sends when nothing fails. */
  ghost function Plan(epochs: seq<nat>, current: nat, latest: nat, isEndOfEpoch: bool): seq<Checkpoint> {
    Pending(epochs, current + 1, latest) + [Checkpoint(latest, isEndOfEpoch)]
  }

  /** The plan is strictly increasing: exactly the epoch-ending blocks after the last checkpoint and below the latest
      block, flagged as such, and then the latest block with the flag it was submitted with. */
  lemma {:induction false} PlanIsExact(epochs: seq<nat>, current: nat, latest: nat, isEndOfEpoch: bool)
    requires current < latest
    ensures var plan := Plan(epochs, current, latest, isEndOfEpoch);
            && Increasing(plan) && plan[|plan| - 1] == Checkpoint(latest, isEndOfEpoch)
            && forall x :: x in plan <==>
                 || x == Checkpoint(latest, isEndOfEpoch)
                 || (x.endOfEpoch && current < x.number < latest && Ends(epochs, x.number))
  {
    var pending := Pending(epochs, current + 1, latest);
    PendingIsExact(epochs, current + 1, latest);
    assert forall i :: 0 <= i < |pending| ==> pending[i] in pending;
  }

  /** The first k checkpoints of the plan were sent; k is where the relayer first refused one, or the end of the
      plan. */
  ghost predicate Sends(before: seq<Checkpoint>, after: seq<Checkpoint>, current: nat, current': nat,
                        plan: seq<Checkpoint>, k: nat, relay: nat -> bool) {
    && k <= |plan| && after == before + plan[..k] && current' == (if k == 0 then current else plan[k - 1].number)
    && (forall i :: 0 <= i < k ==> relay(plan[i].number)) && (k < |plan| ==> !relay(plan[k].number))
  }

  lemma {:induction false} SendsOn(before: seq<Checkpoint>, after: seq<Checkpoint>, current: nat, current': nat,
                                   plan: seq<Checkpoint>, k: nat, relay: nat -> bool, x: Checkpoint)
    requires Sends(before, after, current, current', plan, k, relay) && k == |plan| && relay(x.number)
    ensures Sends(before, after + [x], current, x.number, plan + [x], k + 1, relay)
  {
    assert plan[..k] == plan && (plan + [x])[..k + 1] == plan + [x];
  }

  lemma {:induction false} SendsStop(before: seq<Checkpoint>, after: seq<Checkpoint>, current: nat, current': nat,
                                     done: seq<Checkpoint>, plan: seq<Checkpoint>, k: nat, relay: nat -> bool)
    requires Sends(before, after, current, current', done, k, relay) && k == |done| && done < plan &&
             !relay(plan[k].number)
    ensures Sends(before, after, current, current', plan, k, relay)
  {
    assert plan[..k] == done[..k];
  }

  lemma {:induction false} SendsPrefix(before: seq<Checkpoint>, after: seq<Checkpoint>, current: nat, current': nat,
                                       plan: seq<Checkpoint>, k: nat, relay: nat -> bool, x: Checkpoint)
    requires Sends(before, after, current, current', plan, k, relay) && k < |plan|
    ensures Sends(before, after, current, current', plan + [x], k, relay)
  {
    assert (plan + [x])[..k] == plan[..k];
  }

  lemma {:induction false} PendingGrows(epochs: seq<nat>, lo: nat, mid: nat, hi: nat)
    requires mid <= hi
    ensures Pending(epochs, lo, mid) <= Pending(epochs, lo, hi)
    decreases hi
  {
    if mid < hi { PendingGrows(epochs, lo, mid, hi - 1); }
  }

  // ---------- Retries ----------

  /** What was sent is strictly increasing up to the current checkpoint and holds every epoch-ending block so far. */
  ghost predicate NoneMissed(epochs: seq<nat>, sent: seq<Checkpoint>, current: nat) {
    && Increasing(sent) && (forall x :: x in sent ==> 0 < x.number <= current)
    && (forall b: nat :: 0 < b <= current && Ends(epochs, b) ==> Checkpoint(b, true) in sent)
  }

  /** What a submission may send: an epoch-ending block flagged as such, or one of the latest blocks with its flag. */
  ghost predicate Due(epochs: seq<nat>, x: Checkpoint, latests: seq<nat>) {
    (x.endOfEpoch && Ends(epochs, x.number)) || (x.number in latests && x.endOfEpoch == Ends(epochs, x.number))
  }

  /** From position n on only such checkpoints were sent. */
  ghost predicate OnlyDue(epochs: seq<nat>, sent: seq<Checkpoint>, n: nat, latests: seq<nat>) {
    n <= |sent| && forall i :: n <= i < |sent| ==> Due(epochs, sent[i], latests)
  }

  lemma {:induction false} PrefixIsDue(epochs: seq<nat>, sent: seq<Checkpoint>, sent': seq<Checkpoint>, n: nat,
                                       latests: seq<nat>, current: nat, current': nat, latest: nat, k: nat,
                                       relay: nat -> bool)
    requires OnlyDue(epochs, sent, n, latests) && current < latest
    requires Sends(sent, sent', current, current', Plan(epochs, current, latest, Ends(epochs, latest)), k, relay)
    ensures OnlyDue(epochs, sent', n, latests + [latest])
  {
    var plan := Plan(epochs, current, latest, Ends(epochs, latest));
    PlanIsExact(epochs, current, latest, Ends(epochs, latest));
    forall i | n <= i < |sent'| ensures Due(epochs, sent'[i], latests + [latest]) {
      if i < |sent| {
        assert sent'[i] == sent[i] && Due(epochs, sent[i], latests);
      } else {
        assert sent'[i] == plan[i - |sent|] && plan[i - |sent|] in plan;
        assert (latests + [latest])[|latests|] == latest;
      }
    }
  }

  /** Sending any first part of a plan misses nothing, so that a retry resumes where the refusal was. */
  lemma {:induction false} PrefixMissesNothing(epochs: seq<nat>, sent: seq<Checkpoint>, sent': seq<Checkpoint>,
                                               current: nat, current': nat, latest: nat, k: nat, relay: nat -> bool)
    requires NoneMissed(epochs, sent, current) && current < latest
    requires Sends(sent, sent', current, current', Plan(epochs, current, latest, Ends(epochs, latest)), k, relay)
    ensures NoneMissed(epochs, sent', current') && current <= current' <= latest
  {
    var plan := Plan(epochs, current, latest, Ends(epochs, latest));
    PlanIsExact(epochs, current, latest, Ends(epochs, latest));
    StillIncreasing(sent, current, plan, k, current');
    forall b: nat | current < b <= current' && Ends(epochs, b) ensures Checkpoint(b, true) in sent' {
      assert Checkpoint(b, true) in plan;
      InFirstPart(plan, Checkpoint(b, true), k);
    }
  }

  lemma {:induction false} StillIncreasing(sent: seq<Checkpoint>, current: nat, plan: seq<Checkpoint>, k: nat,
                                           current': nat)
    requires Increasing(sent) && (forall x :: x in sent ==> 0 < x.number <= current)
    requires Increasing(plan) && (forall x :: x in plan ==> current < x.number)
    requires k <= |plan| && current' == if k == 0 then current else plan[k - 1].number
    ensures Increasing(sent + plan[..k]) && (forall x :: x in sent + plan[..k] ==> 0 < x.number <= current') &&
            current <= current'
  {}

  lemma {:induction false} InFirstPart(plan: seq<Checkpoint>, x: Checkpoint, k: nat)
    requires Increasing(plan) && x in plan && 0 < k <= |plan| && x.number <= plan[k - 1].number
    ensures x in plan[..k]
  {
    var i :| 0 <= i < |plan| && plan[i] == x;
    assert i < k;
    assert plan[..k][i] == x;
  }

  /** Over every run of submissions for growing latest blocks, whatever the relayer refuses, every epoch-ending block up
      to the rootchain's current checkpoint has been sent, in order and once, and besides these only the latest blocks
      of the submissions. */
  method SubmitAll(m: CheckpointManager, latests: seq<nat>, relays: seq<nat -> bool>)
    requires |relays| == |latests| && NoneMissed(m.epochs, m.sent, m.current)
    requires forall i :: 0 <= i < |latests| ==> m.current < latests[i] < |m.epochs|
    requires forall i, j :: 0 <= i < j < |latests| ==> latests[i] < latests[j]
    modifies m
    ensures NoneMissed(m.epochs, m.sent, m.current)
    ensures old(m.sent) <= m.sent && OnlyDue(m.epochs, m.sent, |old(m.sent)|, latests)
  {
    for i := 0 to |latests|
      invariant NoneMissed(m.epochs, m.sent, m.current) && old(m.sent) <= m.sent
      invariant OnlyDue(m.epochs, m.sent, |old(m.sent)|, latests[..i])
      invariant forall j :: i <= j < |latests| ==> m.current < latests[j]
    {
      SubmitLatest(m, latests[i], relays[i], |old(m.sent)|, latests[..i]);
      assert latests[..i] + [latests[i]] == latests[..i + 1];
    }
    assert latests[..|latests|] == latests;
  }

  /** A submission as PostBlock makes it, for an epoch-ending block or not. */
  method SubmitLatest(m: CheckpointManager, latest: nat, relay: nat -> bool, ghost n: nat, ghost latests: seq<nat>)
    requires NoneMissed(m.epochs, m.sent, m.current) && m.current < latest < |m.epochs|
    requires OnlyDue(m.epochs, m.sent, n, latests)
    modifies m
    ensures NoneMissed(m.epochs, m.sent, m.current) && m.current <= latest && old(m.sent) <= m.sent
    ensures OnlyDue(m.epochs, m.sent, n, latests + [latest])
  {
    ghost var sent, current := m.sent, m.current;
    var isEnd := latest + 1 < |m.epochs| && m.epochs[latest] != m.epochs[latest + 1];
    var _, k := m.SubmitCheckpoint(latest, isEnd, relay);
    PrefixMissesNothing(m.epochs, sent, m.sent, current, m.current, latest, k, relay);
    PrefixIsDue(m.epochs, sent, m.sent, n, latests, current, m.current, latest, k, relay);
  }
}
