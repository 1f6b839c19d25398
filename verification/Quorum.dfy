/** IBFT quorums over validator sets: sets keep distinct addresses, and quorum sizes guarantee that any two quorums
    share an honest validator and that enough validators remain when the faulty ones are silent. */
module Quorum {
  import opened Common

  type Address = nat

  datatype Validator = Validator(kind: nat, address: Address)

  datatype Outcome = Done | MismatchValidatorType | MismatchValidatorsType | ValidatorAlreadyExists | ValidatorNotFound

  ghost predicate Distinct(vs: seq<Validator>) {
    forall i, j :: 0 <= i < j < |vs| ==> vs[i].address != vs[j].address
  }

  ghost function Addresses(vs: seq<Validator>): set<Address> {
    set i | 0 <= i < |vs| :: vs[i].address
  }

  /** With distinct addresses Len counts validators. */
  lemma {:induction false} LenCounts(vs: seq<Validator>)
    requires Distinct(vs)
    ensures |Addresses(vs)| == |vs|
    decreases |vs|
  {
    if vs != [] {
      var n := |vs| - 1;
      LenCounts(vs[..n]);
      assert Addresses(vs) == Addresses(vs[..n]) + {vs[n].address};
      assert vs[n].address !in Addresses(vs[..n]);
    }
  }

  class Set {
    const kind: nat
    var validators: seq<Validator>

    ghost predicate Valid()
      reads this
    {
      Distinct(validators) && forall i :: 0 <= i < |validators| ==> validators[i].kind == kind
    }

    constructor (k: nat)
      ensures Valid() && kind == k && validators == []
    {
      kind, validators := k, [];
    }

    method Index(addr: Address) returns (i: int)
      ensures if addr in Addresses(validators) then 0 <= i < |validators| && validators[i].address == addr else i == -1
    {
      for k := 0 to |validators|
        invariant forall j :: 0 <= j < k ==> validators[j].address != addr
      {
        if validators[k].address == addr {
          return k;
        }
      }
      i := -1;
    }

    /** Add refuses a validator of another type or with a known address. */
    method Add(v: Validator) returns (r: Outcome)
      requires Valid()
      modifies this
      ensures Valid()
      ensures r == if v.kind != kind then MismatchValidatorType
                   else if v.address in Addresses(old(validators)) then ValidatorAlreadyExists else Done
      ensures validators == old(validators) + if r.Done? then [v] else []
    {
      if v.kind != kind {
        return MismatchValidatorType;
      }
      var i := Index(v.address);
      if i != -1 {
        return ValidatorAlreadyExists;
      }
      validators := validators + [v];
      r := Done;
    }

    /** Del removes exactly the validator with the address. */
    method Del(v: Validator) returns (r: Outcome)
      requires Valid()
      modifies this
      ensures Valid()
      ensures r == if v.kind != kind then MismatchValidatorType
                   else if v.address !in Addresses(old(validators)) then ValidatorNotFound else Done
      ensures validators == if r.Done? then Without(old(validators), v.address) else old(validators)
      ensures r.Done? ==> Addresses(validators) == Addresses(old(validators)) - {v.address}
    {
      if v.kind != kind {
        return MismatchValidatorType;
      }
      var i := Index(v.address);
      if i == -1 {
        return ValidatorNotFound;
      }
      Removed(validators, i);
      RemovedIsWithout(validators, i);
      validators := validators[..i] + validators[i + 1..];
      r := Done;
    }

    /** Merge adds the validators that are not there yet, keeping those that are. */
    method Merge(other: seq<Validator>, otherKind: nat) returns (r: Outcome)
      requires Valid() && forall i :: 0 <= i < |other| ==> other[i].kind == otherKind
      modifies this
      ensures Valid() && old(validators) <= validators
      ensures r == if otherKind != kind then MismatchValidatorsType else Done
      ensures forall i :: |old(validators)| <= i < |validators| ==> validators[i] in other
      ensures if r.Done? then Addresses(validators) == Addresses(old(validators)) + Addresses(other)
              else validators == old(validators)
    {
      if otherKind != kind {
        return MismatchValidatorsType;
      }
      for i := 0 to |other|
        invariant Valid() && old(validators) <= validators
        invariant forall k :: |old(validators)| <= k < |validators| ==> validators[k] in other
        invariant Addresses(validators) == Addresses(old(validators)) + Addresses(other[..i])
      {
        var at := Index(other[i].address);
        AddressesPush(other[..i], other[i]);
        assert other[..i + 1] == other[..i] + [other[i]];
        if at == -1 {
          AddressesPush(validators, other[i]);
          var _ := Add(other[i]);
        }
      }
      assert other[..|other|] == other;
      r := Done;
    }
  }

  lemma {:induction false} AddressesPush(vs: seq<Validator>, v: Validator)
    ensures Addresses(vs + [v]) == Addresses(vs) + {v.address}
  {
    var ws := vs + [v];
    assert forall i :: 0 <= i < |vs| ==> ws[i] == vs[i];
    assert ws[|vs|] == v;
    forall a ensures a in Addresses(ws) <==> a in Addresses(vs) + {v.address} {
      if a in Addresses(vs) {
        var i :| 0 <= i < |vs| && vs[i].address == a;
        assert ws[i].address == a;
      }
    }
  }

  lemma {:induction false} Removed(vs: seq<Validator>, i: nat)
    requires Distinct(vs) && i < |vs|
    ensures var ws := vs[..i] + vs[i + 1..]; Distinct(ws) && Addresses(ws) == Addresses(vs) - {vs[i].address}
  {
    var ws := vs[..i] + vs[i + 1..];
    assert forall j :: 0 <= j < |ws| ==> ws[j] == if j < i then vs[j] else vs[j + 1];
    forall a | a in Addresses(vs) - {vs[i].address} ensures a in Addresses(ws) {
      var j :| 0 <= j < |vs| && vs[j].address == a;
      assert ws[if j < i then j else j - 1].address == a;
    }
  }

  /** The validators with another address, in their order. */
  ghost function Without(vs: seq<Validator>, a: Address): seq<Validator> {
    if vs == [] then [] else
      var n := |vs| - 1;
      Without(vs[..n], a) + if vs[n].address == a then [] else [vs[n]]
  }

  lemma {:induction false} WithoutAbsent(vs: seq<Validator>, a: Address)
    requires forall i :: 0 <= i < |vs| ==> vs[i].address != a
    ensures Without(vs, a) == vs
    decreases |vs|
  {
    if vs != [] {
      WithoutAbsent(vs[..|vs| - 1], a);
    }
  }

  lemma {:induction false} RemovedIsWithout(vs: seq<Validator>, i: nat)
    requires Distinct(vs) && i < |vs|
    ensures vs[..i] + vs[i + 1..] == Without(vs, vs[i].address)
    decreases |vs|
  {
    var n := |vs| - 1;
    if i == n {
      WithoutAbsent(vs[..n], vs[i].address);
    } else {
      RemovedIsWithout(vs[..n], i);
      assert vs[..i] + vs[i + 1..] == vs[..n][..i] + vs[..n][i + 1..] + [vs[n]];
    }
  }

  // ---------- Quorum sizes ----------

  /** (n - 1) / 3 with the division of Go, which truncates. */
  function CalcMaxFaultyNodes(n: nat): nat {
    if n == 0 then 0 else (n - 1) / 3
  }

  /** F is the greatest number of which n is more than three times. */
  lemma {:induction false} FaultyIsGreatest(n: nat, f: nat)
    requires n > 0
    ensures 3 * f < n <==> f <= CalcMaxFaultyNodes(n)
  {}

  function LegacyQuorumSize(n: nat): nat {
    2 * CalcMaxFaultyNodes(n) + 1
  }

  function OptimalQuorumSize(n: nat): nat {
    if CalcMaxFaultyNodes(n) == 0 then n else (2 * n + 2) / 3
  }

  lemma {:induction false} Overlap(all: set<Address>, a: set<Address>, b: set<Address>)
    requires a <= all && b <= all
    ensures |a * b| >= |a| + |b| - |all|
  {
    assert a + b <= all;
    SubsetSize(a + b, all);
    assert |a + b| == |a| + |b| - |a * b|;
  }

  /** `a` and `b` share more validators than the f that can be faulty. */
  ghost predicate MeetEnough(a: set<Address>, b: set<Address>, f: nat) {
    |a * b| >= f + 1
  }

  /** Any two optimal quorums of a validator set share more validators than can be faulty. */
  lemma {:induction false} OptimalQuorumsMeet(vs: seq<Validator>, a: set<Address>, b: set<Address>)
    requires Distinct(vs) && vs != [] && a <= Addresses(vs) && b <= Addresses(vs)
    requires |a| >= OptimalQuorumSize(|vs|) && |b| >= OptimalQuorumSize(|vs|)
    ensures MeetEnough(a, b, CalcMaxFaultyNodes(|vs|))
  {
    LenCounts(vs);
    Overlap(Addresses(vs), a, b);
  }

  /** When the faulty validators are silent the others still make an optimal quorum. */
  lemma {:induction false} OptimalQuorumSurvives(vs: seq<Validator>, silent: set<Address>)
    requires Distinct(vs) && silent <= Addresses(vs) && |silent| <= CalcMaxFaultyNodes(|vs|)
    ensures |Addresses(vs) - silent| >= OptimalQuorumSize(|vs|)
  {
    LenCounts(vs);
    assert |Addresses(vs) - silent| == |Addresses(vs)| - |silent| by {
      assert Addresses(vs) == silent + (Addresses(vs) - silent);
    }
  }

  ghost predicate IsLegacyQuorum(vs: seq<Validator>, a: set<Address>) {
    a <= Addresses(vs) && |a| >= LegacyQuorumSize(|vs|)
  }

  /** Any two legacy quorums share more than the faulty validators. */
  ghost predicate LegacyQuorumsMeet(vs: seq<Validator>) {
    forall a, b :: IsLegacyQuorum(vs, a) && IsLegacyQuorum(vs, b) ==> MeetEnough(a, b, CalcMaxFaultyNodes(|vs|))
  }

  /** That holds exactly when the number of validators is one more than a multiple of three. */
  lemma {:induction false} LegacyQuorumsMeetIff(vs: seq<Validator>)
    requires Distinct(vs) && vs != []
    ensures LegacyQuorumsMeet(vs) <==> |vs| % 3 == 1
  {
    LenCounts(vs);
    if |vs| % 3 == 1 {
      forall a, b | IsLegacyQuorum(vs, a) && IsLegacyQuorum(vs, b)
        ensures MeetEnough(a, b, CalcMaxFaultyNodes(|vs|))
      {
        Overlap(Addresses(vs), a, b);
      }
    } else {
      EndsMeetTooLittle(vs);
    }
  }

  /** The addresses at positions lo to hi - 1. */
  ghost function Stretch(vs: seq<Validator>, lo: nat, hi: nat): set<Address>
    requires hi <= |vs|
  {
    set i | lo <= i < hi :: vs[i].address
  }

  lemma {:induction false} StretchSize(vs: seq<Validator>, lo: nat, hi: nat)
    requires Distinct(vs) && lo <= hi <= |vs|
    ensures |Stretch(vs, lo, hi)| == hi - lo && Stretch(vs, lo, hi) <= Addresses(vs)
    decreases hi
  {
    if lo < hi {
      StretchSize(vs, lo, hi - 1);
      assert Stretch(vs, lo, hi) == Stretch(vs, lo, hi - 1) + {vs[hi - 1].address};
      assert vs[hi - 1].address !in Stretch(vs, lo, hi - 1);
    }
  }

  /** The first q and the last q validators share only those in the middle. */
  lemma {:induction false} EndsShare(vs: seq<Validator>, q: nat, lo: nat)
    requires Distinct(vs) && q <= |vs| && lo == if |vs| - q < q then |vs| - q else q
    ensures |Stretch(vs, 0, q) * Stretch(vs, |vs| - q, |vs|)| <= q - lo
  {
    var n := |vs|;
    StretchSize(vs, lo, q);
    forall x | x in Stretch(vs, 0, q) * Stretch(vs, n - q, n) ensures x in Stretch(vs, lo, q) {
      var i :| 0 <= i < q && vs[i].address == x;
      var j :| n - q <= j < n && vs[j].address == x;
      assert i == j;
    }
    SubsetSize(Stretch(vs, 0, q) * Stretch(vs, n - q, n), Stretch(vs, lo, q));
  }

  lemma {:induction false} LegacySizes(n: nat, q: nat, f: nat)
    requires n > 0 && n % 3 != 1 && q == LegacyQuorumSize(n) && f == CalcMaxFaultyNodes(n)
    ensures q <= n && 2 * q - n <= f
  {}

  lemma {:induction false} TwoEnds(vs: seq<Validator>, q: nat, f: nat) returns (a: set<Address>, b: set<Address>)
    requires Distinct(vs) && q <= |vs| && 2 * q - |vs| <= f
    ensures a <= Addresses(vs) && b <= Addresses(vs) && |a| == |b| == q && !MeetEnough(a, b, f)
  {
    var n := |vs|;
    a, b := Stretch(vs, 0, q), Stretch(vs, n - q, n);
    StretchSize(vs, 0, q);
    StretchSize(vs, n - q, n);
    EndsShare(vs, q, if n - q < q then n - q else q);
  }

  /** The first and the last 2F + 1 validators share too few. */
  lemma {:induction false} EndsMeetTooLittle(vs: seq<Validator>)
    requires Distinct(vs) && vs != [] && |vs| % 3 != 1
    ensures !LegacyQuorumsMeet(vs)
  {
    LegacySizes(|vs|, LegacyQuorumSize(|vs|), CalcMaxFaultyNodes(|vs|));
    var a, b := TwoEnds(vs, LegacyQuorumSize(|vs|), CalcMaxFaultyNodes(|vs|));
    assert IsLegacyQuorum(vs, a) && IsLegacyQuorum(vs, b);
  }
}
