/** Blocks one after the other: each runs on the base that committing the one before has left, so the law of
    conservation holds along the whole chain. */
module StateChain {
  import opened Common
  import opened World
  import opened Balances
  import opened Conservation
  import opened Blocks
  import Commit

  /** A block as the executor gets it, with the forks active at its number. */
  datatype Block = Block(forks: Forks, coinbase: Address, gasLimit: Gas, txs: seq<Message>)

  ghost predicate Harmless(b: Block) {
    forall i :: 0 <= i < |b.txs| ==> NoDestruct(b.txs[i].body)
  }

  predicate WellFormed(b: Block) {
    forall i :: 0 <= i < |b.txs| ==> |b.txs[i].input| < U64
  }

  /** Transition.Commit: the base for the next block. */
  method CommitTransition(t: Transition) returns (base': Base)
    requires t.Ready() && NoFlags(t.txn.view.cur)
    modifies t.txn
    ensures t.Ready() && Total(base', EMPTY_TREE) == Total(t.base, old(t.txn.view.cur))
    ensures forall a, k :: Commit.SameReads(t.base, t.txn.view.cur, base', EMPTY_TREE, a, k)
  {
    ghost var was := t.txn.view.cur;
    var objs := Commit.Commit(t.txn, t.forks.eip155);
    base' := Commit.ApplyObjs(t.base, objs);
    Commit.CommitTotal(t.base, was, t.forks.eip155, objs);
    NoFlagsNoBurn(t.base, was, Flagged(was));
    forall a, k ensures Commit.SameReads(t.base, t.txn.view.cur, base', EMPTY_TREE, a, k) {
      Commit.CommitRefines(t.base, was, t.forks.eip155, objs, a, k);
    }
  }

  /** One block: committed as a whole, or not at all if one of its transactions is refused. */
  method ProcessAndCommit(base: Base, b: Block) returns (base': Base, e: Option<TxError>, ghost burned: nat)
    requires WellFormed(b)
    ensures Total(base', EMPTY_TREE) + burned == Total(base, EMPTY_TREE) && (Harmless(b) ==> burned == 0)
    ensures e.Some? ==> base' == base && burned == 0
  {
    var t;
    t, e, burned := ProcessBlock(b.forks, base, b.coinbase, b.gasLimit, b.txs);
    if e.Some? {
      return base, e, 0;
    }
    base' := CommitTransition(t);
  }

  /** A chain of blocks up to the first that is refused: the sum of all balances is what it was at the start less what
      selfdestructs have lost. */
  method ProcessChain(base: Base, blocks: seq<Block>) returns (base': Base, done: nat, ghost burned: nat)
    requires forall i :: 0 <= i < |blocks| ==> WellFormed(blocks[i])
    ensures done <= |blocks| && Total(base', EMPTY_TREE) + burned == Total(base, EMPTY_TREE)
    ensures (forall i :: 0 <= i < done ==> Harmless(blocks[i])) ==> burned == 0
  {
    base', done, burned := base, 0, 0;
    while done < |blocks|
      invariant done <= |blocks| && Total(base', EMPTY_TREE) + burned == Total(base, EMPTY_TREE)
      invariant (forall i :: 0 <= i < done ==> Harmless(blocks[i])) ==> burned == 0
    {
      var e;
      ghost var lost;
      base', e, lost := ProcessAndCommit(base', blocks[done]);
      if e.Some? {
        return;
      }
      done, burned := done + 1, burned + lost;
    }
  }
}
