/**
 Side chains: a run of consecutive blocks, one execution result per block and the
 substate after the last block. The source keeps the blocks in a map ordered by
 number; here that map is the sequence of its values in key order.
 */
module Chains {
  import opened Wrappers
  import opened Substate

  type BlockHash = nat
  type BlockNumber = nat
  type ChainId = nat

  datatype Block = Block(hash: BlockHash, parent: BlockHash, number: BlockNumber)

  /** A canonical block as the database stores it. */
  datatype Stored = Stored(block: Block, changeset: ExecutionResult)

  datatype Error =
    | PendingBlockIsFinalized
    | PendingBlockIsInFuture
    | BlockChainIdConsistency
    | CanonicalChain
    | BlockNumberNotFoundInChain
    | BlockHashNotFoundInChain
    | AppendChainDoesntConnect
    | Rejected
    | MissingBytecodePanic

  /** Consensus checks and execution of a block on top of a parent and a substate.
      Everything except the parent-number check is foreign code. */
  type Executor = (Block, Block, Table) -> Option<ExecutionResult>

  datatype Chain = Chain(blocks: seq<Block>, changesets: seq<ExecutionResult>, substate: Table) {
    function First(): Block
      requires |blocks| > 0
    {
      blocks[0]
    }

    function Tip(): Block
      requires |blocks| > 0
    {
      blocks[|blocks| - 1]
    }

    function ForkNumber(): BlockNumber
      requires |blocks| > 0
    {
      if First().number == 0 then 0 else First().number - 1
    }

    function Hashes(): set<BlockHash> {
      BlockHashes(blocks)
    }
  }

  /** The hashes of these blocks. */
  function BlockHashes(blocks: seq<Block>): set<BlockHash> {
    set i | 0 <= i < |blocks| :: blocks[i].hash
  }

  /** Consecutive numbers, each block naming the one before it as parent. */
  ghost predicate Linked(blocks: seq<Block>) {
    forall i {:trigger LinkedAt(blocks, i)} :: 0 <= i < |blocks| ==> LinkedAt(blocks, i)
  }

  ghost predicate LinkedAt(blocks: seq<Block>, i: int)
    requires 0 <= i < |blocks|
  {
    && blocks[i].number == blocks[0].number + i
    && (i > 0 ==> blocks[i].parent == blocks[i - 1].hash)
  }

  lemma {:induction false} LinkedSlice(blocks: seq<Block>, lo: nat, hi: nat)
    requires Linked(blocks) && lo <= hi <= |blocks|
    ensures Linked(blocks[lo..hi])
  {
    forall i | 0 <= i < hi - lo
      ensures LinkedAt(blocks[lo..hi], i)
    {
      assert LinkedAt(blocks, lo) && LinkedAt(blocks, lo + i);
    }
  }

  lemma {:induction false} LinkedConcat(a: seq<Block>, b: seq<Block>)
    requires Linked(a) && Linked(b) && |a| > 0 && |b| > 0
    requires b[0].parent == a[|a| - 1].hash && b[0].number == a[|a| - 1].number + 1
    ensures Linked(a + b)
  {
    forall i | 0 <= i < |a + b|
      ensures LinkedAt(a + b, i)
    {
      assert LinkedAt(a, |a| - 1);
      if i < |a| {
        assert LinkedAt(a, i);
      } else {
        assert LinkedAt(b, i - |a|);
      }
    }
  }

  /** The substate is some starting table with every changeset of the chain applied. */
  ghost predicate Covered(changesets: seq<ExecutionResult>, substate: Table) {
    exists base :: NoZeroCounts(base) && ApplyAll(base, changesets) == substate
  }

  /** The shape every chain in the tree keeps. */
  ghost predicate ChainOk(c: Chain) {
    && |c.blocks| > 0
    && |c.changesets| == |c.blocks|
    && Linked(c.blocks)
    && c.Tip().number == c.First().number + |c.blocks| - 1
  }

  function BlocksOf(stored: seq<Stored>): (r: seq<Block>)
    ensures |r| == |stored|
    ensures forall i :: 0 <= i < |r| ==> r[i] == stored[i].block
  {
    seq(|stored|, i requires 0 <= i < |stored| => stored[i].block)
  }

  function ChangesetsOf(stored: seq<Stored>): (r: seq<ExecutionResult>)
    ensures |r| == |stored|
    ensures forall i :: 0 <= i < |r| ==> r[i] == stored[i].changeset
  {
    seq(|stored|, i requires 0 <= i < |stored| => stored[i].changeset)
  }

  /** Blocks paired with their changesets, as they are written to the database. */
  function Zip(blocks: seq<Block>, changesets: seq<ExecutionResult>): (r: seq<Stored>)
    requires |blocks| == |changesets|
    ensures |r| == |blocks|
    ensures forall i :: 0 <= i < |r| ==> r[i] == Stored(blocks[i], changesets[i])
    ensures BlocksOf(r) == blocks && ChangesetsOf(r) == changesets
  {
    seq(|blocks|, i requires 0 <= i < |blocks| => Stored(blocks[i], changesets[i]))
  }

  function New(stored: seq<Stored>): Chain {
    Chain(BlocksOf(stored), ChangesetsOf(stored), ApplyAll(map[], ChangesetsOf(stored)))
  }

  function ValidateAndExecute(exec: Executor, block: Block, parent: Block, substate: Table)
    : Result<ExecutionResult, Error>
  {
    if parent.number + 1 != block.number then Err(Rejected)
    else match exec(block, parent, substate)
      case Some(changeset) => Ok(changeset)
      case None => Err(Rejected)
  }

  /** A chain of one block that joins the canonical chain at `parent`. */
  function NewCanonicalFork(exec: Executor, block: Block, parent: Block): Result<Chain, Error> {
    var changeset :- ValidateAndExecute(exec, block, parent, map[]);
    Ok(New([Stored(block, changeset)]))
  }

  /** A chain of one block that branches off inside `c`. The parent is looked up by
      number, and the changesets above it are reverted on a copy of the substate. */
  function NewChainFork(c: Chain, exec: Executor, block: Block): (r: Result<Chain, Error>)
    requires ChainOk(c) && block.number > 0
    ensures r.Ok? ==> r.value.blocks == [block] && |r.value.changesets| == 1
  {
    var parentNumber := block.number - 1;
    if !(c.First().number <= parentNumber <= c.Tip().number) then Err(BlockNumberNotFoundInChain)
    else
      var parent := c.blocks[parentNumber - c.First().number];
      assert LinkedAt(c.blocks, parentNumber - c.First().number);
      var revertFrom := |c.changesets| - (c.Tip().number - parent.number);
      match RevertAll(c.substate, c.changesets[revertFrom..])
      case None => Err(MissingBytecodePanic)
      case Some(substate) =>
        var changeset :- ValidateAndExecute(exec, block, parent, substate);
        Ok(Chain([block], [changeset], ApplyResult(substate, changeset)))
  }

  function AppendBlock(c: Chain, exec: Executor, block: Block): Result<Chain, Error>
    requires |c.blocks| > 0
  {
    var changeset :- ValidateAndExecute(exec, block, c.Tip(), c.substate);
    Ok(Chain(c.blocks + [block], c.changesets + [changeset], ApplyResult(c.substate, changeset)))
  }

  /** Merge two chains; the substate of the later one is kept. */
  function AppendChain(c: Chain, later: Chain): Result<Chain, Error>
    requires |c.blocks| > 0 && |later.blocks| > 0
  {
    if c.Tip().hash != later.First().parent then Err(AppendChainDoesntConnect)
    else Ok(Chain(c.blocks + later.blocks, c.changesets + later.changesets, later.substate))
  }

  datatype SplitAt = AtNumber(number: BlockNumber) | AtHash(hash: BlockHash)

  datatype ChainSplit =
    | NoSplitPending(chain: Chain)
    | NoSplitCanonical(chain: Chain)
    | Split(canonical: Chain, pending: Chain)

  /** Position of the first block with this hash. */
  function FindHash(blocks: seq<Block>, hash: BlockHash): (r: Option<nat>)
    ensures r.Some? ==> r.value < |blocks| && blocks[r.value].hash == hash
    ensures r.Some? ==> forall i :: 0 <= i < r.value ==> blocks[i].hash != hash
    ensures r.None? ==> forall i :: 0 <= i < |blocks| ==> blocks[i].hash != hash
  {
    if blocks == [] then None
    else if blocks[0].hash == hash then Some(0)
    else match FindHash(blocks[1..], hash)
      case Some(i) =>
        assert forall j :: 0 < j < |blocks| ==> blocks[j] == blocks[1..][j - 1];
        Some(i + 1)
      case None =>
        assert forall j :: 0 < j < |blocks| ==> blocks[j] == blocks[1..][j - 1];
        None
  }

  /** The first `n` blocks; their substate is not usable any more. */
  function Prefix(c: Chain, n: nat): Chain
    requires |c.changesets| == |c.blocks| && n <= |c.blocks|
  {
    Chain(c.blocks[..n], c.changesets[..n], map[])
  }

  /** All but the first `n` blocks, with the substate of the whole chain. */
  function Suffix(c: Chain, n: nat): Chain
    requires |c.changesets| == |c.blocks| && n <= |c.blocks|
  {
    Chain(c.blocks[n..], c.changesets[n..], c.substate)
  }

  function SplitBy(c: Chain, at: SplitAt): ChainSplit
    requires ChainOk(c)
  {
    match at
    case AtHash(hash) =>
      (match FindHash(c.blocks, hash)
       case None => NoSplitPending(c)
       case Some(i) =>
         assert LinkedAt(c.blocks, i);
         if c.blocks[i].number == c.Tip().number then NoSplitCanonical(c)
         else Split(Prefix(c, i + 1), Suffix(c, i + 1)))
    case AtNumber(number) =>
      if number >= c.Tip().number then NoSplitCanonical(c)
      else if number < c.First().number then NoSplitPending(c)
      else var n := number + 1 - c.First().number; Split(Prefix(c, n), Suffix(c, n))
  }

  // What the operations keep

  lemma {:induction false} NewKeepsOk(stored: seq<Stored>)
    requires |stored| > 0 && Linked(BlocksOf(stored))
    ensures ChainOk(New(stored)) && Covered(New(stored).changesets, New(stored).substate)
  {
    assert LinkedAt(BlocksOf(stored), |stored| - 1);
    assert NoZeroCounts(map[]);
    assert ApplyAll(map[], ChangesetsOf(stored)) == New(stored).substate;
  }

  lemma {:induction false} AppendBlockKeepsOk(c: Chain, exec: Executor, block: Block)
    requires ChainOk(c) && Covered(c.changesets, c.substate) && block.parent == c.Tip().hash
    ensures var r := AppendBlock(c, exec, block);
            r.Ok? ==>
              && ChainOk(r.value) && Covered(r.value.changesets, r.value.substate)
              && block.number == c.Tip().number + 1 && r.value.blocks == c.blocks + [block]
  {
    var r := AppendBlock(c, exec, block);
    if r.Ok? {
      var base :| NoZeroCounts(base) && ApplyAll(base, c.changesets) == c.substate;
      var changesets := r.value.changesets;
      assert changesets[..|changesets| - 1] == c.changesets;
      assert ApplyAll(base, changesets) == r.value.substate;
      assert LinkedAt([block], 0);
      LinkedConcat(c.blocks, [block]);
    }
  }

  /** The table a prefix of the chain leaves behind is what reverting the rest gives;
      the revert range is always inside the changesets. */
  lemma {:induction false} RevertAboveParent(c: Chain, k: nat)
    requires ChainOk(c) && Covered(c.changesets, c.substate) && k < |c.blocks|
    ensures var revertFrom := |c.changesets| - (c.Tip().number - c.blocks[k].number);
            0 <= revertFrom <= |c.changesets| && revertFrom == k + 1
    ensures exists base ::
              && NoZeroCounts(base) && ApplyAll(base, c.changesets) == c.substate
              && RevertAll(c.substate, c.changesets[k + 1..]) == Some(ApplyAll(base, c.changesets[..k + 1]))
              && NoZeroCounts(ApplyAll(base, c.changesets[..k + 1]))
  {
    var base :| NoZeroCounts(base) && ApplyAll(base, c.changesets) == c.substate;
    assert LinkedAt(c.blocks, k);
    RevertSuffixIsApplyPrefix(base, c.changesets, k + 1);
    ApplyAllKeepsNoZeroCounts(base, c.changesets[..k + 1]);
  }

  lemma {:induction false} OneBlockOk(block: Block, table: Table, changeset: ExecutionResult)
    requires NoZeroCounts(table)
    ensures ChainOk(Chain([block], [changeset], ApplyResult(table, changeset)))
    ensures Covered([changeset], ApplyResult(table, changeset))
  {
    assert LinkedAt([block], 0);
    assert [changeset][..0] == [];
    assert ApplyAll(table, [changeset]) == ApplyResult(table, changeset);
  }

  /** Forking at any held block runs the new block on that block and on the table of
      the blocks up to it, never panics, and gives a chain that keeps the invariant. */
  lemma {:induction false} ForkKeepsOk(c: Chain, exec: Executor, block: Block, k: nat)
    requires ChainOk(c) && Covered(c.changesets, c.substate) && k < |c.blocks| && block.number == c.blocks[k].number + 1
    ensures var r := NewChainFork(c, exec, block);
            && (r.Err? ==> r.error == Rejected)
            && (r.Ok? ==>
                  && ChainOk(r.value) && Covered(r.value.changesets, r.value.substate)
                  && r.value.blocks == [block])
            && exists base ::
                 && NoZeroCounts(base) && ApplyAll(base, c.changesets) == c.substate
                 && (r.Ok? <==> exec(block, c.blocks[k], ApplyAll(base, c.changesets[..k + 1])).Some?)
                 && (r.Ok? ==>
                       exec(block, c.blocks[k], ApplyAll(base, c.changesets[..k + 1])) == Some(r.value.changesets[0]))
  {
    hide RevertAll, ApplyResult, ApplyAll, NoZeroCounts;
    RevertAboveParent(c, k);
    var base :| && NoZeroCounts(base) && ApplyAll(base, c.changesets) == c.substate
                && RevertAll(c.substate, c.changesets[k + 1..]) == Some(ApplyAll(base, c.changesets[..k + 1]))
                && NoZeroCounts(ApplyAll(base, c.changesets[..k + 1]));
    assert LinkedAt(c.blocks, k);
    var r := NewChainFork(c, exec, block);
    if r.Ok? {
      var table := ApplyAll(base, c.changesets[..k + 1]);
      OneBlockOk(block, table, r.value.changesets[0]);
      assert r.value == Chain([block], [r.value.changesets[0]], ApplyResult(table, r.value.changesets[0]));
    }
  }

  /** The parent is looked up by number only. A block that names block `i` of the chain
      as its parent but carries the number after block `j` is executed on `j`, and once
      accepted it connects to what its fork number cuts off exactly when `i` is `j`. */
  lemma {:induction false} ForkNeedsMatchingNumber(c: Chain, exec: Executor, block: Block, i: nat, j: nat)
    requires ChainOk(c) && Covered(c.changesets, c.substate) && i < |c.blocks| && j < |c.blocks|
    requires forall m, n ::
               0 <= m < |c.blocks| && 0 <= n < |c.blocks| && c.blocks[m].hash == c.blocks[n].hash ==> m == n
    requires block.parent == c.blocks[i].hash && block.number == c.blocks[j].number + 1
    requires forall substate :: exec(block, c.blocks[j], substate).Some?
    ensures var r := NewChainFork(c, exec, block);
            && r.Ok? && r.value.blocks == [block]
            && var s := SplitBy(c, AtNumber(r.value.ForkNumber()));
               && (s.Split? || s.NoSplitCanonical?)
               && var lower := if s.Split? then s.canonical else c;
                  && |lower.blocks| > 0
                  && (i == j ==> AppendChain(lower, r.value).Ok?)
                  && (i != j ==> AppendChain(lower, r.value) == Err(AppendChainDoesntConnect))
  {
    hide NewChainFork, SplitBy, Covered;
    ForkKeepsOk(c, exec, block, j);
    assert LinkedAt(c.blocks, j);
    SplitCuts(c, j);
  }

  lemma {:induction false} SuffixKeepsOk(c: Chain, n: nat)
    requires ChainOk(c) && Covered(c.changesets, c.substate) && n < |c.blocks|
    ensures ChainOk(Suffix(c, n)) && Covered(c.changesets[n..], c.substate)
  {
    hide ApplyAll, NoZeroCounts;
    var base :| NoZeroCounts(base) && ApplyAll(base, c.changesets) == c.substate;
    ApplyAllConcat(base, c.changesets[..n], c.changesets[n..]);
    assert c.changesets[..n] + c.changesets[n..] == c.changesets;
    ApplyAllKeepsNoZeroCounts(base, c.changesets[..n]);
    assert ApplyAll(ApplyAll(base, c.changesets[..n]), c.changesets[n..]) == c.substate;
    LinkedSlice(c.blocks, n, |c.blocks|);
    assert c.blocks[n..|c.blocks|] == c.blocks[n..];
    assert LinkedAt(c.blocks, n);
  }

  /** Splitting by hash or by number at any held block gives the blocks up to and
      including it, and the rest as a chain that keeps the invariant; appending the
      rest again restores blocks, changesets and substate exactly. */
  lemma {:induction false} SplitThenAppendRestores(c: Chain, k: nat)
    requires ChainOk(c) && Covered(c.changesets, c.substate) && k < |c.blocks|
    requires forall i :: 0 <= i < k ==> c.blocks[i].hash != c.blocks[k].hash
    ensures SplitBy(c, AtHash(c.blocks[k].hash)) == SplitBy(c, AtNumber(c.blocks[k].number))
    ensures k + 1 == |c.blocks| ==> SplitBy(c, AtNumber(c.blocks[k].number)) == NoSplitCanonical(c)
    ensures k + 1 < |c.blocks| ==>
              var s := SplitBy(c, AtNumber(c.blocks[k].number));
              && s == Split(Prefix(c, k + 1), Suffix(c, k + 1))
              && ChainOk(s.pending) && Covered(s.pending.changesets, s.pending.substate)
              && AppendChain(s.canonical, s.pending) == Ok(c)
  {
    SplitCuts(c, k);
    if k + 1 < |c.blocks| {
      SuffixKeepsOk(c, k + 1);
      PrefixSuffixRestore(c, k + 1);
    }
  }

  lemma {:induction false} SplitCuts(c: Chain, k: nat)
    requires ChainOk(c) && k < |c.blocks|
    requires forall i :: 0 <= i < k ==> c.blocks[i].hash != c.blocks[k].hash
    ensures var s := if k + 1 == |c.blocks| then NoSplitCanonical(c) else Split(Prefix(c, k + 1), Suffix(c, k + 1));
            && SplitBy(c, AtHash(c.blocks[k].hash)) == s
            && SplitBy(c, AtNumber(c.blocks[k].number)) == s
  {
    assert LinkedAt(c.blocks, k);
    assert FindHash(c.blocks, c.blocks[k].hash) == Some(k);
  }

  lemma {:induction false} PrefixSuffixRestore(c: Chain, n: nat)
    requires ChainOk(c) && 0 < n < |c.blocks|
    ensures AppendChain(Prefix(c, n), Suffix(c, n)) == Ok(c)
  {
    assert LinkedAt(c.blocks, n);
    assert c.blocks[..n] + c.blocks[n..] == c.blocks;
    assert c.changesets[..n] + c.changesets[n..] == c.changesets;
  }

  // The hash-to-chain index

  /** Give all these hashes to one chain. */
  ghost function Assign(m: map<BlockHash, ChainId>, hashes: set<BlockHash>, id: ChainId): map<BlockHash, ChainId> {
    m + (map h | h in hashes :: id)
  }
}
