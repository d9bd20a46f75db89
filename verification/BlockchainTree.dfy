/** The tree object: the chains, the indices and the canonical database, changed in
    place by the operations of the state machine in TreeModel. */
module Trees {
  import opened Wrappers
  import opened Chains
  import opened TreeModel
  import opened TreeInsert
  import opened TreeRuns
  import opened Indices
  import opened TreeIndices
  import opened TreePurge
  import opened TreeWalk

  class BlockchainTree {
    ghost const world: World
    const indices: BlockIndices
    const maxReorgDepth: nat
    const maxBlocks: nat
    var chains: map<ChainId, Chain>
    var nextId: ChainId
    /** All canonical blocks; the block with number `n` is at position `n`. */
    var db: seq<Stored>
    /** The state this object stands for. */
    ghost var model: Tree

    /** Every field holds what `t` says. */
    ghost predicate TiedTo(t: Tree)
      reads this, indices
    {
      db == t.db && TiedButDb(t)
    }

    ghost predicate TiedButDb(t: Tree)
      reads this, indices
    {
      && chains == t.chains && nextId == t.nextId && maxBlocks == t.maxBlocks
      && indices.blocksToChain == t.loc
      && indices.lastFinalized == t.lastFinalized && indices.additional == t.additional
    }

    ghost predicate Valid()
      reads this, indices
    {
      && TiedTo(model)
      && Inv(world, model)
      && Agree(model, indices.forkToChild, indices.numberToBlock, indices.canonicalChain)
    }

    /** Start from a database: keep the newest `maxReorgDepth + additional` canonical
        hashes, and take as finalised the block `maxReorgDepth` below the tip, or the
        lowest kept one when there are not that many. */
    constructor (ghost world: World, db: seq<Stored>, maxReorgDepth: nat, maxBlocks: nat, additional: nat)
      requires maxReorgDepth <= maxBlocks
      requires maxReorgDepth + additional > 0
      requires DbOk(world, db)
      ensures Valid() && fresh(indices)
      ensures this.world == world && model.db == db && model.maxBlocks == maxBlocks
      ensures model.chains == map[] && model.additional == additional
      ensures model.windowLow == if maxReorgDepth + additional < |db| then |db| - (maxReorgDepth + additional) else 0
      ensures model.lastFinalized == if maxReorgDepth < |db| then
                                       if additional == 0 then |db| - maxReorgDepth else |db| - 1 - maxReorgDepth
                                     else 0
    {
      var kept := if maxReorgDepth + additional < |db| then maxReorgDepth + additional else |db|;
      var low := |db| - kept;
      var window := map n | low <= n < |db| :: db[n].block.hash;
      var finalized := if kept > maxReorgDepth then |db| - 1 - maxReorgDepth else low;
      this.world, this.db, this.maxReorgDepth, this.maxBlocks := world, db, maxReorgDepth, maxBlocks;
      chains, nextId := map[], 0;
      model := Tree(map[], map[], 0, db, finalized, low, maxBlocks, additional);
      indices := new BlockIndices(finalized, additional, window);
      new;
      assert Firsts(map[]) == {} && BlocksIn(map[]) == {};
      IsGrouped(ByParent, {});
      IsGrouped(ByNumber, {});
    }

    /** The canonical block a chain leaves the canonical chain at; known for every
        chain of the tree. */
    method CanonicalFork(id: ChainId) returns (r: Option<(BlockNumber, BlockHash)>)
      requires Valid()
      ensures id !in chains ==> r == None
      ensures id in chains ==> r == Some((Root(world, model, id), RootHash(world, model, id)))
    {
      if id !in chains {
        return None;
      }
      var current := id;
      ForkLink(world, model, id);
      var fork := (chains[id].ForkNumber(), chains[id].First().parent);
      while fork.1 in indices.blocksToChain
        invariant current in chains && |chains[current].blocks| > 0
        invariant fork == (chains[current].ForkNumber(), chains[current].First().parent)
        invariant Root(world, model, id) == Root(world, model, current)
        invariant RootHash(world, model, id) == RootHash(world, model, current)
        decreases chains[current].First().number
      {
        ForkLink(world, model, current);
        current := indices.blocksToChain[fork.1];
        fork := (chains[current].ForkNumber(), chains[current].First().parent);
      }
      ForkLink(world, model, current);
      if indices.CanonicalHash(fork.0) == Some(fork.1) {
        r := Some(fork);
      } else {
        assert false;
      }
    }

    /** Register a chain under a new id. */
    method InsertChain(chain: Chain, ghost t: Tree)
      requires TiedTo(t)
      requires AgreeWith(world, t, chain, indices.forkToChild, indices.numberToBlock, indices.canonicalChain)
      modifies this`chains, this`nextId, this`model, indices`numberToBlock, indices`blocksToChain, indices`forkToChild
      ensures Valid()
      ensures model == AddChain(t, chain)
    {
      RegisterChain(chain, t);
    }

    method RegisterChain(chain: Chain, ghost t: Tree)
      requires TiedTo(t) && |chain.blocks| > 0
      modifies this`chains, this`nextId, this`model, indices`numberToBlock, indices`blocksToChain, indices`forkToChild
      ensures TiedTo(model) && model == AddChain(t, chain)
      ensures indices.forkToChild == AddTo(old(indices.forkToChild), chain.First().parent, chain.First().hash)
      ensures indices.numberToBlock == AddAll(ByNumber, old(indices.numberToBlock), chain.blocks)
    {
      indices.InsertChain(nextId, chain);
      model := AddChain(t, chain);
      chains := chains[nextId := chain];
      nextId := nextId + 1;
    }

    method ForkSideChain(exec: Executor, block: Block, id: ChainId) returns (r: Result<bool, Error>)
      requires Valid() && FreshIn(world, model, block)
      requires block.parent in indices.blocksToChain && id == indices.blocksToChain[block.parent]
      modifies this, indices
      ensures Valid()
      ensures model == InsertOnSide(world, old(model), exec, block).0
      ensures r == InsertOnSide(world, old(model), exec, block).1
    {
      Located(world, model, block.parent);
      var fork := CanonicalFork(id);
      if fork == None {
        return Err(BlockChainIdConsistency);
      }
      if chains[id].Tip().hash == block.parent {
        r := AppendToSideChain(exec, block, id);
      } else {
        r := BranchSideChain(exec, block, id);
      }
    }

    method AppendToSideChain(exec: Executor, block: Block, id: ChainId) returns (r: Result<bool, Error>)
      requires Valid() && FreshIn(world, model, block) && block.parent in model.loc && id == model.loc[block.parent]
      requires id in chains && |chains[id].blocks| > 0 && chains[id].Tip().hash == block.parent
      modifies this, indices
      ensures Valid()
      ensures model == InsertOnSide(world, old(model), exec, block).0
      ensures r == InsertOnSide(world, old(model), exec, block).1
    {
      SideAppendAgrees(world, model, exec, block, indices.forkToChild, indices.numberToBlock, indices.canonicalChain);
      var appended := AppendBlock(chains[id], exec, block);
      if appended.Err? {
        return Err(appended.error);
      }
      ExtendChain(id, appended.value, block);
      r := Ok(true);
    }

    method ExtendChain(id: ChainId, chain: Chain, block: Block)
      requires TiedTo(model)
      modifies this`chains, this`model, indices`numberToBlock, indices`blocksToChain
      ensures TiedTo(model)
      ensures model == old(model).(chains := old(model).chains[id := chain],
                                   loc := old(model).loc[block.hash := id])
      ensures indices.numberToBlock == AddTo(old(indices.numberToBlock), block.number, block.hash)
    {
      indices.InsertNonForkBlock(block.number, block.hash, id);
      model := model.(chains := model.chains[id := chain], loc := model.loc[block.hash := id]);
      chains := chains[id := chain];
    }

    method BranchSideChain(exec: Executor, block: Block, id: ChainId) returns (r: Result<bool, Error>)
      requires Valid() && FreshIn(world, model, block) && block.parent in model.loc && id == model.loc[block.parent]
      requires id in chains && |chains[id].blocks| > 0 && chains[id].Tip().hash != block.parent
      modifies this, indices
      ensures Valid()
      ensures model == InsertOnSide(world, old(model), exec, block).0
      ensures r == InsertOnSide(world, old(model), exec, block).1
    {
      SideForkAgrees(world, model, exec, block, indices.forkToChild, indices.numberToBlock, indices.canonicalChain);
      var forked := NewChainFork(chains[id], exec, block);
      if forked.Err? {
        return Err(forked.error);
      }
      InsertChain(forked.value, model);
      r := Ok(true);
    }

    method ForkCanonicalChain(exec: Executor, block: Block) returns (r: Result<bool, Error>)
      requires Valid() && FreshIn(world, model, block) && InWindow(model, block.number - 1, block.parent)
      modifies this, indices
      ensures Valid()
      ensures model == InsertOnCanonical(old(model), exec, block).0
      ensures r == InsertOnCanonical(old(model), exec, block).1
    {
      CanonicalForkAgrees(world, model, exec, block, indices.forkToChild, indices.numberToBlock,
                          indices.canonicalChain);
      var forked := NewCanonicalFork(exec, block, db[block.number - 1].block);
      if forked.Err? {
        return Err(forked.error);
      }
      InsertChain(forked.value, model);
      r := Ok(true);
    }

    method InsertBlockWithSenders(exec: Executor, block: Block) returns (r: Result<bool, Error>)
      requires Valid() && SealedBy(world, block)
      modifies this, indices
      ensures Valid()
      ensures model == Inserted(world, old(model), exec, block).0
      ensures r == Inserted(world, old(model), exec, block).1
    {
      if block.number <= indices.lastFinalized {
        return Err(PendingBlockIsFinalized);
      }
      if block.number > indices.lastFinalized + maxBlocks {
        return Err(PendingBlockIsInFuture);
      }
      if block.hash in indices.blocksToChain {
        return Ok(true);
      }
      if indices.CanonicalHash(block.number) == Some(block.hash) {
        return Ok(true);
      }
      ghost var t := model;
      forall n
        ensures !InDb(t.db, n, block.hash)
      {
        FreshBlock(world, t, block, n);
      }
      if block.parent in indices.blocksToChain {
        r := ForkSideChain(exec, block, indices.blocksToChain[block.parent]);
        return;
      }
      if indices.CanonicalHash(block.number - 1) == Some(block.parent) {
        r := ForkCanonicalChain(exec, block);
        return;
      }
      r := Ok(false);
    }

    /** The state of a finalisation in progress, with the chains in `gone` already out. */
    ghost predicate Finalizing(t: Tree, n: BlockNumber, gone: set<ChainId>)
      reads this, indices
    {
      && Inv(world, t)
      && Purging(world, t, n, gone, chains, indices.forkToChild, indices.numberToBlock, indices.blocksToChain)
    }

    /** Take one waiting chain out and return the chains that started on it. */
    method RemoveOrphan(ghost t: Tree, ghost n: BlockNumber, ghost gone: set<ChainId>, id: ChainId)
      returns (more: set<ChainId>)
      requires Finalizing(t, n, gone) && id in Work(t, n, gone) && id in chains
      modifies this`chains, indices`numberToBlock, indices`blocksToChain, indices`forkToChild
      ensures Finalizing(t, n, gone + {id})
      ensures chains == old(chains) - {id}
      ensures Work(t, n, gone + {id}) == Work(t, n, gone) - {id} + more
    {
      PurgeStep(world, t, n, gone, id, chains, indices.forkToChild, indices.numberToBlock, indices.blocksToChain);
      var chain := chains[id];
      chains := chains - {id};
      more := indices.RemoveChain(chain);
    }

    /** The worklist, taken in any order. */
    method RemoveOrphans(ghost t: Tree, ghost n: BlockNumber, lose: set<ChainId>) returns (ghost gone: set<ChainId>)
      requires Finalizing(t, n, {}) && lose == Work(t, n, {})
      modifies this`chains, indices`numberToBlock, indices`blocksToChain, indices`forkToChild
      ensures Finalizing(t, n, gone) && Work(t, n, gone) == {}
    {
      gone := {};
      var work := lose;
      while work != {}
        invariant Finalizing(t, n, gone)
        invariant work == Work(t, n, gone)
        decreases |chains|, |work|
      {
        var id :| id in work;
        work := work - {id};
        if id in chains {
          var more := RemoveOrphan(t, n, gone, id);
          work := work + more;
          gone := gone + {id};
        }
      }
    }

    /** Finalise a canonical block: the chains that hang from below it go, with all
        that hangs from them, in whatever order the worklist is taken. */
    method FinalizeBlock(n: BlockNumber)
      requires Valid() && model.lastFinalized <= n < |model.db|
      modifies this, indices
      ensures Valid()
      ensures model == Finalized(world, old(model), n)
    {
      ghost var t := model;
      PurgeStart(world, t, n, Slice(indices.canonicalChain, indices.lastFinalized, n), indices.forkToChild,
                 indices.numberToBlock, indices.canonicalChain);
      var lose := indices.FinalizeCanonicalBlocks(n);
      ghost var gone := RemoveOrphans(t, n, lose);
      PurgeEnd(world, t, n, gone, chains, indices.forkToChild, indices.numberToBlock, indices.blocksToChain,
               indices.canonicalChain);
      FinalizedKeepsInv(world, t, n);
      model := Finalized(world, t, n);
    }

    /** Split a chain that has been taken out; its upper part goes back under its id.
        The lower part is what becomes canonical. */
    method SplitChain(id: ChainId, chain: Chain, at: SplitAt) returns (canonical: Chain)
      requires ChainOk(chain) && !SplitBy(chain, at).NoSplitPending?
      requires SplitBy(chain, at).Split? ==> |SplitBy(chain, at).pending.blocks| > 0
      modifies this`chains, indices`numberToBlock, indices`blocksToChain, indices`forkToChild
      ensures SplitDone(id, chain, at, canonical,
                        old(chains), old(indices.forkToChild), old(indices.numberToBlock), old(indices.blocksToChain),
                        chains, indices.forkToChild, indices.numberToBlock, indices.blocksToChain)
    {
      match SplitBy(chain, at)
      case Split(lower, pending) =>
        indices.InsertChain(id, pending);
        chains := chains[id := pending];
        canonical := lower;
      case NoSplitCanonical(whole) =>
        canonical := whole;
      case NoSplitPending(_) =>
        assert false;
    }

    /** The object while parts are being collected for `make_canonical`. */
    ghost predicate Collecting(t: Tree, h: BlockHash, p: BlockHash, parts: seq<Chain>, cuts: map<ChainId, nat>)
      requires Inv(world, t) && h in t.loc
      reads this, indices
    {
      Underway(world, t, h, p, parts, cuts, chains, indices.forkToChild, indices.numberToBlock, indices.blocksToChain)
    }

    /** Take the part of the next chain down, up to and including the block `p`. */
    method TakePart(p: BlockHash, at: SplitAt, ghost t: Tree, ghost h: BlockHash, ghost parts: seq<Chain>,
                    ghost cuts: map<ChainId, nat>)
      returns (part: Chain)
      requires Inv(world, t) && h in t.loc && p in t.loc && Collecting(t, h, p, parts, cuts)
      requires at == AtHash(p) || at == AtNumber(world(p).number)
      modifies this`chains, indices`numberToBlock, indices`blocksToChain, indices`forkToChild
      ensures Went(world, t, h, p, parts, cuts, part,
                   chains, indices.forkToChild, indices.numberToBlock, indices.blocksToChain)
    {
      NextSplit(world, t, p, cuts, at);
      ghost var before, f, n := chains, indices.forkToChild, indices.numberToBlock;
      var id := indices.blocksToChain[p];
      var chain := chains[id];
      chains := chains - {id};
      part := SplitChain(id, chain, at);
      TakeDone(world, t, h, p, parts, cuts, at, before, f, n, part,
               chains, indices.forkToChild, indices.numberToBlock, indices.blocksToChain);
    }

    /** Join the collected parts, lowest first. */
    method MergeParts(parts: seq<Chain>) returns (merged: Chain)
      requires |parts| > 0 && Joined(parts)
      ensures PartOk(merged) && Zip(merged.blocks, merged.changesets) == Flat(parts)
    {
      var n := |parts| - 1;
      merged := parts[n];
      while n > 0
        invariant 0 <= n < |parts|
        invariant PartOk(merged) && merged.Tip() == parts[n].Tip()
        invariant Zip(merged.blocks, merged.changesets) + Flat(parts[..n]) == Flat(parts)
      {
        MergeStep(parts, n, merged);
        var appended := AppendChain(merged, parts[n - 1]);
        merged := appended.value;
        n := n - 1;
      }
    }

    /** Write a chain to the end of the database. */
    method CommitCanonical(chain: Chain)
      requires |chain.blocks| == |chain.changesets|
      modifies this`db
      ensures db == old(db) + Zip(chain.blocks, chain.changesets)
    {
      db := db + Zip(chain.blocks, chain.changesets);
    }

    /** Take everything above a number off the database and return it as a chain. */
    method RevertCanonical(until: BlockNumber) returns (reverted: Chain)
      requires until < |db|
      modifies this`db
      ensures db == old(db)[..until + 1]
      ensures reverted == New(old(db)[until + 1..])
    {
      reverted := New(db[until + 1..]);
      db := db[..until + 1];
    }

    /** Take the next part and say where the walk goes on. */
    method TakeNext(p: BlockHash, at: SplitAt, ghost t: Tree, ghost h: BlockHash, parts: seq<Chain>,
                    ghost cuts: map<ChainId, nat>)
      returns (longer: seq<Chain>, ghost more: map<ChainId, nat>, fork: BlockHash, forkNumber: BlockNumber)
      requires Inv(world, t) && h in t.loc && p in t.loc && Collecting(t, h, p, parts, cuts)
      requires at == AtHash(p) || at == AtNumber(world(p).number)
      modifies this`chains, indices`numberToBlock, indices`blocksToChain, indices`forkToChild
      ensures |longer| > 0 && Collecting(t, h, fork, longer, more)
      ensures forkNumber == world(fork).number < world(p).number
    {
      var part := TakePart(p, at, t, h, parts, cuts);
      longer := parts + [part];
      more := cuts[t.loc[p] := Depth(world, t, p)];
      fork, forkNumber := part.First().parent, part.ForkNumber();
    }

    /** Follow the fork links down while they stay inside the tree. */
    method CollectBelow(ghost t: Tree, ghost h: BlockHash, start: BlockHash, startNumber: BlockNumber,
                        first: seq<Chain>, ghost cut: map<ChainId, nat>)
      returns (parts: seq<Chain>, ghost fork: BlockHash, ghost cuts: map<ChainId, nat>)
      requires Inv(world, t) && h in t.loc && |first| > 0 && Collecting(t, h, start, first, cut)
      requires startNumber == world(start).number
      modifies this`chains, indices`numberToBlock, indices`blocksToChain, indices`forkToChild
      ensures |parts| > 0 && Collecting(t, h, fork, parts, cuts) && fork !in t.loc
    {
      parts, cuts := first, cut;
      var next, number := start, startNumber;
      while next in indices.blocksToChain
        invariant |parts| > 0 && Collecting(t, h, next, parts, cuts)
        invariant number == world(next).number
        decreases number
      {
        parts, cuts, next, number := TakeNext(next, AtNumber(number), t, h, parts, cuts);
      }
      fork := next;
    }

    /** Collect the parts of the chains between `h` and the canonical chain. */
    method CollectParts(h: BlockHash) returns (parts: seq<Chain>)
      requires Valid() && h in indices.blocksToChain
      modifies this`chains, indices`numberToBlock, indices`blocksToChain, indices`forkToChild
      ensures Joined(parts) && |parts| > 0 && Flat(parts) == PathTo(world, model, h)
      ensures chains == CutChains(world, model.chains, Cuts(world, model, h))
      ensures WalkIndices(model, chains, indices.forkToChild, indices.numberToBlock, indices.blocksToChain)
    {
      UnderwayStart(world, model, h, indices.forkToChild, indices.numberToBlock, indices.canonicalChain);
      var first, cut, start, number := TakeNext(h, AtHash(h), model, h, [], map[]);
      var all, end, cuts := CollectBelow(model, h, start, number, first, cut);
      UnderwayEnd(world, model, h, end, all, cuts, chains, indices.forkToChild, indices.numberToBlock,
                  indices.blocksToChain);
      parts := all;
    }

    /** Append the promoted blocks to the database. */
    method AppendPath(merged: Chain, ghost moved: Tree)
      requires |merged.blocks| == |merged.changesets| && TiedButDb(moved)
      requires moved.db == db + Zip(merged.blocks, merged.changesets)
      requires Inv(world, moved) && Agree(moved, indices.forkToChild, indices.numberToBlock, indices.canonicalChain)
      modifies this`db, this`model
      ensures Valid() && model == moved
    {
      CommitCanonical(merged);
      model := moved;
    }

    /** Replace the canonical blocks above the fork; they come back as a chain. */
    method ReplacePath(merged: Chain, ghost moved: Tree)
      requires PartOk(merged) && 0 < merged.First().number < |db| && TiedButDb(moved)
      requires moved.db == db[..merged.First().number] + Zip(merged.blocks, merged.changesets)
      requires AgreeWith(world, moved, New(db[merged.First().number..]), indices.forkToChild, indices.numberToBlock,
                         indices.canonicalChain)
      modifies this, indices
      ensures Valid() && model == AddChain(moved, New(old(db)[merged.First().number..]))
    {
      var displaced := RewriteDb(merged);
      InsertChain(displaced, moved);
    }

    method RewriteDb(merged: Chain) returns (displaced: Chain)
      requires PartOk(merged) && 0 < merged.First().number < |db|
      modifies this`db
      ensures db == old(db)[..merged.First().number] + Zip(merged.blocks, merged.changesets)
      ensures displaced == New(old(db)[merged.First().number..])
    {
      displaced := RevertCanonical(merged.ForkNumber());
      CommitCanonical(merged);
    }

    /** Make a block and its ancestors canonical; a block that is canonical already, from
        the finalised one on, is accepted as it is, and any other is not found. */
    method MakeCanonical(h: BlockHash) returns (r: Result<(), Error>)
      requires Valid()
      modifies this, indices
      ensures Valid()
      ensures model == Step(world, old(model), Op.MakeCanonical(h))
      ensures r == if h in old(model).loc || exists n :: n >= old(model).lastFinalized && InDb(old(model).db, n, h)
                   then Ok(()) else Err(BlockHashNotFoundInChain)
    {
      WindowHas(db, model.windowLow, indices.lastFinalized, h);
      if h !in indices.blocksToChain {
        if indices.IsBlockHashCanonical(h) {
          return Ok(());
        }
        return Err(BlockHashNotFoundInChain);
      }
      PromoteHash(h);
      r := Ok(());
    }

    method PromoteHash(h: BlockHash)
      requires Valid() && h in model.loc
      modifies this, indices
      ensures Valid()
      ensures model == Step(world, old(model), Op.MakeCanonical(h))
    {
      var merged := CollectChain(h);
      PlaceChain(h, merged);
    }

    method PlaceChain(ghost h: BlockHash, merged: Chain)
      requires Inv(world, model) && h in model.loc && chains == CutChains(world, model.chains, Cuts(world, model, h))
      requires TiedTo(model.(chains := chains)) && indices.canonicalChain == Window(model.db, model.windowLow)
      requires WalkIndices(model, chains, indices.forkToChild, indices.numberToBlock, indices.blocksToChain)
      requires PartOk(merged) && Zip(merged.blocks, merged.changesets) == PathTo(world, model, h)
      modifies this, indices
      ensures Valid()
      ensures model == Step(world, old(model), Op.MakeCanonical(h))
    {
      ghost var moved, result := MergedPath(world, model, h, merged, indices.forkToChild, indices.numberToBlock,
                                            indices.canonicalChain);
      PlacePath(merged, model, moved, result);
    }

    /** The parts between `h` and the canonical chain, joined into one chain. */
    method CollectChain(h: BlockHash) returns (merged: Chain)
      requires Valid() && h in indices.blocksToChain
      modifies this`chains, indices`numberToBlock, indices`blocksToChain, indices`forkToChild
      ensures PartOk(merged) && Zip(merged.blocks, merged.changesets) == PathTo(world, model, h)
      ensures chains == CutChains(world, model.chains, Cuts(world, model, h))
      ensures WalkIndices(model, chains, indices.forkToChild, indices.numberToBlock, indices.blocksToChain)
    {
      var parts := CollectParts(h);
      merged := MergeParts(parts);
    }

    method PlacePath(merged: Chain, ghost t: Tree, ghost moved: Tree, ghost result: Tree)
      requires db == t.db && t.windowLow < |db| && indices.canonicalChain == Window(db, t.windowLow)
      requires chains == moved.chains && nextId == moved.nextId && maxBlocks == moved.maxBlocks
      requires indices.lastFinalized == moved.lastFinalized && indices.additional == moved.additional
      requires moved.loc == indices.blocksToChain - BlockHashes(merged.blocks)
      requires Ready(world, t, merged, moved, result, RemoveAll(ByParent, indices.forkToChild, merged.blocks),
                     RemoveAll(ByNumber, indices.numberToBlock, merged.blocks),
                     Overwrite(indices.canonicalChain, merged.blocks))
      modifies this, indices
      ensures Valid() && model == result
    {
      hide Inv, Overwrite, RemoveAll, Window, Agree;
      var _, tipHash := Tip(t.windowLow);
      indices.CanonicalizeBlocks(merged.blocks);
      if merged.First().parent == tipHash {
        assert db[..|db|] == db;
        AppendPath(merged, moved);
      } else {
        if indices.CanonicalHash(merged.ForkNumber()) != Some(merged.First().parent) {
          assert false;
        }
        ReplacePath(merged, moved);
      }
    }

    method Tip(ghost low: BlockNumber) returns (number: BlockNumber, hash: BlockHash)
      requires low < |db| && indices.canonicalChain == Window(db, low)
      ensures number == |db| - 1 && hash == db[|db| - 1].block.hash
    {
      WindowTip(db, low, 0);
      number, hash := indices.CanonicalTip();
      WindowTip(db, low, number);
    }

    // Whole runs

    method Execute(op: Op)
      requires Valid() && Allowed(world, model, op)
      modifies this, indices
      ensures Valid()
      ensures model == Step(world, old(model), op)
    {
      match op
      case InsertBlock(exec, block) =>
        var _ := InsertBlockWithSenders(exec, block);
      case FinalizeBlock(n) =>
        FinalizeBlock(n);
      case MakeCanonical(h) =>
        var _ := MakeCanonical(h);
    }

    /** After any run of operations the indices agree with the chains, and the object
        stands for the state the run of the state machine ends in. */
    method ExecuteAll(ops: seq<Op>)
      requires Valid() && Legal(world, model, ops)
      modifies this, indices
      ensures Valid()
      ensures model == Run(world, old(model), ops)
    {
      ghost var start := model;
      var i := 0;
      while i < |ops|
        invariant 0 <= i <= |ops|
        invariant Valid() && Legal(world, model, ops[i..])
        invariant Run(world, model, ops[i..]) == Run(world, start, ops)
      {
        assert ops[i..][1..] == ops[i + 1..];
        Execute(ops[i]);
        i := i + 1;
      }
    }
  }
}
