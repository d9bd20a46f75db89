/** The finalisation worklist: what has been taken out after any number of steps, and
    why it ends with exactly the chains that leave the canonical chain too low. */
module TreePurge {
  import opened Chains
  import opened TreeModel
  import opened TreeReorg
  import opened Indices
  import opened TreeIndices

  /** The canonical hashes from the old finalised number on and below the new one. */
  ghost function Passed(t: Tree, n: BlockNumber): set<BlockHash> {
    set k | t.lastFinalized <= k < n && k < |t.db| :: t.db[k].block.hash
  }

  /** Hashes no chain may start on any more, once the chains in `gone` are out. */
  ghost function Killed(t: Tree, n: BlockNumber, gone: set<ChainId>): set<BlockHash> {
    Passed(t, n) + (set h | h in t.loc && t.loc[h] in gone)
  }

  ghost predicate Orphan(t: Tree, n: BlockNumber, gone: set<ChainId>, id: ChainId) {
    id in t.chains && |t.chains[id].blocks| > 0 && t.chains[id].First().parent in Killed(t, n, gone)
  }

  /** The chains that wait for removal. */
  ghost function Work(t: Tree, n: BlockNumber, gone: set<ChainId>): set<ChainId> {
    set id | id in t.chains && id !in gone && Orphan(t, n, gone, id)
  }

  ghost function FirstHashes(t: Tree, ids: set<ChainId>): set<BlockHash> {
    set id | id in ids && id in t.chains && |t.chains[id].blocks| > 0 :: t.chains[id].First().hash
  }

  ghost function HashesOf(t: Tree, gone: set<ChainId>): set<BlockHash> {
    set h | h in t.loc && t.loc[h] in gone
  }

  /** The state between two steps, as a function of the chains already gone. */
  ghost predicate Purging(w: World, t: Tree, n: BlockNumber, gone: set<ChainId>, chains: map<ChainId, Chain>,
                          forkToChild: Groups, numberToBlock: Groups, blocksToChain: map<BlockHash, ChainId>) {
    && gone <= t.chains.Keys
    && chains == t.chains - gone
    && forkToChild == GroupBy(ByParent, Firsts(t.chains)) - Killed(t, n, gone)
    && numberToBlock == GroupBy(ByNumber, BlocksIn(chains))
    && blocksToChain == t.loc - HashesOf(t, gone) - FirstHashes(t, Work(t, n, gone))
    && (forall id {:trigger Orphan(t, n, gone, id)} :: id in gone ==> Orphan(t, n, gone, id))
  }

  /** The chains starting on given hashes, read off the fork index. */
  lemma {:induction false} ChildrenMeaning(t: Tree, hashes: set<BlockHash>, x: BlockHash)
    ensures x in ChildrenOf(GroupBy(ByParent, Firsts(t.chains)), hashes) <==>
            exists id :: id in t.chains && |t.chains[id].blocks| > 0
                         && t.chains[id].First().parent in hashes && t.chains[id].First().hash == x
  {
    var g := GroupBy(ByParent, Firsts(t.chains));
    if x in ChildrenOf(g, hashes) {
      var p :| p in hashes && x in Group(g, p);
      ForkGroup(t, p, x);
    }
    if id :| id in t.chains && |t.chains[id].blocks| > 0
             && t.chains[id].First().parent in hashes && t.chains[id].First().hash == x {
      ForkGroup(t, t.chains[id].First().parent, x);
      assert x in Group(g, t.chains[id].First().parent);
    }
  }

  /** The same as a set, and the chains behind it. */
  lemma {:induction false} ChildrenAreFirsts(w: World, t: Tree, hashes: set<BlockHash>, ids: set<ChainId>)
    requires ChainsOk(w, t.chains) && LocOk(t.chains, t.loc)
    requires ids == set id | id in t.chains && |t.chains[id].blocks| > 0 && t.chains[id].First().parent in hashes
    ensures ChildrenOf(GroupBy(ByParent, Firsts(t.chains)), hashes) == FirstHashes(t, ids)
    ensures Owners(t.loc, FirstHashes(t, ids)) == ids
  {
    forall x
      ensures x in ChildrenOf(GroupBy(ByParent, Firsts(t.chains)), hashes) <==> x in FirstHashes(t, ids)
    {
      ChildrenMeaning(t, hashes, x);
    }
    FirstsLocated(w, t, ids);
    OwnersOfFirsts(w, t, t.loc, ids);
  }

  lemma {:induction false} FirstsLocated(w: World, t: Tree, ids: set<ChainId>)
    requires ChainsOk(w, t.chains) && LocOk(t.chains, t.loc)
    ensures forall h :: h in FirstHashes(t, ids) ==> h in t.loc && t.loc[h] in ids
    ensures forall id :: id in ids && id in t.chains && |t.chains[id].blocks| > 0 ==>
              t.chains[id].First().hash in FirstHashes(t, ids)
  {
    forall h | h in FirstHashes(t, ids)
      ensures h in t.loc && t.loc[h] in ids
    {
      var k :| k in ids && k in t.chains && |t.chains[k].blocks| > 0 && t.chains[k].First().hash == h;
      BlockAt(w, t, k, 0);
    }
  }

  lemma {:induction false} OwnersOfFirsts(w: World, t: Tree, m: map<BlockHash, ChainId>, ids: set<ChainId>)
    requires ChainsOk(w, t.chains) && LocOk(t.chains, t.loc)
    requires forall id :: id in ids ==> id in t.chains && |t.chains[id].blocks| > 0
    requires forall h :: h in m ==> h in t.loc && m[h] == t.loc[h]
    requires FirstHashes(t, ids) <= m.Keys
    ensures Owners(m, FirstHashes(t, ids)) == ids
  {
    forall id | id in ids
      ensures id in Owners(m, FirstHashes(t, ids))
    {
      BlockAt(w, t, id, 0);
      assert t.chains[id].First().hash in FirstHashes(t, ids);
    }
    forall id | id in Owners(m, FirstHashes(t, ids))
      ensures id in ids
    {
      var h :| h in FirstHashes(t, ids) && h in m && m[h] == id;
      var k :| k in ids && k in t.chains && |t.chains[k].blocks| > 0 && t.chains[k].First().hash == h;
      BlockAt(w, t, k, 0);
    }
  }

  lemma {:induction false} SliceIsPassed(t: Tree, n: BlockNumber)
    requires t.windowLow <= t.lastFinalized && n < |t.db|
    ensures Slice(Window(t.db, t.windowLow), t.lastFinalized, n) == Passed(t, n)
  {
    var window := Window(t.db, t.windowLow);
    forall h | h in Passed(t, n)
      ensures h in Slice(window, t.lastFinalized, n)
    {
      var k :| t.lastFinalized <= k < n && k < |t.db| && t.db[k].block.hash == h;
      assert k in window && window[k] == h;
    }
  }

  /** After the canonical part of finalisation nothing is gone yet and the worklist is set. */
  lemma {:induction false} PurgeStart(
    w: World, t: Tree, n: BlockNumber, done: set<BlockHash>, forkToChild: Groups, numberToBlock: Groups,
    canonicalChain: map<BlockNumber, BlockHash>)
    requires Inv(w, t) && n < |t.db| && Agree(t, forkToChild, numberToBlock, canonicalChain)
    requires done == Slice(canonicalChain, t.lastFinalized, n)
    ensures Purging(w, t, n, {}, t.chains, forkToChild - done, numberToBlock, t.loc - ChildrenOf(forkToChild, done))
    ensures Owners(t.loc, ChildrenOf(forkToChild, done)) == Work(t, n, {})
  {
    GroupedIs(ByParent, Firsts(t.chains), forkToChild);
    GroupedIs(ByNumber, BlocksIn(t.chains), numberToBlock);
    SliceIsPassed(t, n);
    assert Killed(t, n, {}) == done;
    assert t.chains - {} == t.chains;
    assert HashesOf(t, {}) == {};
    assert Work(t, n, {}) ==
      set id | id in t.chains && |t.chains[id].blocks| > 0 && t.chains[id].First().parent in done;
    ChildrenAreFirsts(w, t, done, Work(t, n, {}));
  }

  /** No block of a chain that is still there is killed. */
  lemma {:induction false} AliveNotKilled(w: World, t: Tree, n: BlockNumber, gone: set<ChainId>, h: BlockHash)
    requires Inv(w, t) && h in t.loc && t.loc[h] !in gone
    ensures h !in Killed(t, n, gone)
  {
    if h in Passed(t, n) {
      var k :| t.lastFinalized <= k < n && k < |t.db| && t.db[k].block.hash == h;
      assert InDb(t.db, k, h);
    }
  }

  /** The chains that start on a chain still there, none of which is gone or waiting. */
  ghost function StartingOn(t: Tree, id: ChainId): set<ChainId>
    requires id in t.chains
  {
    set k | k in t.chains && |t.chains[k].blocks| > 0 && t.chains[k].First().parent in t.chains[id].Hashes()
  }

  lemma {:induction false} ChainHashes(w: World, t: Tree, id: ChainId)
    requires ChainsOk(w, t.chains) && LocOk(t.chains, t.loc) && id in t.chains
    ensures HashesOf(t, {id}) == t.chains[id].Hashes() == BlockHashes(t.chains[id].blocks)
  {
    forall h
      ensures h in HashesOf(t, {id}) <==> h in t.chains[id].Hashes()
    {
      if h in t.chains[id].Hashes() {
        assert Holds(t.chains, id, h);
      }
      if h in t.loc && t.loc[h] == id {
        assert Holds(t.chains, t.loc[h], h);
      }
    }
  }

  lemma {:induction false} NextWork(w: World, t: Tree, n: BlockNumber, gone: set<ChainId>, id: ChainId)
    requires Inv(w, t) && gone <= t.chains.Keys && id in Work(t, n, gone)
    requires forall k {:trigger Orphan(t, n, gone, k)} :: k in gone ==> Orphan(t, n, gone, k)
    ensures Killed(t, n, gone + {id}) == Killed(t, n, gone) + t.chains[id].Hashes()
    ensures HashesOf(t, gone + {id}) == HashesOf(t, gone) + t.chains[id].Hashes()
    ensures Work(t, n, gone + {id}) == Work(t, n, gone) - {id} + StartingOn(t, id)
    ensures StartingOn(t, id) !! gone && StartingOn(t, id) !! Work(t, n, gone) && id !in StartingOn(t, id)
    ensures t.chains[id].Hashes() !! Killed(t, n, gone)
  {
    var more := gone + {id};
    ChainHashes(w, t, id);
    assert HashesOf(t, more) == HashesOf(t, gone) + HashesOf(t, {id});
    assert Killed(t, n, more) == Killed(t, n, gone) + t.chains[id].Hashes();
    forall h | h in t.chains[id].Hashes()
      ensures h !in Killed(t, n, gone)
    {
      assert Holds(t.chains, id, h);
      AliveNotKilled(w, t, n, gone, h);
    }
    forall k | k in StartingOn(t, id)
      ensures k !in gone && k !in Work(t, n, gone) && k != id
    {
      var p := t.chains[k].First().parent;
      assert k in gone ==> Orphan(t, n, gone, k);
      assert Orphan(t, n, gone, id);
      StartsBelow(w, t, id, k);
    }
    forall k
      ensures k in Work(t, n, more) <==> k in Work(t, n, gone) - {id} + StartingOn(t, id)
    {
      assert Orphan(t, n, more, k) <==> Orphan(t, n, gone, k) || k in StartingOn(t, id);
    }
  }

  /** A chain does not start on a block of itself. */
  lemma {:induction false} StartsBelow(w: World, t: Tree, id: ChainId, k: ChainId)
    requires Inv(w, t) && id in t.chains && k in StartingOn(t, id)
    ensures k != id
  {
    var p := t.chains[k].First().parent;
    assert Holds(t.chains, id, p);
    Located(w, t, p);
    ParentBelow(w, t, k);
  }

  /** Without some of its chains the tree holds the blocks of the others. */
  lemma {:induction false} RemovedChain(w: World, chains: map<ChainId, Chain>, id: ChainId, t: Tree)
    requires ChainsOk(w, t.chains) && LocOk(t.chains, t.loc)
    requires chains.Keys <= t.chains.Keys && (forall k :: k in chains ==> chains[k] == t.chains[k]) && id in chains
    ensures BlocksIn(chains - {id}) == BlocksIn(chains) - SetOf(chains[id].blocks)
    ensures DistinctHashes(BlocksIn(chains) + SetOf(chains[id].blocks))
  {
    forall b | b in BlocksIn(chains)
      ensures w(b.hash) == b
      ensures b in BlocksIn(chains - {id}) <==> b !in chains[id].blocks
    {
      BlockOfOneChain(w, chains, t, b);
      var k :| k in chains && b in chains[k].blocks;
      assert forall j :: j in chains && b in chains[j].blocks ==> j == k;
      if b !in chains[id].blocks {
        assert b in (chains - {id})[k].blocks;
      } else {
        assert forall j :: j in chains - {id} ==> (chains - {id})[j] == chains[j];
      }
    }
    SealedDistinct(w, BlocksIn(chains));
    assert BlocksIn(chains) + SetOf(chains[id].blocks) == BlocksIn(chains);
  }

  lemma {:induction false} BlockOfOneChain(w: World, chains: map<ChainId, Chain>, t: Tree, b: Block)
    requires ChainsOk(w, t.chains) && LocOk(t.chains, t.loc)
    requires chains.Keys <= t.chains.Keys && (forall k :: k in chains ==> chains[k] == t.chains[k])
    ensures forall k :: k in chains && b in chains[k].blocks ==> b.hash in t.loc && t.loc[b.hash] == k && w(b.hash) == b
  {
    forall k | k in chains && b in chains[k].blocks
      ensures b.hash in t.loc && t.loc[b.hash] == k && w(b.hash) == b
    {
      var i :| 0 <= i < |t.chains[k].blocks| && t.chains[k].blocks[i] == b;
      BlockAt(w, t, k, i);
    }
  }

  /** What removing one waiting chain from the indices does. */
  lemma {:induction false} PurgeStep(
    w: World, t: Tree, n: BlockNumber, gone: set<ChainId>, id: ChainId, chains: map<ChainId, Chain>,
    forkToChild: Groups, numberToBlock: Groups, blocksToChain: map<BlockHash, ChainId>)
    requires Inv(w, t) && id in Work(t, n, gone)
    requires Purging(w, t, n, gone, chains, forkToChild, numberToBlock, blocksToChain)
    ensures id in chains && chains[id] == t.chains[id]
    ensures var hashes := BlockHashes(t.chains[id].blocks);
            var children := ChildrenOf(forkToChild, hashes);
            && children !! hashes
            && Owners(blocksToChain, children) == StartingOn(t, id)
            && Work(t, n, gone + {id}) == Work(t, n, gone) - {id} + StartingOn(t, id)
            && Purging(w, t, n, gone + {id}, chains - {id}, forkToChild - hashes,
                       RemoveAll(ByNumber, numberToBlock, t.chains[id].blocks), blocksToChain - hashes - children)
  {
    ChainHashes(w, t, id);
    NextWork(w, t, n, gone, id);
    PurgeChildren(w, t, n, gone, id);
    PurgeOwners(w, t, n, gone, id);
    PurgeStepState(w, t, n, gone, id, chains, forkToChild, numberToBlock, blocksToChain);
  }

  lemma {:induction false} PurgeStepState(
    w: World, t: Tree, n: BlockNumber, gone: set<ChainId>, id: ChainId, chains: map<ChainId, Chain>,
    forkToChild: Groups, numberToBlock: Groups, blocksToChain: map<BlockHash, ChainId>)
    requires Inv(w, t) && id in Work(t, n, gone)
    requires Purging(w, t, n, gone, chains, forkToChild, numberToBlock, blocksToChain)
    ensures var hashes := t.chains[id].Hashes();
            Purging(w, t, n, gone + {id}, chains - {id}, forkToChild - hashes,
                    RemoveAll(ByNumber, numberToBlock, t.chains[id].blocks),
                    blocksToChain - hashes - FirstHashes(t, StartingOn(t, id)))
  {
    NextWork(w, t, n, gone, id);
    PurgeNumbers(w, t, chains, id);
    PurgeLoc(w, t, n, gone, id);
    assert t.chains - gone - {id} == t.chains - (gone + {id});
    MinusMinus(GroupBy(ByParent, Firsts(t.chains)), Killed(t, n, gone), t.chains[id].Hashes());
    forall k | k in gone + {id}
      ensures Orphan(t, n, gone + {id}, k)
    {
      assert Orphan(t, n, gone, k);
    }
  }

  lemma {:induction false} PurgeNumbers(w: World, t: Tree, chains: map<ChainId, Chain>, id: ChainId)
    requires ChainsOk(w, t.chains) && LocOk(t.chains, t.loc)
    requires chains.Keys <= t.chains.Keys && (forall k :: k in chains ==> chains[k] == t.chains[k]) && id in chains
    ensures RemoveAll(ByNumber, GroupBy(ByNumber, BlocksIn(chains)), t.chains[id].blocks)
            == GroupBy(ByNumber, BlocksIn(chains - {id}))
  {
    RemovedChain(w, chains, id, t);
    GroupRemoveAll(ByNumber, BlocksIn(chains), t.chains[id].blocks);
  }

  lemma {:induction false} MinusMinus(m: Groups, a: set<nat>, b: set<nat>)
    ensures m - a - b == m - (a + b)
  {
  }

  /** The fork index still knows every chain that starts on a chain still there. */
  lemma {:induction false} PurgeChildren(w: World, t: Tree, n: BlockNumber, gone: set<ChainId>, id: ChainId)
    requires Inv(w, t) && id in t.chains && t.chains[id].Hashes() !! Killed(t, n, gone)
    requires id !in StartingOn(t, id)
    ensures var f := GroupBy(ByParent, Firsts(t.chains)) - Killed(t, n, gone);
            && ChildrenOf(f, t.chains[id].Hashes()) == FirstHashes(t, StartingOn(t, id))
            && ChildrenOf(f, t.chains[id].Hashes()) !! t.chains[id].Hashes()
  {
    var g := GroupBy(ByParent, Firsts(t.chains));
    var f, hashes := g - Killed(t, n, gone), t.chains[id].Hashes();
    assert forall p :: p in hashes ==> Group(f, p) == Group(g, p);
    assert ChildrenOf(f, hashes) == ChildrenOf(g, hashes);
    ChildrenAreFirsts(w, t, hashes, StartingOn(t, id));
    FirstsLocated(w, t, StartingOn(t, id));
    forall h | h in hashes
      ensures h in t.loc && t.loc[h] == id
    {
      assert Holds(t.chains, id, h);
    }
  }

  lemma {:induction false} PurgeOwners(w: World, t: Tree, n: BlockNumber, gone: set<ChainId>, id: ChainId)
    requires Inv(w, t) && id in t.chains
    requires StartingOn(t, id) !! gone && StartingOn(t, id) !! Work(t, n, gone)
    ensures var m := t.loc - HashesOf(t, gone) - FirstHashes(t, Work(t, n, gone));
            Owners(m, FirstHashes(t, StartingOn(t, id))) == StartingOn(t, id)
  {
    var m := t.loc - HashesOf(t, gone) - FirstHashes(t, Work(t, n, gone));
    FirstsLocated(w, t, Work(t, n, gone));
    FirstsLocated(w, t, StartingOn(t, id));
    OwnersOfFirsts(w, t, m, StartingOn(t, id));
  }

  lemma {:induction false} PurgeLoc(w: World, t: Tree, n: BlockNumber, gone: set<ChainId>, id: ChainId)
    requires Inv(w, t) && id in Work(t, n, gone)
    requires HashesOf(t, gone + {id}) == HashesOf(t, gone) + t.chains[id].Hashes()
    requires Work(t, n, gone + {id}) == Work(t, n, gone) - {id} + StartingOn(t, id)
    ensures t.loc - HashesOf(t, gone) - FirstHashes(t, Work(t, n, gone)) - t.chains[id].Hashes()
            - FirstHashes(t, StartingOn(t, id))
            == t.loc - HashesOf(t, gone + {id}) - FirstHashes(t, Work(t, n, gone + {id}))
  {
    var work, next := Work(t, n, gone), Work(t, n, gone + {id});
    assert work == work - {id} + {id};
    assert FirstHashes(t, work) == FirstHashes(t, work - {id}) + FirstHashes(t, {id});
    assert FirstHashes(t, next) == FirstHashes(t, work - {id}) + FirstHashes(t, StartingOn(t, id));
    assert FirstHashes(t, {id}) <= t.chains[id].Hashes();
  }

  // The end

  lemma {:induction false} GoneAreLow(w: World, t: Tree, n: BlockNumber, gone: set<ChainId>, id: ChainId)
    requires Inv(w, t) && Work(t, n, gone) == {} && id in t.chains
    requires forall k {:trigger Orphan(t, n, gone, k)} :: k in gone ==> Orphan(t, n, gone, k)
    ensures id in gone <==> Root(w, t, id) < n
    decreases if |t.chains[id].blocks| > 0 then t.chains[id].blocks[0].number else 0
  {
    ForkLink(w, t, id);
    var p := t.chains[id].First().parent;
    assert id in gone ==> Orphan(t, n, gone, id);
    assert id !in Work(t, n, gone);
    if p in t.loc {
      GoneAreLow(w, t, n, gone, t.loc[p]);
      if t.loc[p] !in gone {
        AliveNotKilled(w, t, n, gone, p);
      }
    } else {
      var k := t.chains[id].First().number - 1;
      ParentBelow(w, t, id);
      if p in Passed(t, n) {
        var j :| t.lastFinalized <= j < n && j < |t.db| && t.db[j].block.hash == p;
        assert InDb(t.db, j, p);
        InDbNumber(w, t.db, j, p);
        InDbNumber(w, t.db, k, p);
      }
      if k < n {
        assert p in Passed(t, n);
      }
    }
  }

  /** When the worklist is empty, exactly the chains that hang from below the new
      finalised number are gone and the indices agree with what is left. */
  lemma {:induction false} PurgeEnd(w: World, t: Tree, n: BlockNumber, gone: set<ChainId>, chains: map<ChainId, Chain>,
                 forkToChild: Groups, numberToBlock: Groups, blocksToChain: map<BlockHash, ChainId>,
                 window: map<BlockNumber, BlockHash>)
    requires Inv(w, t) && t.lastFinalized <= n < |t.db| && Work(t, n, gone) == {}
    requires Purging(w, t, n, gone, chains, forkToChild, numberToBlock, blocksToChain)
    requires window == From(Window(t.db, t.windowLow), if n < t.additional then 0 else n - t.additional)
    ensures var t' := Finalized(w, t, n);
            && chains == t'.chains && blocksToChain == t'.loc
            && Agree(t', forkToChild, numberToBlock, window)
  {
    forall id | id in t.chains
      ensures id in gone <==> Root(w, t, id) < n
    {
      GoneAreLow(w, t, n, gone, id);
    }
    PurgeEndLoc(w, t, n, gone);
    PurgeEndForks(w, t, n, gone, chains);
    IsGrouped(ByParent, Firsts(chains));
    IsGrouped(ByNumber, BlocksIn(chains));
    WindowFrom(t.db, t.windowLow, if n < t.additional then 0 else n - t.additional);
  }

  lemma {:induction false} PurgeEndLoc(w: World, t: Tree, n: BlockNumber, gone: set<ChainId>)
    requires Inv(w, t) && Work(t, n, gone) == {}
    requires forall id :: id in t.chains ==> (id in gone <==> Root(w, t, id) < n)
    ensures t.chains - gone == Finalized(w, t, n).chains
    ensures t.loc - HashesOf(t, gone) - FirstHashes(t, Work(t, n, gone)) == Finalized(w, t, n).loc
  {
    assert FirstHashes(t, {}) == {};
    forall h | h in t.loc
      ensures t.loc[h] in t.chains
    {
      Located(w, t, h);
    }
  }

  lemma {:induction false} WindowFrom(db: seq<Stored>, low: BlockNumber, until: BlockNumber)
    ensures From(Window(db, low), until) == Window(db, if until > low then until else low)
  {
  }

  lemma {:induction false} PurgeEndForks(
    w: World, t: Tree, n: BlockNumber, gone: set<ChainId>, chains: map<ChainId, Chain>)
    requires Inv(w, t) && Work(t, n, gone) == {} && chains == t.chains - gone
    requires forall k {:trigger Orphan(t, n, gone, k)} :: k in gone ==> Orphan(t, n, gone, k)
    ensures GroupBy(ByParent, Firsts(t.chains)) - Killed(t, n, gone) == GroupBy(ByParent, Firsts(chains))
  {
    var killed := Killed(t, n, gone);
    GroupDrop(ByParent, Firsts(t.chains), killed);
    var rest := WithoutKeys(ByParent, Firsts(t.chains), killed);
    forall b | b in rest
      ensures b in Firsts(chains)
    {
      var id :| id in t.chains && |t.chains[id].blocks| > 0 && t.chains[id].blocks[0] == b;
      assert id in gone ==> Orphan(t, n, gone, id);
      assert id in chains;
    }
    forall b | b in Firsts(chains)
      ensures b in rest
    {
      var id :| id in chains && |chains[id].blocks| > 0 && chains[id].blocks[0] == b;
      assert id !in Work(t, n, gone);
    }
    assert rest == Firsts(chains);
  }
}
