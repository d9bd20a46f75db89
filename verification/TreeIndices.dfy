/** How the indices change when the chains change. */
module TreeIndices {
  import opened Chains
  import opened TreeModel
  import opened TreeInsert
  import opened TreeReorg
  import opened Indices

  ghost function BlocksIn(chains: map<ChainId, Chain>): set<Block> {
    set id, b | id in chains && b in chains[id].blocks :: b
  }

  ghost function Firsts(chains: map<ChainId, Chain>): set<Block> {
    set id | id in chains && |chains[id].blocks| > 0 :: chains[id].blocks[0]
  }

  ghost function Window(db: seq<Stored>, low: BlockNumber): map<BlockNumber, BlockHash> {
    map n | low <= n < |db| :: db[n].block.hash
  }

  /** The indices agree exactly with the chains and the canonical blocks. */
  ghost predicate Agree(
    t: Tree, forkToChild: Groups, numberToBlock: Groups, canonicalChain: map<BlockNumber, BlockHash>) {
    && Grouped(ByParent, Firsts(t.chains), forkToChild)
    && Grouped(ByNumber, BlocksIn(t.chains), numberToBlock)
    && canonicalChain == Window(t.db, t.windowLow)
  }

  lemma {:induction false} InBlocksIn(w: World, t: Tree, b: Block)
    requires ChainsOk(w, t.chains) && LocOk(t.chains, t.loc)
    ensures b in BlocksIn(t.chains) <==> b.hash in t.loc && w(b.hash) == b
  {
    if b in BlocksIn(t.chains) {
      var id :| id in t.chains && b in t.chains[id].blocks;
      var i :| 0 <= i < |t.chains[id].blocks| && t.chains[id].blocks[i] == b;
      BlockAt(w, t, id, i);
    }
    if b.hash in t.loc && w(b.hash) == b {
      Located(w, t, b.hash);
      assert b in t.chains[t.loc[b.hash]].blocks;
    }
  }

  /** What agreement means, index by index: a number's group holds exactly the side
      blocks with that number, a hash's group exactly the first blocks of the chains
      that start on it, and no group is empty. */
  lemma {:induction false} AgreeMeaning(w: World, t: Tree, forkToChild: Groups, numberToBlock: Groups,
                     canonicalChain: map<BlockNumber, BlockHash>)
    requires Inv(w, t) && Agree(t, forkToChild, numberToBlock, canonicalChain)
    ensures forall n, h :: h in Group(numberToBlock, n) <==> h in t.loc && w(h).number == n
    ensures forall p, h :: h in Group(forkToChild, p) <==>
              exists id :: id in t.chains && |t.chains[id].blocks| > 0
                           && t.chains[id].First().parent == p && t.chains[id].First().hash == h
    ensures forall n :: n in numberToBlock ==> numberToBlock[n] != {}
    ensures forall p :: p in forkToChild ==> forkToChild[p] != {}
    ensures forall n :: n in canonicalChain <==> t.windowLow <= n < |t.db|
    ensures forall n :: n in canonicalChain ==> canonicalChain[n] == t.db[n].block.hash
  {
    GroupedIs(ByParent, Firsts(t.chains), forkToChild);
    GroupedIs(ByNumber, BlocksIn(t.chains), numberToBlock);
    forall n, h
      ensures h in Group(numberToBlock, n) <==> h in t.loc && w(h).number == n
    {
      NumberGroup(w, t, n, h);
    }
    forall n
      ensures n in numberToBlock ==> numberToBlock[n] != {}
      ensures n in forkToChild ==> forkToChild[n] != {}
    {
      NumberGroup(w, t, n, 0);
      ForkGroup(t, n, 0);
    }
    forall p, h
      ensures h in Group(forkToChild, p) <==>
              exists id :: id in t.chains && |t.chains[id].blocks| > 0
                           && t.chains[id].First().parent == p && t.chains[id].First().hash == h
    {
      ForkGroup(t, p, h);
    }
  }

  lemma {:induction false} NumberGroup(w: World, t: Tree, n: BlockNumber, h: BlockHash)
    requires ChainsOk(w, t.chains) && LocOk(t.chains, t.loc)
    ensures var g := GroupBy(ByNumber, BlocksIn(t.chains));
            && (h in Group(g, n) <==> h in t.loc && w(h).number == n)
            && (n in g ==> g[n] != {})
  {
    GroupElements(ByNumber, BlocksIn(t.chains), n);
    forall b | b in BlocksIn(t.chains)
      ensures b.hash in t.loc && w(b.hash) == b
    {
      InBlocksIn(w, t, b);
    }
    if h in t.loc {
      Located(w, t, h);
      InBlocksIn(w, t, w(h));
    }
  }

  lemma {:induction false} ForkGroup(t: Tree, p: BlockHash, h: BlockHash)
    ensures var g := GroupBy(ByParent, Firsts(t.chains));
            && (h in Group(g, p) <==>
                exists id :: id in t.chains && |t.chains[id].blocks| > 0
                             && t.chains[id].First().parent == p && t.chains[id].First().hash == h)
            && (p in g ==> g[p] != {})
  {
    GroupElements(ByParent, Firsts(t.chains), p);
    if h in Group(GroupBy(ByParent, Firsts(t.chains)), p) {
      var b :| b in Firsts(t.chains) && b.parent == p && b.hash == h;
      var id :| id in t.chains && |t.chains[id].blocks| > 0 && t.chains[id].blocks[0] == b;
      assert t.chains[id].First().parent == p;
    }
    if id :| id in t.chains && |t.chains[id].blocks| > 0
             && t.chains[id].First().parent == p && t.chains[id].First().hash == h {
      assert t.chains[id].blocks[0] in Firsts(t.chains);
    }
  }

  // Distinct hashes

  lemma {:induction false} SealedDistinct(w: World, blocks: set<Block>)
    requires forall b :: b in blocks ==> w(b.hash) == b
    ensures DistinctHashes(blocks)
  {
  }

  lemma {:induction false} TreeSealed(w: World, chains: map<ChainId, Chain>)
    requires ChainsOk(w, chains)
    ensures forall b :: b in BlocksIn(chains) ==> w(b.hash) == b
    ensures forall b :: b in Firsts(chains) ==> b in BlocksIn(chains)
  {
    forall b | b in BlocksIn(chains)
      ensures w(b.hash) == b
    {
      var id :| id in chains && b in chains[id].blocks;
      assert Sound(w, chains[id]);
      var i :| 0 <= i < |chains[id].blocks| && chains[id].blocks[i] == b;
      assert SealedBy(w, chains[id].blocks[i]);
    }
    forall b | b in Firsts(chains)
      ensures b in BlocksIn(chains)
    {
      var id :| id in chains && |chains[id].blocks| > 0 && chains[id].blocks[0] == b;
      assert b in chains[id].blocks;
    }
  }

  // One chain more

  lemma {:induction false} AddedChain(chains: map<ChainId, Chain>, id: ChainId, c: Chain)
    requires id !in chains && |c.blocks| > 0
    ensures BlocksIn(chains[id := c]) == BlocksIn(chains) + SetOf(c.blocks)
    ensures Firsts(chains[id := c]) == Firsts(chains) + {c.First()}
  {
    var more := chains[id := c];
    forall b | b in BlocksIn(chains) + SetOf(c.blocks)
      ensures b in BlocksIn(more)
    {
      if b in SetOf(c.blocks) {
        assert b in more[id].blocks;
      } else {
        var k :| k in chains && b in chains[k].blocks;
        assert b in more[k].blocks;
      }
    }
    forall b | b in Firsts(chains) + {c.First()}
      ensures b in Firsts(more)
    {
      if b == c.First() {
        assert more[id].blocks[0] == b;
      } else {
        var k :| k in chains && |chains[k].blocks| > 0 && chains[k].blocks[0] == b;
        assert more[k].blocks[0] == b;
      }
    }
  }

  lemma {:induction false} ExtendedChain(chains: map<ChainId, Chain>, id: ChainId, c: Chain, b: Block)
    requires id in chains && |chains[id].blocks| > 0 && c.blocks == chains[id].blocks + [b]
    ensures BlocksIn(chains[id := c]) == BlocksIn(chains) + {b}
    ensures Firsts(chains[id := c]) == Firsts(chains)
  {
    var more := chains[id := c];
    forall x | x in BlocksIn(chains) + {b}
      ensures x in BlocksIn(more)
    {
      if x == b {
        assert b in more[id].blocks;
      } else {
        var k :| k in chains && x in chains[k].blocks;
        assert x in more[k].blocks;
      }
    }
    forall x | x in Firsts(chains)
      ensures x in Firsts(more)
    {
      var k :| k in chains && |chains[k].blocks| > 0 && chains[k].blocks[0] == x;
      assert more[k].blocks[0] == x;
    }
  }

  lemma {:induction false} AgreeAddChain(t: Tree, c: Chain, forkToChild: Groups, numberToBlock: Groups,
                      canonicalChain: map<BlockNumber, BlockHash>)
    requires Agree(t, forkToChild, numberToBlock, canonicalChain)
    requires IdsBelow(t.chains, t.nextId) && |c.blocks| > 0
    ensures Agree(AddChain(t, c), AddTo(forkToChild, c.First().parent, c.First().hash),
                  AddAll(ByNumber, numberToBlock, c.blocks), canonicalChain)
  {
    GroupedIs(ByParent, Firsts(t.chains), forkToChild);
    GroupedIs(ByNumber, BlocksIn(t.chains), numberToBlock);
    AddedChain(t.chains, t.nextId, c);
    GroupAdd(ByParent, Firsts(t.chains), c.First());
    GroupAddAll(ByNumber, BlocksIn(t.chains), c.blocks);
    IsGrouped(ByParent, Firsts(t.chains) + {c.First()});
    IsGrouped(ByNumber, BlocksIn(t.chains) + SetOf(c.blocks));
  }

  lemma {:induction false} AgreeExtend(
    t: Tree, id: ChainId, c: Chain, b: Block, forkToChild: Groups, numberToBlock: Groups,
    canonicalChain: map<BlockNumber, BlockHash>)
    requires Agree(t, forkToChild, numberToBlock, canonicalChain)
    requires id in t.chains && |t.chains[id].blocks| > 0 && c.blocks == t.chains[id].blocks + [b]
    ensures Agree(t.(chains := t.chains[id := c], loc := t.loc[b.hash := id]), forkToChild,
                  AddTo(numberToBlock, b.number, b.hash), canonicalChain)
  {
    GroupedIs(ByNumber, BlocksIn(t.chains), numberToBlock);
    ExtendedChain(t.chains, id, c, b);
    GroupAdd(ByNumber, BlocksIn(t.chains), b);
    IsGrouped(ByNumber, BlocksIn(t.chains) + {b});
  }

  /** The tree and its indices after one more chain. */
  ghost predicate AgreeWith(w: World, t: Tree, c: Chain, forkToChild: Groups, numberToBlock: Groups,
                            canonicalChain: map<BlockNumber, BlockHash>) {
    && |c.blocks| > 0
    && Inv(w, AddChain(t, c))
    && Agree(AddChain(t, c), AddTo(forkToChild, c.First().parent, c.First().hash),
             AddAll(ByNumber, numberToBlock, c.blocks), canonicalChain)
  }

  lemma {:induction false} CanonicalForkAgrees(
    w: World, t: Tree, exec: Executor, b: Block, forkToChild: Groups, numberToBlock: Groups,
    canonicalChain: map<BlockNumber, BlockHash>)
    requires Inv(w, t) && FreshIn(w, t, b) && InWindow(t, b.number - 1, b.parent)
    requires Agree(t, forkToChild, numberToBlock, canonicalChain)
    ensures var r := NewCanonicalFork(exec, b, t.db[b.number - 1].block);
            r.Ok? ==> AgreeWith(w, t, r.value, forkToChild, numberToBlock, canonicalChain)
  {
    InsertOnCanonicalKeepsInv(w, t, exec, b);
    var r := NewCanonicalFork(exec, b, t.db[b.number - 1].block);
    if r.Ok? {
      AgreeAddChain(t, r.value, forkToChild, numberToBlock, canonicalChain);
    }
  }

  lemma {:induction false} SideForkAgrees(
    w: World, t: Tree, exec: Executor, b: Block, forkToChild: Groups, numberToBlock: Groups,
    canonicalChain: map<BlockNumber, BlockHash>)
    requires Inv(w, t) && FreshIn(w, t, b) && b.parent in t.loc
    requires Agree(t, forkToChild, numberToBlock, canonicalChain)
    ensures t.loc[b.parent] in t.chains && ChainOk(t.chains[t.loc[b.parent]])
    ensures var c := t.chains[t.loc[b.parent]];
            var r := NewChainFork(c, exec, b);
            c.Tip().hash != b.parent && r.Ok? ==> AgreeWith(w, t, r.value, forkToChild, numberToBlock, canonicalChain)
  {
    Located(w, t, b.parent);
    InsertOnSideKeepsInv(w, t, exec, b);
    var c := t.chains[t.loc[b.parent]];
    assert Sound(w, c);
    var r := NewChainFork(c, exec, b);
    if c.Tip().hash != b.parent && r.Ok? {
      AgreeAddChain(t, r.value, forkToChild, numberToBlock, canonicalChain);
    }
  }

  lemma {:induction false} SideAppendAgrees(
    w: World, t: Tree, exec: Executor, b: Block, forkToChild: Groups, numberToBlock: Groups,
    canonicalChain: map<BlockNumber, BlockHash>)
    requires Inv(w, t) && FreshIn(w, t, b) && b.parent in t.loc
    requires Agree(t, forkToChild, numberToBlock, canonicalChain)
    ensures t.loc[b.parent] in t.chains && ChainOk(t.chains[t.loc[b.parent]])
    ensures var id := t.loc[b.parent];
            var c := t.chains[id];
            var r := AppendBlock(c, exec, b);
            c.Tip().hash == b.parent && r.Ok? ==>
              var t' := t.(chains := t.chains[id := r.value], loc := t.loc[b.hash := id]);
              Inv(w, t') && Agree(t', forkToChild, AddTo(numberToBlock, b.number, b.hash), canonicalChain)
  {
    Located(w, t, b.parent);
    InsertOnSideKeepsInv(w, t, exec, b);
    var id := t.loc[b.parent];
    var c := t.chains[id];
    assert Sound(w, c);
    var r := AppendBlock(c, exec, b);
    if c.Tip().hash == b.parent && r.Ok? {
      AgreeExtend(t, id, r.value, b, forkToChild, numberToBlock, canonicalChain);
    }
  }

  /** Looking a hash up in the canonical window from the finalised block on. */
  lemma {:induction false} WindowHas(db: seq<Stored>, low: BlockNumber, from: BlockNumber, h: BlockHash)
    requires low <= from
    ensures (exists n | n in Window(db, low) :: n >= from && Window(db, low)[n] == h)
            <==> exists n :: n >= from && InDb(db, n, h)
  {
    if n :| n >= from && InDb(db, n, h) {
      assert n in Window(db, low) && Window(db, low)[n] == h;
    }
    if n :| n in Window(db, low) && n >= from && Window(db, low)[n] == h {
      assert InDb(db, n, h);
    }
  }

  /** The highest entry of the window is the canonical tip. */
  lemma {:induction false} WindowTip(db: seq<Stored>, low: BlockNumber, number: BlockNumber)
    requires low < |db|
    ensures Window(db, low) != map[]
    ensures number in Window(db, low) && (forall n :: n in Window(db, low) ==> n <= number) ==>
              number == |db| - 1 && Window(db, low)[number] == db[|db| - 1].block.hash
  {
    assert |db| - 1 in Window(db, low);
  }
}
