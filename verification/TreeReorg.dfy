/** Making a side block canonical: what moves, what stays, and what the move keeps. */
module TreeReorg {
  import opened Chains
  import opened TreeModel

  // The path

  lemma {:induction false} ZipPrefixLinked(w: World, t: Tree, id: ChainId, n: nat)
    requires ChainsOk(w, t.chains) && id in t.chains
    requires 1 <= n <= |t.chains[id].blocks| == |t.chains[id].changesets|
    ensures var c := t.chains[id];
            var z := Zip(c.blocks[..n], c.changesets[..n]);
            && |z| == n && Linked(BlocksOf(z)) && AllSealed(w, BlocksOf(z))
            && z[0].block == c.First() && z[n - 1].block == c.blocks[n - 1]
  {
    var c := t.chains[id];
    assert Sound(w, c);
    LinkedSlice(c.blocks, 0, n);
    assert c.blocks[0..n] == c.blocks[..n];
    forall i | 0 <= i < n
      ensures SealedBy(w, c.blocks[..n][i])
    {
      assert SealedBy(w, c.blocks[i]);
    }
  }

  lemma {:induction false} BlocksOfConcat(a: seq<Stored>, b: seq<Stored>)
    ensures BlocksOf(a + b) == BlocksOf(a) + BlocksOf(b)
    ensures HashesIn(a + b) == HashesIn(a) + HashesIn(b)
  {
    forall x | x in HashesIn(a) + HashesIn(b)
      ensures x in HashesIn(a + b)
    {
      if x in HashesIn(a) {
        var i :| 0 <= i < |a| && a[i].block.hash == x;
        assert (a + b)[i] == a[i];
      } else {
        var i :| 0 <= i < |b| && b[i].block.hash == x;
        assert (a + b)[|a| + i] == b[i];
      }
    }
  }

  ghost predicate PathOk(w: World, t: Tree, path: seq<Stored>) {
    && |path| > 0
    && Linked(BlocksOf(path)) && AllSealed(w, BlocksOf(path))
    && path[0].block.number > t.lastFinalized
    && InDb(t.db, path[0].block.number - 1, path[0].block.parent)
  }

  lemma {:induction false} JoinPath(w: World, t: Tree, before: seq<Stored>, own: seq<Stored>)
    requires PathOk(w, t, before)
    requires |own| > 0 && Linked(BlocksOf(own)) && AllSealed(w, BlocksOf(own))
    requires own[0].block.parent == before[|before| - 1].block.hash
    requires own[0].block.number == before[|before| - 1].block.number + 1
    ensures PathOk(w, t, before + own)
  {
    LinkedConcat(BlocksOf(before), BlocksOf(own));
    BlocksOfConcat(before, own);
    AllSealedConcat(w, BlocksOf(before), BlocksOf(own));
  }

  lemma {:induction false} AllSealedConcat(w: World, a: seq<Block>, b: seq<Block>)
    requires AllSealed(w, a) && AllSealed(w, b)
    ensures AllSealed(w, a + b)
  {
    forall i | 0 <= i < |a + b|
      ensures SealedBy(w, (a + b)[i])
    {
      assert i < |a| ==> SealedBy(w, a[i]);
      assert i >= |a| ==> SealedBy(w, b[i - |a|]);
    }
  }

  /** The part of the path that lies in the chain of `h` itself. */
  ghost function Own(w: World, t: Tree, h: BlockHash): (own: seq<Stored>)
    requires ChainsOk(w, t.chains) && LocOk(t.chains, t.loc) && h in t.loc
    ensures |own| == Depth(w, t, h)
  {
    var n := Depth(w, t, h);
    var c := t.chains[t.loc[h]];
    Zip(c.blocks[..n], c.changesets[..n])
  }

  lemma {:induction false} PathUnfolds(w: World, t: Tree, h: BlockHash)
    requires Inv(w, t) && h in t.loc
    ensures t.loc[h] in t.chains && |t.chains[t.loc[h]].blocks| > 0
    ensures var p := t.chains[t.loc[h]].First().parent;
            && (p !in t.loc ==> PathTo(w, t, h) == Own(w, t, h))
            && (p in t.loc ==> PathTo(w, t, h) == PathTo(w, t, p) + Own(w, t, h) && w(p).number < w(h).number)
  {
    Located(w, t, h);
    ParentBelow(w, t, t.loc[h]);
    assert [] + Own(w, t, h) == Own(w, t, h);
  }

  lemma {:induction false} OwnShape(w: World, t: Tree, h: BlockHash)
    requires Inv(w, t) && h in t.loc
    ensures t.loc[h] in t.chains && |t.chains[t.loc[h]].blocks| > 0
    ensures var own := Own(w, t, h);
            && |own| > 0 && Linked(BlocksOf(own)) && AllSealed(w, BlocksOf(own))
            && own[|own| - 1].block == w(h)
            && own[0].block == t.chains[t.loc[h]].First()
            && own[0].block.number == w(own[0].block.parent).number + 1
            && own[0].block.number > t.lastFinalized
  {
    Located(w, t, h);
    ParentBelow(w, t, t.loc[h]);
    ZipPrefixLinked(w, t, t.loc[h], Depth(w, t, h));
  }

  lemma {:induction false} OwnPathOk(w: World, t: Tree, h: BlockHash)
    requires Inv(w, t) && h in t.loc
    requires t.loc[h] in t.chains && |t.chains[t.loc[h]].blocks| > 0
    requires t.chains[t.loc[h]].First().parent !in t.loc
    ensures PathOk(w, t, Own(w, t, h))
  {
    OwnShape(w, t, h);
    assert Attached(t.db, t.loc, t.chains[t.loc[h]]);
  }

  /** The path runs from the canonical chain up to the requested block, linked and
      above the finalised block. */
  lemma {:induction false} PathShape(w: World, t: Tree, h: BlockHash)
    requires Inv(w, t) && h in t.loc
    ensures PathOk(w, t, PathTo(w, t, h))
    ensures var path := PathTo(w, t, h); path[|path| - 1].block == w(h)
    decreases w(h).number
  {
    PathUnfolds(w, t, h);
    OwnShape(w, t, h);
    var c := t.chains[t.loc[h]];
    if c.First().parent in t.loc {
      PathShape(w, t, c.First().parent);
      Located(w, t, c.First().parent);
      JoinPath(w, t, PathTo(w, t, c.First().parent), Own(w, t, h));
    } else {
      OwnPathOk(w, t, h);
    }
  }

  /** Every chain on the path gives up at least its first block. */
  lemma {:induction false} CutsShape(w: World, t: Tree, h: BlockHash)
    requires Inv(w, t) && h in t.loc
    ensures forall id :: id in Cuts(w, t, h) ==>
              && id in t.chains && |t.chains[id].blocks| > 0
              && 1 <= Cuts(w, t, h)[id] <= |t.chains[id].blocks|
              && t.chains[id].First().number <= w(h).number
    decreases w(h).number
  {
    Located(w, t, h);
    var c := t.chains[t.loc[h]];
    ParentBelow(w, t, t.loc[h]);
    if c.First().parent in t.loc {
      CutsShape(w, t, c.First().parent);
    }
  }

  lemma {:induction false} PrefixHashes(w: World, t: Tree, id: ChainId, n: nat, x: BlockHash)
    requires ChainsOk(w, t.chains) && LocOk(t.chains, t.loc)
    requires id in t.chains && 0 < n <= |t.chains[id].blocks| == |t.chains[id].changesets|
    ensures var c := t.chains[id];
            x in HashesIn(Zip(c.blocks[..n], c.changesets[..n]))
            <==> x in t.loc && t.loc[x] == id && w(x).number < c.First().number + n
  {
    var c := t.chains[id];
    var own := Zip(c.blocks[..n], c.changesets[..n]);
    if x in HashesIn(own) {
      var i :| 0 <= i < n && own[i].block.hash == x;
      assert Holds(t.chains, id, c.blocks[i].hash) && Sound(w, c);
      assert SealedBy(w, c.blocks[i]) && LinkedAt(c.blocks, i);
    }
    if x in t.loc && t.loc[x] == id && w(x).number < c.First().number + n {
      Located(w, t, x);
      assert own[w(x).number - c.First().number].block.hash == x;
    }
  }

  /** A side block is on the path exactly when its chain is cut above it. */
  lemma {:induction false} PathHashes(w: World, t: Tree, h: BlockHash, x: BlockHash)
    requires Inv(w, t) && h in t.loc
    ensures x in HashesIn(PathTo(w, t, h))
            <==> x in t.loc && t.loc[x] in Cuts(w, t, h)
                 && (Located(w, t, x); w(x).number < t.chains[t.loc[x]].First().number + Cuts(w, t, h)[t.loc[x]])
    decreases w(h).number
  {
    Located(w, t, h);
    var id := t.loc[h];
    var c, n := t.chains[id], Depth(w, t, h);
    var own := Zip(c.blocks[..n], c.changesets[..n]);
    ParentBelow(w, t, id);
    PrefixHashes(w, t, id, n, x);
    if c.First().parent in t.loc {
      var p := c.First().parent;
      PathHashes(w, t, p, x);
      BlocksOfConcat(PathTo(w, t, p), own);
      CutsShape(w, t, p);
      assert id !in Cuts(w, t, p);
    } else {
      assert [] + own == own;
    }
  }

  /** A path is the parent's path, if the parent is in the tree, and the block itself. */
  lemma {:induction false} PathStep(w: World, t: Tree, h: BlockHash)
    requires Inv(w, t) && h in t.loc
    ensures var p := w(h).parent;
            BlocksOf(PathTo(w, t, h)) == (if p in t.loc then BlocksOf(PathTo(w, t, p)) else []) + [w(h)]
  {
    hide AllCovered, Apart, WindowOk, IdsBelow, DbOk, AllAttached, PathTo;
    Located(w, t, h);
    SideBlockSealed(w, t, h);
    ParentBelow(w, t, t.loc[h]);
    var c, n := t.chains[t.loc[h]], Depth(w, t, h);
    if n == 1 {
      PathSplits(w, t, h, h);
      assert c.blocks[..1] == [w(h)];
    } else {
      SameChainParent(w, t, h);
      PathSplits(w, t, h, w(h).parent);
      assert c.blocks[..n] == c.blocks[..n - 1] + [w(h)];
    }
  }

  /** Collecting the path chain by chain gives exactly the side-chain ancestry of the
      requested block. */
  lemma {:induction false} PathIsAncestry(w: World, t: Tree, h: BlockHash)
    requires Inv(w, t) && h in t.loc
    ensures BlocksOf(PathTo(w, t, h)) == Ancestry(w, t, h)
    decreases w(h).number
  {
    hide Inv, PathTo;
    SideBlockSealed(w, t, h);
    PathStep(w, t, h);
    if w(h).parent in t.loc {
      PathIsAncestry(w, t, w(h).parent);
    }
  }

  /** Above the first block of a chain the parent is the block before, in the same chain. */
  lemma {:induction false} SameChainParent(w: World, t: Tree, h: BlockHash)
    requires Inv(w, t) && h in t.loc && Depth(w, t, h) > 1
    ensures var p := w(h).parent;
            && p in t.loc && t.loc[p] == t.loc[h] && w(p).number < w(h).number
            && Depth(w, t, p) == Depth(w, t, h) - 1
  {
    Located(w, t, h);
    var c, n := t.chains[t.loc[h]], Depth(w, t, h);
    assert Sound(w, c) && LinkedAt(c.blocks, n - 1);
    assert SealedBy(w, c.blocks[n - 2]) && LinkedAt(c.blocks, n - 2);
    assert Holds(t.chains, t.loc[h], c.blocks[n - 2].hash);
  }

  /** Two blocks of one chain share the path below the chain. */
  lemma {:induction false} PathSplits(w: World, t: Tree, h: BlockHash, p: BlockHash)
    requires Inv(w, t) && h in t.loc && p in t.loc && t.loc[p] == t.loc[h]
    ensures t.loc[h] in t.chains && |t.chains[t.loc[h]].blocks| > 0
    ensures var c := t.chains[t.loc[h]];
            var pre := if c.First().parent in t.loc then BlocksOf(PathTo(w, t, c.First().parent)) else [];
            && BlocksOf(PathTo(w, t, h)) == pre + c.blocks[..Depth(w, t, h)]
            && BlocksOf(PathTo(w, t, p)) == pre + c.blocks[..Depth(w, t, p)]
  {
    Located(w, t, h);
    var c := t.chains[t.loc[h]];
    var nh, np := Depth(w, t, h), Depth(w, t, p);
    var zh, zp := Zip(c.blocks[..nh], c.changesets[..nh]), Zip(c.blocks[..np], c.changesets[..np]);
    if c.First().parent in t.loc {
      BlocksOfConcat(PathTo(w, t, c.First().parent), zh);
      BlocksOfConcat(PathTo(w, t, c.First().parent), zp);
    } else {
      BlocksOfConcat([], zh);
      BlocksOfConcat([], zp);
    }
  }

  // What making a block canonical keeps

  lemma {:induction false} CutChainsHoldOnly(w: World, t: Tree, h: BlockHash, id: ChainId, x: BlockHash)
    requires Inv(w, t) && h in t.loc
    requires Holds(CutChains(w, t.chains, Cuts(w, t, h)), id, x)
    ensures x in t.loc && t.loc[x] == id && x !in HashesIn(PathTo(w, t, h))
  {
    hide AllCovered, Apart, WindowOk, IdsBelow, DbOk, AllAttached, PathTo, Cuts;
    var cuts := Cuts(w, t, h);
    var cut := CutChains(w, t.chains, cuts);
    var c := t.chains[id];
    assert Sound(w, c);
    var n := if id in cuts then cuts[id] else 0;
    var i :| 0 <= i < |cut[id].blocks| && cut[id].blocks[i].hash == x;
    assert cut[id].blocks[i] == c.blocks[n + i];
    BlockAt(w, t, id, n + i);
    PathHashes(w, t, h, x);
  }

  lemma {:induction false} BlockAt(w: World, t: Tree, id: ChainId, i: nat)
    requires ChainsOk(w, t.chains) && LocOk(t.chains, t.loc) && id in t.chains && i < |t.chains[id].blocks|
    ensures var b := t.chains[id].blocks[i];
            b.hash in t.loc && t.loc[b.hash] == id && w(b.hash) == b
            && b.number == t.chains[id].First().number + i
  {
    var c := t.chains[id];
    assert Sound(w, c);
    assert Holds(t.chains, id, c.blocks[i].hash);
    assert SealedBy(w, c.blocks[i]) && LinkedAt(c.blocks, i);
  }

  lemma {:induction false} CutChainsHoldAll(w: World, t: Tree, h: BlockHash, x: BlockHash)
    requires Inv(w, t) && h in t.loc
    requires x in t.loc && x !in HashesIn(PathTo(w, t, h))
    ensures Holds(CutChains(w, t.chains, Cuts(w, t, h)), t.loc[x], x)
  {
    var cuts := Cuts(w, t, h);
    var id := t.loc[x];
    Located(w, t, x);
    PathHashes(w, t, h, x);
    CutsShape(w, t, h);
    var c := t.chains[id];
    var i := w(x).number - c.First().number;
    if id in cuts {
      SuffixHashes(c, cuts[id], i);
    } else {
      assert c.blocks[i].hash in c.Hashes();
    }
  }

  lemma {:induction false} SuffixHashes(c: Chain, n: nat, i: nat)
    requires |c.changesets| == |c.blocks| && n <= i < |c.blocks|
    ensures c.blocks[i].hash in Suffix(c, n).Hashes()
  {
    assert Suffix(c, n).blocks[i - n] == c.blocks[i];
  }

  lemma {:induction false} DisplacedHashes(t: Tree, first: nat, x: BlockHash)
    requires first <= |t.db|
    ensures x in New(t.db[first..]).Hashes() <==> exists n :: first <= n && InDb(t.db, n, x)
  {
    var c := New(t.db[first..]);
    if x in c.Hashes() {
      var i :| 0 <= i < |c.blocks| && c.blocks[i].hash == x;
      assert InDb(t.db, first + i, x);
    }
    if exists n :: first <= n && InDb(t.db, n, x) {
      var n :| first <= n && InDb(t.db, n, x);
      assert c.blocks[n - first].hash == x;
    }
  }

  lemma {:induction false} CutChainKeeps(w: World, t: Tree, h: BlockHash, id: ChainId)
    requires Inv(w, t) && h in t.loc && id in CutChains(w, t.chains, Cuts(w, t, h))
    ensures var c := CutChains(w, t.chains, Cuts(w, t, h))[id];
            && Sound(w, c) && Covered(c.changesets, c.substate)
            && Within(c, t.lastFinalized, t.maxBlocks)
  {
    var cuts := Cuts(w, t, h);
    var c := t.chains[id];
    assert Sound(w, c) && Covered(c.changesets, c.substate) && Within(c, t.lastFinalized, t.maxBlocks);
    if id in cuts {
      CutsShape(w, t, h);
      SuffixKeepsOk(c, cuts[id]);
      assert LinkedAt(c.blocks, cuts[id]);
      forall i | 0 <= i < |c.blocks| - cuts[id]
        ensures SealedBy(w, c.blocks[cuts[id]..][i])
      {
        assert SealedBy(w, c.blocks[cuts[id] + i]);
      }
    }
  }

  lemma {:induction false} DisplacedKeeps(w: World, t: Tree, first: nat)
    requires DbOk(w, t.db) && WindowOk(t) && t.lastFinalized < first < |t.db|
    ensures var c := New(t.db[first..]);
            && Sound(w, c) && Covered(c.changesets, c.substate)
            && Within(c, t.lastFinalized, t.maxBlocks)
            && c.First() == t.db[first].block && c.First().number == first
            && InDb(t.db, first - 1, c.First().parent)
  {
    var c := New(t.db[first..]);
    assert DbAt(w, t.db, first);
    forall i | 0 <= i < |c.blocks|
      ensures LinkedAt(c.blocks, i) && SealedBy(w, c.blocks[i])
    {
      assert DbAt(w, t.db, first + i);
    }
    NewKeepsOk(t.db[first..]);
  }

  /** What `chains` is after the path has been taken out of the chains of `t`. */
  ghost predicate Taken(w: World, t: Tree, path: seq<Stored>, chains: map<ChainId, Chain>) {
    && PathOk(w, t, path)
    && (forall x :: x in HashesIn(path) ==> x in t.loc)
    && ChainsOk(w, chains) && AllCovered(chains) && Bounded(chains, t.lastFinalized, t.maxBlocks)
    && chains.Keys <= t.chains.Keys
    && (forall id, x :: Holds(chains, id, x) ==> x in t.loc && t.loc[x] == id && x !in HashesIn(path))
    && (forall x {:trigger Holds(chains, t.loc[x], x)} ::
          x in t.loc && x !in HashesIn(path) ==> Holds(chains, t.loc[x], x))
    && (forall id {:trigger StartsIn(t, path, chains[id])} :: id in chains ==> StartsIn(t, path, chains[id]))
    && path[|path| - 1].block.number <= t.lastFinalized + t.maxBlocks
  }

  /** A remaining chain starts where it started before, or right on top of the path. */
  ghost predicate StartsIn(t: Tree, path: seq<Stored>, c: Chain) {
    && |c.blocks| > 0
    && (Attached(t.db, t.loc, c) || c.First().parent in HashesIn(path))
  }

  lemma {:induction false} CutChainStarts(w: World, t: Tree, h: BlockHash, id: ChainId)
    requires Inv(w, t) && h in t.loc && id in CutChains(w, t.chains, Cuts(w, t, h))
    ensures StartsIn(t, PathTo(w, t, h), CutChains(w, t.chains, Cuts(w, t, h))[id])
  {
    var cuts := Cuts(w, t, h);
    var c := t.chains[id];
    assert Sound(w, c) && Attached(t.db, t.loc, c);
    if id in cuts {
      CutsShape(w, t, h);
      var n := cuts[id];
      var p := c.blocks[n - 1].hash;
      assert LinkedAt(c.blocks, n) && LinkedAt(c.blocks, n - 1) && SealedBy(w, c.blocks[n - 1]);
      assert Holds(t.chains, id, p);
      PathHashes(w, t, h, p);
    }
  }

  lemma {:induction false} PathIsTaken(w: World, t: Tree, h: BlockHash)
    requires Inv(w, t) && h in t.loc
    ensures Taken(w, t, PathTo(w, t, h), CutChains(w, t.chains, Cuts(w, t, h)))
  {
    var chains := CutChains(w, t.chains, Cuts(w, t, h));
    PathShape(w, t, h);
    forall id | id in chains
      ensures Sound(w, chains[id]) && Covered(chains[id].changesets, chains[id].substate)
      ensures Within(chains[id], t.lastFinalized, t.maxBlocks) && StartsIn(t, PathTo(w, t, h), chains[id])
    {
      CutChainKeeps(w, t, h, id);
      CutChainStarts(w, t, h, id);
    }
    PathIsTakenHashes(w, t, h);
    Located(w, t, h);
    assert Within(t.chains[t.loc[h]], t.lastFinalized, t.maxBlocks) && Sound(w, t.chains[t.loc[h]]);
  }

  lemma {:induction false} PathIsTakenHashes(w: World, t: Tree, h: BlockHash)
    requires Inv(w, t) && h in t.loc
    ensures var chains, gone := CutChains(w, t.chains, Cuts(w, t, h)), HashesIn(PathTo(w, t, h));
            && (forall x :: x in gone ==> x in t.loc)
            && (forall id, x :: Holds(chains, id, x) ==> x in t.loc && t.loc[x] == id && x !in gone)
            && (forall x {:trigger Holds(chains, t.loc[x], x)} ::
                  x in t.loc && x !in gone ==> Holds(chains, t.loc[x], x))
  {
    var chains, gone := CutChains(w, t.chains, Cuts(w, t, h)), HashesIn(PathTo(w, t, h));
    forall x | x in gone
      ensures x in t.loc
    {
      PathHashes(w, t, h, x);
    }
    forall id, x | Holds(chains, id, x)
      ensures x in t.loc && t.loc[x] == id && x !in gone
    {
      CutChainsHoldOnly(w, t, h, id, x);
    }
    forall x | x in t.loc && x !in gone
      ensures Holds(chains, t.loc[x], x)
    {
      CutChainsHoldAll(w, t, h, x);
    }
  }

  lemma {:induction false} PromoteDefined(w: World, t: Tree, path: seq<Stored>)
    requires PathOk(w, t, path)
    ensures 0 < path[0].block.number <= |t.db|
  {
  }

  lemma {:induction false} PromoteChains(w: World, t: Tree, path: seq<Stored>, chains: map<ChainId, Chain>)
    requires Inv(w, t) && Taken(w, t, path, chains) && 0 < path[0].block.number <= |t.db|
    ensures var t' := Promote(t, path, chains);
            && ChainsOk(w, t'.chains) && IdsBelow(t'.chains, t'.nextId) && AllCovered(t'.chains)
            && Bounded(t'.chains, t'.lastFinalized, t'.maxBlocks)
  {
    var t' := Promote(t, path, chains);
    var first := path[0].block.number;
    if first < |t.db| {
      DisplacedKeeps(w, t, first);
    }
    forall id | id in t'.chains
      ensures Sound(w, t'.chains[id]) && Covered(t'.chains[id].changesets, t'.chains[id].substate)
      ensures Within(t'.chains[id], t.lastFinalized, t.maxBlocks) && id < t'.nextId
    {
      if id in chains {
        assert Sound(w, chains[id]) && Covered(chains[id].changesets, chains[id].substate);
        assert Within(chains[id], t.lastFinalized, t.maxBlocks);
      }
    }
  }

  /** A hash located after the move. */
  lemma {:induction false} PromoteLocated(
    w: World, t: Tree, path: seq<Stored>, chains: map<ChainId, Chain>, x: BlockHash)
    requires Inv(w, t) && Taken(w, t, path, chains) && 0 < path[0].block.number <= |t.db|
    ensures var t' := Promote(t, path, chains);
            x in t'.loc <==> (x in t.loc && x !in HashesIn(path))
                             || exists n :: path[0].block.number <= n && InDb(t.db, n, x)
  {
    DisplacedHashes(t, path[0].block.number, x);
  }

  lemma {:induction false} PromoteLoc(w: World, t: Tree, path: seq<Stored>, chains: map<ChainId, Chain>)
    requires Inv(w, t) && Taken(w, t, path, chains) && 0 < path[0].block.number <= |t.db|
    ensures var t' := Promote(t, path, chains); LocOk(t'.chains, t'.loc)
  {
    var t' := Promote(t, path, chains);
    var first := path[0].block.number;
    forall id, x | Holds(t'.chains, id, x)
      ensures x in t'.loc && t'.loc[x] == id
    {
      DisplacedHashes(t, first, x);
      if first == |t.db| || id != t.nextId {
        assert Holds(chains, id, x);
      }
    }
    forall x | x in t'.loc
      ensures Holds(t'.chains, t'.loc[x], x)
    {
      DisplacedHashes(t, first, x);
      if !(first < |t.db| && x in New(t.db[first..]).Hashes()) {
        assert Holds(chains, t.loc[x], x);
      }
    }
  }

  lemma {:induction false} PromoteDb(w: World, t: Tree, path: seq<Stored>, chains: map<ChainId, Chain>)
    requires Inv(w, t) && Taken(w, t, path, chains) && 0 < path[0].block.number <= |t.db|
    ensures var t' := Promote(t, path, chains);
            && t'.db == t.db[..path[0].block.number] + path
            && DbOk(w, t'.db)
  {
    assert t.db[..|t.db|] == t.db;
    JoinDb(w, t, path);
  }

  lemma {:induction false} JoinDb(w: World, t: Tree, path: seq<Stored>)
    requires DbOk(w, t.db) && PathOk(w, t, path) && 0 < path[0].block.number <= |t.db|
    ensures DbOk(w, t.db[..path[0].block.number] + path)
  {
    var first := path[0].block.number;
    var db := t.db[..first] + path;
    assert LinkedAt(BlocksOf(path), 0);
    forall n | 0 <= n < |db|
      ensures DbAt(w, db, n)
    {
      if n < first {
        assert DbAt(w, t.db, n);
      } else {
        assert LinkedAt(BlocksOf(path), n - first) && SealedBy(w, BlocksOf(path)[n - first]);
      }
    }
  }

  /** Where a block of the new canonical chain comes from. */
  lemma {:induction false} PromoteInDb(
    w: World, t: Tree, path: seq<Stored>, chains: map<ChainId, Chain>, n: int, x: BlockHash)
    requires Inv(w, t) && Taken(w, t, path, chains) && 0 < path[0].block.number <= |t.db|
    requires InDb(Promote(t, path, chains).db, n, x)
    ensures n < path[0].block.number ==> InDb(t.db, n, x)
    ensures n >= path[0].block.number ==> x in HashesIn(path)
  {
    PromoteDb(w, t, path, chains);
    var first := path[0].block.number;
    if n >= first {
      assert path[n - first].block.hash == x;
    }
  }

  lemma {:induction false} PromoteApart(w: World, t: Tree, path: seq<Stored>, chains: map<ChainId, Chain>)
    requires Inv(w, t) && Taken(w, t, path, chains) && 0 < path[0].block.number <= |t.db|
    ensures var t' := Promote(t, path, chains); Apart(t'.db, t'.loc)
  {
    var t' := Promote(t, path, chains);
    forall n, x | InDb(t'.db, n, x)
      ensures x !in t'.loc
    {
      PromoteInDb(w, t, path, chains, n, x);
      PromoteLocated(w, t, path, chains, x);
      forall m | InDb(t.db, m, x)
        ensures m == w(x).number
      {
        InDbNumber(w, t.db, m, x);
      }
    }
  }

  lemma {:induction false} PromoteAttached(w: World, t: Tree, path: seq<Stored>, chains: map<ChainId, Chain>)
    requires Inv(w, t) && Taken(w, t, path, chains) && 0 < path[0].block.number <= |t.db|
    ensures var t' := Promote(t, path, chains); AllAttached(t'.chains, t'.db, t'.loc)
  {
    var t' := Promote(t, path, chains);
    var first := path[0].block.number;
    forall id | id in t'.chains
      ensures Attached(t'.db, t'.loc, t'.chains[id])
    {
      PromoteDb(w, t, path, chains);
      if id in chains && t'.chains[id] == chains[id] {
        assert Sound(w, chains[id]) && StartsIn(t, path, chains[id]);
        assert Within(chains[id], t.lastFinalized, t.maxBlocks);
        AttachedAfter(w, t, path, chains, chains[id]);
      } else {
        DisplacedKeeps(w, t, first);
      }
    }
  }

  lemma {:induction false} AttachedAfter(w: World, t: Tree, path: seq<Stored>, chains: map<ChainId, Chain>, c: Chain)
    requires Inv(w, t) && Taken(w, t, path, chains) && 0 < path[0].block.number <= |t.db|
    requires Sound(w, c) && StartsIn(t, path, c) && Within(c, t.lastFinalized, t.maxBlocks)
    ensures var t' := Promote(t, path, chains); Attached(t'.db, t'.loc, c)
  {
    hide Promote, AllCovered, Apart, AllAttached, Bounded, WindowOk, IdsBelow, ChainsOk, LocOk;
    var t' := Promote(t, path, chains);
    var p := c.First().parent;
    var first := path[0].block.number;
    PromoteLocated(w, t, path, chains, p);
    PromoteDb(w, t, path, chains);
    assert SealedBy(w, c.blocks[0]);
    if p in HashesIn(path) {
      var i :| 0 <= i < |path| && path[i].block.hash == p;
      assert SealedBy(w, BlocksOf(path)[i]) && LinkedAt(BlocksOf(path), i);
      assert t'.db[first + i] == path[i];
    } else if p !in t.loc {
      var n := c.First().number - 1;
      assert InDb(t.db, n, p);
      if n < first {
        assert t'.db[n] == t.db[n];
      }
    }
  }

  /** Making a block canonical keeps the invariant. */
  lemma {:induction false} CanonicalizedKeepsInv(w: World, t: Tree, h: BlockHash)
    requires Inv(w, t) && h in t.loc
    ensures PathOk(w, t, PathTo(w, t, h)) && 0 < PathTo(w, t, h)[0].block.number <= |t.db|
    ensures Inv(w, Canonicalized(w, t, h))
  {
    PathIsTaken(w, t, h);
    PromoteDefined(w, t, PathTo(w, t, h));
    PromoteKeepsInv(w, t, PathTo(w, t, h), CutChains(w, t.chains, Cuts(w, t, h)));
  }

  lemma {:induction false} PromoteKeepsInv(w: World, t: Tree, path: seq<Stored>, chains: map<ChainId, Chain>)
    requires Inv(w, t) && Taken(w, t, path, chains) && 0 < path[0].block.number <= |t.db|
    ensures Inv(w, Promote(t, path, chains))
  {
    PromoteChains(w, t, path, chains);
    PromoteLoc(w, t, path, chains);
    PromoteDb(w, t, path, chains);
    PromoteApart(w, t, path, chains);
    PromoteAttached(w, t, path, chains);
    assert LinkedAt(BlocksOf(path), |path| - 1);
  }

  // What making a block canonical means

  lemma {:induction false} PromoteKeys(t: Tree, path: seq<Stored>, chains: map<ChainId, Chain>)
    requires |path| > 0 && 0 < path[0].block.number <= |t.db|
    ensures Promote(t, path, chains).loc.Keys ==
            (t.loc.Keys - HashesIn(path)) + HashesIn(t.db[path[0].block.number..])
  {
    var displaced := t.db[path[0].block.number..];
    assert New(displaced).Hashes() == HashesIn(displaced);
    if displaced == [] {
      assert HashesIn(displaced) == {};
    }
  }

  lemma {:induction false} PromoteKnown(w: World, t: Tree, path: seq<Stored>, chains: map<ChainId, Chain>)
    requires Inv(w, t) && Taken(w, t, path, chains) && 0 < path[0].block.number <= |t.db|
    ensures Known(Promote(t, path, chains)) == Known(t)
  {
    hide Inv, Promote;
    var first := path[0].block.number;
    var before, after := t.db[..first], t.db[first..];
    PromoteDb(w, t, path, chains);
    PromoteKeys(t, path, chains);
    BlocksOfConcat(before, path);
    assert before + after == t.db;
    BlocksOfConcat(before, after);
    assert HashesIn(path) <= t.loc.Keys;
  }

  /** The requested block is the new canonical tip; below it lies its own ancestry down
      to the canonical block the ancestry leaves from, and the canonical chain up to
      there is as before. No known block is lost and none appears. Displaced canonical
      blocks, if any, are exactly one new chain under a fresh id. */
  lemma {:induction false} CanonicalizedMeaning(w: World, t: Tree, h: BlockHash)
    requires Inv(w, t) && h in t.loc
    ensures PathOk(w, t, PathTo(w, t, h)) && 0 < PathTo(w, t, h)[0].block.number <= |t.db|
    ensures var t' := Canonicalized(w, t, h);
            var first := PathTo(w, t, h)[0].block.number;
            && t.lastFinalized < first
            && BlocksOf(t'.db) == BlocksOf(t.db[..first]) + Ancestry(w, t, h)
            && t'.db[..first] == t.db[..first]
            && t'.db[|t'.db| - 1].block.hash == h
            && t'.lastFinalized == t.lastFinalized
            && Known(t') == Known(t)
            && (first == |t.db| ==> t'.chains.Keys <= t.chains.Keys)
            && (first < |t.db| ==>
                  && t.nextId !in t.chains
                  && t.nextId in t'.chains && t'.chains.Keys <= t.chains.Keys + {t.nextId}
                  && t'.chains[t.nextId].blocks == BlocksOf(t.db[first..])
                  && t'.chains[t.nextId].changesets == ChangesetsOf(t.db[first..]))
  {
    var path, chains := PathTo(w, t, h), CutChains(w, t.chains, Cuts(w, t, h));
    PathIsTaken(w, t, h);
    PathShape(w, t, h);
    PathIsAncestry(w, t, h);
    Located(w, t, h);
    PromoteDb(w, t, path, chains);
    PromoteKnown(w, t, path, chains);
    BlocksOfConcat(t.db[..path[0].block.number], path);
  }

  /** A side chain is left alone, loses its promoted lower part, or is promoted whole. */
  lemma {:induction false} CanonicalizedChains(w: World, t: Tree, h: BlockHash, id: ChainId) returns (n: nat)
    requires Inv(w, t) && h in t.loc && id in t.chains
    ensures PathOk(w, t, PathTo(w, t, h)) && 0 < PathTo(w, t, h)[0].block.number <= |t.db|
    ensures var t', c := Canonicalized(w, t, h), t.chains[id];
            && |c.changesets| == |c.blocks| && n <= |c.blocks|
            && (forall i :: 0 <= i < |c.blocks| ==> (c.blocks[i].hash in HashesIn(PathTo(w, t, h)) <==> i < n))
            && (n == |c.blocks| ==> id !in t'.chains)
            && (n < |c.blocks| ==> id in t'.chains && t'.chains[id] == Suffix(c, n))
  {
    PathShape(w, t, h);
    n := CutDepth(w, t, h, id);
    assert id != t.nextId;
    PromoteChainAt(t, PathTo(w, t, h), CutChains(w, t.chains, Cuts(w, t, h)), id);
  }

  lemma {:induction false} PromoteChainAt(t: Tree, path: seq<Stored>, chains: map<ChainId, Chain>, id: ChainId)
    requires |path| > 0 && 0 < path[0].block.number <= |t.db| && id != t.nextId
    ensures var t' := Promote(t, path, chains);
            && (id in t'.chains <==> id in chains)
            && (id in chains ==> t'.chains[id] == chains[id])
  {
  }

  lemma {:induction false} CutDepth(w: World, t: Tree, h: BlockHash, id: ChainId) returns (n: nat)
    requires Inv(w, t) && h in t.loc && id in t.chains
    ensures var chains, c := CutChains(w, t.chains, Cuts(w, t, h)), t.chains[id];
            && |c.changesets| == |c.blocks| && n <= |c.blocks|
            && (forall i :: 0 <= i < |c.blocks| ==> (c.blocks[i].hash in HashesIn(PathTo(w, t, h)) <==> i < n))
            && (n == |c.blocks| ==> id !in chains)
            && (n < |c.blocks| ==> id in chains && chains[id] == Suffix(c, n))
  {
    CutsShape(w, t, h);
    var c, cuts := t.chains[id], Cuts(w, t, h);
    assert Sound(w, c);
    n := if id in cuts then cuts[id] else 0;
    forall i | 0 <= i < |c.blocks|
      ensures c.blocks[i].hash in HashesIn(PathTo(w, t, h)) <==> i < n
    {
      PathHashes(w, t, h, c.blocks[i].hash);
      assert Holds(t.chains, id, c.blocks[i].hash);
      assert SealedBy(w, c.blocks[i]) && LinkedAt(c.blocks, i);
    }
    assert c.blocks[0..] == c.blocks && c.changesets[0..] == c.changesets;
  }
}
