/**
 What the bytecode table of a side chain holds: always the changesets of the chain and of a run of blocks right below
 it, but after a reorg not always of the blocks above the canonical chain.
 */
module TreeTables {
  import opened Wrappers
  import opened Substate
  import opened Chains
  import opened TreeModel
  import opened TreeInsert
  import opened TreeReorg
  import opened TreeRuns

  // The changeset of every known block

  ghost predicate InDbAt(db: seq<Stored>, n: int, x: Stored) {
    0 <= n < |db| && db[n] == x
  }

  ghost predicate InChainAt(chains: map<ChainId, Chain>, id: ChainId, i: int, x: Stored) {
    && id in chains && 0 <= i < |chains[id].blocks| && i < |chains[id].changesets|
    && chains[id].blocks[i] == x.block && chains[id].changesets[i] == x.changeset
  }

  /** The block is held, in the database or in a side chain, with this changeset. */
  ghost predicate Has(t: Tree, x: Stored) {
    (exists n :: InDbAt(t.db, n, x)) || (exists id, i :: InChainAt(t.chains, id, i, x))
  }

  ghost function StoredAs(w: World, t: Tree, h: BlockHash): (x: Stored)
    requires Inv(w, t) && h in Known(t)
    ensures x.block == w(h) && SealedBy(w, x.block) && x.block.hash == h && Has(t, x)
  {
    if h in t.loc then
      Located(w, t, h);
      var c, i := t.chains[t.loc[h]], Depth(w, t, h) - 1;
      assert InChainAt(t.chains, t.loc[h], i, Stored(w(h), c.changesets[i]));
      Stored(w(h), c.changesets[i])
    else
      CanonicalAt(w, t, h);
      t.db[w(h).number]
  }

  lemma {:induction false} CanonicalAt(w: World, t: Tree, h: BlockHash)
    requires Inv(w, t) && h in Known(t) && h !in t.loc
    ensures var n := w(h).number;
            n < |t.db| && t.db[n].block == w(h) && SealedBy(w, w(h)) && w(h).hash == h && InDbAt(t.db, n, t.db[n])
  {
    HashesInHas(t.db, h);
    var n :| InDb(t.db, n, h);
    InDbNumber(w, t.db, n, h);
    assert DbAt(w, t.db, n);
  }

  /** Every known block is held once. */
  lemma {:induction false} HeldOnce(w: World, t: Tree, x: Stored)
    requires Inv(w, t) && Has(t, x)
    ensures x.block.hash in Known(t) && StoredAs(w, t, x.block.hash) == x
  {
    var h := x.block.hash;
    if n :| InDbAt(t.db, n, x) {
      assert InDb(t.db, n, h);
      InDbNumber(w, t.db, n, h);
      HashesInHas(t.db, h);
    } else {
      var id, i :| InChainAt(t.chains, id, i, x);
      var c := t.chains[id];
      assert Sound(w, c) && LinkedAt(c.blocks, i) && SealedBy(w, c.blocks[i]);
      assert Holds(t.chains, id, h);
      Located(w, t, h);
    }
  }

  lemma {:induction false} KnownParent(w: World, t: Tree, h: BlockHash)
    requires Inv(w, t) && h in Known(t) && w(h).number > 0
    ensures w(h).parent in Known(t) && w(w(h).parent).number + 1 == w(h).number
  {
    var p := w(h).parent;
    assert SealedBy(w, StoredAs(w, t, h).block);
    if h in t.loc {
      Located(w, t, h);
      var c := t.chains[t.loc[h]];
      var i := w(h).number - c.First().number;
      assert Sound(w, c) && LinkedAt(c.blocks, i);
      if i > 0 {
        assert Holds(t.chains, t.loc[h], p);
      } else {
        assert Attached(t.db, t.loc, c);
        HashesInHas(t.db, p);
      }
    } else {
      CanonicalAt(w, t, h);
      assert DbAt(w, t.db, w(h).number);
      assert InDb(t.db, w(h).number - 1, p);
      HashesInHas(t.db, p);
    }
  }

  /** The changesets of `h` and of its ancestors, down to number `s`, lowest first. */
  ghost function Since(w: World, t: Tree, h: BlockHash, s: nat): seq<ExecutionResult>
    requires Inv(w, t) && h in Known(t)
    decreases w(h).number
  {
    if w(h).number < s then []
    else
      (if w(h).number == 0 then [] else KnownParent(w, t, h); Since(w, t, w(h).parent, s))
      + [StoredAs(w, t, h).changeset]
  }

  /** Blocks known to both trees have one changeset. */
  ghost predicate Agree(w: World, t: Tree, t': Tree)
    requires Inv(w, t) && Inv(w, t')
  {
    forall h :: h in Known(t) && h in Known(t') ==> StoredAs(w, t, h) == StoredAs(w, t', h)
  }

  lemma {:induction false} AgreeWhere(w: World, t: Tree, t': Tree)
    requires Inv(w, t) && Inv(w, t')
    requires (forall x :: Has(t, x) ==> Has(t', x)) || (forall x :: Has(t', x) ==> Has(t, x))
    ensures Agree(w, t, t')
  {
    hide Inv, Has, Known, StoredAs;
    forall h | h in Known(t) && h in Known(t')
      ensures StoredAs(w, t, h) == StoredAs(w, t', h)
    {
      var x, x' := StoredAs(w, t, h), StoredAs(w, t', h);
      if Has(t', x) {
        HeldOnce(w, t', x);
      } else {
        HeldOnce(w, t, x');
      }
    }
  }

  lemma {:induction false} SinceAgrees(w: World, t: Tree, t': Tree, h: BlockHash, s: nat)
    requires Inv(w, t) && Inv(w, t') && Agree(w, t, t') && h in Known(t) && h in Known(t')
    ensures Since(w, t, h, s) == Since(w, t', h, s)
    decreases w(h).number
  {
    hide Inv, Known, StoredAs;
    if w(h).number >= s && w(h).number > 0 {
      KnownParent(w, t, h);
      KnownParent(w, t', h);
      SinceAgrees(w, t, t', w(h).parent, s);
    }
  }

  // Where the table of a chain starts

  /** The chain's table is made of the changesets from number `s` up to its tip, along its ancestry. */
  ghost predicate StartsAt(w: World, t: Tree, id: ChainId, s: nat)
    requires Inv(w, t)
  {
    && id in t.chains
    && var c := t.chains[id];
       && |c.blocks| > 0 && s <= c.First().number && c.Tip().hash in Known(t)
       && c.substate == ApplyAll(map[], Since(w, t, c.Tip().hash, s))
  }

  lemma {:induction false} ChainBlock(w: World, t: Tree, id: ChainId, i: nat)
    requires Inv(w, t) && id in t.chains && i < |t.chains[id].blocks|
    ensures |t.chains[id].changesets| == |t.chains[id].blocks|
    ensures var c := t.chains[id];
            var b := c.blocks[i];
            && b.hash in Known(t) && w(b.hash) == b && b.number == c.First().number + i && b.number > 0
            && StoredAs(w, t, b.hash) == Stored(b, c.changesets[i])
            && (i > 0 ==> b.parent == c.blocks[i - 1].hash)
  {
    var c := t.chains[id];
    assert Sound(w, c) && Within(c, t.lastFinalized, t.maxBlocks);
    assert LinkedAt(c.blocks, i) && SealedBy(w, c.blocks[i]);
    assert InChainAt(t.chains, id, i, Stored(c.blocks[i], c.changesets[i]));
    HeldOnce(w, t, Stored(c.blocks[i], c.changesets[i]));
  }

  lemma {:induction false} SinceStep(w: World, t: Tree, h: BlockHash, s: nat)
    requires Inv(w, t) && h in Known(t) && w(h).number > 0 && s <= w(h).number
    ensures w(h).parent in Known(t) && w(w(h).parent).number + 1 == w(h).number
    ensures Since(w, t, h, s) == Since(w, t, w(h).parent, s) + [StoredAs(w, t, h).changeset]
  {
    hide Inv, Known, StoredAs;
    KnownParent(w, t, h);
  }

  /** Along a chain: what lies below it, then its own changesets. */
  lemma {:induction false} SinceChain(w: World, t: Tree, id: ChainId, i: nat, s: nat)
    requires Inv(w, t) && id in t.chains && i < |t.chains[id].blocks| && s <= t.chains[id].First().number
    ensures |t.chains[id].changesets| == |t.chains[id].blocks|
    ensures var c := t.chains[id];
            && c.First().parent in Known(t) && c.blocks[i].hash in Known(t)
            && Since(w, t, c.blocks[i].hash, s) == Since(w, t, c.First().parent, s) + c.changesets[..i + 1]
  {
    hide Inv, Known, StoredAs, Since;
    var c := t.chains[id];
    ChainBlock(w, t, id, i);
    SinceStep(w, t, c.blocks[i].hash, s);
    if i == 0 {
      assert c.changesets[..1] == [c.changesets[0]];
    } else {
      SinceChain(w, t, id, i - 1, s);
      assert c.changesets[..i + 1] == c.changesets[..i] + [c.changesets[i]];
    }
  }

  /** The table at any block of a chain, from the table below the chain. */
  lemma {:induction false} TableInChain(w: World, t: Tree, id: ChainId, i: nat, s: nat)
    requires Inv(w, t) && id in t.chains && i < |t.chains[id].blocks| && s <= t.chains[id].First().number
    ensures |t.chains[id].changesets| == |t.chains[id].blocks|
    ensures var c := t.chains[id];
            && c.First().parent in Known(t) && c.blocks[i].hash in Known(t)
            && var below := ApplyAll(map[], Since(w, t, c.First().parent, s));
               && NoZeroCounts(below)
               && ApplyAll(map[], Since(w, t, c.blocks[i].hash, s)) == ApplyAll(below, c.changesets[..i + 1])
  {
    hide Inv, Known, ApplyAll, Since;
    SinceChain(w, t, id, i, s);
    var c := t.chains[id];
    ApplyAllConcat(map[], Since(w, t, c.First().parent, s), c.changesets[..i + 1]);
    ApplyAllKeepsNoZeroCounts(map[], Since(w, t, c.First().parent, s));
  }

  /** A chain that is left alone or loses its lower part keeps the start of its table. */
  lemma {:induction false} RestKeepsStart(w: World, t: Tree, t': Tree, id: ChainId, n: nat, s: nat)
    requires Inv(w, t) && Inv(w, t') && Agree(w, t, t') && StartsAt(w, t, id, s)
    requires |t.chains[id].changesets| == |t.chains[id].blocks| && n < |t.chains[id].blocks|
    requires id in t'.chains && t'.chains[id] == Suffix(t.chains[id], n)
    ensures StartsAt(w, t', id, s)
  {
    hide Inv, Known, ApplyAll, Since, StoredAs;
    var c, c' := t.chains[id], t'.chains[id];
    ChainBlock(w, t, id, n);
    ChainBlock(w, t', id, |c'.blocks| - 1);
    assert c'.Tip() == c.Tip() && c'.First() == c.blocks[n];
    SinceAgrees(w, t, t', c.Tip().hash, s);
  }

  // Reorgs

  lemma {:induction false} PathHas(w: World, t: Tree, h: BlockHash, i: nat)
    requires Inv(w, t) && h in t.loc && i < |PathTo(w, t, h)|
    ensures Has(t, PathTo(w, t, h)[i])
    decreases w(h).number
  {
    hide ChainsOk, LocOk, AllCovered, Apart, WindowOk, IdsBelow, DbOk, AllAttached, Bounded, PathTo, Has;
    PathUnfolds(w, t, h);
    var c := t.chains[t.loc[h]];
    var lower := |PathTo(w, t, h)| - |Own(w, t, h)|;
    if i < lower {
      PathHas(w, t, c.First().parent, i);
    } else {
      OwnHas(w, t, h, i - lower);
    }
  }

  lemma {:induction false} OwnHas(w: World, t: Tree, h: BlockHash, i: nat)
    requires Inv(w, t) && h in t.loc && i < |Own(w, t, h)|
    ensures Has(t, Own(w, t, h)[i])
  {
    assert InChainAt(t.chains, t.loc[h], i, Own(w, t, h)[i]);
  }

  /** A reorg only moves blocks: whatever is held afterwards was held before with the same changeset. */
  lemma {:induction false} ReorgMoves(w: World, t: Tree, h: BlockHash)
    requires Inv(w, t) && h in t.loc
    ensures PathOk(w, t, PathTo(w, t, h)) && 0 < PathTo(w, t, h)[0].block.number <= |t.db|
    ensures Inv(w, Canonicalized(w, t, h)) && Agree(w, t, Canonicalized(w, t, h))
  {
    hide Inv, PathTo, Cuts, Has, Agree;
    CanonicalizedKeepsInv(w, t, h);
    var t' := Canonicalized(w, t, h);
    forall x | Has(t', x)
      ensures Has(t, x)
    {
      ReorgMovesOne(w, t, h, x);
    }
    AgreeWhere(w, t, t');
  }

  lemma {:induction false} ReorgMovesOne(w: World, t: Tree, h: BlockHash, x: Stored)
    requires Inv(w, t) && h in t.loc
    requires |PathTo(w, t, h)| > 0 && 0 < PathTo(w, t, h)[0].block.number <= |t.db|
    requires Has(Canonicalized(w, t, h), x)
    ensures Has(t, x)
  {
    hide Inv, PathTo, Cuts, CutChains;
    var t', path := Canonicalized(w, t, h), PathTo(w, t, h);
    var first := path[0].block.number;
    if n :| InDbAt(t'.db, n, x) {
      if n < first {
        assert InDbAt(t.db, n, x);
      } else {
        PathHas(w, t, h, n - first);
      }
    } else {
      var id, i :| InChainAt(t'.chains, id, i, x);
      if first < |t.db| && id == t.nextId {
        assert InDbAt(t.db, first + i, x);
      } else {
        CutMoves(w, t, Cuts(w, t, h), id, i, x);
      }
    }
  }

  lemma {:induction false} CutMoves(w: World, t: Tree, cuts: map<ChainId, nat>, id: ChainId, i: int, x: Stored)
    requires Inv(w, t) && InChainAt(CutChains(w, t.chains, cuts), id, i, x)
    ensures Has(t, x)
  {
    hide LocOk, AllCovered, Apart, WindowOk, IdsBelow, DbOk, AllAttached, Bounded;
    assert Sound(w, t.chains[id]);
    var n := if id in cuts then cuts[id] else 0;
    assert InChainAt(t.chains, id, n + i, x);
  }

  /** Every chain a reorg leaves keeps the start of its table, wherever the canonical chain now is. */
  lemma {:induction false} CanonicalizedKeepsStart(w: World, t: Tree, h: BlockHash, id: ChainId, s: nat)
    requires Inv(w, t) && h in t.loc && StartsAt(w, t, id, s)
    ensures PathOk(w, t, PathTo(w, t, h)) && 0 < PathTo(w, t, h)[0].block.number <= |t.db|
    ensures Inv(w, Canonicalized(w, t, h))
    ensures id in Canonicalized(w, t, h).chains ==> StartsAt(w, Canonicalized(w, t, h), id, s)
  {
    hide Inv, PathTo, StartsAt, Canonicalized, Agree;
    ReorgMoves(w, t, h);
    StartsIsChain(w, t, id, s);
    var n := CanonicalizedChains(w, t, h, id);
    if id in Canonicalized(w, t, h).chains {
      RestKeepsStart(w, t, Canonicalized(w, t, h), id, n, s);
    }
  }

  lemma {:induction false} StartsIsChain(w: World, t: Tree, id: ChainId, s: nat)
    requires Inv(w, t) && StartsAt(w, t, id, s)
    ensures id in t.chains && |t.chains[id].blocks| > 0
  {
  }

  /** The displaced canonical blocks come back as a chain whose table is exactly theirs. */
  lemma {:induction false} DisplacedStart(w: World, t: Tree, h: BlockHash)
    requires Inv(w, t) && h in t.loc
    ensures PathOk(w, t, PathTo(w, t, h)) && 0 < PathTo(w, t, h)[0].block.number <= |t.db|
    ensures Inv(w, Canonicalized(w, t, h))
    ensures var first := PathTo(w, t, h)[0].block.number;
            first < |t.db| ==> StartsAt(w, Canonicalized(w, t, h), t.nextId, first)
  {
    hide PathTo, Cuts;
    CanonicalizedKeepsInv(w, t, h);
    var t', first := Canonicalized(w, t, h), PathTo(w, t, h)[0].block.number;
    if first < |t.db| {
      var c := t'.chains[t.nextId];
      assert c == New(t.db[first..]);
      assert DbAt(w, t.db, first);
      FreshTable(w, t', t.nextId);
    }
  }

  /** A table made of a chain's own changesets alone starts with the chain. */
  lemma {:induction false} FreshTable(w: World, t: Tree, id: ChainId)
    requires Inv(w, t) && id in t.chains && |t.chains[id].blocks| > 0
    requires t.chains[id].substate == ApplyAll(map[], t.chains[id].changesets)
    ensures StartsAt(w, t, id, t.chains[id].First().number)
  {
    hide Inv, Known, ApplyAll, StoredAs;
    var c := t.chains[id];
    var last := |c.blocks| - 1;
    SinceChain(w, t, id, last, c.First().number);
    ChainBlock(w, t, id, 0);
    KnownParent(w, t, c.First().hash);
    assert c.changesets[..last + 1] == c.changesets;
    assert [] + c.changesets == c.changesets;
  }

  // Finalisation

  lemma {:induction false} FinalizedKeepsStart(w: World, t: Tree, n: BlockNumber, id: ChainId, s: nat)
    requires Inv(w, t) && t.lastFinalized <= n < |t.db| && StartsAt(w, t, id, s)
    ensures Inv(w, Finalized(w, t, n))
    ensures id in Finalized(w, t, n).chains ==> StartsAt(w, Finalized(w, t, n), id, s)
  {
    hide Inv, StartsAt, Agree;
    FinalizedKeepsInv(w, t, n);
    var t' := Finalized(w, t, n);
    forall x | Has(t', x)
      ensures Has(t, x)
    {
      if i, k :| InChainAt(t'.chains, i, k, x) {
        assert InChainAt(t.chains, i, k, x);
      }
    }
    AgreeWhere(w, t, t');
    StartsIsChain(w, t, id, s);
    if id in t'.chains {
      ChainBlock(w, t, id, 0);
      RestKeepsStart(w, t, t', id, 0, s);
    }
  }

  // Insertion

  /** The chain as it was, or with one executed block more. */
  ghost predicate Grown(c: Chain, c': Chain) {
    || c' == c
    || (&& |c'.blocks| > 0 && |c'.changesets| > 0
        && c'.blocks == c.blocks + [c'.Tip()]
        && c'.changesets == c.changesets + [c'.changesets[|c'.changesets| - 1]]
        && c'.substate == ApplyResult(c.substate, c'.changesets[|c'.changesets| - 1]))
  }

  lemma {:induction false} InsertedGrows(w: World, t: Tree, exec: Executor, b: Block, id: ChainId)
    requires Inv(w, t) && id in t.chains
    ensures id in Inserted(w, t, exec, b).0.chains && Grown(t.chains[id], Inserted(w, t, exec, b).0.chains[id])
    ensures Inserted(w, t, exec, b).0.db == t.db
  {
    hide ApplyResult, NewChainFork;
    assert id < t.nextId;
    if b.parent in t.loc {
      Located(w, t, b.parent);
    }
  }

  lemma {:induction false} InsertedKeepsHeld(w: World, t: Tree, exec: Executor, b: Block)
    requires Inv(w, t) && SealedBy(w, b)
    ensures Inv(w, Inserted(w, t, exec, b).0) && Agree(w, t, Inserted(w, t, exec, b).0)
  {
    hide Inv, Agree, Inserted;
    InsertedKeepsInv(w, t, exec, b);
    InsertedMeaning(w, t, exec, b);
    var t' := Inserted(w, t, exec, b).0;
    forall x | Has(t, x)
      ensures Has(t', x)
    {
      if id, i :| InChainAt(t.chains, id, i, x) {
        InsertedGrows(w, t, exec, b, id);
        assert InChainAt(t'.chains, id, i, x);
      } else {
        var n :| InDbAt(t.db, n, x);
        assert InDbAt(t'.db, n, x);
      }
    }
    AgreeWhere(w, t, t');
  }

  /** Every chain is still there, and its table starts where it did. */
  lemma {:induction false} InsertedKeepsStart(w: World, t: Tree, exec: Executor, b: Block, id: ChainId, s: nat)
    requires Inv(w, t) && SealedBy(w, b) && StartsAt(w, t, id, s)
    ensures Inv(w, Inserted(w, t, exec, b).0) && StartsAt(w, Inserted(w, t, exec, b).0, id, s)
  {
    hide Inv, Agree, Inserted, StartsAt, Grown;
    StartsIsChain(w, t, id, s);
    InsertedKeepsHeld(w, t, exec, b);
    InsertedGrows(w, t, exec, b, id);
    GrownKeepsStart(w, t, Inserted(w, t, exec, b).0, id, s);
  }

  lemma {:induction false} GrownKeepsStart(w: World, t: Tree, t': Tree, id: ChainId, s: nat)
    requires Inv(w, t) && Inv(w, t') && Agree(w, t, t') && StartsAt(w, t, id, s)
    requires id in t'.chains && Grown(t.chains[id], t'.chains[id])
    ensures StartsAt(w, t', id, s)
  {
    hide Inv, Known, StoredAs, ApplyAll, ApplyResult, Since;
    var c, c' := t.chains[id], t'.chains[id];
    var last := |c'.blocks| - 1;
    if c' == c {
      ChainBlock(w, t, id, 0);
      RestKeepsStart(w, t, t', id, 0, s);
    } else {
      ChainBlock(w, t', id, last - 1);
      assert c'.blocks[last - 1] == c.Tip() && c'.First() == c.First();
      SinceAgrees(w, t, t', c.Tip().hash, s);
      TipTable(w, t', id, s);
    }
  }

  /** The table at a tip is the last changeset on top of the table at its parent. */
  lemma {:induction false} TipTable(w: World, t: Tree, id: ChainId, s: nat)
    requires Inv(w, t) && id in t.chains && |t.chains[id].blocks| > 0 && s <= t.chains[id].First().number
    ensures |t.chains[id].changesets| == |t.chains[id].blocks|
    ensures var c := t.chains[id];
            && c.Tip().hash in Known(t) && c.Tip().parent in Known(t)
            && ApplyAll(map[], Since(w, t, c.Tip().hash, s))
               == ApplyResult(ApplyAll(map[], Since(w, t, c.Tip().parent, s)), c.changesets[|c.changesets| - 1])
            && (|c.blocks| > 1 ==> c.Tip().parent == c.blocks[|c.blocks| - 2].hash)
            && (s == c.Tip().number ==> Since(w, t, c.Tip().parent, s) == [])
  {
    hide Inv, Known, StoredAs, ApplyResult;
    var c := t.chains[id];
    ChainBlock(w, t, id, |c.blocks| - 1);
    KnownParent(w, t, c.Tip().hash);
    var below := Since(w, t, c.Tip().parent, s);
    var all := below + [c.changesets[|c.changesets| - 1]];
    assert Since(w, t, c.Tip().hash, s) == all;
    assert all[..|all| - 1] == below;
  }

  /** A new chain's table: on a side chain it starts where that one's does, on the canonical chain with its block. */
  lemma {:induction false} InsertedNewStart(w: World, t: Tree, exec: Executor, b: Block, s: nat)
    requires Inv(w, t) && SealedBy(w, b) && t.nextId in Inserted(w, t, exec, b).0.chains
    requires b.parent in t.loc ==> StartsAt(w, t, t.loc[b.parent], s)
    ensures Inv(w, Inserted(w, t, exec, b).0)
    ensures StartsAt(w, Inserted(w, t, exec, b).0, t.nextId, if b.parent in t.loc then s else b.number)
  {
    hide Agree, StartsAt, NewChainFork, NewCanonicalFork, AppendBlock;
    InsertedKeepsHeld(w, t, exec, b);
    assert t.nextId !in t.chains;
    var t' := Inserted(w, t, exec, b).0;
    if b.parent in t.loc {
      Located(w, t, b.parent);
      assert Sound(w, t.chains[t.loc[b.parent]]);
      ForkStart(w, t, t', exec, b, s);
    } else {
      CanonicalForkStart(w, t', t.nextId, exec, b, t.db[b.number - 1].block);
    }
  }

  lemma {:induction false} CanonicalForkStart(w: World, t: Tree, id: ChainId, exec: Executor, b: Block, parent: Block)
    requires Inv(w, t) && id in t.chains && NewCanonicalFork(exec, b, parent).Ok?
    requires t.chains[id] == NewCanonicalFork(exec, b, parent).value
    ensures StartsAt(w, t, id, b.number)
  {
    hide Inv, StartsAt;
    FreshTable(w, t, id);
  }

  /** Reverting what lies above a block in its chain gives the table at that block. */
  lemma {:induction false} RevertedTable(w: World, t: Tree, h: BlockHash, s: nat)
    requires Inv(w, t) && h in t.loc && StartsAt(w, t, t.loc[h], s)
    ensures h in Known(t)
    ensures var c := t.chains[t.loc[h]];
            && |c.changesets| == |c.blocks| && c.First().number <= w(h).number < c.First().number + |c.blocks|
            && c.blocks[w(h).number - c.First().number] == w(h)
            && RevertAll(c.substate, c.changesets[w(h).number - c.First().number + 1..])
               == Some(ApplyAll(map[], Since(w, t, h, s)))
  {
    hide Known, StoredAs, ApplyAll, RevertAll, Since;
    Located(w, t, h);
    var id, k := t.loc[h], Depth(w, t, h) - 1;
    var c := t.chains[id];
    TableInChain(w, t, id, k, s);
    TableInChain(w, t, id, |c.blocks| - 1, s);
    assert c.changesets[..|c.blocks|] == c.changesets;
    RevertSuffixIsApplyPrefix(ApplyAll(map[], Since(w, t, c.First().parent, s)), c.changesets, k + 1);
  }

  lemma {:induction false} ForkStart(w: World, t: Tree, t': Tree, exec: Executor, b: Block, s: nat)
    requires Inv(w, t) && Inv(w, t') && Agree(w, t, t') && b.number > 0
    requires SealedBy(w, b) && b.parent in t.loc && StartsAt(w, t, t.loc[b.parent], s) && t.loc[b.parent] in t.chains
    requires ChainOk(t.chains[t.loc[b.parent]]) && NewChainFork(t.chains[t.loc[b.parent]], exec, b).Ok?
    requires t.nextId in t'.chains
    requires t'.chains[t.nextId] == NewChainFork(t.chains[t.loc[b.parent]], exec, b).value
    ensures StartsAt(w, t', t.nextId, s)
  {
    hide Inv, Known, StoredAs, ApplyAll, ApplyResult, RevertAll, Since, Agree;
    ForkRuns(w, t, exec, b, s);
    hide NewChainFork;
    TipTable(w, t', t.nextId, s);
    SinceAgrees(w, t, t', b.parent, s);
  }

  /** A fork executes its block on the parent and on the table at the parent. */
  lemma {:induction false} ForkRuns(w: World, t: Tree, exec: Executor, b: Block, s: nat)
    requires Inv(w, t) && SealedBy(w, b) && b.number > 0
    requires b.parent in t.loc && StartsAt(w, t, t.loc[b.parent], s) && ChainOk(t.chains[t.loc[b.parent]])
    ensures b.parent in Known(t)
    ensures var table := ApplyAll(map[], Since(w, t, b.parent, s));
            NewChainFork(t.chains[t.loc[b.parent]], exec, b) ==
              match exec(b, w(b.parent), table)
              case None => Err(Rejected)
              case Some(changeset) => Ok(Chain([b], [changeset], ApplyResult(table, changeset)))
  {
    hide Inv, Known, ApplyAll, ApplyResult, RevertAll, Since, Linked;
    RevertedTable(w, t, b.parent, s);
  }

  /** A new block on a side chain is executed on exactly the changesets from the start of that chain's table. */
  lemma {:induction false} ExecutedOn(w: World, t: Tree, exec: Executor, b: Block, s: nat)
    requires Inv(w, t) && SealedBy(w, b) && t.lastFinalized < b.number <= t.lastFinalized + t.maxBlocks
    requires b.hash !in Known(t) && b.parent in t.loc && StartsAt(w, t, t.loc[b.parent], s)
    ensures b.parent in Known(t)
    ensures var on := exec(b, w(b.parent), ApplyAll(map[], Since(w, t, b.parent, s)));
            var (t', r) := Inserted(w, t, exec, b);
            && (r == Ok(true) <==> on.Some?)
            && (r == Ok(true) ==> Has(t', Stored(b, on.value)))
  {
    NotHeld(w, t, b);
    hide Inv, Known, ApplyAll, ApplyResult, Since, NewChainFork, AppendBlock, StartsAt;
    ForkRuns(w, t, exec, b, s);
    AppendRuns(w, t, exec, b, s);
    var t' := Inserted(w, t, exec, b).0;
    var id := t.loc[b.parent];
    var c := t.chains[id];
    if Inserted(w, t, exec, b).1 == Ok(true) {
      var on := exec(b, w(b.parent), ApplyAll(map[], Since(w, t, b.parent, s)));
      if c.Tip().hash == b.parent {
        assert InChainAt(t'.chains, id, |c.blocks|, Stored(b, on.value));
      } else {
        assert InChainAt(t'.chains, t.nextId, 0, Stored(b, on.value));
      }
    }
  }

  lemma {:induction false} NotHeld(w: World, t: Tree, b: Block)
    requires Inv(w, t) && b.hash !in Known(t) && b.parent in t.loc
    ensures b.hash !in t.loc && !InWindow(t, b.number, b.hash)
    ensures t.loc[b.parent] in t.chains && ChainOk(t.chains[t.loc[b.parent]])
  {
    HashesInHas(t.db, b.hash);
    Located(w, t, b.parent);
    assert Sound(w, t.chains[t.loc[b.parent]]);
  }

  lemma {:induction false} AppendRuns(w: World, t: Tree, exec: Executor, b: Block, s: nat)
    requires Inv(w, t) && SealedBy(w, b) && b.number > 0
    requires b.parent in t.loc && StartsAt(w, t, t.loc[b.parent], s)
    ensures b.parent in Known(t)
    ensures var c, table := t.chains[t.loc[b.parent]], ApplyAll(map[], Since(w, t, b.parent, s));
            c.Tip().hash == b.parent ==>
              AppendBlock(c, exec, b) ==
                match exec(b, w(b.parent), table)
                case None => Err(Rejected)
                case Some(changeset) =>
                  Ok(Chain(c.blocks + [b], c.changesets + [changeset], ApplyResult(table, changeset)))
  {
    hide Inv, Known, StoredAs, ApplyAll, ApplyResult, Since;
    var c := t.chains[t.loc[b.parent]];
    RevertedTable(w, t, b.parent, s);
    ChainBlock(w, t, t.loc[b.parent], |c.blocks| - 1);
  }

  // Over every run

  ghost predicate Sourced(w: World, t: Tree, id: ChainId)
    requires Inv(w, t)
  {
    exists s: nat :: StartsAt(w, t, id, s)
  }

  /** Every chain's table is made of the changesets of a run of blocks that ends with its tip and covers it. */
  ghost predicate Traced(w: World, t: Tree)
    requires Inv(w, t)
  {
    forall id :: id in t.chains ==> Sourced(w, t, id)
  }

  lemma {:induction false} InsertedIds(w: World, t: Tree, exec: Executor, b: Block)
    requires Inv(w, t)
    ensures Inserted(w, t, exec, b).0.chains.Keys <= t.chains.Keys + {t.nextId}
  {
    if b.parent in t.loc {
      Located(w, t, b.parent);
    }
  }

  lemma {:induction false} InsertedTraced(w: World, t: Tree, exec: Executor, b: Block)
    requires Inv(w, t) && SealedBy(w, b) && Traced(w, t)
    ensures Inv(w, Inserted(w, t, exec, b).0) && Traced(w, Inserted(w, t, exec, b).0)
  {
    hide Inv, Inserted, StartsAt;
    InsertedKeepsInv(w, t, exec, b);
    InsertedIds(w, t, exec, b);
    var t' := Inserted(w, t, exec, b).0;
    forall id | id in t'.chains
      ensures Sourced(w, t', id)
    {
      if id in t.chains {
        assert Sourced(w, t, id);
        var s: nat :| StartsAt(w, t, id, s);
        InsertedKeepsStart(w, t, exec, b, id, s);
      } else if b.parent in t.loc {
        SideChain(w, t, b.parent);
        assert Sourced(w, t, t.loc[b.parent]);
        var s: nat :| StartsAt(w, t, t.loc[b.parent], s);
        InsertedNewStart(w, t, exec, b, s);
      } else {
        InsertedNewStart(w, t, exec, b, 0);
      }
    }
  }

  lemma {:induction false} SideChain(w: World, t: Tree, h: BlockHash)
    requires Inv(w, t) && h in t.loc
    ensures t.loc[h] in t.chains
  {
    Located(w, t, h);
  }

  lemma {:induction false} CanonicalizedTraced(w: World, t: Tree, h: BlockHash)
    requires Inv(w, t) && h in t.loc && Traced(w, t)
    ensures PathOk(w, t, PathTo(w, t, h)) && 0 < PathTo(w, t, h)[0].block.number <= |t.db|
    ensures Inv(w, Canonicalized(w, t, h)) && Traced(w, Canonicalized(w, t, h))
  {
    hide Inv, PathTo, StartsAt, Canonicalized, PathOk, Known, Ancestry;
    CanonicalizedKeepsInv(w, t, h);
    CanonicalizedMeaning(w, t, h);
    DisplacedStart(w, t, h);
    var t' := Canonicalized(w, t, h);
    forall id | id in t'.chains
      ensures Sourced(w, t', id)
    {
      if id in t.chains {
        assert Sourced(w, t, id);
        var s: nat :| StartsAt(w, t, id, s);
        CanonicalizedKeepsStart(w, t, h, id, s);
      }
    }
  }

  lemma {:induction false} FinalizedTraced(w: World, t: Tree, n: BlockNumber)
    requires Inv(w, t) && t.lastFinalized <= n < |t.db| && Traced(w, t)
    ensures Inv(w, Finalized(w, t, n)) && Traced(w, Finalized(w, t, n))
  {
    hide Inv, StartsAt;
    FinalizedKeepsInv(w, t, n);
    var t' := Finalized(w, t, n);
    forall id | id in t'.chains
      ensures Sourced(w, t', id)
    {
      assert Sourced(w, t, id);
      var s: nat :| StartsAt(w, t, id, s);
      FinalizedKeepsStart(w, t, n, id, s);
    }
  }

  /** From any tree without side chains, and more generally from any traced one, every run leaves a traced tree. */
  lemma {:induction false} RunTraced(w: World, t: Tree, ops: seq<Op>)
    requires Inv(w, t) && Legal(w, t, ops) && Traced(w, t)
    ensures Traced(w, Run(w, t, ops))
    decreases |ops|
  {
    hide Inv, Traced, Inserted, Canonicalized, Finalized;
    if ops != [] {
      match ops[0] {
        case InsertBlock(exec, block) => InsertedTraced(w, t, exec, block);
        case FinalizeBlock(n) => FinalizedTraced(w, t, n);
        case MakeCanonical(h) =>
          if h in t.loc {
            CanonicalizedTraced(w, t, h);
          }
      }
      RunTraced(w, Step(w, t, ops[0]), ops[1..]);
    }
  }

  // Tables that start right above the canonical chain

  /** The chain's table is that of its side ancestry: everything above the canonical block it hangs from. */
  ghost predicate Grounded(w: World, t: Tree, id: ChainId)
    requires Inv(w, t) && id in t.chains
  {
    StartsAt(w, t, id, Root(w, t, id) + 1)
  }

  ghost predicate AllGrounded(w: World, t: Tree)
    requires Inv(w, t)
  {
    forall id :: id in t.chains ==> Grounded(w, t, id)
  }

  lemma {:induction false} GrownHolds(c: Chain, c': Chain)
    requires |c.blocks| > 0 && Grown(c, c')
    ensures |c'.blocks| > 0 && c'.First() == c.First() && c.Hashes() <= c'.Hashes()
  {
    forall x | x in c.Hashes()
      ensures x in c'.Hashes()
    {
      var i :| 0 <= i < |c.blocks| && c.blocks[i].hash == x;
      assert c'.blocks[i].hash == x;
    }
  }

  lemma {:induction false} InsertedKeepsLoc(w: World, t: Tree, exec: Executor, b: Block, h: BlockHash)
    requires Inv(w, t) && SealedBy(w, b) && h in Known(t)
    ensures var t' := Inserted(w, t, exec, b).0;
            && (h in t.loc <==> h in t'.loc)
            && (h in t.loc ==> t'.loc[h] == t.loc[h])
  {
    hide Inserted, Grown, DbOk, AllAttached, AllCovered, Bounded, WindowOk, IdsBelow;
    InsertedKeepsInv(w, t, exec, b);
    InsertedMeaning(w, t, exec, b);
    var t' := Inserted(w, t, exec, b).0;
    if h in t.loc {
      Located(w, t, h);
      assert Holds(t.chains, t.loc[h], h);
      InsertedGrows(w, t, exec, b, t.loc[h]);
      GrownHolds(t.chains[t.loc[h]], t'.chains[t.loc[h]]);
      assert Holds(t'.chains, t.loc[h], h);
    } else {
      HashesInHas(t.db, h);
      var n :| InDb(t.db, n, h);
      assert InDb(t'.db, n, h);
    }
  }

  lemma {:induction false} InsertedKeepsRoot(w: World, t: Tree, exec: Executor, b: Block, id: ChainId)
    requires Inv(w, t) && SealedBy(w, b) && id in t.chains
    ensures Inv(w, Inserted(w, t, exec, b).0) && id in Inserted(w, t, exec, b).0.chains
    ensures Root(w, Inserted(w, t, exec, b).0, id) == Root(w, t, id)
    decreases if |t.chains[id].blocks| > 0 then t.chains[id].blocks[0].number else 0
  {
    hide Inv, Inserted, Grown, Root, RootHash;
    InsertedKeepsInv(w, t, exec, b);
    InsertedGrows(w, t, exec, b, id);
    var t' := Inserted(w, t, exec, b).0;
    ForkLink(w, t, id);
    GrownHolds(t.chains[id], t'.chains[id]);
    ForkLink(w, t', id);
    ChainBlock(w, t, id, 0);
    var p := t.chains[id].First().parent;
    KnownParent(w, t, t.chains[id].First().hash);
    InsertedKeepsLoc(w, t, exec, b, p);
    if p in t.loc {
      InsertedKeepsRoot(w, t, exec, b, t.loc[p]);
    }
  }

  lemma {:induction false} InsertedGrounded(w: World, t: Tree, exec: Executor, b: Block)
    requires Inv(w, t) && SealedBy(w, b) && AllGrounded(w, t)
    ensures Inv(w, Inserted(w, t, exec, b).0) && AllGrounded(w, Inserted(w, t, exec, b).0)
  {
    hide Inv, Inserted, StartsAt, Root;
    InsertedKeepsInv(w, t, exec, b);
    InsertedIds(w, t, exec, b);
    var t' := Inserted(w, t, exec, b).0;
    forall id | id in t'.chains
      ensures Grounded(w, t', id)
    {
      if id in t.chains {
        assert Grounded(w, t, id);
        InsertedKeepsRoot(w, t, exec, b, id);
        InsertedKeepsStart(w, t, exec, b, id, Root(w, t, id) + 1);
      } else {
        NewGrounded(w, t, exec, b);
      }
    }
  }

  lemma {:induction false} NewGrounded(w: World, t: Tree, exec: Executor, b: Block)
    requires Inv(w, t) && SealedBy(w, b) && AllGrounded(w, t)
    requires t.nextId in Inserted(w, t, exec, b).0.chains
    ensures Inv(w, Inserted(w, t, exec, b).0) && Grounded(w, Inserted(w, t, exec, b).0, t.nextId)
  {
    hide Inv, Inserted, StartsAt, Root, RootHash;
    InsertedKeepsInv(w, t, exec, b);
    var t' := Inserted(w, t, exec, b).0;
    NewChainIs(w, t, exec, b);
    InsertedKeepsLoc(w, t, exec, b, b.parent);
    ForkLink(w, t', t.nextId);
    if b.parent in t.loc {
      SideChain(w, t, b.parent);
      var id := t.loc[b.parent];
      assert Grounded(w, t, id);
      InsertedKeepsRoot(w, t, exec, b, id);
      InsertedNewStart(w, t, exec, b, Root(w, t, id) + 1);
    } else {
      InsertedNewStart(w, t, exec, b, 0);
    }
  }

  lemma {:induction false} NewChainIs(w: World, t: Tree, exec: Executor, b: Block)
    requires Inv(w, t) && t.nextId in Inserted(w, t, exec, b).0.chains
    ensures Inserted(w, t, exec, b).0.chains[t.nextId].blocks == [b] && b.parent in Known(t)
  {
    hide NewChainFork;
    assert t.nextId !in t.chains;
    HashesInHas(t.db, b.parent);
    if b.parent in t.loc {
      Located(w, t, b.parent);
    }
  }

  lemma {:induction false} FinalizedGrounded(w: World, t: Tree, n: BlockNumber)
    requires Inv(w, t) && t.lastFinalized <= n < |t.db| && AllGrounded(w, t)
    ensures Inv(w, Finalized(w, t, n)) && AllGrounded(w, Finalized(w, t, n))
  {
    hide Inv, StartsAt, Root;
    FinalizedKeepsInv(w, t, n);
    var t' := Finalized(w, t, n);
    forall id | id in t'.chains
      ensures Grounded(w, t', id)
    {
      assert Grounded(w, t, id);
      FinalizedMeaning(w, t, n, id);
      FinalizedKeepsStart(w, t, n, id, Root(w, t, id) + 1);
    }
  }

  /** Without reorgs every table stays that of its chain's side ancestry. */
  lemma {:induction false} RunGrounded(w: World, t: Tree, ops: seq<Op>)
    requires Inv(w, t) && Legal(w, t, ops) && AllGrounded(w, t)
    requires forall i :: 0 <= i < |ops| ==> !ops[i].MakeCanonical?
    ensures AllGrounded(w, Run(w, t, ops))
    decreases |ops|
  {
    hide Inv, AllGrounded, Inserted, Finalized;
    if ops != [] {
      match ops[0] {
        case InsertBlock(exec, block) => InsertedGrounded(w, t, exec, block);
        case FinalizeBlock(n) => FinalizedGrounded(w, t, n);
        case MakeCanonical(_) =>
      }
      RunGrounded(w, Step(w, t, ops[0]), ops[1..]);
    }
  }

  /** Nothing in the changeset brings a bytecode in. */
  ghost predicate Codeless(changeset: ExecutionResult) {
    forall j :: 0 <= j < |changeset.txBytecodes| ==> changeset.txBytecodes[j] == map[]
  }

  ghost function CountAll(changesets: seq<ExecutionResult>, h: CodeHash): nat {
    if changesets == [] then 0
    else CountAll(changesets[..|changesets| - 1], h) + Occurrences(changesets[|changesets| - 1].txBytecodes, h)
  }

  lemma {:induction false} ApplyAllCounts(t: Table, changesets: seq<ExecutionResult>, h: CodeHash)
    requires NoZeroCounts(t)
    ensures Count(ApplyAll(t, changesets), h) == Count(t, h) + CountAll(changesets, h)
    decreases |changesets|
  {
    if changesets != [] {
      var front := changesets[..|changesets| - 1];
      ApplyAllCounts(t, front, h);
      ApplyAllKeepsNoZeroCounts(t, front);
      ApplyTxsCounts(ApplyAll(t, front), changesets[|changesets| - 1].txBytecodes);
    }
  }

  lemma {:induction false} OccursOnce(txs: seq<map<CodeHash, Bytecode>>, j: nat, h: CodeHash)
    requires j < |txs| && h in txs[j]
    ensures Occurrences(txs, h) > 0
  {
    if j > 0 {
      OccursOnce(txs[1..], j - 1, h);
    }
  }

  lemma {:induction false} CountsOne(changesets: seq<ExecutionResult>, i: nat, j: nat, h: CodeHash)
    requires i < |changesets| && j < |changesets[i].txBytecodes| && h in changesets[i].txBytecodes[j]
    ensures CountAll(changesets, h) > 0
    decreases |changesets|
  {
    var last := |changesets| - 1;
    if i == last {
      OccursOnce(changesets[last].txBytecodes, j, h);
    } else {
      CountsOne(changesets[..last], i, j, h);
    }
  }

  lemma {:induction false} EmptyTxs(t: Table, txs: seq<map<CodeHash, Bytecode>>)
    requires forall j :: 0 <= j < |txs| ==> txs[j] == map[]
    ensures ApplyTxs(t, txs) == t
    decreases |txs|
  {
    if txs != [] {
      assert AddCodes(t, map[]) == t;
      EmptyTxs(t, txs[1..]);
    }
  }

  lemma {:induction false} CodelessChange(t: Table, changesets: seq<ExecutionResult>)
    requires forall i :: 0 <= i < |changesets| ==> Codeless(changesets[i])
    ensures ApplyAll(t, changesets) == t
    decreases |changesets|
  {
    if changesets != [] {
      CodelessChange(t, changesets[..|changesets| - 1]);
      EmptyTxs(t, changesets[|changesets| - 1].txBytecodes);
    }
  }

  /** More changesets below give the same table exactly when they bring nothing in. */
  lemma {:induction false} SameTable(lower: seq<ExecutionResult>, upper: seq<ExecutionResult>)
    ensures ApplyAll(map[], lower + upper) == ApplyAll(map[], upper) <==>
      forall i :: 0 <= i < |lower| ==> Codeless(lower[i])
  {
    hide ApplyAll, Count, CountAll;
    ApplyAllConcat(map[], lower, upper);
    if forall i :: 0 <= i < |lower| ==> Codeless(lower[i]) {
      CodelessChange(map[], lower);
    } else {
      var i :| 0 <= i < |lower| && !Codeless(lower[i]);
      var j :| 0 <= j < |lower[i].txBytecodes| && lower[i].txBytecodes[j] != map[];
      var h :| h in lower[i].txBytecodes[j];
      CountsOne(lower, i, j, h);
      ApplyAllKeepsNoZeroCounts(map[], lower);
      ApplyAllCounts(map[], lower, h);
      ApplyAllCounts(ApplyAll(map[], lower), upper, h);
      ApplyAllCounts(map[], upper, h);
      assert Count(map[], h) == 0 by {
        CountNothing(h);
      }
    }
  }

  lemma {:induction false} CountNothing(h: CodeHash)
    ensures Count(map[], h) == 0
  {
  }

  lemma {:induction false} SinceSplit(w: World, t: Tree, h: BlockHash, s: nat, s': nat)
    requires Inv(w, t) && h in Known(t) && s <= s' <= w(h).number + 1
    ensures |Since(w, t, h, s)| == w(h).number + 1 - s
    ensures Since(w, t, h, s) == Since(w, t, h, s)[..s' - s] + Since(w, t, h, s')
    decreases w(h).number
  {
    hide Inv, Known, StoredAs;
    if w(h).number >= s && w(h).number > 0 {
      KnownParent(w, t, h);
      if s' <= w(h).number {
        SinceSplit(w, t, w(h).parent, s, s');
      } else {
        SinceSplit(w, t, w(h).parent, s, w(h).number);
      }
    }
  }

  /** The ancestors of `h` numbered from `lo` up to, not including, `hi` bring no bytecode in. */
  ghost predicate CodelessBetween(w: World, t: Tree, h: BlockHash, lo: nat, hi: nat)
    requires Inv(w, t) && h in Known(t)
  {
    var changesets := Since(w, t, h, lo);
    forall i :: 0 <= i < hi - lo && i < |changesets| ==> Codeless(changesets[i])
  }

  lemma {:induction false} OtherStart(w: World, t: Tree, id: ChainId, lo: nat, hi: nat)
    requires Inv(w, t) && id in t.chains && |t.chains[id].blocks| > 0
    requires lo <= hi <= t.chains[id].First().number && (StartsAt(w, t, id, lo) || StartsAt(w, t, id, hi))
    ensures StartsAt(w, t, id, lo) && StartsAt(w, t, id, hi) <==>
      CodelessBetween(w, t, t.chains[id].Tip().hash, lo, hi)
  {
    hide Inv, Known, StoredAs, Since, ApplyAll, Codeless;
    var c := t.chains[id];
    ChainBlock(w, t, id, |c.blocks| - 1);
    var h := c.Tip().hash;
    SinceSplit(w, t, h, lo, hi);
    var changesets := Since(w, t, h, lo);
    SameTable(changesets[..hi - lo], Since(w, t, h, hi));
    assert forall i :: 0 <= i < hi - lo ==> changesets[..hi - lo][i] == changesets[i];
  }

  /**
   * A reorg moves the canonical block a chain hangs from up or down, but not the start of its table. A chain whose
   * table was that of its side ancestry keeps this exactly when the blocks in between bring no bytecode in.
   */
  lemma {:induction false} CanonicalizedGrounded(w: World, t: Tree, h: BlockHash, id: ChainId)
    requires Inv(w, t) && h in t.loc && id in t.chains && Grounded(w, t, id)
    ensures PathOk(w, t, PathTo(w, t, h)) && 0 < PathTo(w, t, h)[0].block.number <= |t.db|
    ensures Inv(w, Canonicalized(w, t, h))
    ensures var t' := Canonicalized(w, t, h);
            id in t'.chains ==>
              && |t'.chains[id].blocks| > 0 && t'.chains[id].Tip().hash in Known(t')
              && var before, after := Root(w, t, id) + 1, Root(w, t', id) + 1;
                 Grounded(w, t', id) <==>
                   if before <= after then CodelessBetween(w, t', t'.chains[id].Tip().hash, before, after)
                   else CodelessBetween(w, t', t'.chains[id].Tip().hash, after, before)
  {
    hide Inv, PathTo, Canonicalized, StartsAt, Root, RootHash, CodelessBetween, Known, StoredAs;
    CanonicalizedKeepsStart(w, t, h, id, Root(w, t, id) + 1);
    var t' := Canonicalized(w, t, h);
    if id in t'.chains {
      var before, after := Root(w, t, id) + 1, Root(w, t', id) + 1;
      RootIsCanonical(w, t', id);
      StartInside(w, t', id, before);
      ChainBlock(w, t', id, |t'.chains[id].blocks| - 1);
      if before <= after {
        OtherStart(w, t', id, before, after);
      } else {
        OtherStart(w, t', id, after, before);
      }
    }
  }

  lemma {:induction false} StartInside(w: World, t: Tree, id: ChainId, s: nat)
    requires Inv(w, t) && StartsAt(w, t, id, s)
    ensures id in t.chains && |t.chains[id].blocks| > 0 && s <= t.chains[id].First().number
  {
  }

  // A reorg that leaves a table without the displaced blocks

  const GENESIS := Block(0, 0, 0)
  const A1 := Block(1, 0, 1)
  const A2 := Block(2, 1, 2)
  const B1 := Block(3, 0, 1)
  const NO_CODE := ExecutionResult([])
  const ONE_CODE := ExecutionResult([map[7 := []]])

  function FourBlocks(h: BlockHash): Block {
    if h == 0 then GENESIS else if h == 1 then A1 else if h == 2 then A2 else Block(h, 0, 1)
  }

  /** `A1` is canonical and brings a bytecode in; `A2` is on top of it and `B1` is next to it. */
  function ForkedTree(): Tree {
    Tree(map[0 := New([Stored(A2, NO_CODE)]), 1 := New([Stored(B1, NO_CODE)])], map[2 := 0, 3 := 1], 2,
      [Stored(GENESIS, NO_CODE), Stored(A1, ONE_CODE)], 0, 0, 10, 0)
  }

  lemma {:induction false} ForkedTreeInv()
    ensures Inv(FourBlocks, ForkedTree())
  {
    ForkedChainsOk();
    ForkedLoc();
    ForkedDb();
    hide ChainsOk, AllCovered, LocOk, DbOk, Apart, AllAttached, Bounded;
    assert ForkedTree().chains.Keys == {0, 1};
  }

  lemma {:induction false} ForkedChainsOk()
    ensures var t := ForkedTree();
            ChainsOk(FourBlocks, t.chains) && AllCovered(t.chains) && Bounded(t.chains, 0, 10)
  {
    var t := ForkedTree();
    ForkedChains(A2);
    ForkedChains(B1);
    hide New, Sound, Covered;
    assert t.chains.Keys == {0, 1};
  }

  lemma {:induction false} ForkedDb()
    ensures var t := ForkedTree();
            DbOk(FourBlocks, t.db) && Apart(t.db, t.loc) && AllAttached(t.chains, t.db, t.loc)
  {
    var t := ForkedTree();
    assert DbAt(FourBlocks, t.db, 0) && DbAt(FourBlocks, t.db, 1);
    assert InDb(t.db, 1, 1) && InDb(t.db, 0, 0);
    ForkedChains(A2);
    ForkedChains(B1);
    hide New, Sound, Covered;
    assert t.chains.Keys == {0, 1};
  }

  lemma {:induction false} ForkedChains(b: Block)
    requires b == A2 || b == B1
    ensures var c := New([Stored(b, NO_CODE)]);
            && Sound(FourBlocks, c) && Covered(c.changesets, c.substate)
            && c.blocks == [b] && c.changesets == [NO_CODE] && c.substate == ApplyAll(map[], [NO_CODE])
  {
    var c := New([Stored(b, NO_CODE)]);
    assert LinkedAt(BlocksOf([Stored(b, NO_CODE)]), 0);
    NewKeepsOk([Stored(b, NO_CODE)]);
    assert SealedBy(FourBlocks, c.blocks[0]);
  }

  lemma {:induction false} ForkedLoc()
    ensures LocOk(ForkedTree().chains, ForkedTree().loc)
  {
    var t := ForkedTree();
    OneHash(t.chains[0], A2);
    OneHash(t.chains[1], B1);
    assert Holds(t.chains, 0, 2) && Holds(t.chains, 1, 3);
  }

  /** Before the reorg both tables are those of the side ancestries. */
  lemma {:induction false} ForkedTreeGrounded()
    ensures Inv(FourBlocks, ForkedTree()) && AllGrounded(FourBlocks, ForkedTree())
  {
    ForkedTreeInv();
    hide Inv, StartsAt, Root;
    var w, t := FourBlocks, ForkedTree();
    ForkedChains(A2);
    ForkedChains(B1);
    hide New;
    FreshTable(w, t, 0);
    FreshTable(w, t, 1);
    ForkLink(w, t, 0);
    ForkLink(w, t, 1);
    assert Grounded(w, t, 0) && Grounded(w, t, 1);
    assert t.chains.Keys == {0, 1};
  }

  lemma {:induction false} ForkedPath()
    ensures Inv(FourBlocks, ForkedTree()) && PathTo(FourBlocks, ForkedTree(), 3) == [Stored(B1, NO_CODE)]
  {
    ForkedTreeInv();
    ForkedChains(B1);
    hide ChainsOk, AllCovered, LocOk, DbOk, Apart, AllAttached, Bounded, PathTo;
    PathUnfolds(FourBlocks, ForkedTree(), 3);
    assert ForkedTree().chains[1].First() == B1;
  }

  /** `A1` comes back as a chain of its own, under the chain of `A2`. */
  lemma {:induction false} ForkedReorg()
    ensures Inv(FourBlocks, ForkedTree())
    ensures var t := ForkedTree();
            && PathOk(FourBlocks, t, PathTo(FourBlocks, t, 3))
            && 0 < PathTo(FourBlocks, t, 3)[0].block.number <= |t.db|
            && var t' := Canonicalized(FourBlocks, t, 3);
               && Inv(FourBlocks, t') && Agree(FourBlocks, t, t')
               && 0 in t'.chains && t'.chains[0].blocks == [A2]
               && Root(FourBlocks, t', 0) == 0
  {
    ForkedPath();
    ForkedChains(A2);
    ReorgOne(FourBlocks, ForkedTree(), B1, NO_CODE);
    ReorgLinks(FourBlocks, Canonicalized(FourBlocks, ForkedTree(), 3));
  }

  lemma {:induction false} ReorgOne(w: World, t: Tree, b: Block, changeset: ExecutionResult)
    requires Inv(w, t) && b.hash in t.loc && PathTo(w, t, b.hash) == [Stored(b, changeset)] && b.number == 1
    requires |t.db| == 2 && t.db[0].block == GENESIS && t.db[1].block == A1 && t.nextId == 2
    requires 0 in t.chains && t.chains[0].blocks == [A2] && b.hash != 2
    ensures PathOk(w, t, PathTo(w, t, b.hash))
    ensures var t' := Canonicalized(w, t, b.hash);
            && Inv(w, t') && Agree(w, t, t') && InDb(t'.db, 0, 0)
            && 0 in t'.chains && t'.chains[0].blocks == [A2] && 2 in t'.chains && t'.chains[2].blocks == [A1]
  {
    hide Inv, Agree, PathTo, Canonicalized, Known, Ancestry;
    ReorgMoves(w, t, b.hash);
    CanonicalizedMeaning(w, t, b.hash);
    var n := CanonicalizedChains(w, t, b.hash, 0);
    assert t.chains[0].blocks[0].hash !in HashesIn([Stored(b, changeset)]);
    var t' := Canonicalized(w, t, b.hash);
    assert BlocksOf(t.db[1..]) == [A1];
    assert t'.db[..1][0] == t.db[..1][0];
  }

  lemma {:induction false} ReorgLinks(w: World, t: Tree)
    requires Inv(w, t) && 0 in t.chains && t.chains[0].blocks == [A2] && InDb(t.db, 0, 0)
    requires 2 in t.chains && t.chains[2].blocks == [A1]
    ensures Root(w, t, 0) == 0
  {
    hide ChainsOk, AllCovered, DbOk, AllAttached, Bounded, Root, RootHash;
    OneHash(t.chains[2], A1);
    assert Holds(t.chains, 2, 1);
    ForkLink(w, t, 0);
    ForkLink(w, t, 2);
  }

  lemma {:induction false} ForkedSince()
    ensures Inv(FourBlocks, ForkedTree()) && 2 in Known(ForkedTree())
    ensures Since(FourBlocks, ForkedTree(), 2, 1) == [ONE_CODE, NO_CODE]
  {
    ForkedTreeInv();
    var w, t := FourBlocks, ForkedTree();
    hide Inv, Known, StoredAs;
    assert InDbAt(t.db, 0, Stored(GENESIS, NO_CODE)) && InDbAt(t.db, 1, Stored(A1, ONE_CODE));
    assert InChainAt(t.chains, 0, 0, Stored(A2, NO_CODE));
    HeldOnce(w, t, Stored(GENESIS, NO_CODE));
    HeldOnce(w, t, Stored(A1, ONE_CODE));
    HeldOnce(w, t, Stored(A2, NO_CODE));
    assert Since(w, t, 0, 1) == [];
    assert Since(w, t, 1, 1) == [ONE_CODE];
  }

  /** Making `B1` canonical displaces `A1`; the chain of `A2` now hangs from genesis, but its table lacks `A1`. */
  lemma {:induction false} DisplacedBlockMissing()
    ensures Inv(FourBlocks, ForkedTree()) && AllGrounded(FourBlocks, ForkedTree())
    ensures var t := ForkedTree();
            && PathOk(FourBlocks, t, PathTo(FourBlocks, t, 3))
            && 0 < PathTo(FourBlocks, t, 3)[0].block.number <= |t.db|
            && var t' := Canonicalized(FourBlocks, t, 3);
               Inv(FourBlocks, t') && 0 in t'.chains && !Grounded(FourBlocks, t', 0)
  {
    var w, t := FourBlocks, ForkedTree();
    ForkedTreeGrounded();
    ForkedReorg();
    ForkedSince();
    hide Inv, Canonicalized, PathTo, StartsAt, Root, Known, Since, Agree;
    var t' := Canonicalized(w, t, 3);
    assert Grounded(w, t, 0);
    CanonicalizedGrounded(w, t, 3, 0);
    ForkedRoot();
    SinceAgrees(w, t, t', 2, 1);
    assert !Codeless(ONE_CODE) by {
      assert 7 in ONE_CODE.txBytecodes[0];
    }
    assert Since(w, t', 2, 1)[0] == ONE_CODE;
  }

  lemma {:induction false} ForkedRoot()
    ensures Inv(FourBlocks, ForkedTree()) && Root(FourBlocks, ForkedTree(), 0) == 1
  {
    ForkedTreeInv();
    ForkedChains(A2);
    hide Inv;
    ForkLink(FourBlocks, ForkedTree(), 0);
  }
}
