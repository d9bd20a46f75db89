/** Inserting a block: the outcomes, and the invariant after each. */
module TreeInsert {
  import opened Wrappers
  import opened Chains
  import opened TreeModel

  /** A block that is neither in a side chain nor in the canonical window is not
      canonical at all. */
  lemma {:induction false} FreshBlock(w: World, t: Tree, b: Block, n: int)
    requires Inv(w, t) && SealedBy(w, b)
    requires b.number > t.lastFinalized && !InWindow(t, b.number, b.hash)
    ensures !InDb(t.db, n, b.hash)
  {
    if InDb(t.db, n, b.hash) {
      InDbNumber(w, t.db, n, b.hash);
    }
  }

  ghost predicate FreshIn(w: World, t: Tree, b: Block) {
    && SealedBy(w, b)
    && t.lastFinalized < b.number <= t.lastFinalized + t.maxBlocks
    && b.hash !in t.loc
    && forall n :: !InDb(t.db, n, b.hash)
  }

  /** A chain of one fresh block that starts on a known block. */
  lemma {:induction false} AddChainKeepsInv(w: World, t: Tree, c: Chain, b: Block)
    requires Inv(w, t) && FreshIn(w, t, b)
    requires ChainOk(c) && Covered(c.changesets, c.substate) && c.blocks == [b]
    requires Attached(t.db, t.loc, c)
    ensures Inv(w, AddChain(t, c))
  {
    var t' := AddChain(t, c);
    OneHash(c, b);
    assert SealedBy(w, c.blocks[0]);
    AddChainLoc(w, t, c, b);
    forall id | id in t'.chains
      ensures Sound(w, t'.chains[id]) && Covered(t'.chains[id].changesets, t'.chains[id].substate)
      ensures Within(t'.chains[id], t.lastFinalized, t.maxBlocks) && Attached(t'.db, t'.loc, t'.chains[id])
    {
      if id != t.nextId {
        var d := t.chains[id];
        assert Sound(w, d) && Covered(d.changesets, d.substate);
        assert Within(d, t.lastFinalized, t.maxBlocks) && Attached(t.db, t.loc, d);
      }
    }
  }

  lemma {:induction false} AddChainLoc(w: World, t: Tree, c: Chain, b: Block)
    requires Inv(w, t) && FreshIn(w, t, b) && c.Hashes() == {b.hash}
    ensures var t' := AddChain(t, c); LocOk(t'.chains, t'.loc) && Apart(t'.db, t'.loc)
  {
    var t' := AddChain(t, c);
    forall id, x | Holds(t'.chains, id, x)
      ensures x in t'.loc && t'.loc[x] == id
    {
      if id != t.nextId {
        assert Holds(t.chains, id, x);
      }
    }
    forall x | x in t'.loc
      ensures Holds(t'.chains, t'.loc[x], x)
    {
      if x != b.hash {
        assert Holds(t.chains, t.loc[x], x);
      }
    }
  }

  lemma {:induction false} AppendKeepsInv(w: World, t: Tree, id: ChainId, c: Chain, b: Block)
    requires Inv(w, t) && FreshIn(w, t, b) && id in t.chains
    requires ChainOk(c) && Covered(c.changesets, c.substate)
    requires c.blocks == t.chains[id].blocks + [b] && |t.chains[id].blocks| > 0
    ensures Inv(w, t.(chains := t.chains[id := c], loc := t.loc[b.hash := id]))
  {
    var t' := t.(chains := t.chains[id := c], loc := t.loc[b.hash := id]);
    AppendLoc(w, t, id, c, b);
    var before := t.chains[id];
    assert Sound(w, before) && Within(before, t.lastFinalized, t.maxBlocks) && Attached(t.db, t.loc, before);
    forall i | 0 <= i < |c.blocks|
      ensures SealedBy(w, c.blocks[i])
    {
      assert i < |before.blocks| ==> SealedBy(w, before.blocks[i]);
    }
    forall k | k in t'.chains
      ensures Sound(w, t'.chains[k]) && Covered(t'.chains[k].changesets, t'.chains[k].substate)
      ensures Within(t'.chains[k], t.lastFinalized, t.maxBlocks) && Attached(t'.db, t'.loc, t'.chains[k])
    {
      if k != id {
        var d := t.chains[k];
        assert Sound(w, d) && Covered(d.changesets, d.substate);
        assert Within(d, t.lastFinalized, t.maxBlocks) && Attached(t.db, t.loc, d);
      }
    }
  }

  lemma {:induction false} AppendLoc(w: World, t: Tree, id: ChainId, c: Chain, b: Block)
    requires Inv(w, t) && FreshIn(w, t, b) && id in t.chains
    requires c.blocks == t.chains[id].blocks + [b]
    ensures var chains, loc := t.chains[id := c], t.loc[b.hash := id]; LocOk(chains, loc) && Apart(t.db, loc)
  {
    var chains, loc := t.chains[id := c], t.loc[b.hash := id];
    AppendHashes(t.chains[id], c, b);
    forall k, x | Holds(chains, k, x)
      ensures x in loc && loc[x] == k
    {
      if x != b.hash || k != id {
        assert Holds(t.chains, k, x);
      }
    }
    forall x | x in loc
      ensures Holds(chains, loc[x], x)
    {
      if x != b.hash {
        assert Holds(t.chains, t.loc[x], x);
      }
    }
  }

  lemma {:induction false} AppendHashes(before: Chain, c: Chain, b: Block)
    requires c.blocks == before.blocks + [b]
    ensures c.Hashes() == before.Hashes() + {b.hash}
  {
    assert c.blocks[|before.blocks|] == b;
    forall x | x in before.Hashes()
      ensures x in c.Hashes()
    {
      var i :| 0 <= i < |before.blocks| && before.blocks[i].hash == x;
      assert c.blocks[i].hash == x;
    }
  }

  lemma {:induction false} InsertOnSideKeepsInv(w: World, t: Tree, exec: Executor, b: Block)
    requires Inv(w, t) && FreshIn(w, t, b) && b.parent in t.loc
    ensures Inv(w, InsertOnSide(w, t, exec, b).0)
    ensures InsertOnSide(w, t, exec, b).1 in {Ok(true), Err(Rejected)}
  {
    Located(w, t, b.parent);
    var id := t.loc[b.parent];
    var c := t.chains[id];
    assert Sound(w, c) && Covered(c.changesets, c.substate);
    if c.Tip().hash == b.parent {
      AppendBlockKeepsOk(c, exec, b);
      var r := AppendBlock(c, exec, b);
      if r.Ok? {
        AppendKeepsInv(w, t, id, r.value, b);
      }
    } else {
      ForkKeepsOk(c, exec, b, w(b.parent).number - c.First().number);
      var r := NewChainFork(c, exec, b);
      if r.Ok? {
        AddChainKeepsInv(w, t, r.value, b);
      }
    }
  }

  lemma {:induction false} InsertOnCanonicalKeepsInv(w: World, t: Tree, exec: Executor, b: Block)
    requires Inv(w, t) && FreshIn(w, t, b) && InWindow(t, b.number - 1, b.parent)
    ensures Inv(w, InsertOnCanonical(t, exec, b).0)
    ensures InsertOnCanonical(t, exec, b).1 in {Ok(true), Err(Rejected)}
  {
    var r := NewCanonicalFork(exec, b, t.db[b.number - 1].block);
    if r.Ok? {
      var stored := [Stored(b, r.value.changesets[0])];
      assert LinkedAt(BlocksOf(stored), 0);
      NewKeepsOk(stored);
      assert r.value == New(stored);
      AddChainKeepsInv(w, t, r.value, b);
    }
  }

  /** Inserting any block keeps the invariant; none of the inner consistency errors
      and none of the panics can come out. */
  lemma {:induction false} InsertedKeepsInv(w: World, t: Tree, exec: Executor, b: Block)
    requires Inv(w, t) && SealedBy(w, b)
    ensures Inv(w, Inserted(w, t, exec, b).0)
    ensures Inserted(w, t, exec, b).1 in
              {Ok(true), Ok(false), Err(PendingBlockIsFinalized), Err(PendingBlockIsInFuture), Err(Rejected)}
  {
    hide Inv;
    if t.lastFinalized < b.number <= t.lastFinalized + t.maxBlocks && b.hash !in t.loc
       && !InWindow(t, b.number, b.hash) {
      forall n
        ensures !InDb(t.db, n, b.hash)
      {
        FreshBlock(w, t, b, n);
      }
      if b.parent in t.loc {
        InsertOnSideKeepsInv(w, t, exec, b);
      } else if InWindow(t, b.number - 1, b.parent) {
        InsertOnCanonicalKeepsInv(w, t, exec, b);
      }
    }
  }

  lemma {:induction false} OneHash(c: Chain, b: Block)
    requires c.blocks == [b]
    ensures c.Hashes() == {b.hash}
  {
    assert c.blocks[0] == b;
  }

  lemma {:induction false} HashesInHas(db: seq<Stored>, x: BlockHash)
    ensures x in HashesIn(db) <==> exists n :: InDb(db, n, x)
  {
    if exists n :: InDb(db, n, x) {
      var n :| InDb(db, n, x);
      assert db[n].block.hash == x;
    }
    if x in HashesIn(db) {
      var i :| 0 <= i < |db| && db[i].block.hash == x;
      assert InDb(db, i, x);
    }
  }

  lemma {:induction false} InsertOnSideMeaning(w: World, t: Tree, exec: Executor, b: Block)
    requires Inv(w, t) && b.parent in t.loc && b.number > 0
    ensures var (t', r) := InsertOnSide(w, t, exec, b);
            && t'.db == t.db && t'.lastFinalized == t.lastFinalized
            && r != Ok(false)
            && (r.Err? ==> t' == t)
            && (r == Ok(true) ==> t'.loc.Keys == t.loc.Keys + {b.hash})
  {
    Located(w, t, b.parent);
    var c := t.chains[t.loc[b.parent]];
    assert Sound(w, c);
    if c.Tip().hash != b.parent {
      var r := NewChainFork(c, exec, b);
      if r.Ok? {
        OneHash(r.value, b);
      }
    }
  }

  /** The answer tells what is known afterwards. For a number in range, `true` means
      exactly that the block is held, `false` exactly that neither the block nor its
      parent is known; without `true` nothing changes. */
  lemma {:induction false} InsertedMeaning(w: World, t: Tree, exec: Executor, b: Block)
    requires Inv(w, t) && SealedBy(w, b)
    ensures var (t', r) := Inserted(w, t, exec, b);
            && t'.db == t.db && t'.lastFinalized == t.lastFinalized
            && (r == Ok(true) ==> Known(t') == Known(t) + {b.hash})
            && (r == Ok(true) <==>
                  t.lastFinalized < b.number <= t.lastFinalized + t.maxBlocks && b.hash in Known(t'))
            && (r != Ok(true) ==> t' == t)
            && (r == Ok(false) <==>
                  && t.lastFinalized < b.number <= t.lastFinalized + t.maxBlocks
                  && b.hash !in Known(t) && b.parent !in Known(t))
  {
    HashesInHas(t.db, b.hash);
    HashesInHas(t.db, b.parent);
    forall n | InDb(t.db, n, b.parent) && b.number > 0
      ensures n == b.number - 1
    {
      InDbNumber(w, t.db, n, b.parent);
    }
    if t.lastFinalized < b.number && !InWindow(t, b.number, b.hash) {
      forall n
        ensures !InDb(t.db, n, b.hash)
      {
        FreshBlock(w, t, b, n);
      }
    }
    if t.lastFinalized < b.number && b.parent in t.loc {
      InsertOnSideMeaning(w, t, exec, b);
    } else if t.lastFinalized < b.number && InWindow(t, b.number - 1, b.parent) {
      var r := NewCanonicalFork(exec, b, t.db[b.number - 1].block);
      if r.Ok? {
        OneHash(r.value, b);
      }
    }
  }
}
