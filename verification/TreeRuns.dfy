/** Finalisation, and everything that holds over whole runs of the tree. */
module TreeRuns {
  import opened Chains
  import opened TreeModel
  import opened TreeInsert
  import opened TreeReorg

  /** A chain hangs from the same canonical block as the chain it starts on. */
  lemma {:induction false} RootOfParent(w: World, t: Tree, id: ChainId)
    requires Inv(w, t) && id in t.chains
    ensures |t.chains[id].blocks| > 0
    ensures var p := t.chains[id].First().parent;
            p in t.loc ==> t.loc[p] in t.chains && Root(w, t, id) == Root(w, t, t.loc[p])
  {
    ParentBelow(w, t, id);
    if t.chains[id].First().parent in t.loc {
      Located(w, t, t.chains[id].First().parent);
    }
  }

  lemma {:induction false} FinalizedLoc(w: World, t: Tree, n: BlockNumber)
    requires Inv(w, t)
    ensures var t' := Finalized(w, t, n); LocOk(t'.chains, t'.loc) && Apart(t'.db, t'.loc)
  {
    var t' := Finalized(w, t, n);
    forall id, x | Holds(t'.chains, id, x)
      ensures x in t'.loc && t'.loc[x] == id
    {
      assert Holds(t.chains, id, x);
    }
    forall x | x in t'.loc
      ensures Holds(t'.chains, t'.loc[x], x)
    {
      assert Holds(t.chains, t.loc[x], x);
    }
  }

  /** Finalising a canonical block at or above the last finalised one keeps the invariant. */
  lemma {:induction false} FinalizedKeepsInv(w: World, t: Tree, n: BlockNumber)
    requires Inv(w, t) && t.lastFinalized <= n < |t.db|
    ensures Inv(w, Finalized(w, t, n))
  {
    var t' := Finalized(w, t, n);
    FinalizedLoc(w, t, n);
    forall id | id in t'.chains
      ensures Sound(w, t'.chains[id]) && Covered(t'.chains[id].changesets, t'.chains[id].substate)
      ensures Within(t'.chains[id], n, t.maxBlocks) && Attached(t'.db, t'.loc, t'.chains[id])
    {
      var c := t.chains[id];
      assert Sound(w, c) && Covered(c.changesets, c.substate);
      assert Within(c, t.lastFinalized, t.maxBlocks) && Attached(t.db, t.loc, c);
      RootIsCanonical(w, t, id);
      RootOfParent(w, t, id);
    }
  }

  /** Finalisation removes exactly the chains whose ancestry leaves the canonical chain at
      a number from the old finalised one up to, not including, the new one. Every other
      chain is untouched and hangs from where it did; the canonical blocks stay. */
  lemma {:induction false} FinalizedMeaning(w: World, t: Tree, n: BlockNumber, id: ChainId)
    requires Inv(w, t) && t.lastFinalized <= n < |t.db| && id in t.chains
    ensures Inv(w, Finalized(w, t, n))
    ensures var t' := Finalized(w, t, n);
            && t'.db == t.db && t'.lastFinalized == n && t'.chains.Keys <= t.chains.Keys
            && (id !in t'.chains <==> t.lastFinalized <= Root(w, t, id) < n)
            && (id in t'.chains ==> t'.chains[id] == t.chains[id] && Root(w, t', id) == Root(w, t, id))
    decreases if |t.chains[id].blocks| > 0 then t.chains[id].blocks[0].number else 0
  {
    hide Inv;
    FinalizedKeepsInv(w, t, n);
    RootIsCanonical(w, t, id);
    ForkLink(w, t, id);
    var t' := Finalized(w, t, n);
    if id in t'.chains {
      ForkLink(w, t', id);
      var p := t.chains[id].First().parent;
      if p in t.loc {
        FinalizedMeaning(w, t, n, t.loc[p]);
      }
    }
  }

  // Runs

  datatype Op =
    | InsertBlock(exec: Executor, block: Block)
    | FinalizeBlock(number: BlockNumber)
    | MakeCanonical(hash: BlockHash)

  /** What the source expects of a call: blocks are the ones their hashes stand for,
      and finalisation moves forward along the canonical chain. */
  ghost predicate Allowed(w: World, t: Tree, op: Op) {
    match op
    case InsertBlock(_, block) => SealedBy(w, block)
    case FinalizeBlock(n) => t.lastFinalized <= n < |t.db|
    case MakeCanonical(_) => true
  }

  ghost function Step(w: World, t: Tree, op: Op): (t': Tree)
    requires Inv(w, t) && Allowed(w, t, op)
    ensures Inv(w, t')
  {
    match op
    case InsertBlock(exec, block) =>
      InsertedKeepsInv(w, t, exec, block);
      Inserted(w, t, exec, block).0
    case FinalizeBlock(n) =>
      FinalizedKeepsInv(w, t, n);
      Finalized(w, t, n)
    case MakeCanonical(h) =>
      if h in t.loc then
        CanonicalizedKeepsInv(w, t, h);
        Canonicalized(w, t, h)
      else t
  }

  ghost predicate Legal(w: World, t: Tree, ops: seq<Op>)
    requires Inv(w, t)
    decreases |ops|
  {
    ops == [] || (Allowed(w, t, ops[0]) && Legal(w, Step(w, t, ops[0]), ops[1..]))
  }

  ghost function Run(w: World, t: Tree, ops: seq<Op>): (t': Tree)
    requires Inv(w, t) && Legal(w, t, ops)
    ensures Inv(w, t')
    decreases |ops|
  {
    if ops == [] then t else Run(w, Step(w, t, ops[0]), ops[1..])
  }

  /** Every canonical block up to and including the finalised one is still in place. */
  ghost predicate KeepsFinalized(t: Tree, t': Tree) {
    && t.lastFinalized <= t'.lastFinalized
    && t.lastFinalized < |t.db| && t.lastFinalized < |t'.db|
    && t'.db[..t.lastFinalized + 1] == t.db[..t.lastFinalized + 1]
  }

  lemma {:induction false} StepKeepsFinalized(w: World, t: Tree, op: Op)
    requires Inv(w, t) && Allowed(w, t, op)
    ensures KeepsFinalized(t, Step(w, t, op))
  {
    match op
    case InsertBlock(exec, block) => InsertedMeaning(w, t, exec, block);
    case FinalizeBlock(n) =>
    case MakeCanonical(h) =>
      if h in t.loc {
        CanonicalizedKeepsFinalized(w, t, h);
      }
  }

  lemma {:induction false} CanonicalizedKeepsFinalized(w: World, t: Tree, h: BlockHash)
    requires Inv(w, t) && h in t.loc
    ensures PathOk(w, t, PathTo(w, t, h)) && 0 < PathTo(w, t, h)[0].block.number <= |t.db|
    ensures KeepsFinalized(t, Canonicalized(w, t, h))
  {
    CanonicalizedMeaning(w, t, h);
    var first := PathTo(w, t, h)[0].block.number;
    PrefixesAgree(t.db, Canonicalized(w, t, h).db, first, t.lastFinalized + 1);
  }

  lemma {:induction false} PrefixesAgree(a: seq<Stored>, b: seq<Stored>, n: nat, m: nat)
    requires m <= n <= |a| && n <= |b| && a[..n] == b[..n]
    ensures b[..m] == a[..m]
  {
    assert a[..n][..m] == a[..m];
    assert b[..n][..m] == b[..m];
  }

  lemma {:induction false} KeepsFinalizedTrans(t: Tree, u: Tree, v: Tree)
    requires KeepsFinalized(t, u) && KeepsFinalized(u, v)
    ensures KeepsFinalized(t, v)
  {
    PrefixesAgree(u.db, v.db, u.lastFinalized + 1, t.lastFinalized + 1);
  }

  /** Over every run the invariant holds and no finalised block is ever reverted. */
  lemma {:induction false} RunKeepsFinalized(w: World, t: Tree, ops: seq<Op>)
    requires Inv(w, t) && Legal(w, t, ops)
    ensures Inv(w, Run(w, t, ops)) && KeepsFinalized(t, Run(w, t, ops))
    decreases |ops|
  {
    if ops != [] {
      StepKeepsFinalized(w, t, ops[0]);
      RunKeepsFinalized(w, Step(w, t, ops[0]), ops[1..]);
      KeepsFinalizedTrans(t, Step(w, t, ops[0]), Run(w, t, ops));
    }
  }

  lemma {:induction false} RunSplits(w: World, t: Tree, ops: seq<Op>, k: nat)
    requires Inv(w, t) && Legal(w, t, ops) && k <= |ops|
    ensures Legal(w, t, ops[..k]) && Legal(w, Run(w, t, ops[..k]), ops[k..])
    ensures Run(w, t, ops) == Run(w, Run(w, t, ops[..k]), ops[k..])
    decreases |ops|
  {
    if k == 0 {
      assert ops[..0] == [] && ops[0..] == ops;
    } else {
      RunSplits(w, Step(w, t, ops[0]), ops[1..], k - 1);
      assert ops[..k][1..] == ops[1..][..k - 1];
      assert ops[k..] == ops[1..][k - 1..];
    }
  }

  /** A block that is finalised at any point of a run is canonical for the rest of it. */
  lemma {:induction false} FinalizedForever(w: World, t: Tree, ops: seq<Op>, k: nat)
    requires Inv(w, t) && Legal(w, t, ops) && k <= |ops|
    ensures Legal(w, t, ops[..k]) && KeepsFinalized(Run(w, t, ops[..k]), Run(w, t, ops))
  {
    RunSplits(w, t, ops, k);
    RunKeepsFinalized(w, Run(w, t, ops[..k]), ops[k..]);
  }
}
