/**
 The blockchain tree as a state machine on values: the side chains, the chain each
 side block belongs to, the canonical blocks in the database, and the finalised
 number with the canonical window kept in memory. The operations are stated by what
 they mean; the classes in BlockIndices and BlockchainTree carry them out step by step.
 */
module TreeModel {
  import opened Wrappers
  import opened Chains

  /** A hash determines its block. */
  type World = BlockHash -> Block

  /** The block is the one its hash stands for, and its number is one more than the
      number of the block its parent hash stands for. */
  ghost predicate SealedBy(w: World, b: Block) {
    && w(b.hash) == b
    && (b.number > 0 ==> w(b.parent).number + 1 == b.number)
  }

  ghost predicate AllSealed(w: World, blocks: seq<Block>) {
    forall i {:trigger SealedBy(w, blocks[i])} :: 0 <= i < |blocks| ==> SealedBy(w, blocks[i])
  }

  datatype Tree = Tree(
    chains: map<ChainId, Chain>,
    loc: map<BlockHash, ChainId>,
    nextId: ChainId,
    db: seq<Stored>,
    lastFinalized: BlockNumber,
    windowLow: BlockNumber,
    maxBlocks: nat,
    additional: nat)

  // The invariant, one conjunct per predicate

  ghost predicate Sound(w: World, c: Chain) {
    ChainOk(c) && AllSealed(w, c.blocks)
  }

  ghost predicate ChainsOk(w: World, chains: map<ChainId, Chain>) {
    forall id {:trigger Sound(w, chains[id])} :: id in chains ==> Sound(w, chains[id])
  }

  ghost predicate IdsBelow(chains: map<ChainId, Chain>, nextId: ChainId) {
    forall id :: id in chains ==> id < nextId
  }

  ghost predicate AllCovered(chains: map<ChainId, Chain>) {
    forall id {:trigger Covered(chains[id].changesets, chains[id].substate)} ::
      id in chains ==> Covered(chains[id].changesets, chains[id].substate)
  }

  ghost predicate Holds(chains: map<ChainId, Chain>, id: ChainId, h: BlockHash) {
    id in chains && h in chains[id].Hashes()
  }

  /** A hash has a chain exactly when that chain, and no other, holds it. */
  ghost predicate LocOk(chains: map<ChainId, Chain>, loc: map<BlockHash, ChainId>) {
    && (forall id, h :: Holds(chains, id, h) ==> h in loc && loc[h] == id)
    && (forall h {:trigger Holds(chains, loc[h], h)} :: h in loc ==> Holds(chains, loc[h], h))
  }

  ghost predicate DbAt(w: World, db: seq<Stored>, n: int)
    requires 0 <= n < |db|
  {
    && db[n].block.number == n
    && SealedBy(w, db[n].block)
    && (n > 0 ==> db[n].block.parent == db[n - 1].block.hash)
  }

  ghost predicate DbOk(w: World, db: seq<Stored>) {
    && |db| > 0
    && (forall n {:trigger DbAt(w, db, n)} :: 0 <= n < |db| ==> DbAt(w, db, n))
  }

  ghost predicate InDb(db: seq<Stored>, n: int, h: BlockHash) {
    0 <= n < |db| && db[n].block.hash == h
  }

  lemma {:induction false} InDbNumber(w: World, db: seq<Stored>, n: int, h: BlockHash)
    requires DbOk(w, db) && InDb(db, n, h)
    ensures n == w(h).number && w(h) == db[n].block
  {
    assert DbAt(w, db, n);
  }

  /** No block is both canonical and in a side chain. */
  ghost predicate Apart(db: seq<Stored>, loc: map<BlockHash, ChainId>) {
    forall n, h :: InDb(db, n, h) ==> h !in loc
  }

  /** A chain starts on a block of another chain or on the canonical block below it. */
  ghost predicate Attached(db: seq<Stored>, loc: map<BlockHash, ChainId>, c: Chain) {
    |c.blocks| > 0 && (c.First().parent in loc || InDb(db, c.First().number - 1, c.First().parent))
  }

  ghost predicate AllAttached(chains: map<ChainId, Chain>, db: seq<Stored>, loc: map<BlockHash, ChainId>) {
    forall id {:trigger Attached(db, loc, chains[id])} :: id in chains ==> Attached(db, loc, chains[id])
  }

  /** Side blocks lie above the finalised block and not too far above it. */
  ghost predicate Within(c: Chain, lastFinalized: BlockNumber, maxBlocks: nat) {
    |c.blocks| > 0 && lastFinalized < c.First().number && c.Tip().number <= lastFinalized + maxBlocks
  }

  ghost predicate Bounded(chains: map<ChainId, Chain>, lastFinalized: BlockNumber, maxBlocks: nat) {
    forall id {:trigger Within(chains[id], lastFinalized, maxBlocks)} ::
      id in chains ==> Within(chains[id], lastFinalized, maxBlocks)
  }

  ghost predicate WindowOk(t: Tree) {
    t.windowLow <= t.lastFinalized < |t.db| <= t.lastFinalized + t.maxBlocks + 1
  }

  ghost predicate Inv(w: World, t: Tree) {
    && ChainsOk(w, t.chains)
    && IdsBelow(t.chains, t.nextId)
    && AllCovered(t.chains)
    && LocOk(t.chains, t.loc)
    && DbOk(w, t.db)
    && Apart(t.db, t.loc)
    && AllAttached(t.chains, t.db, t.loc)
    && Bounded(t.chains, t.lastFinalized, t.maxBlocks)
    && WindowOk(t)
  }

  // Where a block sits

  /** A located hash stands for a block of its chain, at the place its number says. */
  lemma {:induction false} Located(w: World, t: Tree, h: BlockHash)
    requires ChainsOk(w, t.chains) && LocOk(t.chains, t.loc)
    requires h in t.loc
    ensures t.loc[h] in t.chains
    ensures var c := t.chains[t.loc[h]];
            && |c.blocks| > 0 && |c.changesets| == |c.blocks|
            && c.First().number <= w(h).number < c.First().number + |c.blocks|
            && c.blocks[w(h).number - c.First().number] == w(h)
            && w(h).hash == h && SealedBy(w, w(h))
  {
    assert Holds(t.chains, t.loc[h], h);
    var c := t.chains[t.loc[h]];
    assert Sound(w, c);
    var i :| 0 <= i < |c.blocks| && c.blocks[i].hash == h;
    assert SealedBy(w, c.blocks[i]) && LinkedAt(c.blocks, i);
  }

  /** The first block of a chain sits one above its parent. */
  lemma {:induction false} ParentBelow(w: World, t: Tree, id: ChainId)
    requires ChainsOk(w, t.chains) && Bounded(t.chains, t.lastFinalized, t.maxBlocks)
    requires id in t.chains
    ensures var c := t.chains[id];
            && |c.blocks| > 0 && |c.changesets| == |c.blocks|
            && c.First().number > t.lastFinalized
            && w(c.First().parent).number + 1 == c.First().number
  {
    var c := t.chains[id];
    assert Sound(w, c) && Within(c, t.lastFinalized, t.maxBlocks);
    assert SealedBy(w, c.blocks[0]);
  }

  /** How many blocks of its chain lie at or below the block `h` stands for. */
  ghost function Depth(w: World, t: Tree, h: BlockHash): (n: nat)
    requires ChainsOk(w, t.chains) && LocOk(t.chains, t.loc) && h in t.loc
    ensures t.loc[h] in t.chains
    ensures 1 <= n <= |t.chains[t.loc[h]].blocks| == |t.chains[t.loc[h]].changesets|
  {
    Located(w, t, h);
    w(h).number - t.chains[t.loc[h]].First().number + 1
  }

  /** The canonical window in memory holds this hash at this number. */
  ghost predicate InWindow(t: Tree, n: BlockNumber, h: BlockHash) {
    t.windowLow <= n && InDb(t.db, n, h)
  }

  // Following fork links down to the canonical chain

  /** The canonical number a chain leaves the canonical chain at, through its ancestors. */
  ghost function Root(w: World, t: Tree, id: ChainId): BlockNumber
    requires Inv(w, t) && id in t.chains
    decreases if |t.chains[id].blocks| > 0 then t.chains[id].blocks[0].number else 0
  {
    ParentBelow(w, t, id);
    var first := t.chains[id].First();
    if first.parent in t.loc then
      Located(w, t, first.parent);
      Root(w, t, t.loc[first.parent])
    else first.number - 1
  }

  /** The canonical block a chain hangs from, through its ancestors. */
  ghost function RootHash(w: World, t: Tree, id: ChainId): BlockHash
    requires Inv(w, t) && id in t.chains
    decreases if |t.chains[id].blocks| > 0 then t.chains[id].blocks[0].number else 0
  {
    ParentBelow(w, t, id);
    var first := t.chains[id].First();
    if first.parent in t.loc then
      Located(w, t, first.parent);
      RootHash(w, t, t.loc[first.parent])
    else first.parent
  }

  /** Following fork links ends at a canonical block, at or above the finalised one and
      strictly below the chain. */
  lemma {:induction false} RootIsCanonical(w: World, t: Tree, id: ChainId)
    requires Inv(w, t) && id in t.chains
    ensures |t.chains[id].blocks| > 0
    ensures t.lastFinalized <= Root(w, t, id) < t.chains[id].First().number
    ensures InDb(t.db, Root(w, t, id), RootHash(w, t, id))
    decreases if |t.chains[id].blocks| > 0 then t.chains[id].blocks[0].number else 0
  {
    ParentBelow(w, t, id);
    var first := t.chains[id].First();
    if first.parent in t.loc {
      Located(w, t, first.parent);
      RootIsCanonical(w, t, t.loc[first.parent]);
    } else {
      assert Attached(t.db, t.loc, t.chains[id]);
    }
  }

  /** One fork link: either to a chain that starts strictly lower and hangs from the
      same canonical block, or to that canonical block itself. */
  lemma {:induction false} ForkLink(w: World, t: Tree, id: ChainId)
    requires Inv(w, t) && id in t.chains
    ensures |t.chains[id].blocks| > 0 && t.chains[id].First().number > 0
    ensures var first := t.chains[id].First();
            && (first.parent in t.loc ==>
                  var below := t.loc[first.parent];
                  && below in t.chains && |t.chains[below].blocks| > 0
                  && t.chains[below].First().number < first.number
                  && Root(w, t, id) == Root(w, t, below) && RootHash(w, t, id) == RootHash(w, t, below))
            && (first.parent !in t.loc ==>
                  && Root(w, t, id) == first.number - 1 && RootHash(w, t, id) == first.parent
                  && InWindow(t, first.number - 1, first.parent))
  {
    ParentBelow(w, t, id);
    RootIsCanonical(w, t, id);
    if t.chains[id].First().parent in t.loc {
      Located(w, t, t.chains[id].First().parent);
    }
  }

  // The blocks that become canonical with `h`

  /** The side-chain part of the ancestry of `h`, lowest block first. */
  ghost function Ancestry(w: World, t: Tree, h: BlockHash): seq<Block>
    requires Inv(w, t) && h in t.loc
    decreases w(h).number
  {
    SideBlockSealed(w, t, h);
    (if w(h).parent in t.loc then Ancestry(w, t, w(h).parent) else []) + [w(h)]
  }

  lemma {:induction false} SideBlockSealed(w: World, t: Tree, h: BlockHash)
    requires Inv(w, t) && h in t.loc
    ensures SealedBy(w, w(h)) && w(h).number > t.lastFinalized
  {
    Located(w, t, h);
    ParentBelow(w, t, t.loc[h]);
  }

  /** The same blocks collected chain by chain, with their changesets. */
  ghost function PathTo(w: World, t: Tree, h: BlockHash): seq<Stored>
    requires Inv(w, t) && h in t.loc
    decreases w(h).number
  {
    Located(w, t, h);
    ParentBelow(w, t, t.loc[h]);
    var c := t.chains[t.loc[h]];
    var n := Depth(w, t, h);
    (if c.First().parent in t.loc then PathTo(w, t, c.First().parent) else [])
    + Zip(c.blocks[..n], c.changesets[..n])
  }

  /** How many blocks each chain on the path gives up. */
  ghost function Cuts(w: World, t: Tree, h: BlockHash): map<ChainId, nat>
    requires Inv(w, t) && h in t.loc
    decreases w(h).number
  {
    Located(w, t, h);
    ParentBelow(w, t, t.loc[h]);
    var c := t.chains[t.loc[h]];
    var n := Depth(w, t, h);
    (if c.First().parent in t.loc then Cuts(w, t, c.First().parent) else map[])[t.loc[h] := n]
  }

  ghost function HashesIn(stored: seq<Stored>): (hashes: set<BlockHash>)
    ensures hashes == set i | 0 <= i < |stored| :: stored[i].block.hash
  {
    BlockHashes(BlocksOf(stored))
  }

  /** What is left of each chain once its cut is gone. */
  ghost function CutChains(w: World, chains: map<ChainId, Chain>, cuts: map<ChainId, nat>): map<ChainId, Chain>
    requires ChainsOk(w, chains)
  {
    map id | id in chains && !(id in cuts && cuts[id] >= |chains[id].blocks|) ::
      if id in cuts then (assert Sound(w, chains[id]); Suffix(chains[id], cuts[id])) else chains[id]
  }

  // Operations

  /** `make_canonical` of a side block: the path moves from its chains to the database,
      and the canonical blocks it displaces, if any, come back as one new chain. */
  ghost function Canonicalized(w: World, t: Tree, h: BlockHash): Tree
    requires Inv(w, t) && h in t.loc
    requires |PathTo(w, t, h)| > 0 && 0 < PathTo(w, t, h)[0].block.number <= |t.db|
  {
    Promote(t, PathTo(w, t, h), CutChains(w, t.chains, Cuts(w, t, h)))
  }

  ghost function Promote(t: Tree, path: seq<Stored>, chains: map<ChainId, Chain>): Tree
    requires |path| > 0 && 0 < path[0].block.number <= |t.db|
  {
    var first := path[0].block.number;
    var loc := t.loc - HashesIn(path);
    if first == |t.db| then
      t.(chains := chains, loc := loc, db := t.db + path)
    else
      var displaced := New(t.db[first..]);
      t.(chains := chains[t.nextId := displaced],
         loc := Assign(loc, displaced.Hashes(), t.nextId),
         nextId := t.nextId + 1,
         db := t.db[..first] + path)
  }

  /** `finalize_block`: the chains that leave the canonical chain below `n` go. */
  ghost function Finalized(w: World, t: Tree, n: BlockNumber): Tree
    requires Inv(w, t)
  {
    var until := if n < t.additional then 0 else n - t.additional;
    t.(chains := map id | id in t.chains && Root(w, t, id) >= n :: t.chains[id],
       loc := map h | h in t.loc && (Located(w, t, h); Root(w, t, t.loc[h]) >= n) :: t.loc[h],
       lastFinalized := n,
       windowLow := if until > t.windowLow then until else t.windowLow)
  }

  ghost function AddChain(t: Tree, c: Chain): Tree {
    t.(chains := t.chains[t.nextId := c],
       loc := Assign(t.loc, c.Hashes(), t.nextId),
       nextId := t.nextId + 1)
  }

  /** A block whose parent is in a side chain: extend the chain or fork it. */
  ghost function InsertOnSide(w: World, t: Tree, exec: Executor, b: Block): (Tree, Result<bool, Error>)
    requires Inv(w, t) && b.parent in t.loc && b.number > 0
  {
    Located(w, t, b.parent);
    var id := t.loc[b.parent];
    var c := t.chains[id];
    assert Sound(w, c);
    if c.Tip().hash == b.parent then
      match AppendBlock(c, exec, b)
      case Ok(c') => (t.(chains := t.chains[id := c'], loc := t.loc[b.hash := id]), Ok(true))
      case Err(e) => (t, Err(e))
    else
      match NewChainFork(c, exec, b)
      case Ok(c') => (AddChain(t, c'), Ok(true))
      case Err(e) => (t, Err(e))
  }

  /** A block whose parent is canonical: a new chain. */
  ghost function InsertOnCanonical(t: Tree, exec: Executor, b: Block): (Tree, Result<bool, Error>)
    requires 0 < b.number <= |t.db|
  {
    match NewCanonicalFork(exec, b, t.db[b.number - 1].block)
    case Ok(c) => (AddChain(t, c), Ok(true))
    case Err(e) => (t, Err(e))
  }

  /** `insert_block_with_senders`. */
  ghost function Inserted(w: World, t: Tree, exec: Executor, b: Block): (Tree, Result<bool, Error>)
    requires Inv(w, t)
  {
    if b.number <= t.lastFinalized then (t, Err(PendingBlockIsFinalized))
    else if b.number > t.lastFinalized + t.maxBlocks then (t, Err(PendingBlockIsInFuture))
    else if b.hash in t.loc then (t, Ok(true))
    else if InWindow(t, b.number, b.hash) then (t, Ok(true))
    else if b.parent in t.loc then InsertOnSide(w, t, exec, b)
    else if InWindow(t, b.number - 1, b.parent) then InsertOnCanonical(t, exec, b)
    else (t, Ok(false))
  }

  // What is known, and runs of operations

  /** Every block the node holds, canonical or not. */
  ghost function Known(t: Tree): set<BlockHash> {
    t.loc.Keys + HashesIn(t.db)
  }
}
