/** Collecting the chains to promote: what has been taken after any number of steps
    down the fork links, and what the indices look like meanwhile. */
module TreeWalk {
  import opened Chains
  import opened TreeModel
  import opened TreeReorg
  import opened Indices
  import opened TreeIndices
  import opened TreeRuns

  /** The collected parts, tip part first, as one run of blocks, lowest first. */
  ghost function Flat(parts: seq<Chain>): seq<Stored>
    requires forall i :: 0 <= i < |parts| ==> |parts[i].blocks| == |parts[i].changesets|
    decreases |parts|
  {
    if parts == [] then []
    else Zip(parts[|parts| - 1].blocks, parts[|parts| - 1].changesets) + Flat(parts[..|parts| - 1])
  }

  ghost predicate PartOk(c: Chain) {
    |c.blocks| > 0 && |c.blocks| == |c.changesets|
  }

  /** Each part starts on the last block of the part collected after it. */
  ghost predicate Joined(parts: seq<Chain>) {
    && (forall i :: 0 <= i < |parts| ==> PartOk(parts[i]))
    && (forall i, j :: 0 <= i < j < |parts| && j == i + 1 ==> parts[i].First().parent == parts[j].Tip().hash)
  }

  /** The chains cut so far all start above the block that comes next. */
  ghost predicate CutAbove(w: World, t: Tree, p: BlockHash, cuts: map<ChainId, nat>) {
    forall id :: id in cuts ==> id in t.chains && |t.chains[id].blocks| > 0 && t.chains[id].First().number > w(p).number
  }

  ghost function PathOrNone(w: World, t: Tree, p: BlockHash): seq<Stored>
    requires Inv(w, t)
  {
    if p in t.loc then PathTo(w, t, p) else []
  }

  ghost function CutsOrNone(w: World, t: Tree, p: BlockHash): map<ChainId, nat>
    requires Inv(w, t)
  {
    if p in t.loc then Cuts(w, t, p) else map[]
  }

  /** On the way from `h` down, with `p` the next block to look for. */
  ghost predicate Walking(w: World, t: Tree, h: BlockHash, p: BlockHash, parts: seq<Chain>, cuts: map<ChainId, nat>)
    requires Inv(w, t) && h in t.loc
  {
    && Joined(parts)
    && (parts == [] ==> p == h)
    && (parts != [] ==> parts[|parts| - 1].First().parent == p && parts[|parts| - 1].First().number == w(p).number + 1)
    && PathTo(w, t, h) == PathOrNone(w, t, p) + Flat(parts)
    && Cuts(w, t, h) == CutsOrNone(w, t, p) + cuts
    && CutAbove(w, t, p, cuts)
  }

  lemma {:induction false} WalkStart(w: World, t: Tree, h: BlockHash)
    requires Inv(w, t) && h in t.loc
    ensures Walking(w, t, h, h, [], map[])
    ensures CutChains(w, t.chains, map[]) == t.chains
  {
    assert PathTo(w, t, h) + [] == PathTo(w, t, h);
    assert Cuts(w, t, h) + map[] == Cuts(w, t, h);
  }

  lemma {:induction false} FlatPush(parts: seq<Chain>, c: Chain)
    requires forall i :: 0 <= i < |parts| ==> |parts[i].blocks| == |parts[i].changesets|
    requires |c.blocks| == |c.changesets|
    ensures Flat(parts + [c]) == Zip(c.blocks, c.changesets) + Flat(parts)
  {
    assert (parts + [c])[..|parts|] == parts;
  }

  lemma {:induction false} ZipConcat(a: Chain, b: Chain)
    requires |a.blocks| == |a.changesets| && |b.blocks| == |b.changesets|
    ensures Zip(a.blocks + b.blocks, a.changesets + b.changesets)
            == Zip(a.blocks, a.changesets) + Zip(b.blocks, b.changesets)
  {
  }

  /** Appending the part collected just before the ones already merged. */
  lemma {:induction false} MergeStep(parts: seq<Chain>, n: nat, merged: Chain)
    requires Joined(parts) && 0 < n < |parts| && PartOk(merged) && merged.Tip() == parts[n].Tip()
    requires Zip(merged.blocks, merged.changesets) + Flat(parts[..n]) == Flat(parts)
    ensures var r := AppendChain(merged, parts[n - 1]);
            && r.Ok? && PartOk(r.value) && r.value.Tip() == parts[n - 1].Tip()
            && Zip(r.value.blocks, r.value.changesets) + Flat(parts[..n - 1]) == Flat(parts)
  {
    assert parts[..n][..n - 1] == parts[..n - 1];
    ZipConcat(merged, parts[n - 1]);
    var p := parts[n - 1];
    Reassociate(Zip(merged.blocks, merged.changesets), Zip(p.blocks, p.changesets), Flat(parts[..n - 1]));
  }

  /** The next chain down is still whole; its part up to `p` joins the collected parts. */
  lemma {:induction false} WalkStep(
    w: World, t: Tree, h: BlockHash, p: BlockHash, parts: seq<Chain>, cuts: map<ChainId, nat>, part: Chain)
    requires Inv(w, t) && h in t.loc
    requires Walking(w, t, h, p, parts, cuts) && p in t.loc
    requires t.loc[p] in t.chains
    requires var c, n := t.chains[t.loc[p]], Depth(w, t, p);
             part.blocks == c.blocks[..n] && part.changesets == c.changesets[..n]
    ensures t.loc[p] !in cuts && PartOk(part)
    ensures part.First().number > 0
    ensures Walking(w, t, h, part.First().parent, parts + [part], cuts[t.loc[p] := Depth(w, t, p)])
  {
    Located(w, t, p);
    ParentBelow(w, t, t.loc[p]);
    assert part.Tip() == w(p);
    WalkPath(w, t, h, p, parts, part);
    WalkCuts(w, t, h, p, cuts);
    WalkJoined(parts, part);
  }

  lemma {:induction false} WalkPath(w: World, t: Tree, h: BlockHash, p: BlockHash, parts: seq<Chain>, part: Chain)
    requires Inv(w, t) && h in t.loc && p in t.loc && t.loc[p] in t.chains && Joined(parts)
    requires PathTo(w, t, h) == PathOrNone(w, t, p) + Flat(parts)
    requires var c, n := t.chains[t.loc[p]], Depth(w, t, p);
             part.blocks == c.blocks[..n] && part.changesets == c.changesets[..n]
    ensures |part.blocks| > 0 && |part.blocks| == |part.changesets|
    ensures PathTo(w, t, h) == PathOrNone(w, t, part.First().parent) + Flat(parts + [part])
  {
    FlatPush(parts, part);
    PathUnfolds(w, t, p);
    var q, own := part.First().parent, Own(w, t, p);
    assert own == Zip(part.blocks, part.changesets);
    assert q !in t.loc ==> [] + own == own;
    Reassociate(PathOrNone(w, t, q), own, Flat(parts));
  }

  lemma {:induction false} Reassociate(a: seq<Stored>, b: seq<Stored>, c: seq<Stored>)
    ensures (a + b) + c == a + (b + c)
  {
  }

  lemma {:induction false} WalkJoined(parts: seq<Chain>, part: Chain)
    requires Joined(parts) && PartOk(part)
    requires parts != [] ==> parts[|parts| - 1].First().parent == part.Tip().hash
    ensures Joined(parts + [part])
  {
  }

  lemma {:induction false} WalkCuts(w: World, t: Tree, h: BlockHash, p: BlockHash, cuts: map<ChainId, nat>)
    requires Inv(w, t) && h in t.loc && p in t.loc
    requires Cuts(w, t, h) == CutsOrNone(w, t, p) + cuts && CutAbove(w, t, p, cuts)
    ensures t.loc[p] in t.chains && |t.chains[t.loc[p]].blocks| > 0 && t.loc[p] !in cuts
    ensures var q := t.chains[t.loc[p]].First().parent;
            var more := cuts[t.loc[p] := Depth(w, t, p)];
            Cuts(w, t, h) == CutsOrNone(w, t, q) + more && CutAbove(w, t, q, more)
  {
    Located(w, t, p);
    ParentBelow(w, t, t.loc[p]);
    ShiftCut(CutsOrNone(w, t, t.chains[t.loc[p]].First().parent), cuts, t.loc[p], Depth(w, t, p));
  }

  lemma {:induction false} ShiftCut(a: map<ChainId, nat>, b: map<ChainId, nat>, id: ChainId, n: nat)
    requires id !in b
    ensures a[id := n] + b == a + b[id := n]
  {
  }

  // The chains and the indices on the way

  lemma {:induction false} CutOne(w: World, t: Tree, cuts: map<ChainId, nat>, id: ChainId, n: nat)
    requires ChainsOk(w, t.chains) && id in t.chains && id !in cuts
    requires 1 <= n <= |t.chains[id].blocks| == |t.chains[id].changesets|
    ensures var before, after := CutChains(w, t.chains, cuts), CutChains(w, t.chains, cuts[id := n]);
            && id in before && before[id] == t.chains[id]
            && (n == |t.chains[id].blocks| ==> after == before - {id})
            && (n < |t.chains[id].blocks| ==> after == (before - {id})[id := Suffix(t.chains[id], n)])
  {
  }

  /** Cutting one more chain leaves the union of first blocks as it was, up to the first
      block of the part that stays. */
  lemma {:induction false} CutFirsts(t: Tree, before: map<ChainId, Chain>, id: ChainId, rest: Chain)
    requires id in t.chains && id in before && before[id] == t.chains[id]
    requires |rest.blocks| > 0
    ensures Firsts(t.chains) + Firsts(before - {id}) == Firsts(t.chains) + Firsts(before)
    ensures Firsts(t.chains) + Firsts((before - {id})[id := rest]) == Firsts(t.chains) + Firsts(before) + {rest.First()}
  {
    forall b | b in Firsts(before)
      ensures b in Firsts(t.chains) + Firsts(before - {id})
    {
      var k :| k in before && |before[k].blocks| > 0 && before[k].blocks[0] == b;
      if k != id {
        assert (before - {id})[k].blocks[0] == b;
      } else {
        assert t.chains[id].blocks[0] == b;
      }
    }
    forall b | b in Firsts(before - {id})
      ensures b in Firsts(before)
    {
      var k :| k in before - {id} && |(before - {id})[k].blocks| > 0 && (before - {id})[k].blocks[0] == b;
      assert before[k].blocks[0] == b;
    }
    AddedChain(before - {id}, id, rest);
  }

  /** The indices while parts are being collected: only new fork entries have appeared. */
  ghost predicate WalkIndices(t: Tree, chains: map<ChainId, Chain>, forkToChild: Groups, numberToBlock: Groups,
                              blocksToChain: map<BlockHash, ChainId>) {
    && blocksToChain == t.loc
    && Grouped(ByNumber, BlocksIn(t.chains), numberToBlock)
    && Grouped(ByParent, Firsts(t.chains) + Firsts(chains), forkToChild)
  }

  lemma {:induction false} WalkIndicesStart(
    t: Tree, forkToChild: Groups, numberToBlock: Groups, canonicalChain: map<BlockNumber, BlockHash>)
    requires Agree(t, forkToChild, numberToBlock, canonicalChain)
    ensures WalkIndices(t, t.chains, forkToChild, numberToBlock, t.loc)
  {
    assert Firsts(t.chains) + Firsts(t.chains) == Firsts(t.chains);
  }

  /** Putting the upper part of a chain back under its own id. */
  lemma {:induction false} WalkIndicesSplit(w: World, t: Tree, before: map<ChainId, Chain>, id: ChainId, n: nat,
                         forkToChild: Groups, numberToBlock: Groups)
    requires Inv(w, t) && id in t.chains && id in before && before[id] == t.chains[id]
    requires 1 <= n < |t.chains[id].blocks| == |t.chains[id].changesets|
    requires WalkIndices(t, before, forkToChild, numberToBlock, t.loc)
    ensures var rest := Suffix(t.chains[id], n);
            WalkIndices(t, (before - {id})[id := rest], AddTo(forkToChild, rest.First().parent, rest.First().hash),
                        AddAll(ByNumber, numberToBlock, rest.blocks), Assign(t.loc, rest.Hashes(), id))
  {
    var rest := Suffix(t.chains[id], n);
    var forks := Firsts(t.chains) + Firsts(before);
    GroupedIs(ByParent, forks, forkToChild);
    GroupedIs(ByNumber, BlocksIn(t.chains), numberToBlock);
    CutFirsts(t, before, id, rest);
    GroupAdd(ByParent, forks, rest.First());
    IsGrouped(ByParent, forks + {rest.First()});
    SuffixNumbers(t, id, n);
    SuffixLoc(w, t, id, n);
  }

  lemma {:induction false} SuffixNumbers(t: Tree, id: ChainId, n: nat)
    requires id in t.chains && n <= |t.chains[id].blocks| == |t.chains[id].changesets|
    ensures AddAll(ByNumber, GroupBy(ByNumber, BlocksIn(t.chains)), Suffix(t.chains[id], n).blocks)
            == GroupBy(ByNumber, BlocksIn(t.chains))
  {
    var c := t.chains[id];
    var rest := c.blocks[n..];
    GroupAddAll(ByNumber, BlocksIn(t.chains), rest);
    forall b | b in rest
      ensures b in BlocksIn(t.chains)
    {
      var i :| 0 <= i < |rest| && rest[i] == b;
      assert c.blocks[n + i] == b;
      assert b in c.blocks;
    }
    assert BlocksIn(t.chains) + SetOf(rest) == BlocksIn(t.chains);
  }

  lemma {:induction false} SuffixLoc(w: World, t: Tree, id: ChainId, n: nat)
    requires ChainsOk(w, t.chains) && LocOk(t.chains, t.loc)
    requires id in t.chains && n <= |t.chains[id].blocks| == |t.chains[id].changesets|
    ensures Assign(t.loc, Suffix(t.chains[id], n).Hashes(), id) == t.loc
  {
    var rest := Suffix(t.chains[id], n);
    forall h | h in rest.Hashes()
      ensures h in t.loc && t.loc[h] == id
    {
      var i :| 0 <= i < |rest.blocks| && rest.blocks[i].hash == h;
      BlockAt(w, t, id, n + i);
    }
  }

  lemma {:induction false} WalkIndicesWhole(
    t: Tree, before: map<ChainId, Chain>, id: ChainId, forkToChild: Groups, numberToBlock: Groups)
    requires id in t.chains && id in before && before[id] == t.chains[id] && |t.chains[id].blocks| > 0
    requires WalkIndices(t, before, forkToChild, numberToBlock, t.loc)
    ensures WalkIndices(t, before - {id}, forkToChild, numberToBlock, t.loc)
  {
    CutFirsts(t, before, id, t.chains[id]);
  }

  /** How the next chain down splits: by hash or by number, after the block looked for. */
  lemma {:induction false} NextSplit(w: World, t: Tree, p: BlockHash, cuts: map<ChainId, nat>, at: SplitAt)
    requires Inv(w, t) && p in t.loc && CutAbove(w, t, p, cuts)
    requires at == AtHash(p) || at == AtNumber(w(p).number)
    ensures t.loc[p] in t.chains && t.loc[p] !in cuts && t.loc[p] in CutChains(w, t.chains, cuts)
    ensures var c, n := t.chains[t.loc[p]], Depth(w, t, p);
            && ChainOk(c) && CutChains(w, t.chains, cuts)[t.loc[p]] == c
            && SplitBy(c, at) == if n == |c.blocks| then NoSplitCanonical(c) else Split(Prefix(c, n), Suffix(c, n))
  {
    hide AllCovered, Apart, WindowOk, IdsBelow, DbOk, AllAttached, SplitBy;
    Located(w, t, p);
    var id, n := t.loc[p], Depth(w, t, p);
    var c := t.chains[id];
    assert Sound(w, c);
    BlockAt(w, t, id, n - 1);
    forall i | 0 <= i < n - 1
      ensures c.blocks[i].hash != c.blocks[n - 1].hash
    {
      BlockAt(w, t, id, i);
    }
    hide Inv;
    SplitCuts(c, n - 1);
    CutOne(w, t, cuts, id, n);
  }

  /** Everything about the tree, its chains and its indices on the way down. */
  ghost predicate Underway(w: World, t: Tree, h: BlockHash, p: BlockHash, parts: seq<Chain>, cuts: map<ChainId, nat>,
                           chains: map<ChainId, Chain>, forkToChild: Groups, numberToBlock: Groups,
                           blocksToChain: map<BlockHash, ChainId>)
    requires Inv(w, t) && h in t.loc
  {
    && Walking(w, t, h, p, parts, cuts)
    && chains == CutChains(w, t.chains, cuts)
    && WalkIndices(t, chains, forkToChild, numberToBlock, blocksToChain)
  }

  /** `part` has been taken and the walk goes on below it. */
  ghost predicate Went(w: World, t: Tree, h: BlockHash, p: BlockHash, parts: seq<Chain>, cuts: map<ChainId, nat>,
                       part: Chain, chains: map<ChainId, Chain>, forkToChild: Groups, numberToBlock: Groups,
                       blocksToChain: map<BlockHash, ChainId>)
    requires Inv(w, t) && h in t.loc && p in t.loc
  {
    && PartOk(part) && part.First().number > 0 && w(part.First().parent).number < w(p).number
    && Underway(w, t, h, part.First().parent, parts + [part], cuts[t.loc[p] := Depth(w, t, p)],
                chains, forkToChild, numberToBlock, blocksToChain)
  }

  lemma {:induction false} WholePrefix(c: Chain, n: nat)
    requires n == |c.blocks| == |c.changesets|
    ensures c.blocks[..n] == c.blocks && c.changesets[..n] == c.changesets
  {
  }

  lemma {:induction false} TakeWhole(
    w: World, t: Tree, h: BlockHash, p: BlockHash, parts: seq<Chain>, cuts: map<ChainId, nat>,
    chains: map<ChainId, Chain>, forkToChild: Groups, numberToBlock: Groups)
    requires Inv(w, t) && h in t.loc && p in t.loc
    requires Underway(w, t, h, p, parts, cuts, chains, forkToChild, numberToBlock, t.loc)
    requires t.loc[p] in t.chains && Depth(w, t, p) == |t.chains[t.loc[p]].blocks|
    ensures t.loc[p] in chains && chains[t.loc[p]] == t.chains[t.loc[p]]
    ensures Went(w, t, h, p, parts, cuts, t.chains[t.loc[p]], chains - {t.loc[p]}, forkToChild, numberToBlock, t.loc)
  {
    var id, n := t.loc[p], Depth(w, t, p);
    WholePrefix(t.chains[id], n);
    PartTaken(w, t, h, p, parts, cuts, t.chains[id]);
    CutOne(w, t, cuts, id, n);
    WalkIndicesWhole(t, chains, id, forkToChild, numberToBlock);
  }

  lemma {:induction false} TakeSplit(
    w: World, t: Tree, h: BlockHash, p: BlockHash, parts: seq<Chain>, cuts: map<ChainId, nat>,
    chains: map<ChainId, Chain>, forkToChild: Groups, numberToBlock: Groups)
    requires Inv(w, t) && h in t.loc && p in t.loc
    requires Underway(w, t, h, p, parts, cuts, chains, forkToChild, numberToBlock, t.loc)
    requires t.loc[p] in t.chains && Depth(w, t, p) < |t.chains[t.loc[p]].blocks|
    ensures t.loc[p] in chains && chains[t.loc[p]] == t.chains[t.loc[p]]
    ensures var id, n := t.loc[p], Depth(w, t, p);
            var rest := Suffix(t.chains[id], n);
            Went(w, t, h, p, parts, cuts, Prefix(t.chains[id], n), (chains - {id})[id := rest],
                 AddTo(forkToChild, rest.First().parent, rest.First().hash),
                 AddAll(ByNumber, numberToBlock, rest.blocks), Assign(t.loc, rest.Hashes(), id))
  {
    var id, n := t.loc[p], Depth(w, t, p);
    PartTaken(w, t, h, p, parts, cuts, Prefix(t.chains[id], n));
    CutOne(w, t, cuts, id, n);
    WalkIndicesSplit(w, t, chains, id, n, forkToChild, numberToBlock);
  }

  /** The chains and indices after a split, against those before it. */
  ghost predicate SplitDone(id: ChainId, chain: Chain, at: SplitAt, canonical: Chain,
                            chains: map<ChainId, Chain>, forkToChild: Groups, numberToBlock: Groups,
                            blocksToChain: map<BlockHash, ChainId>,
                            chains': map<ChainId, Chain>, forkToChild': Groups, numberToBlock': Groups,
                            blocksToChain': map<BlockHash, ChainId>)
    requires ChainOk(chain)
  {
    match SplitBy(chain, at)
    case NoSplitPending(_) => false
    case NoSplitCanonical(whole) =>
      && canonical == whole
      && chains' == chains && forkToChild' == forkToChild && numberToBlock' == numberToBlock
      && blocksToChain' == blocksToChain
    case Split(lower, pending) =>
      && canonical == lower && |pending.blocks| > 0
      && chains' == chains[id := pending]
      && forkToChild' == AddTo(forkToChild, pending.First().parent, pending.First().hash)
      && numberToBlock' == AddAll(ByNumber, numberToBlock, pending.blocks)
      && blocksToChain' == Assign(blocksToChain, pending.Hashes(), id)
  }

  lemma {:induction false} TakeDone(
    w: World, t: Tree, h: BlockHash, p: BlockHash, parts: seq<Chain>, cuts: map<ChainId, nat>, at: SplitAt,
    chains: map<ChainId, Chain>, forkToChild: Groups, numberToBlock: Groups, part: Chain,
    chains': map<ChainId, Chain>, forkToChild': Groups, numberToBlock': Groups,
    blocksToChain': map<BlockHash, ChainId>)
    requires Inv(w, t) && h in t.loc && p in t.loc
    requires Underway(w, t, h, p, parts, cuts, chains, forkToChild, numberToBlock, t.loc)
    requires at == AtHash(p) || at == AtNumber(w(p).number)
    requires t.loc[p] in chains && ChainOk(chains[t.loc[p]])
    requires SplitDone(t.loc[p], chains[t.loc[p]], at, part, chains - {t.loc[p]}, forkToChild, numberToBlock, t.loc,
                       chains', forkToChild', numberToBlock', blocksToChain')
    ensures Went(w, t, h, p, parts, cuts, part, chains', forkToChild', numberToBlock', blocksToChain')
  {
    NextSplit(w, t, p, cuts, at);
    if Depth(w, t, p) < |t.chains[t.loc[p]].blocks| {
      TakeSplit(w, t, h, p, parts, cuts, chains, forkToChild, numberToBlock);
      assert SplitBy(chains[t.loc[p]], at).Split?;
    } else {
      TakeWhole(w, t, h, p, parts, cuts, chains, forkToChild, numberToBlock);
      assert SplitBy(chains[t.loc[p]], at).NoSplitCanonical?;
    }
  }

  lemma {:induction false} PartTaken(
    w: World, t: Tree, h: BlockHash, p: BlockHash, parts: seq<Chain>, cuts: map<ChainId, nat>, part: Chain)
    requires Inv(w, t) && h in t.loc
    requires Walking(w, t, h, p, parts, cuts) && p in t.loc && t.loc[p] in t.chains
    requires var c, n := t.chains[t.loc[p]], Depth(w, t, p);
             part.blocks == c.blocks[..n] && part.changesets == c.changesets[..n]
    ensures PartOk(part) && part.First().number > 0 && w(part.First().parent).number < w(p).number
    ensures Walking(w, t, h, part.First().parent, parts + [part], cuts[t.loc[p] := Depth(w, t, p)])
  {
    WalkStep(w, t, h, p, parts, cuts, part);
    Located(w, t, p);
    ParentBelow(w, t, t.loc[p]);
  }

  lemma {:induction false} UnderwayStart(w: World, t: Tree, h: BlockHash, forkToChild: Groups, numberToBlock: Groups,
                      canonicalChain: map<BlockNumber, BlockHash>)
    requires Inv(w, t) && h in t.loc && Agree(t, forkToChild, numberToBlock, canonicalChain)
    ensures Underway(w, t, h, h, [], map[], t.chains, forkToChild, numberToBlock, t.loc)
  {
    WalkStart(w, t, h);
    WalkIndicesStart(t, forkToChild, numberToBlock, canonicalChain);
  }

  lemma {:induction false} UnderwayEnd(
    w: World, t: Tree, h: BlockHash, p: BlockHash, parts: seq<Chain>, cuts: map<ChainId, nat>,
    chains: map<ChainId, Chain>, forkToChild: Groups, numberToBlock: Groups,
    blocksToChain: map<BlockHash, ChainId>)
    requires Inv(w, t) && h in t.loc && p !in t.loc
    requires Underway(w, t, h, p, parts, cuts, chains, forkToChild, numberToBlock, blocksToChain)
    ensures Joined(parts) && Flat(parts) == PathTo(w, t, h)
    ensures chains == CutChains(w, t.chains, Cuts(w, t, h))
    ensures WalkIndices(t, chains, forkToChild, numberToBlock, blocksToChain)
  {
    WalkEnd(w, t, h, p, parts, cuts);
  }

  // The indices once the path is canonical

  lemma {:induction false} PathBlocks(w: World, t: Tree, path: seq<Stored>, b: Block)
    requires PathOk(w, t, path)
    ensures b in SetOf(BlocksOf(path)) <==> b.hash in HashesIn(path) && w(b.hash) == b
    ensures BlockHashes(BlocksOf(path)) == HashesIn(path)
  {
    if b in SetOf(BlocksOf(path)) {
      var i :| 0 <= i < |path| && BlocksOf(path)[i] == b;
      assert SealedBy(w, BlocksOf(path)[i]);
      assert path[i].block.hash == b.hash;
    }
    if b.hash in HashesIn(path) && w(b.hash) == b {
      var i :| 0 <= i < |path| && path[i].block.hash == b.hash;
      assert SealedBy(w, BlocksOf(path)[i]);
      assert BlocksOf(path)[i] == b;
    }
  }

  lemma {:induction false} TakenBlocks(w: World, t: Tree, path: seq<Stored>, chains: map<ChainId, Chain>)
    requires Inv(w, t) && Taken(w, t, path, chains)
    ensures BlocksIn(chains) == BlocksIn(t.chains) - SetOf(BlocksOf(path))
  {
    forall b
      ensures b in BlocksIn(chains) <==> b in BlocksIn(t.chains) - SetOf(BlocksOf(path))
    {
      InBlocksIn(w, t, b);
      PathBlocks(w, t, path, b);
      TakenBlock(w, t, path, chains, b);
    }
  }

  lemma {:induction false} TakenBlock(w: World, t: Tree, path: seq<Stored>, chains: map<ChainId, Chain>, b: Block)
    requires Inv(w, t) && Taken(w, t, path, chains)
    ensures b in BlocksIn(chains) <==> b.hash in t.loc && w(b.hash) == b && b.hash !in HashesIn(path)
  {
    if b in BlocksIn(chains) {
      var id :| id in chains && b in chains[id].blocks;
      var i :| 0 <= i < |chains[id].blocks| && chains[id].blocks[i] == b;
      assert Sound(w, chains[id]) && SealedBy(w, chains[id].blocks[i]);
      assert chains[id].blocks[i].hash in chains[id].Hashes();
      assert Holds(chains, id, b.hash);
    }
    if b.hash in t.loc && w(b.hash) == b && b.hash !in HashesIn(path) {
      var id := t.loc[b.hash];
      assert Holds(chains, id, b.hash);
      var i :| 0 <= i < |chains[id].blocks| && chains[id].blocks[i].hash == b.hash;
      assert Sound(w, chains[id]) && SealedBy(w, chains[id].blocks[i]);
      assert b in chains[id].blocks;
    }
  }

  lemma {:induction false} TakenFirsts(w: World, t: Tree, h: BlockHash)
    requires Inv(w, t) && h in t.loc
    ensures var chains := CutChains(w, t.chains, Cuts(w, t, h));
            Firsts(chains) == Firsts(t.chains) + Firsts(chains) - SetOf(BlocksOf(PathTo(w, t, h)))
  {
    var chains, path := CutChains(w, t.chains, Cuts(w, t, h)), PathTo(w, t, h);
    PathIsTaken(w, t, h);
    TreeSealed(w, chains);
    forall b | b in Firsts(chains)
      ensures b !in SetOf(BlocksOf(path))
    {
      TakenBlock(w, t, path, chains, b);
      PathBlocks(w, t, path, b);
    }
    forall b | b in Firsts(t.chains) && b !in SetOf(BlocksOf(path))
      ensures b in Firsts(chains)
    {
      var id :| id in t.chains && |t.chains[id].blocks| > 0 && t.chains[id].blocks[0] == b;
      BlockAt(w, t, id, 0);
      PathBlocks(w, t, path, b);
      var n := CutDepth(w, t, h, id);
      assert n == 0;
      assert chains[id].blocks[0] == b;
    }
  }

  lemma {:induction false} WalkEndIndices(w: World, t: Tree, h: BlockHash)
    requires Inv(w, t) && h in t.loc
    ensures var chains, blocks := CutChains(w, t.chains, Cuts(w, t, h)), BlocksOf(PathTo(w, t, h));
            && RemoveAll(ByNumber, GroupBy(ByNumber, BlocksIn(t.chains)), blocks) == GroupBy(ByNumber, BlocksIn(chains))
            && RemoveAll(ByParent, GroupBy(ByParent, Firsts(t.chains) + Firsts(chains)), blocks)
               == GroupBy(ByParent, Firsts(chains))
            && BlockHashes(blocks) == HashesIn(PathTo(w, t, h))
  {
    var chains, path := CutChains(w, t.chains, Cuts(w, t, h)), PathTo(w, t, h);
    var blocks := BlocksOf(path);
    PathIsTaken(w, t, h);
    TakenBlocks(w, t, path, chains);
    TakenFirsts(w, t, h);
    TreeSealed(w, t.chains);
    TreeSealed(w, chains);
    forall b | b in SetOf(blocks)
      ensures w(b.hash) == b
    {
      PathBlocks(w, t, path, b);
    }
    PathBlocks(w, t, path, path[0].block);
    SealedDistinct(w, BlocksIn(t.chains) + SetOf(blocks));
    SealedDistinct(w, Firsts(t.chains) + Firsts(chains) + SetOf(blocks));
    GroupRemoveAll(ByNumber, BlocksIn(t.chains), blocks);
    GroupRemoveAll(ByParent, Firsts(t.chains) + Firsts(chains), blocks);
  }

  /** The numbers and hashes of a linked run. */
  ghost function NumberMap(path: seq<Stored>): map<BlockNumber, BlockHash>
    requires |path| > 0
  {
    var first := path[0].block.number;
    map n: BlockNumber | first <= n < first + |path| :: HashAt(path, n)
  }

  ghost function HashAt(path: seq<Stored>, n: BlockNumber): BlockHash
    requires |path| > 0 && path[0].block.number <= n < path[0].block.number + |path|
  {
    path[n - path[0].block.number].block.hash
  }

  lemma {:induction false} PutAllBlocks(m: map<BlockNumber, BlockHash>, path: seq<Stored>)
    requires Linked(BlocksOf(path)) && |path| > 0
    ensures PutAll(m, BlocksOf(path)) == m + NumberMap(path)
    decreases |path|
  {
    var blocks, front, last := BlocksOf(path), path[..|path| - 1], path[|path| - 1].block;
    assert LinkedAt(blocks, |path| - 1);
    assert BlocksOf(front) == blocks[..|path| - 1];
    NumberMapStep(path);
    hide NumberMap, Linked;
    if |path| == 1 {
      assert PutAll(m, blocks[..0]) == m;
    } else {
      LinkedSlice(blocks, 0, |path| - 1);
      assert blocks[0..|path| - 1] == blocks[..|path| - 1];
      PutAllBlocks(m, front);
    }
  }

  lemma {:induction false} NumberMapStep(path: seq<Stored>)
    requires |path| > 0 && path[|path| - 1].block.number == path[0].block.number + |path| - 1
    ensures var last := path[|path| - 1].block;
            NumberMap(path) == (if |path| == 1 then map[] else NumberMap(path[..|path| - 1]))[last.number := last.hash]
  {
  }

  lemma {:induction false} OverwriteWindow(w: World, t: Tree, path: seq<Stored>)
    requires DbOk(w, t.db) && WindowOk(t) && PathOk(w, t, path) && path[0].block.number <= |t.db|
    ensures Overwrite(Window(t.db, t.windowLow), BlocksOf(path))
            == Window(t.db[..path[0].block.number] + path, t.windowLow)
  {
    PutAllBlocks(Below(Window(t.db, t.windowLow), path[0].block.number), path);
    WindowJoin(t.db, t.windowLow, path);
  }

  lemma {:induction false} WindowJoin(db: seq<Stored>, low: BlockNumber, path: seq<Stored>)
    requires |path| > 0 && low <= path[0].block.number <= |db|
    ensures Below(Window(db, low), path[0].block.number) + NumberMap(path)
            == Window(db[..path[0].block.number] + path, low)
  {
  }

  // The end

  /** The tree with the path moved to the canonical chain and the displaced blocks, if
      any, not yet back. */
  ghost function Moved(t: Tree, path: seq<Stored>, chains: map<ChainId, Chain>): Tree
    requires |path| > 0 && path[0].block.number <= |t.db|
  {
    t.(chains := chains, loc := t.loc - HashesIn(path), db := t.db[..path[0].block.number] + path)
  }

  lemma {:induction false} PromoteIsMoved(t: Tree, path: seq<Stored>, chains: map<ChainId, Chain>)
    requires |path| > 0 && 0 < path[0].block.number <= |t.db|
    ensures path[0].block.number == |t.db| ==> Promote(t, path, chains) == Moved(t, path, chains)
    ensures path[0].block.number < |t.db| ==>
              Promote(t, path, chains) == AddChain(Moved(t, path, chains), New(t.db[path[0].block.number..]))
  {
    assert t.db[..|t.db|] == t.db;
  }

  lemma {:induction false} WalkEnd(
    w: World, t: Tree, h: BlockHash, p: BlockHash, parts: seq<Chain>, cuts: map<ChainId, nat>)
    requires Inv(w, t) && h in t.loc
    requires Walking(w, t, h, p, parts, cuts) && p !in t.loc
    ensures PathTo(w, t, h) == Flat(parts) && Cuts(w, t, h) == cuts
  {
    assert [] + Flat(parts) == Flat(parts);
    assert map[] + cuts == cuts;
  }

  /** The path forks off the tip exactly when its first parent is the tip. */
  lemma {:induction false} ForksOffTip(w: World, t: Tree, path: seq<Stored>)
    requires DbOk(w, t.db) && PathOk(w, t, path)
    ensures path[0].block.number <= |t.db|
    ensures path[0].block.parent == t.db[|t.db| - 1].block.hash <==> path[0].block.number == |t.db|
  {
    InDbNumber(w, t.db, path[0].block.number - 1, path[0].block.parent);
    if path[0].block.parent == t.db[|t.db| - 1].block.hash {
      assert InDb(t.db, |t.db| - 1, path[0].block.parent);
      InDbNumber(w, t.db, |t.db| - 1, path[0].block.parent);
    }
  }

  lemma {:induction false} MovedAgrees(w: World, t: Tree, h: BlockHash, forkToChild: Groups, numberToBlock: Groups)
    requires Inv(w, t) && h in t.loc
    requires WalkIndices(t, CutChains(w, t.chains, Cuts(w, t, h)), forkToChild, numberToBlock, t.loc)
    ensures PathOk(w, t, PathTo(w, t, h)) && 0 < PathTo(w, t, h)[0].block.number <= |t.db|
    ensures var path, chains := PathTo(w, t, h), CutChains(w, t.chains, Cuts(w, t, h));
            && t.loc - BlockHashes(BlocksOf(path)) == Moved(t, path, chains).loc
            && Agree(Moved(t, path, chains), RemoveAll(ByParent, forkToChild, BlocksOf(path)),
                     RemoveAll(ByNumber, numberToBlock, BlocksOf(path)),
                     Overwrite(Window(t.db, t.windowLow), BlocksOf(path)))
  {
    var chains := CutChains(w, t.chains, Cuts(w, t, h));
    GroupedIs(ByParent, Firsts(t.chains) + Firsts(chains), forkToChild);
    GroupedIs(ByNumber, BlocksIn(t.chains), numberToBlock);
    PathShape(w, t, h);
    WalkEndIndices(w, t, h);
    OverwriteWindow(w, t, PathTo(w, t, h));
    IsGrouped(ByParent, Firsts(chains));
    IsGrouped(ByNumber, BlocksIn(chains));
  }

  /** Moved and, when blocks were displaced, with the displaced chain back: this is the
      canonicalised tree, and its indices agree. */
  lemma {:induction false} MovedIsCanonicalized(
    w: World, t: Tree, h: BlockHash, forkToChild: Groups, numberToBlock: Groups,
    canonicalChain: map<BlockNumber, BlockHash>)
    requires Inv(w, t) && h in t.loc
    requires PathOk(w, t, PathTo(w, t, h)) && 0 < PathTo(w, t, h)[0].block.number <= |t.db|
    requires Agree(Moved(t, PathTo(w, t, h), CutChains(w, t.chains, Cuts(w, t, h))), forkToChild, numberToBlock,
                   canonicalChain)
    ensures var path := PathTo(w, t, h);
            var moved := Moved(t, path, CutChains(w, t.chains, Cuts(w, t, h)));
            var first := path[0].block.number;
            && (first == |t.db| ==> Canonicalized(w, t, h) == moved && Inv(w, moved))
            && (first < |t.db| ==>
                  && Canonicalized(w, t, h) == AddChain(moved, New(t.db[first..]))
                  && AgreeWith(w, moved, New(t.db[first..]), forkToChild, numberToBlock, canonicalChain))
  {
    var path, chains := PathTo(w, t, h), CutChains(w, t.chains, Cuts(w, t, h));
    var first := path[0].block.number;
    PromoteIsMoved(t, path, chains);
    CanonicalizedKeepsInv(w, t, h);
    if first < |t.db| {
      assert IdsBelow(chains, t.nextId);
      AgreeAddChain(Moved(t, path, chains), New(t.db[first..]), forkToChild, numberToBlock, canonicalChain);
    }
  }

  /** All that is needed to move and write a merged path: where it forks off, what the
      indices become, and the tree that comes out. */
  ghost predicate Ready(w: World, t: Tree, merged: Chain, moved: Tree, result: Tree, forkToChild: Groups,
                        numberToBlock: Groups, canonicalChain: map<BlockNumber, BlockHash>) {
    && PartOk(merged) && 0 < merged.First().number <= |t.db|
    && (merged.First().parent == t.db[|t.db| - 1].block.hash <==> merged.First().number == |t.db|)
    && moved.db == t.db[..merged.First().number] + Zip(merged.blocks, merged.changesets)
    && Agree(moved, forkToChild, numberToBlock, canonicalChain)
    && (merged.First().number == |t.db| ==> result == moved && Inv(w, moved))
    && (merged.First().number < |t.db| ==>
          && result == AddChain(moved, New(t.db[merged.First().number..]))
          && AgreeWith(w, moved, New(t.db[merged.First().number..]), forkToChild, numberToBlock, canonicalChain)
          && merged.ForkNumber() in canonicalChain && canonicalChain[merged.ForkNumber()] == merged.First().parent)
  }

  lemma {:induction false} ForkInWindow(w: World, t: Tree, path: seq<Stored>)
    requires WindowOk(t) && PathOk(w, t, path) && 0 < path[0].block.number <= |t.db|
    ensures var window := Window(t.db[..path[0].block.number] + path, t.windowLow);
            path[0].block.number - 1 in window && window[path[0].block.number - 1] == path[0].block.parent
  {
  }

  lemma {:induction false} MergedPath(
    w: World, t: Tree, h: BlockHash, merged: Chain, forkToChild: Groups, numberToBlock: Groups,
    canonicalChain: map<BlockNumber, BlockHash>)
    returns (moved: Tree, result: Tree)
    requires Inv(w, t) && h in t.loc && canonicalChain == Window(t.db, t.windowLow)
    requires WalkIndices(t, CutChains(w, t.chains, Cuts(w, t, h)), forkToChild, numberToBlock, t.loc)
    requires PartOk(merged) && Zip(merged.blocks, merged.changesets) == PathTo(w, t, h)
    ensures result == Step(w, t, Op.MakeCanonical(h))
    ensures moved.chains == CutChains(w, t.chains, Cuts(w, t, h)) && moved.loc == t.loc - BlockHashes(merged.blocks)
    ensures moved.nextId == t.nextId && moved.maxBlocks == t.maxBlocks
    ensures moved.lastFinalized == t.lastFinalized && moved.additional == t.additional
    ensures Ready(w, t, merged, moved, result, RemoveAll(ByParent, forkToChild, merged.blocks),
                  RemoveAll(ByNumber, numberToBlock, merged.blocks), Overwrite(canonicalChain, merged.blocks))
  {
    var path, chains := PathTo(w, t, h), CutChains(w, t.chains, Cuts(w, t, h));
    MovedAgrees(w, t, h, forkToChild, numberToBlock);
    moved := Moved(t, path, chains);
    result := Canonicalized(w, t, h);
    assert result == Step(w, t, Op.MakeCanonical(h));
    ReadyPath(w, t, h, merged, RemoveAll(ByParent, forkToChild, merged.blocks),
              RemoveAll(ByNumber, numberToBlock, merged.blocks), Overwrite(canonicalChain, merged.blocks));
  }

  lemma {:induction false} ReadyPath(
    w: World, t: Tree, h: BlockHash, merged: Chain, forkToChild: Groups, numberToBlock: Groups,
    canonicalChain: map<BlockNumber, BlockHash>)
    requires Inv(w, t) && h in t.loc
    requires PathOk(w, t, PathTo(w, t, h)) && 0 < PathTo(w, t, h)[0].block.number <= |t.db|
    requires PartOk(merged) && Zip(merged.blocks, merged.changesets) == PathTo(w, t, h)
    requires Agree(Moved(t, PathTo(w, t, h), CutChains(w, t.chains, Cuts(w, t, h))), forkToChild, numberToBlock,
                   canonicalChain)
    ensures Ready(w, t, merged, Moved(t, PathTo(w, t, h), CutChains(w, t.chains, Cuts(w, t, h))),
                  Canonicalized(w, t, h),
                  forkToChild, numberToBlock, canonicalChain)
  {
    hide PathTo, Cuts, CutChains, Canonicalized, Grouped;
    assert merged.First() == PathTo(w, t, h)[0].block;
    ForksOffTip(w, t, PathTo(w, t, h));
    ForkInWindow(w, t, PathTo(w, t, h));
    hide Inv, PathOk, Window;
    MovedIsCanonicalized(w, t, h, forkToChild, numberToBlock, canonicalChain);
  }
}
