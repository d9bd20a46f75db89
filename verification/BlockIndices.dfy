/**
 The four redundant indices of the tree, updated in place, and what they have to
 agree with: every index is a grouping of the tree's blocks by some key.
 */
module Indices {
  import opened Wrappers
  import opened Chains

  type Groups = map<nat, set<BlockHash>>

  /** Block hashes grouped by a key, with no empty groups. */
  ghost function GroupBy(key: Block -> nat, blocks: set<Block>): Groups {
    map k | k in KeysOf(key, blocks) :: HashesAt(key, blocks, k)
  }

  ghost function KeysOf(key: Block -> nat, blocks: set<Block>): set<nat> {
    set b | b in blocks :: key(b)
  }

  ghost function HashesAt(key: Block -> nat, blocks: set<Block>, k: nat): set<BlockHash> {
    set b | b in blocks && key(b) == k :: b.hash
  }

  function Group(m: Groups, k: nat): set<BlockHash> {
    if k in m then m[k] else {}
  }

  /** `m` is the grouping of `blocks` by `key`, group by group. */
  ghost predicate Grouped(key: Block -> nat, blocks: set<Block>, m: Groups) {
    forall k {:trigger GroupFor(key, blocks, m, k)} :: GroupFor(key, blocks, m, k)
  }

  ghost predicate GroupFor(key: Block -> nat, blocks: set<Block>, m: Groups, k: nat) {
    Group(m, k) == Group(GroupBy(key, blocks), k) && (k in m <==> k in GroupBy(key, blocks))
  }

  lemma {:induction false} GroupedIs(key: Block -> nat, blocks: set<Block>, m: Groups)
    requires Grouped(key, blocks, m)
    ensures m == GroupBy(key, blocks)
  {
    var g := GroupBy(key, blocks);
    forall k
      ensures (k in m <==> k in g) && Group(m, k) == Group(g, k)
    {
      assert GroupFor(key, blocks, m, k);
    }
    assert m.Keys == g.Keys;
    assert forall k :: k in m ==> m[k] == Group(m, k) && g[k] == Group(g, k);
  }

  lemma {:induction false} IsGrouped(key: Block -> nat, blocks: set<Block>)
    ensures Grouped(key, blocks, GroupBy(key, blocks))
  {
  }

  function AddTo(m: Groups, k: nat, h: BlockHash): Groups {
    m[k := Group(m, k) + {h}]
  }

  /** Take `h` out of its group and drop the group when it is empty. */
  function RemoveFrom(m: Groups, k: nat, h: BlockHash): Groups {
    if k !in m then m
    else if m[k] - {h} == {} then m - {k}
    else m[k := m[k] - {h}]
  }

  /** Distinct blocks have distinct hashes. */
  ghost predicate DistinctHashes(blocks: set<Block>) {
    forall a, b :: a in blocks && b in blocks && a.hash == b.hash ==> a == b
  }

  /** Membership in a group, spelled out. */
  lemma {:induction false} GroupElements(key: Block -> nat, blocks: set<Block>, k: nat)
    ensures forall h :: h in Group(GroupBy(key, blocks), k) <==> exists b :: b in blocks && key(b) == k && b.hash == h
    ensures k in GroupBy(key, blocks) <==> Group(GroupBy(key, blocks), k) != {}
  {
    if k in GroupBy(key, blocks) {
      var b :| b in blocks && key(b) == k;
      assert b.hash in GroupBy(key, blocks)[k];
    }
  }

  /** A grouping is determined by its groups. */
  lemma {:induction false} SameGroups(m: Groups, m': Groups)
    requires forall k :: k in m <==> Group(m, k) != {}
    requires forall k :: k in m' <==> Group(m', k) != {}
    requires forall k :: Group(m, k) == Group(m', k)
    ensures m == m'
  {
    assert m.Keys == m'.Keys;
    assert forall k :: k in m ==> m[k] == Group(m, k) && m'[k] == Group(m', k);
  }

  lemma {:induction false} GroupAdd(key: Block -> nat, blocks: set<Block>, b: Block)
    ensures AddTo(GroupBy(key, blocks), key(b), b.hash) == GroupBy(key, blocks + {b})
  {
    var g, g' := GroupBy(key, blocks), GroupBy(key, blocks + {b});
    forall k
      ensures Group(AddTo(g, key(b), b.hash), k) == Group(g', k)
      ensures k in AddTo(g, key(b), b.hash) <==> Group(AddTo(g, key(b), b.hash), k) != {}
      ensures k in g' <==> Group(g', k) != {}
    {
      GroupElements(key, blocks, k);
      GroupElements(key, blocks + {b}, k);
      GroupAddAt(key, blocks, b, k);
    }
    SameGroups(AddTo(g, key(b), b.hash), g');
  }

  lemma {:induction false} GroupAddAt(key: Block -> nat, blocks: set<Block>, b: Block, k: nat)
    ensures Group(GroupBy(key, blocks + {b}), k)
            == Group(GroupBy(key, blocks), k) + if k == key(b) then {b.hash} else {}
  {
    GroupElements(key, blocks, k);
    GroupElements(key, blocks + {b}, k);
  }

  lemma {:induction false} GroupRemoveAt(key: Block -> nat, blocks: set<Block>, b: Block, k: nat)
    requires DistinctHashes(blocks + {b})
    ensures Group(GroupBy(key, blocks - {b}), k)
            == Group(GroupBy(key, blocks), k) - if k == key(b) then {b.hash} else {}
  {
    GroupElements(key, blocks, k);
    GroupElements(key, blocks - {b}, k);
  }

  lemma {:induction false} GroupRemove(key: Block -> nat, blocks: set<Block>, b: Block)
    requires DistinctHashes(blocks + {b})
    ensures RemoveFrom(GroupBy(key, blocks), key(b), b.hash) == GroupBy(key, blocks - {b})
  {
    var g, g' := GroupBy(key, blocks), GroupBy(key, blocks - {b});
    forall k
      ensures Group(RemoveFrom(g, key(b), b.hash), k) == Group(g', k)
      ensures k in RemoveFrom(g, key(b), b.hash) <==> Group(RemoveFrom(g, key(b), b.hash), k) != {}
      ensures k in g' <==> Group(g', k) != {}
    {
      GroupElements(key, blocks, k);
      GroupElements(key, blocks - {b}, k);
      GroupRemoveAt(key, blocks, b, k);
    }
    SameGroups(RemoveFrom(g, key(b), b.hash), g');
  }

  ghost function WithoutKeys(key: Block -> nat, blocks: set<Block>, keys: set<nat>): set<Block> {
    set b | b in blocks && key(b) !in keys
  }

  /** Dropping whole groups drops the blocks with those keys. */
  lemma {:induction false} GroupDrop(key: Block -> nat, blocks: set<Block>, keys: set<nat>)
    ensures GroupBy(key, blocks) - keys == GroupBy(key, WithoutKeys(key, blocks, keys))
  {
    var rest := WithoutKeys(key, blocks, keys);
    var m, m' := GroupBy(key, blocks) - keys, GroupBy(key, rest);
    assert m.Keys == m'.Keys;
    forall k | k in m
      ensures m[k] == m'[k]
    {
      GroupElements(key, blocks, k);
      GroupElements(key, rest, k);
    }
  }

  function AddAll(key: Block -> nat, m: Groups, blocks: seq<Block>): Groups {
    if blocks == [] then m
    else
      var last := blocks[|blocks| - 1];
      AddTo(AddAll(key, m, blocks[..|blocks| - 1]), key(last), last.hash)
  }

  function RemoveAll(key: Block -> nat, m: Groups, blocks: seq<Block>): Groups {
    if blocks == [] then m
    else
      var last := blocks[|blocks| - 1];
      RemoveFrom(RemoveAll(key, m, blocks[..|blocks| - 1]), key(last), last.hash)
  }

  ghost function SetOf(blocks: seq<Block>): set<Block> {
    set b | b in blocks
  }

  lemma {:induction false} GroupAddAll(key: Block -> nat, set0: set<Block>, blocks: seq<Block>)
    ensures AddAll(key, GroupBy(key, set0), blocks) == GroupBy(key, set0 + SetOf(blocks))
    decreases |blocks|
  {
    if blocks == [] {
      assert set0 + SetOf(blocks) == set0;
    } else {
      var front, last := blocks[..|blocks| - 1], blocks[|blocks| - 1];
      GroupAddAll(key, set0, front);
      GroupAdd(key, set0 + SetOf(front), last);
      assert blocks == front + [last];
      assert set0 + SetOf(blocks) == set0 + SetOf(front) + {last};
    }
  }

  lemma {:induction false} GroupRemoveAll(key: Block -> nat, set0: set<Block>, blocks: seq<Block>)
    requires DistinctHashes(set0 + SetOf(blocks))
    ensures RemoveAll(key, GroupBy(key, set0), blocks) == GroupBy(key, set0 - SetOf(blocks))
    decreases |blocks|
  {
    if blocks == [] {
      assert set0 - SetOf(blocks) == set0;
    } else {
      var front, last := blocks[..|blocks| - 1], blocks[|blocks| - 1];
      assert blocks == front + [last];
      GroupRemoveAll(key, set0, front);
      GroupRemove(key, set0 - SetOf(front), last);
      assert set0 - SetOf(blocks) == set0 - SetOf(front) - {last};
    }
  }

  function ByNumber(b: Block): nat { b.number }

  function ByParent(b: Block): nat { b.parent }

  /** The first blocks of the chains that start on one of these blocks. */
  ghost function ChildrenOf(forkToChild: Groups, hashes: set<BlockHash>): set<BlockHash> {
    set h, c | h in hashes && c in Group(forkToChild, h) :: c
  }

  lemma {:induction false} AssignStep(m: map<BlockHash, ChainId>, hashes: set<BlockHash>, h: BlockHash, id: ChainId)
    ensures Assign(m, hashes, id)[h := id] == Assign(m, hashes + {h}, id)
  {
  }

  ghost function Owners(m: map<BlockHash, ChainId>, hashes: set<BlockHash>): set<ChainId> {
    set h | h in hashes && h in m :: m[h]
  }

  function Below(m: map<BlockNumber, BlockHash>, first: BlockNumber): map<BlockNumber, BlockHash> {
    map n | n in m && n < first :: m[n]
  }

  function From(m: map<BlockNumber, BlockHash>, first: BlockNumber): map<BlockNumber, BlockHash> {
    map n | n in m && n >= first :: m[n]
  }

  /** The hashes at the numbers in a half-open range. */
  function Slice(m: map<BlockNumber, BlockHash>, from: BlockNumber, to: BlockNumber): set<BlockHash> {
    set n | n in m && from <= n < to :: m[n]
  }

  function PutAll(m: map<BlockNumber, BlockHash>, blocks: seq<Block>): map<BlockNumber, BlockHash> {
    if blocks == [] then m
    else
      var last := blocks[|blocks| - 1];
      PutAll(m, blocks[..|blocks| - 1])[last.number := last.hash]
  }

  /** Replace everything at and above the first block by the blocks. */
  function Overwrite(m: map<BlockNumber, BlockHash>, blocks: seq<Block>): map<BlockNumber, BlockHash> {
    if blocks == [] then m else PutAll(Below(m, blocks[0].number), blocks)
  }

  class BlockIndices {
    var lastFinalized: BlockNumber
    const additional: nat
    var canonicalChain: map<BlockNumber, BlockHash>
    var forkToChild: Groups
    var blocksToChain: map<BlockHash, ChainId>
    var numberToBlock: Groups

    constructor (lastFinalized: BlockNumber, additional: nat, canonicalChain: map<BlockNumber, BlockHash>)
      ensures this.lastFinalized == lastFinalized && this.additional == additional
      ensures this.canonicalChain == canonicalChain
      ensures forkToChild == map[] && blocksToChain == map[] && numberToBlock == map[]
    {
      this.lastFinalized, this.additional, this.canonicalChain := lastFinalized, additional, canonicalChain;
      forkToChild, blocksToChain, numberToBlock := map[], map[], map[];
    }

    method InsertNonForkBlock(number: BlockNumber, hash: BlockHash, id: ChainId)
      modifies this`numberToBlock, this`blocksToChain
      ensures numberToBlock == AddTo(old(numberToBlock), number, hash)
      ensures blocksToChain == old(blocksToChain)[hash := id]
    {
      numberToBlock := AddTo(numberToBlock, number, hash);
      blocksToChain := blocksToChain[hash := id];
    }

    method InsertChain(id: ChainId, chain: Chain)
      requires |chain.blocks| > 0
      modifies this`numberToBlock, this`blocksToChain, this`forkToChild
      ensures blocksToChain == Assign(old(blocksToChain), chain.Hashes(), id)
      ensures numberToBlock == AddAll(ByNumber, old(numberToBlock), chain.blocks)
      ensures forkToChild == AddTo(old(forkToChild), chain.First().parent, chain.First().hash)
    {
      var blocks := chain.blocks;
      for i := 0 to |blocks|
        invariant blocksToChain == Assign(old(blocksToChain), BlockHashes(blocks[..i]), id)
        invariant numberToBlock == AddAll(ByNumber, old(numberToBlock), blocks[..i])
        invariant forkToChild == old(forkToChild)
      {
        HashSetStep(blocks, i);
        AssignStep(old(blocksToChain), BlockHashes(blocks[..i]), blocks[i].hash, id);
        blocksToChain := blocksToChain[blocks[i].hash := id];
        numberToBlock := AddTo(numberToBlock, blocks[i].number, blocks[i].hash);
        assert blocks[..i + 1][..i] == blocks[..i];
      }
      assert blocks[..|blocks|] == blocks;
      forkToChild := AddTo(forkToChild, chain.First().parent, chain.First().hash);
    }

    /** Take one block out; the chains that start on it lose their first block from the
        index and are returned for removal. */
    method RemoveBlock(number: BlockNumber, hash: BlockHash) returns (lose: set<ChainId>)
      modifies this`numberToBlock, this`blocksToChain, this`forkToChild
      ensures numberToBlock == RemoveFrom(old(numberToBlock), number, hash)
      ensures forkToChild == old(forkToChild) - {hash}
      ensures blocksToChain == old(blocksToChain) - {hash} - Group(old(forkToChild), hash)
      ensures lose == Owners(old(blocksToChain) - {hash}, Group(old(forkToChild), hash))
    {
      numberToBlock := RemoveFrom(numberToBlock, number, hash);
      blocksToChain := blocksToChain - {hash};
      var children := Group(forkToChild, hash);
      forkToChild := forkToChild - {hash};
      lose := Disconnect(children);
    }

    /** Take a whole chain out. No chain starts on a block of itself. */
    method RemoveChain(chain: Chain) returns (lose: set<ChainId>)
      requires ChildrenOf(forkToChild, BlockHashes(chain.blocks)) !! BlockHashes(chain.blocks)
      modifies this`numberToBlock, this`blocksToChain, this`forkToChild
      ensures numberToBlock == RemoveAll(ByNumber, old(numberToBlock), chain.blocks)
      ensures forkToChild == old(forkToChild) - BlockHashes(chain.blocks)
      ensures blocksToChain
              == old(blocksToChain) - BlockHashes(chain.blocks)
                 - ChildrenOf(old(forkToChild), BlockHashes(chain.blocks))
      ensures lose == Owners(old(blocksToChain), ChildrenOf(old(forkToChild), BlockHashes(chain.blocks)))
    {
      lose := {};
      var blocks := chain.blocks;
      for i := 0 to |blocks|
        invariant numberToBlock == RemoveAll(ByNumber, old(numberToBlock), blocks[..i])
        invariant forkToChild == old(forkToChild) - BlockHashes(blocks[..i])
        invariant blocksToChain
                  == old(blocksToChain) - BlockHashes(blocks[..i])
                     - ChildrenOf(old(forkToChild), BlockHashes(blocks[..i]))
        invariant lose == Owners(old(blocksToChain), ChildrenOf(old(forkToChild), BlockHashes(blocks[..i])))
      {
        RemoveStep(old(forkToChild), old(blocksToChain), blocks, i);
        var more := RemoveBlock(blocks[i].number, blocks[i].hash);
        lose := lose + more;
        assert blocks[..i + 1][..i] == blocks[..i];
      }
      assert blocks[..|blocks|] == blocks;
    }

    /** Put these blocks on the canonical chain, replacing what was at and above the
        first of them, and take them out of the side-chain indices. */
    method CanonicalizeBlocks(blocks: seq<Block>)
      modifies this`canonicalChain, this`numberToBlock, this`blocksToChain, this`forkToChild
      ensures blocksToChain == old(blocksToChain) - BlockHashes(blocks)
      ensures numberToBlock == RemoveAll(ByNumber, old(numberToBlock), blocks)
      ensures forkToChild == RemoveAll(ByParent, old(forkToChild), blocks)
      ensures canonicalChain == Overwrite(old(canonicalChain), blocks)
    {
      if |blocks| == 0 {
        return;
      }
      var first := blocks[0].number;
      canonicalChain := map n | n in canonicalChain && n < first :: canonicalChain[n];
      for i := 0 to |blocks|
        invariant canonicalChain == Below(old(canonicalChain), first)
        invariant blocksToChain == old(blocksToChain) - BlockHashes(blocks[..i])
        invariant numberToBlock == RemoveAll(ByNumber, old(numberToBlock), blocks[..i])
        invariant forkToChild == RemoveAll(ByParent, old(forkToChild), blocks[..i])
      {
        HashSetStep(blocks, i);
        blocksToChain := blocksToChain - {blocks[i].hash};
        numberToBlock := RemoveFrom(numberToBlock, blocks[i].number, blocks[i].hash);
        forkToChild := RemoveFrom(forkToChild, blocks[i].parent, blocks[i].hash);
        assert blocks[..i + 1][..i] == blocks[..i];
      }
      assert blocks[..|blocks|] == blocks;
      for i := 0 to |blocks|
        invariant canonicalChain == PutAll(Below(old(canonicalChain), first), blocks[..i])
        invariant blocksToChain == old(blocksToChain) - BlockHashes(blocks)
        invariant numberToBlock == RemoveAll(ByNumber, old(numberToBlock), blocks)
        invariant forkToChild == RemoveAll(ByParent, old(forkToChild), blocks)
      {
        canonicalChain := canonicalChain[blocks[i].number := blocks[i].hash];
        assert blocks[..i + 1][..i] == blocks[..i];
      }
    }

    /** Move the finalised number; return the chains that start on a canonical block
        from the old number on and below the new one, after disconnecting them. */
    method FinalizeCanonicalBlocks(finalized: BlockNumber) returns (lose: set<ChainId>)
      modifies this`lastFinalized, this`canonicalChain, this`blocksToChain, this`forkToChild
      ensures lastFinalized == finalized
      ensures canonicalChain == From(old(canonicalChain), if finalized < additional then 0 else finalized - additional)
      ensures var done := Slice(old(canonicalChain), old(lastFinalized), finalized);
              && forkToChild == old(forkToChild) - done
              && blocksToChain == old(blocksToChain) - ChildrenOf(old(forkToChild), done)
              && lose == Owners(old(blocksToChain), ChildrenOf(old(forkToChild), done))
    {
      var hashes := Slice(canonicalChain, lastFinalized, finalized);
      var removeUntil := if finalized < additional then 0 else finalized - additional;
      canonicalChain := map n | n in canonicalChain && n >= removeUntil :: canonicalChain[n];
      lose := {};
      var left := hashes;
      while left != {}
        invariant left <= hashes
        invariant canonicalChain == From(old(canonicalChain), removeUntil)
        invariant lastFinalized == old(lastFinalized)
        invariant forkToChild == old(forkToChild) - (hashes - left)
        invariant blocksToChain == old(blocksToChain) - ChildrenOf(old(forkToChild), hashes - left)
        invariant lose == Owners(old(blocksToChain), ChildrenOf(old(forkToChild), hashes - left))
        decreases |left|
      {
        var h :| h in left;
        assert hashes - (left - {h}) == hashes - left + {h};
        DropForkStep(old(forkToChild), old(blocksToChain), hashes - left, h);
        var more := DropFork(h);
        lose := lose + more;
        left := left - {h};
      }
      assert hashes - {} == hashes;
      lastFinalized := finalized;
    }

    /** Disconnect the chains that start on one block. */
    method DropFork(hash: BlockHash) returns (lose: set<ChainId>)
      modifies this`blocksToChain, this`forkToChild
      ensures forkToChild == old(forkToChild) - {hash}
      ensures blocksToChain == old(blocksToChain) - Group(old(forkToChild), hash)
      ensures lose == Owners(old(blocksToChain), Group(old(forkToChild), hash))
    {
      lose := {};
      if hash in forkToChild {
        var children := forkToChild[hash];
        forkToChild := forkToChild - {hash};
        lose := Disconnect(children);
      }
    }

    /** Only canonical blocks from the finalised one on are looked at. */
    predicate IsBlockHashCanonical(hash: BlockHash)
      reads this
    {
      exists n | n in canonicalChain :: n >= lastFinalized && canonicalChain[n] == hash
    }

    function CanonicalHash(number: BlockNumber): Option<BlockHash>
      reads this
    {
      if number in canonicalChain then Some(canonicalChain[number]) else None
    }

    /** The highest canonical number and its hash. There is always a canonical chain. */
    method CanonicalTip() returns (number: BlockNumber, hash: BlockHash)
      requires canonicalChain != map[]
      ensures number in canonicalChain && hash == canonicalChain[number]
      ensures forall n :: n in canonicalChain ==> n <= number
    {
      number :| number in canonicalChain;
      var left := canonicalChain.Keys;
      while left != {}
        invariant number in canonicalChain
        invariant left <= canonicalChain.Keys
        invariant forall n :: n in canonicalChain && n !in left ==> n <= number
        decreases |left|
      {
        var n :| n in left;
        if n > number {
          number := n;
        }
        left := left - {n};
      }
      hash := canonicalChain[number];
    }

    /** Remove these hashes from the block index and collect the chains they had. */
    method Disconnect(children: set<BlockHash>) returns (lose: set<ChainId>)
      modifies this`blocksToChain
      ensures blocksToChain == old(blocksToChain) - children
      ensures lose == Owners(old(blocksToChain), children)
    {
      lose := {};
      var left := children;
      while left != {}
        invariant left <= children
        invariant blocksToChain == old(blocksToChain) - (children - left)
        invariant lose == Owners(old(blocksToChain), children - left)
        decreases |left|
      {
        var c :| c in left;
        if c in blocksToChain {
          lose := lose + {blocksToChain[c]};
        }
        blocksToChain := blocksToChain - {c};
        left := left - {c};
      }
    }
  }

  lemma {:induction false} HashSetStep(blocks: seq<Block>, i: nat)
    requires i < |blocks|
    ensures BlockHashes(blocks[..i + 1]) == BlockHashes(blocks[..i]) + {blocks[i].hash}
  {
    assert forall k :: 0 <= k < i ==> blocks[..i + 1][k] == blocks[..i][k];
    assert blocks[..i + 1][i] == blocks[i];
  }

  /** What removing block `i` adds to what removing the blocks before it did. */
  lemma {:induction false} RemoveStep(
    forkToChild: Groups, blocksToChain: map<BlockHash, ChainId>, blocks: seq<Block>, i: nat)
    requires i < |blocks|
    requires ChildrenOf(forkToChild, BlockHashes(blocks)) !! BlockHashes(blocks)
    ensures var done, next, h := BlockHashes(blocks[..i]), BlockHashes(blocks[..i + 1]), blocks[i].hash;
            var left := blocksToChain - done - ChildrenOf(forkToChild, done);
            var children := Group(forkToChild - done, h);
            && forkToChild - done - {h} == forkToChild - next
            && left - {h} - children == blocksToChain - next - ChildrenOf(forkToChild, next)
            && Owners(blocksToChain, ChildrenOf(forkToChild, done)) + Owners(left - {h}, children)
               == Owners(blocksToChain, ChildrenOf(forkToChild, next))
  {
    var done, next, h := BlockHashes(blocks[..i]), BlockHashes(blocks[..i + 1]), blocks[i].hash;
    HashSetStep(blocks, i);
    HashSetPrefix(blocks, i + 1);
    ChildrenStep(forkToChild, done, h);
    ChildrenMonotone(forkToChild, next, BlockHashes(blocks));
    var left := blocksToChain - done - ChildrenOf(forkToChild, done);
    var children := Group(forkToChild - done, h);
    assert h in done ==> Group(forkToChild, h) <= ChildrenOf(forkToChild, done);
    assert left - {h} - children == blocksToChain - next - ChildrenOf(forkToChild, next);
    forall c | c in ChildrenOf(forkToChild, next) && c in blocksToChain
      ensures c in ChildrenOf(forkToChild, done) || (c in children && c in left - {h})
    {
      assert c !in BlockHashes(blocks);
    }
  }

  lemma {:induction false} DropForkStep(
    forkToChild: Groups, blocksToChain: map<BlockHash, ChainId>, done: set<BlockHash>, h: BlockHash)
    requires h !in done
    ensures var left := blocksToChain - ChildrenOf(forkToChild, done);
            && forkToChild - done - {h} == forkToChild - (done + {h})
            && Group(forkToChild - done, h) == Group(forkToChild, h)
            && left - Group(forkToChild, h) == blocksToChain - ChildrenOf(forkToChild, done + {h})
            && Owners(blocksToChain, ChildrenOf(forkToChild, done)) + Owners(left, Group(forkToChild, h))
               == Owners(blocksToChain, ChildrenOf(forkToChild, done + {h}))
  {
    ChildrenStep(forkToChild, done, h);
  }

  lemma {:induction false} HashSetPrefix(blocks: seq<Block>, n: nat)
    requires n <= |blocks|
    ensures BlockHashes(blocks[..n]) <= BlockHashes(blocks)
  {
    forall h | h in BlockHashes(blocks[..n])
      ensures h in BlockHashes(blocks)
    {
      var i :| 0 <= i < n && blocks[..n][i].hash == h;
      assert blocks[i].hash == h;
    }
  }

  lemma {:induction false} ChildrenStep(forkToChild: Groups, hashes: set<BlockHash>, h: BlockHash)
    ensures ChildrenOf(forkToChild, hashes + {h}) == ChildrenOf(forkToChild, hashes) + Group(forkToChild, h)
  {
  }

  lemma {:induction false} ChildrenMonotone(forkToChild: Groups, a: set<BlockHash>, b: set<BlockHash>)
    requires a <= b
    ensures ChildrenOf(forkToChild, a) <= ChildrenOf(forkToChild, b)
  {
  }
}
