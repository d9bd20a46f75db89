/** 2048-bit log blooms: three bits per item, taken from its Keccak-256 digest. */
module Blooms {
  import opened Words

  type Bytes = seq<bv8>

  type Digest = d: Bytes | |d| == 32 witness Filled(32)

  type Bloom = b: Bytes | |b| == BLOOM_SIZE witness Filled(BLOOM_SIZE)

  /** Keccak-256, left abstract. */
  type Hasher = Bytes -> Digest

  datatype Log = Log(address: Bytes, topics: seq<Bytes>)

  const BLOOM_SIZE: nat := 256

  const ZERO: Bloom := Filled(BLOOM_SIZE)

  function Filled(n: nat): (b: Bytes)
    ensures |b| == n && forall i :: 0 <= i < n ==> b[i] == 0
  {
    seq(n, i => 0)
  }

  // ---------------------------------------------------------------- bits

  /** The byte that holds a bit, counted from the end of the bloom. */
  function Slot(bit: bv16): (i: nat)
    requires bit <= 0x7FF
    ensures i < BLOOM_SIZE
  {
    BLOOM_SIZE - 1 - (bit / 8) as bv8 as nat
  }

  function Mask(bit: bv16): bv8 {
    1 << (bit % 8) as bv4
  }

  function SetBit(b: Bloom, bit: bv16): Bloom
    requires bit <= 0x7FF
  {
    b[Slot(bit) := b[Slot(bit)] | Mask(bit)]
  }

  function Or(a: Bloom, b: Bloom): (c: Bloom)
    ensures forall i :: 0 <= i < BLOOM_SIZE ==> c[i] == a[i] | b[i]
  {
    seq(BLOOM_SIZE, i requires 0 <= i < BLOOM_SIZE => a[i] | b[i])
  }

  ghost predicate Contains(a: Bloom, b: Bloom) {
    forall i :: 0 <= i < BLOOM_SIZE ==> a[i] & b[i] == b[i]
  }

  // ---------------------------------------------------------------- one item

  /** The bit taken from bytes `2k` and `2k + 1` of a digest: their low eleven bits, big-endian. */
  function PairBit(d: Digest, k: nat): (bit: bv16)
    requires k < 3
    ensures bit <= 0x7FF
  {
    (d[2 * k + 1] as bv16 + ((d[2 * k] as bv16) << 8)) & 0x7FF
  }

  function SetBits(b: Bloom, d: Digest, k: nat): Bloom
    requires k <= 3
  {
    if k == 0 then b else SetBit(SetBits(b, d, k - 1), PairBit(d, k - 1))
  }

  function AddItem(b: Bloom, d: Digest): Bloom {
    SetBits(b, d, 3)
  }

  /** The bloom of one item. */
  function Item(d: Digest): Bloom {
    AddItem(ZERO, d)
  }

  // ---------------------------------------------------------------- logs and blocks

  function ItemsOf(log: Log): seq<Bytes> {
    [log.address] + log.topics
  }

  function AddItems(hash: Hasher, b: Bloom, items: seq<Bytes>): Bloom {
    if items == [] then b else AddItem(AddItems(hash, b, items[..|items| - 1]), hash(items[|items| - 1]))
  }

  function AddLogs(hash: Hasher, b: Bloom, logs: seq<Log>): Bloom {
    if logs == [] then b
    else AddItems(hash, AddLogs(hash, b, logs[..|logs| - 1]), ItemsOf(logs[|logs| - 1]))
  }

  /** A receipt's bloom. */
  function LogsBloom(hash: Hasher, logs: seq<Log>): Bloom {
    AddLogs(hash, ZERO, logs)
  }

  /** The block's bloom: the union of its receipts' blooms. */
  function Union(blooms: seq<Bloom>): Bloom {
    if blooms == [] then ZERO else Or(Union(blooms[..|blooms| - 1]), blooms[|blooms| - 1])
  }

  // ---------------------------------------------------------------- what a bloom holds

  lemma {:induction false} SetBitOr(a: Bloom, b: Bloom, bit: bv16)
    requires bit <= 0x7FF
    ensures SetBit(Or(a, b), bit) == Or(a, SetBit(b, bit))
  {
    var i := Slot(bit);
    assert (a[i] | b[i]) | Mask(bit) == a[i] | (b[i] | Mask(bit));
  }

  lemma {:induction false} OrZero(a: Bloom)
    ensures Or(a, ZERO) == a
  {
    forall i | 0 <= i < BLOOM_SIZE ensures a[i] | ZERO[i] == a[i] {
      assert ZERO[i] == 0;
    }
  }

  lemma {:induction false} SetBitsOr(a: Bloom, b: Bloom, d: Digest, k: nat)
    requires k <= 3
    ensures SetBits(Or(a, b), d, k) == Or(a, SetBits(b, d, k))
    decreases k
  {
    if k > 0 {
      SetBitsOr(a, b, d, k - 1);
      SetBitOr(a, SetBits(b, d, k - 1), PairBit(d, k - 1));
    }
  }

  /** Adding an item is a union with the item's own bloom. */
  lemma {:induction false} AddItemIsOr(b: Bloom, d: Digest)
    ensures AddItem(b, d) == Or(b, Item(d))
  {
    OrZero(b);
    SetBitsOr(b, ZERO, d, 3);
  }

  lemma {:induction false} Join(c: bv8, a: bv8, b: bv8)
    ensures c & (a | b) == a | b <==> c & a == a && c & b == b
  {
  }

  /** A union is the least bloom that contains both sides. */
  lemma {:induction false} OrIsLeast(c: Bloom, a: Bloom, b: Bloom)
    ensures Contains(c, Or(a, b)) <==> Contains(c, a) && Contains(c, b)
  {
    forall i | 0 <= i < BLOOM_SIZE
      ensures c[i] & Or(a, b)[i] == Or(a, b)[i] <==> c[i] & a[i] == a[i] && c[i] & b[i] == b[i]
    {
      Join(c[i], a[i], b[i]);
    }
  }

  lemma {:induction false} ContainsItself(b: Bloom)
    ensures Contains(b, b) && Contains(b, ZERO)
  {
    forall i | 0 <= i < BLOOM_SIZE ensures b[i] & b[i] == b[i] && b[i] & ZERO[i] == ZERO[i] {
      assert ZERO[i] == 0;
    }
  }

  ghost predicate HoldsAll(hash: Hasher, c: Bloom, items: seq<Bytes>) {
    forall k :: 0 <= k < |items| ==> Contains(c, Item(hash(items[k])))
  }

  lemma {:induction false} AddItemsIsLeast(hash: Hasher, c: Bloom, b: Bloom, items: seq<Bytes>)
    ensures Contains(c, AddItems(hash, b, items)) <==> Contains(c, b) && HoldsAll(hash, c, items)
    decreases |items|
  {
    if items != [] {
      var front, last := items[..|items| - 1], items[|items| - 1];
      AddItemsIsLeast(hash, c, b, front);
      AddItemIsOr(AddItems(hash, b, front), hash(last));
      OrIsLeast(c, AddItems(hash, b, front), Item(hash(last)));
      assert HoldsAll(hash, c, items) <==> HoldsAll(hash, c, front) && Contains(c, Item(hash(last))) by {
        assert forall k :: 0 <= k < |front| ==> front[k] == items[k];
      }
    }
  }

  ghost predicate HoldsLogs(hash: Hasher, c: Bloom, logs: seq<Log>) {
    forall k :: 0 <= k < |logs| ==> HoldsAll(hash, c, ItemsOf(logs[k]))
  }

  lemma {:induction false} AddLogsIsLeast(hash: Hasher, c: Bloom, b: Bloom, logs: seq<Log>)
    ensures Contains(c, AddLogs(hash, b, logs)) <==> Contains(c, b) && HoldsLogs(hash, c, logs)
    decreases |logs|
  {
    hide Contains, HoldsAll, AddItems;
    if logs != [] {
      var front, last := logs[..|logs| - 1], logs[|logs| - 1];
      AddLogsIsLeast(hash, c, b, front);
      AddItemsIsLeast(hash, c, AddLogs(hash, b, front), ItemsOf(last));
      assert HoldsLogs(hash, c, logs) <==> HoldsLogs(hash, c, front) && HoldsAll(hash, c, ItemsOf(last)) by {
        assert forall k :: 0 <= k < |front| ==> front[k] == logs[k];
      }
    }
  }

  /** A receipt's bloom is the least bloom that holds the address and every topic of every log. */
  lemma {:induction false} LogsBloomIsLeast(hash: Hasher, c: Bloom, logs: seq<Log>)
    ensures Contains(c, LogsBloom(hash, logs)) <==> HoldsLogs(hash, c, logs)
  {
    ContainsItself(c);
    AddLogsIsLeast(hash, c, ZERO, logs);
  }

  lemma {:induction false} UnionIsLeast(c: Bloom, blooms: seq<Bloom>)
    ensures Contains(c, Union(blooms)) <==> forall k :: 0 <= k < |blooms| ==> Contains(c, blooms[k])
    decreases |blooms|
  {
    if blooms == [] {
      ContainsItself(c);
    } else {
      var front, last := blooms[..|blooms| - 1], blooms[|blooms| - 1];
      UnionIsLeast(c, front);
      OrIsLeast(c, Union(front), last);
      assert forall k :: 0 <= k < |front| ==> front[k] == blooms[k];
    }
  }

  /** The receipts' blooms, in order. */
  function ReceiptBlooms(hash: Hasher, receipts: seq<seq<Log>>): (blooms: seq<Bloom>)
    ensures |blooms| == |receipts| && forall k :: 0 <= k < |receipts| ==> blooms[k] == LogsBloom(hash, receipts[k])
  {
    seq(|receipts|, k requires 0 <= k < |receipts| => LogsBloom(hash, receipts[k]))
  }

  function BlockBloom(hash: Hasher, receipts: seq<seq<Log>>): Bloom {
    Union(ReceiptBlooms(hash, receipts))
  }

  /** A block's bloom is the least bloom that holds every log of every receipt. */
  lemma {:induction false} BlockBloomIsLeast(hash: Hasher, c: Bloom, receipts: seq<seq<Log>>)
    ensures Contains(c, BlockBloom(hash, receipts)) <==>
      forall k :: 0 <= k < |receipts| ==> HoldsLogs(hash, c, receipts[k])
  {
    var blooms := ReceiptBlooms(hash, receipts);
    UnionIsLeast(c, blooms);
    forall k | 0 <= k < |receipts| ensures Contains(c, blooms[k]) <==> HoldsLogs(hash, c, receipts[k]) {
      LogsBloomIsLeast(hash, c, receipts[k]);
    }
  }

  // ---------------------------------------------------------------- the operations as they run

  /** Despite its name, the number of bits needed to write the argument. */
  function Log2(x: nat): int {
    if x <= 1 then 0 else 64 - LeadingZeros(x, 64)
  }

  lemma {:induction false} ElevenBitsTakeTwoBytes()
    ensures (Log2(BLOOM_SIZE * 8) + 7) / 8 == 2
  {
    assert LeadingZeros(2, 54) == LeadingZeros(1, 53) == LeadingZeros(0, 52);
    assert LeadingZeros(16, 57) == 52;
    assert LeadingZeros(128, 60) == 52;
    assert LeadingZeros(1024, 63) == 52;
  }

  lemma {:induction false} ShiftedPair(high: bv8, low: bv8)
    ensures ((((0 << 8) | high as bv64) << 8) | low as bv64) & 0x7FF ==
      ((low as bv16 + ((high as bv16) << 8)) & 0x7FF) as bv64
  {
  }

  method SetInPlace(bloom: array<bv8>, bit: bv16)
    requires bloom.Length == BLOOM_SIZE && bit <= 0x7FF
    modifies bloom
    ensures bloom[..] == SetBit(old(bloom[..]), bit)
  {
    var i := Slot(bit);
    bloom[i] := bloom[i] | Mask(bit);
  }

  /** The indexer's way of adding an item: shift bytes of the digest into an index, then mask it. */
  method Accrue(bloom: array<bv8>, d: Digest)
    requires bloom.Length == BLOOM_SIZE
    modifies bloom
    ensures bloom[..] == AddItem(old(bloom[..]), d)
  {
    hide SetBit, PairBit, Log2;
    var bloomBytes := (Log2(BLOOM_SIZE * 8) + 7) / 8;
    ElevenBitsTakeTwoBytes();
    var ptr, i := 0, 0;
    while i < 3
      invariant i <= 3 && ptr == 2 * i
      invariant bloom[..] == SetBits(old(bloom[..]), d, i)
    {
      var bit := ShiftIn(d, i, ptr, bloomBytes);
      ptr := ptr + bloomBytes;
      SetInPlace(bloom, bit);
      i := i + 1;
    }
  }

  /** Shift the next bytes into an index and mask it. */
  method ShiftIn(d: Digest, i: nat, start: nat, bloomBytes: int) returns (bit: bv16)
    requires i < 3 && start == 2 * i && bloomBytes == 2
    ensures bit == PairBit(d, i)
  {
    var index: bv64 := 0;
    var n := 0;
    while n < bloomBytes
      invariant 0 <= n <= bloomBytes
      invariant n == 0 ==> index == 0
      invariant n == 1 ==> index == (0 << 8) | d[2 * i] as bv64
      invariant n == 2 ==> index == (((0 << 8) | d[2 * i] as bv64) << 8) | d[2 * i + 1] as bv64
    {
      index := (index << 8) | d[start + n] as bv64;
      n := n + 1;
    }
    ShiftedPair(d[2 * i], d[2 * i + 1]);
    bit := (index & 0x7FF) as bv16;
  }

  /** The executor's way of adding an item: add two bytes of the digest, three times. */
  method AddPairs(bloom: array<bv8>, d: Digest)
    requires bloom.Length == BLOOM_SIZE
    modifies bloom
    ensures bloom[..] == AddItem(old(bloom[..]), d)
  {
    hide SetBit;
    var i := 0;
    while i < 6
      invariant i <= 6 && i % 2 == 0
      invariant bloom[..] == SetBits(old(bloom[..]), d, i / 2)
    {
      var bit := (d[i + 1] as bv16 + ((d[i] as bv16) << 8)) & 0x7FF;
      assert bit == PairBit(d, i / 2);
      SetInPlace(bloom, bit);
      i := i + 2;
    }
  }

  method OrInPlace(bloom: array<bv8>, other: Bloom)
    requires bloom.Length == BLOOM_SIZE
    modifies bloom
    ensures bloom[..] == Or(old(bloom[..]), other)
  {
    var i := 0;
    while i < BLOOM_SIZE
      invariant i <= BLOOM_SIZE
      invariant forall j :: 0 <= j < i ==> bloom[j] == old(bloom[j]) | other[j]
      invariant forall j :: i <= j < BLOOM_SIZE ==> bloom[j] == old(bloom[j])
    {
      bloom[i] := bloom[i] | other[i];
      i := i + 1;
    }
  }

  method ContainsBloom(a: Bloom, b: Bloom) returns (yes: bool)
    ensures yes <==> Contains(a, b)
  {
    var i := 0;
    while i < BLOOM_SIZE
      invariant i <= BLOOM_SIZE && forall j :: 0 <= j < i ==> a[j] & b[j] == b[j]
    {
      if a[i] & b[i] != b[i] {
        return false;
      }
      i := i + 1;
    }
    return true;
  }

  method MakeLogsBloom(hash: Hasher, logs: seq<Log>) returns (bloom: array<bv8>)
    ensures fresh(bloom) && bloom.Length == BLOOM_SIZE && bloom[..] == LogsBloom(hash, logs)
  {
    bloom := new bv8[BLOOM_SIZE](i => 0);
    assert bloom[..] == ZERO;
    var i := 0;
    while i < |logs|
      invariant i <= |logs| && bloom[..] == AddLogs(hash, ZERO, logs[..i])
    {
      AddLog(hash, bloom, logs[i]);
      assert logs[..i + 1][..i] == logs[..i];
      i := i + 1;
    }
    assert logs[..i] == logs;
  }

  method AddLog(hash: Hasher, bloom: array<bv8>, log: Log)
    requires bloom.Length == BLOOM_SIZE
    modifies bloom
    ensures bloom[..] == AddItems(hash, old(bloom[..]), ItemsOf(log))
  {
    ghost var items := ItemsOf(log);
    AddPairs(bloom, hash(log.address));
    assert items[..1] == [log.address] && items[..1][..0] == [];
    var k := 0;
    while k < |log.topics|
      invariant k <= |log.topics| && bloom[..] == AddItems(hash, old(bloom[..]), items[..k + 1])
    {
      AddPairs(bloom, hash(log.topics[k]));
      assert items[..k + 2][..k + 1] == items[..k + 1] && items[k + 1] == log.topics[k];
      k := k + 1;
    }
    assert items[..k + 1] == items;
  }

  method FoldReceipts(blooms: seq<Bloom>) returns (bloom: array<bv8>)
    ensures fresh(bloom) && bloom.Length == BLOOM_SIZE && bloom[..] == Union(blooms)
  {
    bloom := new bv8[BLOOM_SIZE](i => 0);
    assert bloom[..] == ZERO;
    var i := 0;
    while i < |blooms|
      invariant i <= |blooms| && bloom[..] == Union(blooms[..i])
    {
      OrInPlace(bloom, blooms[i]);
      assert blooms[..i + 1][..i] == blooms[..i];
      i := i + 1;
    }
    assert blooms[..i] == blooms;
  }
}
