/** Fork identifiers (EIP-2124, with timestamps as in EIP-6122) and the filter that checks a peer's. */
module ForkIds {
  import opened Wrappers

  /** Four bytes. */
  type ForkHash = h: nat | h < 0x1_0000_0000

  /** One CRC-32 step over a fork's block number or timestamp, left abstract. */
  type Checksum = (ForkHash, nat) -> ForkHash

  datatype Head = Head(number: nat, timestamp: nat)

  datatype Key = Block(number: nat) | Time(timestamp: nat)

  datatype Fork = Fork(key: Key, hash: ForkHash)

  datatype ForkId = ForkId(hash: ForkHash, next: nat)

  datatype Transition = Transition(current: ForkId, past: ForkId)

  datatype ValidationError =
    | RemoteStale(ours: ForkId, remote: ForkId)
    | LocalIncompatibleOrStale(ours: ForkId, remote: ForkId)

  datatype Cache = Cache(epochStart: Key, epochEnd: Option<Key>, past: seq<Fork>, future: seq<ForkHash>, forkId: ForkId)

  // ---------------------------------------------------------------- the schedule

  /** Block forks come before time forks. */
  predicate Less(a: Key, b: Key) {
    match (a, b)
    case (Block(x), Block(y)) => x < y
    case (Time(x), Time(y)) => x < y
    case (Block(_), Time(_)) => true
    case (Time(_), Block(_)) => false
  }

  function Number(k: Key): nat {
    match k
    case Block(n) => n
    case Time(t) => t
  }

  predicate Active(k: Key, head: Head) {
    match k
    case Block(n) => n <= head.number
    case Time(t) => t <= head.timestamp
  }

  ghost predicate Ascending(keys: seq<Key>) {
    forall i, j :: 0 <= i < j < |keys| ==> Less(keys[i], keys[j])
  }

  /** An ordered set of keys, as a strictly ascending sequence. */
  function Insert(keys: seq<Key>, k: Key): seq<Key> {
    if keys == [] then [k]
    else if keys[0] == k then keys
    else if Less(k, keys[0]) then [k] + keys
    else [keys[0]] + Insert(keys[1..], k)
  }

  function Collect(keys: seq<Key>): seq<Key> {
    if keys == [] then [] else Insert(Collect(keys[..|keys| - 1]), keys[|keys| - 1])
  }

  function Without(keys: seq<Key>, k: Key): seq<Key> {
    if keys == [] then [] else (if keys[0] == k then [] else [keys[0]]) + Without(keys[1..], k)
  }

  /** Each fork's hash extends the one before it. */
  function Chained(crc: Checksum, base: ForkHash, keys: seq<Key>): seq<Fork>
    decreases |keys|
  {
    if keys == [] then []
    else
      var hash := crc(base, Number(keys[0]));
      [Fork(keys[0], hash)] + Chained(crc, hash, keys[1..])
  }

  function Schedule(crc: Checksum, genesis: ForkHash, keys: seq<Key>): seq<Fork> {
    [Fork(Block(0), genesis)] + Chained(crc, genesis, PositiveKeys(keys))
  }

  ghost predicate Rising(forks: seq<Fork>) {
    forall i, j :: 0 <= i < j < |forks| ==> Less(forks[i].key, forks[j].key)
  }

  /** Ascending forks, the first of which is genesis and the rest at positive numbers. */
  ghost predicate IsSchedule(forks: seq<Fork>) {
    && forks != [] && forks[0].key == Block(0) && Rising(forks)
    && (forall i :: 0 < i < |forks| ==> Number(forks[i].key) > 0)
  }

  lemma {:induction false} InsertSorted(keys: seq<Key>, k: Key)
    requires Ascending(keys)
    ensures Ascending(Insert(keys, k))
    ensures forall x :: x in Insert(keys, k) <==> x in keys || x == k
    decreases |keys|
  {
    if keys != [] && keys[0] != k && !Less(k, keys[0]) {
      var tail := keys[1..];
      InsertSorted(tail, k);
      var out := Insert(tail, k);
      assert Less(keys[0], k);
      forall j | 0 <= j < |out| ensures Less(keys[0], out[j]) {
        assert out[j] in out;
      }
      assert keys == [keys[0]] + tail;
    }
  }

  lemma {:induction false} CollectSorted(keys: seq<Key>)
    ensures Ascending(Collect(keys))
    ensures forall x :: x in Collect(keys) <==> x in keys
    decreases |keys|
  {
    if keys != [] {
      var front := keys[..|keys| - 1];
      CollectSorted(front);
      InsertSorted(Collect(front), keys[|keys| - 1]);
      assert keys == front + [keys[|keys| - 1]];
    }
  }

  lemma {:induction false} WithoutSorted(keys: seq<Key>, k: Key)
    requires Ascending(keys)
    ensures Ascending(Without(keys, k))
    ensures forall x :: x in Without(keys, k) <==> x in keys && x != k
    decreases |keys|
  {
    if keys != [] {
      var tail := keys[1..];
      WithoutSorted(tail, k);
      var out := Without(tail, k);
      forall j | 0 <= j < |out| ensures Less(keys[0], out[j]) {
        assert out[j] in tail;
      }
      assert keys == [keys[0]] + tail;
    }
  }

  lemma {:induction false} ChainedKeys(crc: Checksum, base: ForkHash, keys: seq<Key>)
    ensures |Chained(crc, base, keys)| == |keys|
    ensures forall i :: 0 <= i < |keys| ==> Chained(crc, base, keys)[i].key == keys[i]
    ensures forall i :: 0 <= i < |keys| ==>
      var before := if i == 0 then base else Chained(crc, base, keys)[i - 1].hash;
      Chained(crc, base, keys)[i].hash == crc(before, Number(keys[i]))
    decreases |keys|
  {
    if keys != [] {
      ChainedKeys(crc, crc(base, Number(keys[0])), keys[1..]);
    }
  }

  function PositiveKeys(keys: seq<Key>): seq<Key> {
    Without(Without(Collect(keys), Time(0)), Block(0))
  }

  lemma {:induction false} PositiveKeysSorted(keys: seq<Key>)
    ensures Ascending(PositiveKeys(keys))
    ensures forall k :: k in PositiveKeys(keys) <==> k in keys && Number(k) > 0
  {
    CollectSorted(keys);
    WithoutSorted(Collect(keys), Time(0));
    WithoutSorted(Without(Collect(keys), Time(0)), Block(0));
  }

  lemma {:induction false} GenesisFirst(keys: seq<Key>)
    requires forall k :: k in keys ==> Number(k) > 0
    ensures forall i :: 0 <= i < |keys| ==> Less(Block(0), keys[i]) && Number(keys[i]) > 0
  {
    forall i | 0 <= i < |keys| ensures Less(Block(0), keys[i]) && Number(keys[i]) > 0 {
      assert keys[i] in keys;
    }
  }

  /** Any collection of forks gives a schedule of exactly its positive keys after genesis. */
  lemma {:induction false} ScheduleIsSchedule(crc: Checksum, genesis: ForkHash, keys: seq<Key>)
    ensures IsSchedule(Schedule(crc, genesis, keys))
    ensures forall k :: (k in keys && Number(k) > 0) <==> k in KeysOf(Schedule(crc, genesis, keys)[1..])
  {
    hide PositiveKeys, Chained, Less;
    PositiveKeysSorted(keys);
    var rest := PositiveKeys(keys);
    ChainedKeys(crc, genesis, rest);
    var forks, after := Schedule(crc, genesis, keys), Chained(crc, genesis, rest);
    assert forks[1..] == after && KeysOf(after) == rest;
    GenesisFirst(rest);
    AfterGenesis(forks, rest);
  }

  lemma {:induction false} AfterGenesis(forks: seq<Fork>, rest: seq<Key>)
    requires |forks| == |rest| + 1 && forks[0].key == Block(0)
    requires Ascending(rest) && forall i :: 0 <= i < |rest| ==> Less(Block(0), rest[i]) && Number(rest[i]) > 0
    requires forall i :: 0 <= i < |rest| ==> forks[i + 1].key == rest[i]
    ensures IsSchedule(forks)
  {
    hide Less;
    forall i | 0 < i < |forks| ensures forks[i].key == rest[i - 1] {
      assert forks[(i - 1) + 1].key == rest[i - 1];
    }
  }

  function KeysOf(forks: seq<Fork>): (keys: seq<Key>)
    ensures |keys| == |forks| && forall i :: 0 <= i < |forks| ==> keys[i] == forks[i].key
  {
    seq(|forks|, i requires 0 <= i < |forks| => forks[i].key)
  }

  // ---------------------------------------------------------------- the cache

  function ActiveForks(forks: seq<Fork>, head: Head): seq<Fork> {
    if forks == [] then []
    else
      var last := forks[|forks| - 1];
      ActiveForks(forks[..|forks| - 1], head) + if Active(last.key, head) then [last] else []
  }

  function FutureForks(forks: seq<Fork>, head: Head): seq<Fork> {
    if forks == [] then []
    else
      var last := forks[|forks| - 1];
      FutureForks(forks[..|forks| - 1], head) + if Active(last.key, head) then [] else [last]
  }

  function HashesOf(forks: seq<Fork>): (hashes: seq<ForkHash>)
    ensures |hashes| == |forks| && forall i :: 0 <= i < |forks| ==> hashes[i] == forks[i].hash
  {
    seq(|forks|, i requires 0 <= i < |forks| => forks[i].hash)
  }

  /** The cache for given active and future forks. */
  function CacheOf(past: seq<Fork>, future: seq<Fork>): Cache
    requires past != []
  {
    var start := past[|past| - 1];
    var end := if future == [] then None else Some(future[0].key);
    var next := if future == [] then 0 else Number(future[0].key);
    Cache(start.key, end, past, HashesOf(future), ForkId(start.hash, next))
  }

  lemma {:induction false} GenesisActive(forks: seq<Fork>, head: Head)
    requires forks != [] && forks[0].key == Block(0)
    ensures ActiveForks(forks, head) != []
    decreases |forks|
  {
    if |forks| > 1 {
      GenesisActive(forks[..|forks| - 1], head);
    } else {
      assert forks[..0] == [];
    }
  }

  /** Recomputation from scratch. */
  function ComputeCache(forks: seq<Fork>, head: Head): Cache
    requires forks != [] && forks[0].key == Block(0)
  {
    GenesisActive(forks, head);
    CacheOf(ActiveForks(forks, head), FutureForks(forks, head))
  }

  /** An active time fork implies that every block fork is active. */
  ghost predicate Ordered(forks: seq<Fork>, head: Head) {
    forall i, j :: 0 <= i < |forks| && 0 <= j < |forks| && forks[i].key.Block? && forks[j].key.Time? ==>
      Active(forks[j].key, head) ==> Active(forks[i].key, head)
  }

  /** Exactly the first `p` forks are active. */
  ghost predicate ActivePrefix(forks: seq<Fork>, head: Head, p: nat) {
    p <= |forks| && forall i :: 0 <= i < |forks| ==> (Active(forks[i].key, head) <==> i < p)
  }

  lemma {:induction false} DownClosed(forks: seq<Fork>, head: Head, i: nat, j: nat)
    requires IsSchedule(forks) && Ordered(forks, head) && i < j < |forks| && Active(forks[j].key, head)
    ensures Active(forks[i].key, head)
  {
    assert Less(forks[i].key, forks[j].key);
  }

  /** At an ordered head the active forks are a non-empty prefix of the schedule. */
  lemma {:induction false} OrderedPrefix(forks: seq<Fork>, head: Head) returns (p: nat)
    requires IsSchedule(forks) && Ordered(forks, head)
    ensures 1 <= p && ActivePrefix(forks, head, p)
  {
    p := 1;
    while p < |forks| && Active(forks[p].key, head)
      invariant 1 <= p <= |forks| && forall i :: 0 <= i < p ==> Active(forks[i].key, head)
    {
      p := p + 1;
    }
    forall i | p <= i < |forks| ensures !Active(forks[i].key, head) {
      if Active(forks[i].key, head) && p < i {
        DownClosed(forks, head, p, i);
      }
    }
  }

  lemma {:induction false} PrefixForks(forks: seq<Fork>, head: Head, p: nat)
    requires ActivePrefix(forks, head, p)
    ensures ActiveForks(forks, head) == forks[..p] && FutureForks(forks, head) == forks[p..]
    decreases |forks|
  {
    if forks != [] {
      var front := forks[..|forks| - 1];
      if p == |forks| {
        PrefixForks(front, head, p - 1);
        assert forks[..p] == front[..p - 1] + [forks[p - 1]];
      } else {
        PrefixForks(front, head, p);
        assert forks[p..] == front[p..] + [forks[|forks| - 1]] && front[..p] == forks[..p];
      }
    }
  }

  /** Whether the head has left the cached epoch. */
  predicate LeftEpoch(cache: Cache, head: Head) {
    || (match cache.epochStart case Block(n) => head.number < n case Time(t) => head.timestamp < t)
    || (match cache.epochEnd
        case Some(Block(n)) => head.number >= n
        case Some(Time(t)) => head.timestamp >= t
        case None => false)
  }

  // ---------------------------------------------------------------- when the lazy check is enough

  /** How many forks are block forks. */
  function BlockForks(forks: seq<Fork>): (n: nat)
    ensures n <= |forks|
  {
    if forks == [] then 0
    else BlockForks(forks[..|forks| - 1]) + if forks[|forks| - 1].key.Block? then 1 else 0
  }

  function ActiveBlocks(forks: seq<Fork>, head: Head): nat {
    BlockForks(ActiveForks(forks, head))
  }

  function ActiveTimes(forks: seq<Fork>, head: Head): nat {
    |ActiveForks(forks, head)| - ActiveBlocks(forks, head)
  }

  /** Block forks come first; of them the first `a` are active, and of the time forks the first `t`. */
  ghost predicate Counted(forks: seq<Fork>, head: Head, b: nat, a: nat, t: nat) {
    && a <= b && b + t <= |forks|
    && (forall i :: 0 <= i < |forks| ==> (forks[i].key.Block? <==> i < b))
    && (forall i :: 0 <= i < |forks| ==> (Active(forks[i].key, head) <==> i < a || b <= i < b + t))
  }

  ghost predicate Parted(forks: seq<Fork>, head: Head, b: nat, a: nat, t: nat) {
    && a <= b && b + t <= |forks|
    && ActiveForks(forks, head) == forks[..a] + forks[b..b + t]
    && FutureForks(forks, head) == forks[a..b] + forks[b + t..]
  }

  lemma {:induction false} Append<T>(xs: seq<T>, x: T)
    ensures (xs + [x])[..|xs + [x]| - 1] == xs && (xs + [x])[|xs + [x]| - 1] == x
  {
  }

  /** One more fork at the end: the three counts. */
  lemma {:induction false} CountOne(forks: seq<Fork>, head: Head)
    requires forks != []
    ensures var front, last := forks[..|forks| - 1], forks[|forks| - 1];
      var active := Active(last.key, head);
      && BlockForks(forks) == BlockForks(front) + (if last.key.Block? then 1 else 0)
      && ActiveBlocks(forks, head) == ActiveBlocks(front, head) + (if active && last.key.Block? then 1 else 0)
      && ActiveTimes(forks, head) == ActiveTimes(front, head) + (if active && last.key.Time? then 1 else 0)
  {
    var front, last := forks[..|forks| - 1], forks[|forks| - 1];
    var active := ActiveForks(front, head);
    Append(active, last);
    assert active + [] == active;
  }

  lemma {:induction false} CountedOne(forks: seq<Fork>, head: Head, b: nat, a: nat, t: nat)
    requires forks != [] && Rising(forks) && Counted(forks[..|forks| - 1], head, b, a, t)
    ensures var last := forks[|forks| - 1];
      var active := Active(last.key, head);
      if last.key.Block? then Counted(forks, head, b + 1, if active then a + 1 else a, t)
      else Counted(forks, head, b, a, if active then t + 1 else t)
  {
    var n := |forks| - 1;
    var front, last := forks[..n], forks[n];
    forall i | 0 <= i < n
      ensures front[i] == forks[i] && (last.key.Block? ==> i < b)
      ensures Active(last.key, head) && last.key.Block? == forks[i].key.Block? ==> Active(forks[i].key, head)
    {
      assert Less(forks[i].key, last.key);
    }
    assert n > 0 ==> front[n - 1] == forks[n - 1];
  }

  lemma {:induction false} Counts(forks: seq<Fork>, head: Head)
    requires Rising(forks)
    ensures Counted(forks, head, BlockForks(forks), ActiveBlocks(forks, head), ActiveTimes(forks, head))
    decreases |forks|
  {
    hide ActiveForks, ActiveBlocks, ActiveTimes, BlockForks, Counted, Rising;
    if forks == [] {
      NoForks(head);
    } else {
      var front := forks[..|forks| - 1];
      RisingFront(forks);
      Counts(front, head);
      CountOne(forks, head);
      CountedOne(forks, head, BlockForks(front), ActiveBlocks(front, head), ActiveTimes(front, head));
    }
  }

  lemma {:induction false} NoForks(head: Head)
    ensures Counted([], head, BlockForks([]), ActiveBlocks([], head), ActiveTimes([], head))
  {
  }

  lemma {:induction false} RisingFront(forks: seq<Fork>)
    requires forks != [] && Rising(forks)
    ensures Rising(forks[..|forks| - 1])
  {
  }

  lemma {:induction false} CountedFront(forks: seq<Fork>, head: Head, b: nat, a: nat, t: nat)
    requires forks != [] && Counted(forks, head, b, a, t) && forks[|forks| - 1].key.Time?
    ensures var n := |forks| - 1;
      && b <= n
      && if Active(forks[n].key, head) then b + t == n + 1 && t > 0 && Counted(forks[..n], head, b, a, t - 1)
         else b + t <= n && Counted(forks[..n], head, b, a, t)
  {
  }

  lemma {:induction false} Parts(forks: seq<Fork>, head: Head, b: nat, a: nat, t: nat)
    requires Counted(forks, head, b, a, t)
    ensures Parted(forks, head, b, a, t)
    decreases |forks|
  {
    if forks != [] {
      var n := |forks| - 1;
      hide Parted, ActiveForks, FutureForks, Active;
      if forks[n].key.Block? {
        PartsBlock(forks, head, a);
      } else {
        CountedFront(forks, head, b, a, t);
        hide Counted;
        if Active(forks[n].key, head) {
          Parts(forks[..n], head, b, a, t - 1);
          PartsActive(forks, head, b, a, t);
        } else {
          Parts(forks[..n], head, b, a, t);
          PartsFuture(forks, head, b, a, t);
        }
      }
    }
  }

  lemma {:induction false} PartsActive(forks: seq<Fork>, head: Head, b: nat, a: nat, t: nat)
    requires a <= b < |forks| == b + t && Active(forks[|forks| - 1].key, head)
    requires Parted(forks[..|forks| - 1], head, b, a, t - 1)
    ensures Parted(forks, head, b, a, t)
  {
    var n := |forks| - 1;
    var front, last := forks[..n], forks[n];
    assert ActiveForks(forks, head) == ActiveForks(front, head) + [last];
    assert FutureForks(forks, head) == FutureForks(front, head) + [];
    hide ActiveForks, FutureForks;
    assert front[..a] == forks[..a] && front[a..b] == forks[a..b] && front[n..] == [] && forks[b + t..] == [];
    assert forks[b..b + t] == front[b..n] + [last];
    assert forks[..a] + (front[b..n] + [last]) == forks[..a] + front[b..n] + [last];
  }

  lemma {:induction false} PartsFuture(forks: seq<Fork>, head: Head, b: nat, a: nat, t: nat)
    requires a <= b && b + t < |forks| && !Active(forks[|forks| - 1].key, head)
    requires Parted(forks[..|forks| - 1], head, b, a, t)
    ensures Parted(forks, head, b, a, t)
  {
    var n := |forks| - 1;
    var front, last := forks[..n], forks[n];
    assert ActiveForks(forks, head) == ActiveForks(front, head) + [];
    assert FutureForks(forks, head) == FutureForks(front, head) + [last];
    hide ActiveForks, FutureForks;
    SlicesSnoc(front, last, b, a, t);
    assert forks == front + [last];
  }

  lemma {:induction false} SlicesSnoc(front: seq<Fork>, last: Fork, b: nat, a: nat, t: nat)
    requires a <= b && b + t <= |front|
    ensures var forks := front + [last];
      && forks[..a] + forks[b..b + t] == front[..a] + front[b..b + t]
      && forks[a..b] + forks[b + t..] == front[a..b] + front[b + t..] + [last]
  {
    var forks := front + [last];
    assert front[..a] == forks[..a] && front[a..b] == forks[a..b] && front[b..b + t] == forks[b..b + t];
    assert forks[b + t..] == front[b + t..] + [last];
  }

  lemma {:induction false} PartsBlock(forks: seq<Fork>, head: Head, a: nat)
    requires Counted(forks, head, |forks|, a, 0)
    ensures Parted(forks, head, |forks|, a, 0)
  {
    PrefixForks(forks, head, a);
    assert forks[|forks|..|forks|] == [] && forks[|forks|..] == [];
    assert forks[..a] + [] == forks[..a] && forks[a..|forks|] + [] == forks[a..];
  }

  /** The position of the latest active fork, when `a` of `b` block forks and `t` time forks are active. */
  function LastActive(b: nat, a: nat, t: nat): nat
    requires a >= 1
  {
    if t > 0 then b + t - 1 else a - 1
  }

  /** The position of the first fork that is not active, or the number of forks. */
  function FirstFuture(b: nat, a: nat, t: nat): nat {
    if a < b then a else b + t
  }

  /** Genesis is active at every head. */
  lemma {:induction false} GenesisCounted(forks: seq<Fork>, head: Head, b: nat, a: nat, t: nat)
    requires IsSchedule(forks) && Counted(forks, head, b, a, t)
    ensures 1 <= a <= b && b + t <= |forks|
  {
    assert Active(forks[0].key, head);
  }

  lemma {:induction false} PartedEnds(
    forks: seq<Fork>, past: seq<Fork>, future: seq<Fork>, b: nat, a: nat, t: nat)
    requires 1 <= a <= b && b + t <= |forks|
    requires past == forks[..a] + forks[b..b + t] && future == forks[a..b] + forks[b + t..]
    ensures past != [] && past[|past| - 1] == forks[LastActive(b, a, t)]
    ensures var i := FirstFuture(b, a, t);
      if i < |forks| then future != [] && future[0] == forks[i] else future == []
  {
    var blocks, times := forks[..a], forks[b..b + t];
    assert t > 0 ==> past[|past| - 1] == times[t - 1];
    assert t == 0 ==> past[|past| - 1] == blocks[a - 1];
  }

  /** The epoch and the announced identifier, from the counts. */
  lemma {:induction false} EpochBounds(forks: seq<Fork>, head: Head, b: nat, a: nat, t: nat)
    requires IsSchedule(forks) && Counted(forks, head, b, a, t)
    ensures 1 <= a
    ensures var cache, i := ComputeCache(forks, head), FirstFuture(b, a, t);
      && cache.epochStart == forks[LastActive(b, a, t)].key
      && cache.forkId.hash == forks[LastActive(b, a, t)].hash
      && cache.epochEnd == (if i < |forks| then Some(forks[i].key) else None)
      && cache.forkId.next == (if i < |forks| then Number(forks[i].key) else 0)
  {
    GenesisCounted(forks, head, b, a, t);
    Parts(forks, head, b, a, t);
    hide ActiveForks, FutureForks, Counted, Rising;
    PartedEnds(forks, ActiveForks(forks, head), FutureForks(forks, head), b, a, t);
  }

  /** The epoch is left when its first fork becomes inactive or the next one active. */
  lemma {:induction false} LeftCounted(
    forks: seq<Fork>, before: Head, after: Head, b: nat, a: nat, t: nat, c: nat, u: nat)
    requires IsSchedule(forks) && Counted(forks, before, b, a, t) && Counted(forks, after, b, c, u)
    ensures LeftEpoch(ComputeCache(forks, before), after) <==>
      (if t > 0 then u < t else c < a) || (if a < b then c > a else u > t)
  {
    hide ComputeCache;
    EpochBounds(forks, before, b, a, t);
    var start := LastActive(b, a, t);
    assert Active(forks[start].key, after) <==> start < c || b <= start < b + u;
    if a < b {
      assert Active(forks[a].key, after) <==> a < c || b <= a < b + u;
    } else if b + t < |forks| {
      assert Active(forks[b + t].key, after) <==> b + t < c || b <= b + t < b + u;
    }
  }

  /**
   * The changes the lazy check does not see. With block forks still to come: the first time forks becoming active
   * alone, or, once time forks are active, any change without a time fork going or a block fork coming. With all
   * block forks and some time fork active: block forks going alone.
   */
  predicate Missed(forks: seq<Fork>, before: Head, after: Head) {
    var b := BlockForks(forks);
    var a, t := ActiveBlocks(forks, before), ActiveTimes(forks, before);
    var c, u := ActiveBlocks(forks, after), ActiveTimes(forks, after);
    || (t == 0 < u && c == a < b)
    || (t > 0 && a < b && u >= t && c <= a && (c, u) != (a, t))
    || (t > 0 && a == b && u == t && c < b)
  }

  lemma {:induction false} SameCounts(forks: seq<Fork>, before: Head, after: Head)
    requires IsSchedule(forks)
    ensures ActiveForks(forks, before) == ActiveForks(forks, after) <==>
      && ActiveBlocks(forks, before) == ActiveBlocks(forks, after)
      && ActiveTimes(forks, before) == ActiveTimes(forks, after)
    ensures ActiveForks(forks, before) == ActiveForks(forks, after) ==>
      FutureForks(forks, before) == FutureForks(forks, after)
  {
    hide BlockForks, ActiveForks, FutureForks, Counted, Active;
    Counts(forks, before);
    Counts(forks, after);
    hide Rising;
    Parts(forks, before, BlockForks(forks), ActiveBlocks(forks, before), ActiveTimes(forks, before));
    Parts(forks, after, BlockForks(forks), ActiveBlocks(forks, after), ActiveTimes(forks, after));
  }

  lemma {:induction false} CachePast(forks: seq<Fork>, head: Head)
    requires IsSchedule(forks)
    ensures ComputeCache(forks, head).past == ActiveForks(forks, head)
  {
    hide Rising, ActiveForks, FutureForks;
  }

  lemma {:induction false} SameCaches(forks: seq<Fork>, before: Head, after: Head)
    requires IsSchedule(forks)
    ensures ActiveForks(forks, before) == ActiveForks(forks, after) <==>
      ComputeCache(forks, before) == ComputeCache(forks, after)
  {
    hide CacheOf, ActiveForks, FutureForks, ActiveBlocks, ActiveTimes, Rising;
    SameCounts(forks, before, after);
    CachePast(forks, before);
    CachePast(forks, after);
  }

  /**
   * For any schedule and any two heads: a change of the active forks goes unnoticed exactly when it is one of the
   * `Missed` ones, leaving the epoch always is a change, and the caches are equal exactly when the active forks are.
   */
  lemma {:induction false} LazyExact(forks: seq<Fork>, before: Head, after: Head)
    requires IsSchedule(forks)
    ensures LeftEpoch(ComputeCache(forks, before), after) <==>
      ActiveForks(forks, before) != ActiveForks(forks, after) && !Missed(forks, before, after)
    ensures Missed(forks, before, after) ==> ActiveForks(forks, before) != ActiveForks(forks, after)
    ensures ComputeCache(forks, before) == ComputeCache(forks, after) <==>
      ActiveForks(forks, before) == ActiveForks(forks, after)
  {
    hide ComputeCache, ActiveForks, ActiveBlocks, ActiveTimes, LeftEpoch;
    Counts(forks, before);
    Counts(forks, after);
    SameCounts(forks, before, after);
    SameCaches(forks, before, after);
    LeftCounted(forks, before, after, BlockForks(forks), ActiveBlocks(forks, before), ActiveTimes(forks, before),
      ActiveBlocks(forks, after), ActiveTimes(forks, after));
  }

  lemma {:induction false} OrderedCounts(forks: seq<Fork>, head: Head)
    requires IsSchedule(forks) && Ordered(forks, head)
    ensures ActiveTimes(forks, head) > 0 ==> ActiveBlocks(forks, head) == BlockForks(forks)
  {
    Counts(forks, head);
    hide ActiveForks, ActiveBlocks, ActiveTimes;
    var b, a, t := BlockForks(forks), ActiveBlocks(forks, head), ActiveTimes(forks, head);
    if t > 0 {
      assert forks[0].key.Block?;
      assert forks[b].key.Time? && Active(forks[b].key, head);
      assert forks[b - 1].key.Block? && Active(forks[b - 1].key, head);
    }
  }

  /** Between ordered heads nothing is missed: the epoch is left exactly when the set of active forks changes. */
  lemma {:induction false} HeadStep(forks: seq<Fork>, before: Head, after: Head)
    requires IsSchedule(forks) && Ordered(forks, before) && Ordered(forks, after)
    ensures !Missed(forks, before, after)
    ensures LeftEpoch(ComputeCache(forks, before), after) <==> ActiveForks(forks, before) != ActiveForks(forks, after)
  {
    hide ComputeCache, ActiveForks, ActiveBlocks, ActiveTimes, LeftEpoch;
    OrderedCounts(forks, before);
    OrderedCounts(forks, after);
    Counts(forks, after);
    LazyExact(forks, before, after);
  }

  /** The first past fork with a given hash. */
  function Find(past: seq<Fork>, hash: ForkHash): (r: Option<nat>)
    ensures r.Some? ==> r.value < |past| && past[r.value].hash == hash
    ensures r.Some? ==> forall j :: 0 <= j < r.value ==> past[j].hash != hash
    ensures r.None? ==> forall j :: 0 <= j < |past| ==> past[j].hash != hash
  {
    if past == [] then None
    else if past[0].hash == hash then Some(0)
    else
      match Find(past[1..], hash)
      case None => None
      case Some(i) => Some(i + 1)
  }

  /** What a head is compared with: its number in a block epoch, its timestamp in a time epoch. */
  function Position(cache: Cache, head: Head): nat {
    if cache.epochStart.Block? then head.number else head.timestamp
  }

  function Validate(cache: Cache, head: Head, id: ForkId): Result<(), ValidationError> {
    if cache.forkId.hash == id.hash then
      if id.next == 0 then Ok(())
      else if Position(cache, head) >= id.next then Err(LocalIncompatibleOrStale(cache.forkId, id))
      else Ok(())
    else
      var at := Find(cache.past, id.hash);
      if at.Some? && at.value + 1 < |cache.past| then
        if Number(cache.past[at.value + 1].key) == id.next then Ok(()) else Err(RemoteStale(cache.forkId, id))
      else if id.hash in cache.future then Ok(())
      else Err(LocalIncompatibleOrStale(cache.forkId, id))
  }

  ghost predicate Distinct(forks: seq<Fork>) {
    forall i, j :: 0 <= i < j < |forks| ==> forks[i].hash != forks[j].hash
  }

  // ---------------------------------------------------------------- which peers are accepted

  /** The number of the first fork that is not active, or zero. */
  function NextNumber(forks: seq<Fork>, b: nat, a: nat, t: nat): nat {
    var i := FirstFuture(b, a, t);
    if i < |forks| then Number(forks[i].key) else 0
  }

  predicate IsActive(b: nat, a: nat, t: nat, r: nat) {
    r < a || b <= r < b + t
  }

  /** Among the active forks, the position of the one after position `r`. */
  function Following(b: nat, a: nat, r: nat): nat {
    if r + 1 == a then b else r + 1
  }

  /** Where an active fork stands in the list of past forks. */
  function PastIndex(b: nat, a: nat, r: nat): nat {
    if r < a then r else if r >= b then a + (r - b) else 0
  }

  /** The announced identifier, from the counts. */
  lemma {:induction false} ForkIdCounted(forks: seq<Fork>, at: Head, b: nat, a: nat, t: nat)
    requires IsSchedule(forks) && Counted(forks, at, b, a, t)
    ensures 1 <= a
    ensures var cache := ComputeCache(forks, at);
      && cache.forkId == ForkId(forks[LastActive(b, a, t)].hash, NextNumber(forks, b, a, t))
      && (cache.epochStart.Block? <==> t == 0)
  {
    hide ComputeCache;
    EpochBounds(forks, at, b, a, t);
    assert forks[LastActive(b, a, t)].key.Block? <==> LastActive(b, a, t) < b;
  }

  /** The past forks are the active ones, in order. */
  lemma {:induction false} PastCounted(forks: seq<Fork>, at: Head, b: nat, a: nat, t: nat)
    requires IsSchedule(forks) && Counted(forks, at, b, a, t)
    ensures 1 <= a
    ensures var past := ComputeCache(forks, at).past;
      && |past| == a + t
      && (forall i :: 0 <= i < a ==> past[i] == forks[i])
      && (forall i :: a <= i < a + t ==> past[i] == forks[b + (i - a)])
  {
    assert Active(forks[0].key, at);
    Parts(forks, at, b, a, t);
    hide ActiveForks, FutureForks;
    assert forall i :: 0 <= i < a ==> forks[..a][i] == forks[i];
    forall i | a <= i < a + t ensures ComputeCache(forks, at).past[i] == forks[b + (i - a)] {
      assert forks[b..b + t][i - a] == forks[b + (i - a)];
    }
  }

  /** The future hashes are those of the inactive forks. */
  lemma {:induction false} FutureCounted(forks: seq<Fork>, at: Head, b: nat, a: nat, t: nat, hash: ForkHash)
    requires IsSchedule(forks) && Counted(forks, at, b, a, t)
    ensures hash in ComputeCache(forks, at).future <==>
      exists r :: 0 <= r < |forks| && !IsActive(b, a, t, r) && forks[r].hash == hash
  {
    Parts(forks, at, b, a, t);
    hide ActiveForks, FutureForks, Active;
    var future := FutureForks(forks, at);
    var low, high := forks[a..b], forks[b + t..];
    if i :| 0 <= i < |future| && future[i].hash == hash {
      var r := if i < |low| then a + i else b + t + (i - |low|);
      assert future[i] == forks[r] && !IsActive(b, a, t, r);
    }
    if r :| 0 <= r < |forks| && !IsActive(b, a, t, r) && forks[r].hash == hash {
      var i := if r < b then r - a else |low| + (r - (b + t));
      assert future[i] == forks[r];
      assert HashesOf(future)[i] == hash;
    }
  }

  /** An active fork stands at its place in the list of past forks, before the next active one. */
  lemma {:induction false} PastAt(forks: seq<Fork>, past: seq<Fork>, b: nat, a: nat, t: nat, r: nat)
    requires 1 <= a <= b && b + t <= |forks| && |past| == a + t
    requires forall i :: 0 <= i < a ==> past[i] == forks[i]
    requires forall i :: a <= i < a + t ==> past[i] == forks[b + (i - a)]
    requires r < |forks| && IsActive(b, a, t, r)
    ensures var i := PastIndex(b, a, r);
      && i < |past| && past[i] == forks[r]
      && (r == LastActive(b, a, t) <==> i + 1 == |past|)
      && (r != LastActive(b, a, t) ==>
            Following(b, a, r) < |forks| && past[i + 1] == forks[Following(b, a, r)])
  {
    if r >= b {
      assert b + (a + (r - b) - a) == r;
    }
  }

  lemma {:induction false} FindActive(forks: seq<Fork>, at: Head, b: nat, a: nat, t: nat, r: nat)
    requires IsSchedule(forks) && Distinct(forks) && Counted(forks, at, b, a, t)
    requires r < |forks| && IsActive(b, a, t, r)
    ensures 1 <= a
    ensures var past := ComputeCache(forks, at).past;
      && Find(past, forks[r].hash) == Some(PastIndex(b, a, r))
      && PastIndex(b, a, r) < |past|
      && (r == LastActive(b, a, t) <==> PastIndex(b, a, r) + 1 == |past|)
      && (r != LastActive(b, a, t) ==>
            Following(b, a, r) < |forks| && past[PastIndex(b, a, r) + 1] == forks[Following(b, a, r)])
  {
    PastCounted(forks, at, b, a, t);
    hide ComputeCache, Active, IsSchedule;
    var past, i := ComputeCache(forks, at).past, PastIndex(b, a, r);
    PastAt(forks, past, b, a, t, r);
    forall j | 0 <= j < i ensures past[j].hash != forks[r].hash {
      var k := if j < a then j else b + (j - a);
      assert past[j] == forks[k] && k < r;
    }
    FindIs(past, forks[r].hash, i);
  }

  lemma {:induction false} FindInactive(forks: seq<Fork>, at: Head, b: nat, a: nat, t: nat, hash: ForkHash)
    requires IsSchedule(forks) && Counted(forks, at, b, a, t)
    requires forall r :: 0 <= r < |forks| && IsActive(b, a, t, r) ==> forks[r].hash != hash
    ensures Find(ComputeCache(forks, at).past, hash).None?
  {
    PastCounted(forks, at, b, a, t);
    hide ComputeCache, Active;
    var past := ComputeCache(forks, at).past;
    forall j | 0 <= j < |past| ensures past[j].hash != hash {
      var r := if j < a then j else b + (j - a);
      assert IsActive(b, a, t, r) && past[j] == forks[r];
    }
  }

  /** What a head is compared with, from the counts. */
  function Compared(t: nat, head: Head): nat {
    if t == 0 then head.number else head.timestamp
  }

  /** The current hash is accepted iff the head is below the announced next fork, at any head and with any cache. */
  lemma {:induction false} CurrentHash(forks: seq<Fork>, at: Head, head: Head, b: nat, a: nat, t: nat, next: nat)
    requires IsSchedule(forks) && Counted(forks, at, b, a, t)
    ensures 1 <= a
    ensures var cache, id := ComputeCache(forks, at), ForkId(forks[LastActive(b, a, t)].hash, next);
      Validate(cache, head, id) ==
        if next == 0 || Compared(t, head) < next then Ok(()) else Err(LocalIncompatibleOrStale(cache.forkId, id))
  {
    ForkIdCounted(forks, at, b, a, t);
    hide ComputeCache, Counted, Active, Find, IsSchedule;
  }

  /** Any earlier active fork's hash is accepted iff the announced next fork is the active one after it. */
  lemma {:induction false} PastHash(
    forks: seq<Fork>, at: Head, head: Head, b: nat, a: nat, t: nat, r: nat, next: nat)
    requires IsSchedule(forks) && Distinct(forks) && Counted(forks, at, b, a, t)
    requires a >= 1 && r < |forks| && IsActive(b, a, t, r) && r != LastActive(b, a, t)
    ensures Following(b, a, r) < |forks|
    ensures var cache, id := ComputeCache(forks, at), ForkId(forks[r].hash, next);
      Validate(cache, head, id) ==
        if next == Number(forks[Following(b, a, r)].key) then Ok(()) else Err(RemoteStale(cache.forkId, id))
  {
    ForkIdCounted(forks, at, b, a, t);
    FindActive(forks, at, b, a, t, r);
    hide ComputeCache, Counted, Active, Find, IsSchedule;
    var last := LastActive(b, a, t);
    assert r < last || last < r;
  }

  /** The hash of any fork that is not active is accepted. */
  lemma {:induction false} FutureHash(
    forks: seq<Fork>, at: Head, head: Head, b: nat, a: nat, t: nat, r: nat, next: nat)
    requires IsSchedule(forks) && Distinct(forks) && Counted(forks, at, b, a, t)
    requires r < |forks| && !IsActive(b, a, t, r)
    ensures Validate(ComputeCache(forks, at), head, ForkId(forks[r].hash, next)) == Ok(())
  {
    ForkIdCounted(forks, at, b, a, t);
    hide ComputeCache, Counted, Active, Find, IsSchedule;
    var last := LastActive(b, a, t);
    assert r < last || last < r;
    FindInactive(forks, at, b, a, t, forks[r].hash);
    FutureCounted(forks, at, b, a, t, forks[r].hash);
  }

  /** A hash that is not in the schedule is always refused as incompatible. */
  lemma {:induction false} UnknownHash(forks: seq<Fork>, at: Head, head: Head, id: ForkId)
    requires IsSchedule(forks) && forall i :: 0 <= i < |forks| ==> forks[i].hash != id.hash
    ensures var cache := ComputeCache(forks, at);
      Validate(cache, head, id) == Err(LocalIncompatibleOrStale(cache.forkId, id))
  {
    Counts(forks, at);
    var b, a, t := BlockForks(forks), ActiveBlocks(forks, at), ActiveTimes(forks, at);
    ForkIdCounted(forks, at, b, a, t);
    hide ComputeCache, Counted, Active, Find, IsSchedule;
    FindInactive(forks, at, b, a, t, id.hash);
    FutureCounted(forks, at, b, a, t, id.hash);
  }

  /** When a node with the cache of `at` and the head `head` accepts one with its schedule and the cache of `theirs`. */
  ghost predicate AcceptsPeer(forks: seq<Fork>, at: Head, head: Head, theirs: Head)
    requires IsSchedule(forks)
  {
    Counts(forks, at);
    Counts(forks, theirs);
    ForkIdCounted(forks, at, BlockForks(forks), ActiveBlocks(forks, at), ActiveTimes(forks, at));
    ForkIdCounted(forks, theirs, BlockForks(forks), ActiveBlocks(forks, theirs), ActiveTimes(forks, theirs));
    var b, a, t := BlockForks(forks), ActiveBlocks(forks, at), ActiveTimes(forks, at);
    var c, u := ActiveBlocks(forks, theirs), ActiveTimes(forks, theirs);
    var r, next := LastActive(b, c, u), NextNumber(forks, b, c, u);
    if r == LastActive(b, a, t) then next == 0 || Compared(t, head) < next
    else if IsActive(b, a, t, r) then
      Following(b, a, r) < |forks| && next == Number(forks[Following(b, a, r)].key)
    else true
  }

  /**
   * Two nodes with one schedule, at any two heads, also when a cache is the one of an earlier head: exactly when
   * the local node accepts the remote one's identifier.
   */
  lemma {:induction false} SameScheduleExact(forks: seq<Fork>, at: Head, head: Head, theirs: Head)
    requires IsSchedule(forks) && Distinct(forks)
    ensures Validate(ComputeCache(forks, at), head, ComputeCache(forks, theirs).forkId).Ok? <==>
      AcceptsPeer(forks, at, head, theirs)
  {
    Counts(forks, at);
    Counts(forks, theirs);
    hide ComputeCache, Validate, BlockForks, ActiveBlocks, ActiveTimes, ActiveForks;
    var b, a, t := BlockForks(forks), ActiveBlocks(forks, at), ActiveTimes(forks, at);
    var c, u := ActiveBlocks(forks, theirs), ActiveTimes(forks, theirs);
    ForkIdCounted(forks, at, b, a, t);
    ForkIdCounted(forks, theirs, b, c, u);
    var r, next := LastActive(b, c, u), NextNumber(forks, b, c, u);
    if r == LastActive(b, a, t) {
      CurrentHash(forks, at, head, b, a, t, next);
    } else if IsActive(b, a, t, r) {
      PastHash(forks, at, head, b, a, t, r, next);
    } else {
      FutureHash(forks, at, head, b, a, t, r, next);
    }
  }

  /** The next fork is a time fork after a block epoch, and the local block number is already above its timestamp. */
  ghost predicate Confused(forks: seq<Fork>, p: nat, head: Head) {
    1 <= p < |forks| && forks[p - 1].key.Block? && forks[p].key.Time? && head.number >= forks[p].key.timestamp
  }

  /** With the first `p` forks active, the counts. */
  lemma {:induction false} PrefixCounts(forks: seq<Fork>, head: Head, p: nat)
    requires IsSchedule(forks) && 1 <= p && ActivePrefix(forks, head, p)
    ensures var b := BlockForks(forks);
      && ActiveBlocks(forks, head) == (if p < b then p else b)
      && ActiveTimes(forks, head) == (if p < b then 0 else p - b)
      && 1 <= b <= |forks|
      && forall i :: 0 <= i < |forks| ==> (forks[i].key.Block? <==> i < b)
  {
    Counts(forks, head);
    hide BlockForks, ActiveBlocks, ActiveTimes, ActiveForks;
    var b := BlockForks(forks);
    assert forks[0].key.Block?;
    CountsUnique(forks, head, b, if p < b then p else b, if p < b then 0 else p - b,
      b, ActiveBlocks(forks, head), ActiveTimes(forks, head));
  }

  /** At two ordered heads: accepted unless both are in one epoch and a block number is mistaken for a time. */
  lemma {:induction false} SameSchedule(forks: seq<Fork>, ours: Head, theirs: Head, p: nat, q: nat)
    requires IsSchedule(forks) && Distinct(forks)
    requires 1 <= p && ActivePrefix(forks, ours, p) && 1 <= q && ActivePrefix(forks, theirs, q)
    ensures Validate(ComputeCache(forks, ours), ours, ComputeCache(forks, theirs).forkId).Ok? <==>
      !(p == q && Confused(forks, p, ours))
  {
    hide ComputeCache, Validate, BlockForks, ActiveBlocks, ActiveTimes, ActiveForks;
    SameScheduleExact(forks, ours, ours, theirs);
    PrefixCounts(forks, ours, p);
    PrefixCounts(forks, theirs, q);
    if p < |forks| {
      assert !Active(forks[p].key, ours);
      assert Number(forks[p].key) > 0;
    }
  }

  /** When ordered head numbers are below every fork timestamp, same-schedule nodes always accept each other. */
  lemma {:induction false} SameScheduleConnects(forks: seq<Fork>, ours: Head, theirs: Head)
    requires IsSchedule(forks) && Distinct(forks) && Ordered(forks, ours) && Ordered(forks, theirs)
    requires forall i :: 0 <= i < |forks| && forks[i].key.Time? ==>
      ours.number < forks[i].key.timestamp && theirs.number < forks[i].key.timestamp
    ensures Validate(ComputeCache(forks, ours), ours, ComputeCache(forks, theirs).forkId).Ok?
    ensures Validate(ComputeCache(forks, theirs), theirs, ComputeCache(forks, ours).forkId).Ok?
  {
    hide ComputeCache, Validate;
    var p := OrderedPrefix(forks, ours);
    var q := OrderedPrefix(forks, theirs);
    SameSchedule(forks, ours, theirs, p, q);
    SameSchedule(forks, theirs, ours, q, p);
  }

  /** Two nodes with one schedule at one ordered head refuse each other: a block number is taken for a time. */
  lemma {:induction false} ConfusedPeers(forks: seq<Fork>)
    requires Distinct(forks) && KeysOf(forks) == [Block(0), Time(5)]
    ensures IsSchedule(forks) && Ordered(forks, Head(10, 0))
    ensures var cache := ComputeCache(forks, Head(10, 0));
      Validate(cache, Head(10, 0), cache.forkId) == Err(LocalIncompatibleOrStale(cache.forkId, cache.forkId))
  {
    assert forall i :: 0 <= i < |forks| ==> forks[i].key == KeysOf(forks)[i];
    assert Counted(forks, Head(10, 0), 1, 1, 0);
    hide ComputeCache, Validate;
    ForkIdCounted(forks, Head(10, 0), 1, 1, 0);
    CurrentHash(forks, Head(10, 0), Head(10, 0), 1, 1, 0, 5);
  }

  /** At an unordered head it is the other way round: a time is taken for a block number. */
  lemma {:induction false} UnorderedPeers(forks: seq<Fork>)
    requires Distinct(forks) && KeysOf(forks) == [Block(0), Block(10), Time(20)]
    ensures IsSchedule(forks) && !Ordered(forks, Head(5, 25))
    ensures var cache := ComputeCache(forks, Head(5, 25));
      Validate(cache, Head(5, 25), cache.forkId) == Err(LocalIncompatibleOrStale(cache.forkId, cache.forkId))
  {
    assert forall i :: 0 <= i < |forks| ==> forks[i].key == KeysOf(forks)[i];
    assert Active(forks[2].key, Head(5, 25)) && !Active(forks[1].key, Head(5, 25));
    assert Counted(forks, Head(5, 25), 2, 1, 1);
    hide ComputeCache, Validate;
    ForkIdCounted(forks, Head(5, 25), 2, 1, 1);
    CurrentHash(forks, Head(5, 25), Head(5, 25), 2, 1, 1, 10);
  }

  /** From a later head, a peer at an unordered one is refused as stale: the fork it expects is not the one we had. */
  lemma {:induction false} UnorderedPeerIsStale(forks: seq<Fork>)
    requires Distinct(forks) && KeysOf(forks) == [Block(0), Block(10), Time(20), Time(30)]
    ensures IsSchedule(forks)
    ensures var cache, id := ComputeCache(forks, Head(15, 35)), ComputeCache(forks, Head(5, 25)).forkId;
      Validate(cache, Head(15, 35), id) == Err(RemoteStale(cache.forkId, id))
  {
    assert forall i :: 0 <= i < |forks| ==> forks[i].key == KeysOf(forks)[i];
    assert Counted(forks, Head(5, 25), 2, 1, 1) && Counted(forks, Head(15, 35), 2, 2, 2);
    hide ComputeCache, Validate;
    ForkIdCounted(forks, Head(5, 25), 2, 1, 1);
    PastHash(forks, Head(15, 35), Head(15, 35), 2, 2, 2, 2, 10);
  }

  /** At an unordered head the lazy check can miss a newly active fork. */
  lemma {:induction false} UnorderedHeadGoesStale(forks: seq<Fork>)
    requires KeysOf(forks) == [Block(0), Block(10), Time(20), Time(30)]
    ensures IsSchedule(forks) && !Ordered(forks, Head(5, 25)) && Missed(forks, Head(5, 25), Head(5, 35))
    ensures !LeftEpoch(ComputeCache(forks, Head(5, 25)), Head(5, 35))
    ensures ComputeCache(forks, Head(5, 35)) != ComputeCache(forks, Head(5, 25))
  {
    hide LeftEpoch, ComputeCache, BlockForks, ActiveBlocks, ActiveTimes, ActiveForks;
    var keys := KeysOf(forks);
    assert forall i :: 0 <= i < |forks| ==> forks[i].key == keys[i];
    assert Counted(forks, Head(5, 25), 2, 1, 1) && Counted(forks, Head(5, 35), 2, 1, 2);
    FourForks(forks, Head(5, 25), 1);
    FourForks(forks, Head(5, 35), 2);
    LazyExact(forks, Head(5, 25), Head(5, 35));
    assert Active(forks[2].key, Head(5, 25)) && !Active(forks[1].key, Head(5, 25));
  }

  lemma {:induction false} FourForks(forks: seq<Fork>, head: Head, t: nat)
    requires IsSchedule(forks) && Counted(forks, head, 2, 1, t)
    ensures BlockForks(forks) == 2 && ActiveBlocks(forks, head) == 1 && ActiveTimes(forks, head) == t
  {
    Counts(forks, head);
    hide ActiveForks, ActiveBlocks, ActiveTimes, BlockForks;
    CountsUnique(forks, head, 2, 1, t, BlockForks(forks), ActiveBlocks(forks, head), ActiveTimes(forks, head));
  }

  lemma {:induction false} CountsUnique(
    forks: seq<Fork>, head: Head, b: nat, a: nat, t: nat, b': nat, a': nat, t': nat)
    requires Counted(forks, head, b, a, t) && Counted(forks, head, b', a', t')
    ensures b == b' && a == a' && t == t'
  {
    assert b > 0 ==> forks[b - 1].key.Block?;
    assert b' > 0 ==> forks[b' - 1].key.Block?;
    assert a > 0 ==> Active(forks[a - 1].key, head);
    assert a' > 0 ==> Active(forks[a' - 1].key, head);
    assert t > 0 ==> Active(forks[b + t - 1].key, head);
    assert t' > 0 ==> Active(forks[b + t' - 1].key, head);
  }

  /** The head for which the cache is right, after a run of heads: a missed change leaves it behind. */
  ghost function Followed(forks: seq<Fork>, at: Head, heads: seq<Head>): Head {
    if heads == [] then at
    else
      var before, next := Followed(forks, at, heads[..|heads| - 1]), heads[|heads| - 1];
      if Missed(forks, before, next) then before else next
  }

  lemma {:induction false} FollowedNothing(forks: seq<Fork>, at: Head, heads: seq<Head>)
    ensures Followed(forks, at, heads[..0]) == at
  {
  }

  lemma {:induction false} FollowedStep(forks: seq<Fork>, at: Head, heads: seq<Head>, i: nat)
    requires i < |heads|
    ensures var before := Followed(forks, at, heads[..i]);
      Followed(forks, at, heads[..i + 1]) == if Missed(forks, before, heads[i]) then before else heads[i]
  {
    hide Missed;
    assert heads[..i + 1][..i] == heads[..i];
  }

  /** Along ordered heads the cache is never left behind. */
  lemma {:induction false} OrderedIsFollowed(forks: seq<Fork>, at: Head, heads: seq<Head>)
    requires IsSchedule(forks) && Ordered(forks, at) && forall i :: 0 <= i < |heads| ==> Ordered(forks, heads[i])
    ensures Followed(forks, at, heads) == if heads == [] then at else heads[|heads| - 1]
    decreases |heads|
  {
    hide Missed, Ordered;
    if heads != [] {
      var front := heads[..|heads| - 1];
      OrderedIsFollowed(forks, at, front);
      HeadStep(forks, Followed(forks, at, front), heads[|heads| - 1]);
    }
  }

  /** The head before the one at a position. */
  ghost function Before(start: Head, heads: seq<Head>, i: nat): Head
    requires i <= |heads|
  {
    if i == 0 then start else heads[i - 1]
  }

  /** What is reported on a new head, when the cache is the one for `at`. */
  ghost predicate Reported(forks: seq<Fork>, at: Head, next: Head, transition: Option<Transition>)
    requires IsSchedule(forks)
  {
    && (transition.Some? <==> ActiveForks(forks, at) != ActiveForks(forks, next) && !Missed(forks, at, next))
    && (transition.Some? ==>
          transition.value == Transition(ComputeCache(forks, next).forkId, ComputeCache(forks, at).forkId))
  }

  // ---------------------------------------------------------------- the filter as it runs

  class ForkFilter {
    const forks: seq<Fork>
    var head: Head
    var cache: Cache
    /** The latest head for which the cache is right. */
    ghost var followed: Head

    ghost predicate Valid()
      reads this
    {
      IsSchedule(forks) && cache == ComputeCache(forks, followed)
    }

    constructor (head: Head, crc: Checksum, genesis: ForkHash, keys: seq<Key>)
      ensures Valid() && forks == Schedule(crc, genesis, keys) && this.head == head && followed == head
    {
      hide Schedule, ActiveForks, FutureForks, CacheOf;
      ScheduleIsSchedule(crc, genesis, keys);
      var schedule := Schedule(crc, genesis, keys);
      var computed := RunComputeCache(schedule, head);
      forks := schedule;
      this.head := head;
      cache := computed;
      followed := head;
    }

    /**
     * On any new head: a transition is reported exactly when the set of active forks changes and the change is not
     * a missed one, and the cache is right afterwards exactly when nothing was missed.
     */
    method SetHead(head: Head) returns (transition: Option<Transition>)
      requires Valid()
      modifies this
      ensures Valid() && this.head == head
      ensures followed == if Missed(forks, old(followed), head) then old(followed) else head
      ensures cache == ComputeCache(forks, head) <==> !Missed(forks, old(followed), head)
      ensures Reported(forks, old(followed), head, transition)
    {
      hide ComputeCache, ActiveForks, LeftEpoch, Less, Missed;
      LazyExact(forks, followed, head);
      transition := None;
      if LeftEpoch(cache, head) {
        var past := cache.forkId;
        cache := RunComputeCache(forks, head);
        transition := Some(Transition(cache.forkId, past));
      }
      this.head := head;
      followed := if Missed(forks, followed, head) then followed else head;
    }

    /** Whole runs, over any heads. */
    method SetHeads(heads: seq<Head>) returns (transitions: seq<Option<Transition>>)
      requires Valid()
      modifies this
      ensures Valid() && head == if heads == [] then old(head) else heads[|heads| - 1]
      ensures followed == Followed(forks, old(followed), heads)
      ensures |transitions| == |heads|
      ensures forall i :: 0 <= i < |heads| ==>
        Reported(forks, Followed(forks, old(followed), heads[..i]), heads[i], transitions[i])
    {
      hide ComputeCache, IsSchedule, Missed, Reported, Followed;
      transitions := [];
      var i := 0;
      FollowedNothing(forks, followed, heads);
      while i < |heads|
        invariant i <= |heads| && Valid() && |transitions| == i
        invariant head == if i == 0 then old(head) else heads[i - 1]
        invariant followed == Followed(forks, old(followed), heads[..i])
        invariant forall j :: 0 <= j < i ==>
          Reported(forks, Followed(forks, old(followed), heads[..j]), heads[j], transitions[j])
      {
        FollowedStep(forks, old(followed), heads, i);
        var transition := SetHead(heads[i]);
        transitions := transitions + [transition];
        i := i + 1;
      }
      assert heads[..i] == heads;
    }

    /** Over ordered heads the cache is always right, and every change of the active forks is reported. */
    method SetOrderedHeads(heads: seq<Head>) returns (transitions: seq<Option<Transition>>)
      requires Valid() && followed == head && Ordered(forks, head)
      requires forall i :: 0 <= i < |heads| ==> Ordered(forks, heads[i])
      modifies this
      ensures Valid() && followed == head && cache == ComputeCache(forks, head)
      ensures head == if heads == [] then old(head) else heads[|heads| - 1]
      ensures |transitions| == |heads|
      ensures forall i :: 0 <= i < |heads| ==>
        (transitions[i].Some? <==>
           ActiveForks(forks, Before(old(head), heads, i)) != ActiveForks(forks, heads[i]))
    {
      hide ComputeCache, ActiveForks, Missed, Ordered, IsSchedule, Followed;
      ghost var start := head;
      OrderedIsFollowed(forks, start, heads);
      transitions := SetHeads(heads);
      forall i | 0 <= i < |heads|
        ensures transitions[i].Some? <==>
          ActiveForks(forks, Before(start, heads, i)) != ActiveForks(forks, heads[i])
      {
        OrderedIsFollowed(forks, start, heads[..i]);
        HeadStep(forks, Before(start, heads, i), heads[i]);
        assert Reported(forks, Followed(forks, start, heads[..i]), heads[i], transitions[i]);
      }
    }

    /** Walk the past forks, then the future ones. */
    method CheckForkId(id: ForkId) returns (r: Result<(), ValidationError>)
      ensures r == Validate(cache, head, id)
    {
      if cache.forkId.hash == id.hash {
        if id.next == 0 {
          return Ok(());
        }
        var position := if cache.epochStart.Block? then head.number else head.timestamp;
        if position >= id.next {
          return Err(LocalIncompatibleOrStale(cache.forkId, id));
        }
        return Ok(());
      }
      var i := 0;
      while i < |cache.past|
        invariant i <= |cache.past| && forall j :: 0 <= j < i ==> cache.past[j].hash != id.hash
      {
        if cache.past[i].hash == id.hash {
          FindIs(cache.past, id.hash, i);
          if i + 1 < |cache.past| {
            if Number(cache.past[i + 1].key) == id.next {
              return Ok(());
            }
            return Err(RemoteStale(cache.forkId, id));
          }
          break;
        }
        i := i + 1;
      }
      var k := 0;
      while k < |cache.future|
        invariant k <= |cache.future| && id.hash !in cache.future[..k]
      {
        if cache.future[k] == id.hash {
          return Ok(());
        }
        k := k + 1;
      }
      assert cache.future[..k] == cache.future;
      return Err(LocalIncompatibleOrStale(cache.forkId, id));
    }
  }

  lemma {:induction false} FindIs(past: seq<Fork>, hash: ForkHash, i: nat)
    requires i < |past| && past[i].hash == hash && forall j :: 0 <= j < i ==> past[j].hash != hash
    ensures Find(past, hash) == Some(i)
  {
    var at := Find(past, hash);
    assert at.Some?;
  }

  lemma {:induction false} NoForksUpTo(forks: seq<Fork>, head: Head)
    ensures ActiveForks(forks[..0], head) == [] && FutureForks(forks[..0], head) == []
  {
  }

  lemma {:induction false} ForksUpTo(forks: seq<Fork>, head: Head, i: nat)
    requires i < |forks|
    ensures ActiveForks(forks[..i + 1], head) ==
      ActiveForks(forks[..i], head) + (if Active(forks[i].key, head) then [forks[i]] else [])
    ensures FutureForks(forks[..i + 1], head) ==
      FutureForks(forks[..i], head) + (if Active(forks[i].key, head) then [] else [forks[i]])
  {
    assert forks[..i + 1][..i] == forks[..i];
  }

  method RunComputeCache(forks: seq<Fork>, head: Head) returns (cache: Cache)
    requires forks != [] && forks[0].key == Block(0)
    ensures cache == ComputeCache(forks, head)
  {
    hide ActiveForks, FutureForks, Active;
    GenesisActive(forks, head);
    NoForksUpTo(forks, head);
    var past: seq<Fork>, future: seq<ForkHash> := [], [];
    var start, end: Option<Key> := Block(0), None;
    ghost var ahead: seq<Fork> := [];
    var i := 0;
    while i < |forks|
      invariant i <= |forks|
      invariant past == ActiveForks(forks[..i], head)
      invariant ahead == FutureForks(forks[..i], head) && future == HashesOf(ahead)
      invariant start == if past == [] then Block(0) else past[|past| - 1].key
      invariant end == if ahead == [] then None else Some(ahead[0].key)
    {
      ForksUpTo(forks, head, i);
      var fork := forks[i];
      if Active(fork.key, head) {
        start := fork.key;
        past := past + [fork];
      } else {
        if end.None? {
          end := Some(fork.key);
        }
        future := future + [fork.hash];
        ahead := ahead + [fork];
      }
      i := i + 1;
    }
    assert forks[..i] == forks;
    var next := if end.Some? then Number(end.value) else 0;
    cache := Cache(start, end, past, future, ForkId(past[|past| - 1].hash, next));
  }
}
