/** The block header codec: fifteen fixed fields, then an optional base fee and an optional withdrawals root. */
module HeaderCodec {
  import opened Words
  import opened Wrappers
  import opened BigEndian
  import opened Rlp
  import opened RlpExact
  import opened RlpBuffers

  datatype BlockHeader = BlockHeader(
    parentHash: Bytes,
    ommersHash: Bytes,
    beneficiary: Bytes,
    stateRoot: Bytes,
    transactionsRoot: Bytes,
    receiptsRoot: Bytes,
    logsBloom: Bytes,
    difficulty: nat,
    number: nat,
    gasLimit: nat,
    gasUsed: nat,
    timestamp: nat,
    extraData: Bytes,
    mixHash: Bytes,
    nonce: nat,
    baseFee: Option<nat>,
    withdrawalsRoot: Option<Bytes>)

  /** How a fixed field is read: as its own type, or as a 256-bit integer that must then fit 64 bits. */
  datatype Slot = Plain(shape: Shape) | Word

  const SLOTS: seq<Slot> := [
    Plain(Fixed(32)), Plain(Fixed(32)), Plain(Fixed(20)), Plain(Fixed(32)), Plain(Fixed(32)), Plain(Fixed(32)),
    Plain(Fixed(256)), Plain(Uint(32)), Word, Word, Word, Plain(Uint(8)), Plain(Text), Plain(Fixed(32)),
    Plain(Fixed(8))]

  /** A reading, an error, or the panic of a narrowing conversion. */
  datatype Reading<+T> = Read(value: T, rest: Bytes) | Refused(error: Error) | Panicked

  datatype Tail = Tail(baseFee: Option<nat>, withdrawalsRoot: Option<Bytes>)

  // ---------------------------------------------------------------- fields as a list of values

  function ItemsOf(h: BlockHeader): (items: seq<Value>)
    ensures |items| == |SLOTS|
  {
    [Str(h.parentHash), Str(h.ommersHash), Str(h.beneficiary), Str(h.stateRoot), Str(h.transactionsRoot),
     Str(h.receiptsRoot), Str(h.logsBloom), Num(h.difficulty), Num(h.number), Num(h.gasLimit), Num(h.gasUsed),
     Num(h.timestamp), Str(h.extraData), Str(h.mixHash), Str(ToBe(h.nonce, 8))]
  }

  function SlotShape(slot: Slot): Shape {
    match slot
    case Plain(shape) => shape
    case Word => Uint(8)
  }

  ghost predicate SlotHolds(slot: Slot, v: Value) {
    HasShape(SlotShape(slot), v) && Fits(v)
  }

  ghost predicate SlotsHold(slots: seq<Slot>, items: seq<Value>) {
    && |slots| == |items|
    && forall i {:trigger SlotHolds(slots[i], items[i])} ::
         0 <= i < |slots| ==> SlotHolds(slots[i], items[i])
  }

  /** Every slot's type is one whose encoding is exact. */
  ghost predicate SlotsNarrow(slots: seq<Slot>) {
    forall i {:trigger SlotNarrow(slots[i])} :: 0 <= i < |slots| ==> SlotNarrow(slots[i])
  }

  ghost predicate SlotNarrow(slot: Slot) {
    slot.Plain? ==> Narrow(slot.shape)
  }

  /** Every field has its type's width, and lengths fit a 64-bit `usize`. */
  ghost predicate WellFormed(h: BlockHeader) {
    && |h.parentHash| == |h.ommersHash| == |h.stateRoot| == 32
    && |h.transactionsRoot| == |h.receiptsRoot| == |h.mixHash| == 32
    && |h.beneficiary| == 20 && |h.logsBloom| == 256
    && |MinBe(h.difficulty)| <= 32
    && h.number < TWO_TO_THE_64 && h.gasLimit < TWO_TO_THE_64 && h.gasUsed < TWO_TO_THE_64
    && h.timestamp < TWO_TO_THE_64 && h.nonce < TWO_TO_THE_64
    && |h.extraData| < TWO_TO_THE_64
    && TailFits(TailOf(h))
  }

  function TailOf(h: BlockHeader): Tail {
    Tail(h.baseFee, h.withdrawalsRoot)
  }

  ghost predicate TailFits(t: Tail) {
    && (t.baseFee.Some? ==> t.baseFee.value < TWO_TO_THE_64)
    && (t.withdrawalsRoot.Some? ==> |t.withdrawalsRoot.value| == 32)
  }

  function Assemble(items: seq<Value>, t: Tail): BlockHeader
    requires |items| == |SLOTS|
  {
    BlockHeader(TextOf(items[0]), TextOf(items[1]), TextOf(items[2]), TextOf(items[3]), TextOf(items[4]),
      TextOf(items[5]), TextOf(items[6]), NumberOf(items[7]), NumberOf(items[8]), NumberOf(items[9]),
      NumberOf(items[10]), NumberOf(items[11]),
      TextOf(items[12]), TextOf(items[13]), FromBe(TextOf(items[14])), t.baseFee, t.withdrawalsRoot)
  }

  // ---------------------------------------------------------------- encoding

  function EncodeTail(t: Tail): Bytes {
    (if t.baseFee.Some? then Encode(Num(t.baseFee.value))
     else if t.withdrawalsRoot.Some? then [EMPTY_STRING_CODE]
     else [])
    + if t.withdrawalsRoot.Some? then Encode(Str(t.withdrawalsRoot.value)) else []
  }

  function TailLength(t: Tail): nat {
    (if t.baseFee.Some? then Length(Num(t.baseFee.value)) else if t.withdrawalsRoot.Some? then 1 else 0)
    + if t.withdrawalsRoot.Some? then Length(Str(t.withdrawalsRoot.value)) else 0
  }

  function HeaderPayloadLength(h: BlockHeader): nat {
    PayloadLength(ItemsOf(h)) + TailLength(TailOf(h))
  }

  function EncodeBlockHeader(h: BlockHeader): Bytes {
    EncodeHeader(Header(true, HeaderPayloadLength(h))) + EncodeAll(ItemsOf(h)) + EncodeTail(TailOf(h))
  }

  function BlockHeaderLength(h: BlockHeader): nat {
    HeaderPayloadLength(h) + LengthOfLength(HeaderPayloadLength(h))
  }

  // ---------------------------------------------------------------- decoding

  function DecodeSlot(slot: Slot, buf: Bytes): (r: Reading<Value>)
    ensures r.Read? ==> |r.rest| < |buf|
  {
    var shape := if slot.Plain? then slot.shape else Uint(32);
    match Decode(shape, buf)
    case Err(e) => Refused(e)
    case Ok(p) => if slot.Word? && NumberOf(p.value) >= TWO_TO_THE_64 then Panicked else Read(p.value, p.rest)
  }

  function DecodeSlots(slots: seq<Slot>, buf: Bytes): (r: Reading<seq<Value>>)
    ensures r.Read? ==> |r.value| == |slots| && |r.rest| <= |buf|
    decreases |slots|, |buf|
  {
    if slots == [] then Read([], buf)
    else
      match DecodeSlot(slots[0], buf)
      case Refused(e) => Refused(e)
      case Panicked => Panicked
      case Read(v, rest) =>
        match DecodeSlots(slots[1..], rest)
        case Refused(e) => Refused(e)
        case Panicked => Panicked
        case Read(more, left) => Read([v] + more, left)
  }

  /** The optional fields; `left` is what the list header still promises. */
  function DecodeTail(buf: Bytes, left: int): (r: Reading<Tail>)
    ensures r.Read? ==> |r.rest| <= |buf|
  {
    if left <= 0 then Read(Tail(None, None), buf)
    else if buf != [] && buf[0] == EMPTY_STRING_CODE then DecodeRoot(None, buf[1..], left - 1)
    else
      match DecodeSlot(Word, buf)
      case Refused(e) => Refused(e)
      case Panicked => Panicked
      case Read(v, rest) => DecodeRoot(Some(NumberOf(v)), rest, left - (|buf| - |rest|))
  }

  function DecodeRoot(baseFee: Option<nat>, buf: Bytes, left: int): (r: Reading<Tail>)
    ensures r.Read? ==> |r.rest| <= |buf|
  {
    if left <= 0 then Read(Tail(baseFee, None), buf)
    else
      match DecodeFixed(buf, 32)
      case Err(e) => Refused(e)
      case Ok(p) => Read(Tail(baseFee, Some(p.value)), p.rest)
  }

  function DecodeBlockHeader(buf: Bytes): Reading<BlockHeader> {
    match DecodeHeader(buf)
    case Err(e) => Refused(e)
    case Ok(p) =>
      if !p.value.list then Refused(UnexpectedString)
      else
        match DecodeSlots(SLOTS, p.rest)
        case Refused(e) => Refused(e)
        case Panicked => Panicked
        case Read(items, rest) =>
          match DecodeTail(rest, p.value.payload - (|p.rest| - |rest|))
          case Refused(e) => Refused(e)
          case Panicked => Panicked
          case Read(tail, left) =>
            var consumed := |p.rest| - |left|;
            if consumed != p.value.payload then Refused(ListLengthMismatch(p.value.payload, consumed))
            else Read(Assemble(items, tail), left)
  }

  // ---------------------------------------------------------------- the fixed fields

  /** A number below 2^64 is read the same through any wider type. */
  lemma {:induction false} ShortUint(buf: Bytes, wide: nat, n: nat, rest: Bytes)
    requires wide >= 8 && n < TWO_TO_THE_64
    ensures |MinBe(n)| <= 8
    ensures DecodeUint(buf, wide) == Ok(Parsed(n, rest)) <==> buf == EncodeBytes(MinBe(n)) + rest
  {
    EightBytes(n);
    UintExact(buf, wide, n, rest);
  }

  lemma {:induction false} WordExact(buf: Bytes, v: Value, rest: Bytes)
    ensures DecodeSlot(Word, buf) == Read(v, rest) <==> SlotHolds(Word, v) && buf == Encode(v) + rest
  {
    if v.Num? {
      EightBytes(v.number);
    }
    if v.Num? && v.number < TWO_TO_THE_64 {
      ShortUint(buf, 32, v.number, rest);
    }
  }

  lemma {:induction false} SlotExact(slot: Slot, buf: Bytes, v: Value, rest: Bytes)
    requires SlotNarrow(slot)
    ensures DecodeSlot(slot, buf) == Read(v, rest) <==> SlotHolds(slot, v) && buf == Encode(v) + rest
  {
    if slot.Plain? {
      DecodeExact(slot.shape, buf, v, rest);
    } else {
      WordExact(buf, v, rest);
    }
  }

  lemma {:induction false} SlotsCons(slots: seq<Slot>, items: seq<Value>)
    requires slots != [] && items != []
    ensures SlotsHold(slots, items) <==> SlotHolds(slots[0], items[0]) && SlotsHold(slots[1..], items[1..])
  {
    if SlotsHold(slots, items) {
      assert SlotHolds(slots[0], items[0]);
      forall i | 0 <= i < |slots| - 1 ensures SlotHolds(slots[1..][i], items[1..][i]) {
        assert SlotHolds(slots[i + 1], items[i + 1]);
      }
    }
    if SlotHolds(slots[0], items[0]) && SlotsHold(slots[1..], items[1..]) {
      forall i | 0 <= i < |slots| ensures SlotHolds(slots[i], items[i]) {
        if i > 0 {
          assert SlotHolds(slots[1..][i - 1], items[1..][i - 1]);
        }
      }
    }
  }

  lemma {:induction false} NarrowCons(slots: seq<Slot>)
    requires SlotsNarrow(slots) && slots != []
    ensures SlotNarrow(slots[0]) && SlotsNarrow(slots[1..])
  {
    forall i | 0 <= i < |slots| - 1 ensures SlotNarrow(slots[1..][i]) {
      assert SlotNarrow(slots[i + 1]);
    }
  }

  lemma {:induction false} SlotsSound(slots: seq<Slot>, buf: Bytes)
    requires SlotsNarrow(slots)
    requires DecodeSlots(slots, buf).Read?
    ensures var r := DecodeSlots(slots, buf); SlotsHold(slots, r.value) && buf == EncodeAll(r.value) + r.rest
    decreases |slots|
  {
    if slots != [] {
      var first := DecodeSlot(slots[0], buf);
      NarrowCons(slots);
      SlotExact(slots[0], buf, first.value, first.rest);
      SlotsSound(slots[1..], first.rest);
      var more := DecodeSlots(slots[1..], first.rest);
      SlotsJoin(slots, buf, first.value, more.value, more.rest);
    }
  }

  lemma {:induction false} SlotsJoin(slots: seq<Slot>, buf: Bytes, v: Value, more: seq<Value>, rest: Bytes)
    requires slots != [] && SlotHolds(slots[0], v) && SlotsHold(slots[1..], more)
    requires buf == Encode(v) + (EncodeAll(more) + rest)
    ensures SlotsHold(slots, [v] + more) && buf == EncodeAll([v] + more) + rest
  {
    var items := [v] + more;
    assert items[1..] == more;
    SlotsCons(slots, items);
    assert Encode(v) + (EncodeAll(more) + rest) == EncodeAll(items) + rest;
  }

  lemma {:induction false} SlotsComplete(slots: seq<Slot>, items: seq<Value>, rest: Bytes)
    requires SlotsNarrow(slots)
    requires SlotsHold(slots, items)
    ensures DecodeSlots(slots, EncodeAll(items) + rest) == Read(items, rest)
    decreases |slots|
  {
    if slots == [] {
      assert EncodeAll(items) + rest == rest;
    } else {
      var more := EncodeAll(items[1..]) + rest;
      NarrowCons(slots);
      SlotsCons(slots, items);
      assert EncodeAll(items) + rest == Encode(items[0]) + more;
      SlotExact(slots[0], EncodeAll(items) + rest, items[0], more);
      SlotsComplete(slots[1..], items[1..], rest);
      assert items == [items[0]] + items[1..];
    }
  }

  // ---------------------------------------------------------------- the optional fields

  /** What the optional fields are read from: their own bytes, or a placeholder that stands for nothing. */
  ghost predicate TailWritten(t: Tail, buf: Bytes, rest: Bytes) {
    || buf == EncodeTail(t) + rest
    || (t == Tail(None, None) && buf == [EMPTY_STRING_CODE] + rest)
  }

  lemma {:induction false} FirstByte(n: nat)
    requires n < TWO_TO_THE_64
    ensures Encode(Num(n))[0] == EMPTY_STRING_CODE <==> n == 0
    ensures n == 0 ==> Encode(Num(n)) == [EMPTY_STRING_CODE]
  {
    EightBytes(n);
    if n == 0 {
      assert EncodeBytes([]) == [EMPTY_STRING_CODE] + [];
    }
  }

  lemma {:induction false} RootExact(baseFee: Option<nat>, buf: Bytes, left: int, root: Option<Bytes>, rest: Bytes)
    requires left == |buf| - |rest|
    ensures DecodeRoot(baseFee, buf, left) == Read(Tail(baseFee, root), rest) <==>
      if root.Some? then |root.value| == 32 && buf == Encode(Str(root.value)) + rest else buf == rest
  {
    if root.Some? {
      FixedExact(buf, 32, root.value, rest);
    }
  }

  lemma {:induction false} TailSound(buf: Bytes, t: Tail, rest: Bytes)
    requires DecodeTail(buf, |buf| - |rest|) == Read(t, rest)
    ensures TailFits(t) && t.baseFee != Some(0) && TailWritten(t, buf, rest)
  {
    hide Encode, DecodeSlot, DecodeFixed;
    var left := |buf| - |rest|;
    if left > 0 && buf[0] == EMPTY_STRING_CODE {
      assert buf == [EMPTY_STRING_CODE] + buf[1..];
      RootExact(None, buf[1..], left - 1, t.withdrawalsRoot, rest);
    } else if left > 0 {
      var word := DecodeSlot(Word, buf);
      var n := NumberOf(word.value);
      WordExact(buf, word.value, word.rest);
      EightBytes(n);
      FirstByte(n);
      RootExact(Some(n), word.rest, left - (|buf| - |word.rest|), t.withdrawalsRoot, rest);
    }
  }

  /** A zero base fee has the bytes of a missing one. */
  function Normal(t: Tail): Tail {
    if t.baseFee == Some(0) then t.(baseFee := None) else t
  }

  lemma {:induction false} TailComplete(t: Tail, rest: Bytes)
    requires TailFits(t)
    ensures DecodeTail(EncodeTail(t) + rest, |EncodeTail(t)|) == Read(Normal(t), rest)
  {
    hide Encode, DecodeSlot, DecodeFixed;
    var buf := EncodeTail(t) + rest;
    var root := if t.withdrawalsRoot.Some? then Encode(Str(t.withdrawalsRoot.value)) else [];
    if t.baseFee.Some? && t.baseFee.value != 0 {
      var n := t.baseFee.value;
      assert buf == Encode(Num(n)) + (root + rest);
      EightBytes(n);
      FirstByte(n);
      WordExact(buf, Num(n), root + rest);
      RootExact(Some(n), root + rest, |root|, t.withdrawalsRoot, rest);
    } else if t.baseFee.Some? || t.withdrawalsRoot.Some? {
      FirstByte(0);
      assert buf == [EMPTY_STRING_CODE] + (root + rest);
      assert buf[1..] == root + rest;
      RootExact(None, root + rest, |root|, t.withdrawalsRoot, rest);
    } else {
      assert buf == rest;
    }
  }

  lemma {:induction false} TailLengthExact(t: Tail)
    requires TailFits(t)
    ensures TailLength(t) == |EncodeTail(t)|
  {
    if t.baseFee.Some? {
      EightBytes(t.baseFee.value);
      FitsIsCanonical(Num(t.baseFee.value));
    }
    if t.withdrawalsRoot.Some? {
      FitsIsCanonical(Str(t.withdrawalsRoot.value));
    }
  }

  // ---------------------------------------------------------------- whole headers

  lemma {:induction false} SlotsAreNarrow()
    ensures SlotsNarrow(SLOTS)
  {
  }

  lemma {:induction false} ItemsHold(h: BlockHeader)
    requires WellFormed(h)
    ensures SlotsHold(SLOTS, ItemsOf(h)) && Assemble(ItemsOf(h), TailOf(h)) == h
  {
    hide MinBe, FromBe, ToBe, Pow256, EncodeAll, EncodeTail;
    EightBytes(h.number);
    EightBytes(h.gasLimit);
    EightBytes(h.gasUsed);
    EightBytes(h.timestamp);
    EightBytes(h.nonce);
    FromToBe(h.nonce, 8);
  }

  lemma {:induction false} SlotsApart(items: seq<Value>)
    requires SlotsHold(SLOTS, items)
    ensures forall i {:trigger items[i]} :: 0 <= i < |SLOTS| ==> SlotHolds(SLOTS[i], items[i])
  {
  }

  lemma {:induction false} AssembleFits(items: seq<Value>, t: Tail)
    requires SlotsHold(SLOTS, items) && TailFits(t)
    ensures WellFormed(Assemble(items, t))
  {
    hide MinBe, FromBe, ToBe, Pow256;
    SlotsApart(items);
    EightBytes(NumberOf(items[8]));
    EightBytes(NumberOf(items[9]));
    EightBytes(NumberOf(items[10]));
    EightBytes(NumberOf(items[11]));
    ToFromBe(TextOf(items[14]));
    FromBeEight(TextOf(items[14]));
  }

  lemma {:induction false} FromBeEight(bs: Bytes)
    requires |bs| == 8
    ensures FromBe(bs) < TWO_TO_THE_64
  {
    FromBeBound(bs);
    MinBeLength(FromBe(bs), 8);
    EightBytes(FromBe(bs));
  }

  lemma {:induction false} AssembleHolds(items: seq<Value>, t: Tail)
    requires SlotsHold(SLOTS, items) && TailFits(t)
    ensures WellFormed(Assemble(items, t)) && ItemsOf(Assemble(items, t)) == items
  {
    hide MinBe, FromBe, ToBe, Pow256, WellFormed;
    AssembleFits(items, t);
    SlotsApart(items);
    ToFromBe(TextOf(items[14]));
    var again := ItemsOf(Assemble(items, t));
    assert forall i :: 0 <= i < |SLOTS| ==> again[i] == items[i];
  }

  function Body(h: BlockHeader): Bytes {
    EncodeAll(ItemsOf(h)) + EncodeTail(TailOf(h))
  }

  /** A header whose fields have their widths and whose payload fits a 64-bit `usize`. */
  ghost predicate Writable(h: BlockHeader) {
    WellFormed(h) && |Body(h)| < TWO_TO_THE_64
  }

  ghost predicate Encoded(h: BlockHeader, buf: Bytes, rest: Bytes) {
    Writable(h) && buf == EncodeBlockHeader(h) + rest
  }

  lemma {:induction false} SlotsFit(slots: seq<Slot>, items: seq<Value>)
    requires SlotsHold(slots, items)
    ensures AllFit(items)
    decreases |slots|
  {
    if slots != [] {
      SlotsCons(slots, items);
      SlotsFit(slots[1..], items[1..]);
    }
  }

  lemma {:induction false} PayloadIsBody(h: BlockHeader)
    requires WellFormed(h)
    ensures HeaderPayloadLength(h) == |Body(h)|
    ensures EncodeBlockHeader(h) == EncodeHeader(Header(true, |Body(h)|)) + Body(h)
  {
    hide Encode, EncodeAll, EncodeTail, ItemsOf, SlotsHold, EncodeHeader, TailLength, PayloadLength;
    ItemsHold(h);
    SlotsFit(SLOTS, ItemsOf(h));
    AllFitIsCanonical(ItemsOf(h));
    TailLengthExact(TailOf(h));
  }

  /** `length` is the number of bytes `encode` writes. */
  lemma {:induction false} BlockHeaderLengthExact(h: BlockHeader)
    requires Writable(h)
    ensures BlockHeaderLength(h) == |EncodeBlockHeader(h)|
  {
    PayloadIsBody(h);
    HeaderLength(Header(true, |Body(h)|));
  }

  /** A written header is read back, with a zero base fee turned into a missing one. */
  lemma {:induction false} BlockHeaderReadBack(h: BlockHeader, rest: Bytes)
    requires Writable(h)
    ensures DecodeBlockHeader(EncodeBlockHeader(h) + rest) ==
      Read(if h.baseFee == Some(0) then h.(baseFee := None) else h, rest)
  {
    hide EncodeAll, EncodeTail, ItemsOf, SlotsHold, SlotsNarrow, EncodeHeader, DecodeHeader, DecodeSlots, DecodeTail;
    var buf, head := EncodeBlockHeader(h) + rest, Header(true, |Body(h)|);
    var items, tail := ItemsOf(h), EncodeTail(TailOf(h));
    PayloadIsBody(h);
    ItemsHold(h);
    assert Body(h) + rest == EncodeAll(items) + (tail + rest);
    assert buf == EncodeHeader(head) + (Body(h) + rest);
    HeaderComplete(head, Body(h) + rest);
    SlotsAreNarrow();
    SlotsComplete(SLOTS, items, tail + rest);
    TailComplete(TailOf(h), rest);
  }

  lemma {:induction false} EncodedFrom(h: BlockHeader, buf: Bytes, rest: Bytes)
    requires WellFormed(h) && DecodeHeader(buf).Ok? && DecodeHeader(buf).value.value == Header(true, |Body(h)|)
    requires DecodeHeader(buf).value.rest == Body(h) + rest
    ensures Encoded(h, buf, rest)
  {
    hide Body, WellFormed, EncodeBlockHeader, EncodeHeader, DecodeHeader;
    HeaderSound(buf);
    PayloadIsBody(h);
    var head := EncodeHeader(Header(true, |Body(h)|));
    assert head + (Body(h) + rest) == head + Body(h) + rest;
  }

  /** Whatever is read was written, either as such or with a zero for the missing base fee. */
  lemma {:induction false} BlockHeaderSound(buf: Bytes, h: BlockHeader, rest: Bytes)
    requires DecodeBlockHeader(buf) == Read(h, rest)
    ensures h.baseFee != Some(0)
    ensures Encoded(h, buf, rest) || (h.baseFee.None? && Encoded(h.(baseFee := Some(0)), buf, rest))
  {
    hide WellFormed, Encoded, EncodeAll, EncodeTail, ItemsOf, SlotsHold, SlotsNarrow;
    hide DecodeHeader, DecodeSlots, DecodeTail;
    var p := DecodeHeader(buf).value;
    var slots := DecodeSlots(SLOTS, p.rest);
    var mid := slots.rest;
    SlotsAreNarrow();
    SlotsSound(SLOTS, p.rest);
    var t := DecodeTail(mid, |mid| - |rest|).value;
    TailSound(mid, t, rest);
    AssembleHolds(slots.value, t);
    assert TailOf(h) == t && ItemsOf(h) == slots.value;
    if mid == EncodeTail(t) + rest {
      assert p.rest == Body(h) + rest;
      EncodedFrom(h, buf, rest);
    } else {
      var zero := h.(baseFee := Some(0));
      ZeroTail(h);
      assert p.rest == Body(zero) + rest;
      EncodedFrom(zero, buf, rest);
    }
  }

  lemma {:induction false} ZeroTail(h: BlockHeader)
    requires WellFormed(h) && TailOf(h) == Tail(None, None)
    ensures var zero := h.(baseFee := Some(0));
      WellFormed(zero) && ItemsOf(zero) == ItemsOf(h) && EncodeTail(TailOf(zero)) == [EMPTY_STRING_CODE]
  {
    FirstByte(0);
  }

  /**
   * The exact meaning of decoding: a header and a remainder come from that header's bytes followed by the
   * remainder, or, when the base fee is missing, from the bytes of the same header with a zero base fee.
   */
  lemma {:induction false} BlockHeaderExact(buf: Bytes, h: BlockHeader, rest: Bytes)
    ensures DecodeBlockHeader(buf) == Read(h, rest) <==>
      && h.baseFee != Some(0)
      && (Encoded(h, buf, rest) || (h.baseFee.None? && Encoded(h.(baseFee := Some(0)), buf, rest)))
  {
    hide DecodeBlockHeader, Writable, EncodeBlockHeader;
    if DecodeBlockHeader(buf) == Read(h, rest) {
      BlockHeaderSound(buf, h, rest);
    }
    if Encoded(h, buf, rest) {
      BlockHeaderReadBack(h, rest);
    }
    if h.baseFee.None? && Encoded(h.(baseFee := Some(0)), buf, rest) {
      BlockHeaderReadBack(h.(baseFee := Some(0)), rest);
      assert h.(baseFee := Some(0)).(baseFee := None) == h;
    }
  }

  /** The round trip holds exactly for headers whose base fee is not a written zero. */
  lemma {:induction false} BlockHeaderRoundTrip(h: BlockHeader, rest: Bytes)
    requires Writable(h)
    ensures DecodeBlockHeader(EncodeBlockHeader(h) + rest) == Read(h, rest) <==> h.baseFee != Some(0)
  {
    hide DecodeBlockHeader, Writable, EncodeBlockHeader;
    BlockHeaderReadBack(h, rest);
  }

  // ---------------------------------------------------------------- the codec as it runs

  method WriteBlockHeader(h: BlockHeader, out: Output)
    modifies out
    ensures out.bytes == old(out.bytes) + EncodeBlockHeader(h)
  {
    hide EncodeHeader, Encode, ItemsOf;
    ghost var before := out.bytes;
    out.PutHeader(Header(true, HeaderPayloadLength(h)));
    var items := ItemsOf(h);
    ghost var start := out.bytes;
    var i := 0;
    while i < |items|
      invariant i <= |items| && out.bytes == start + EncodeAll(items[..i])
    {
      EncodeAllSnoc(items, i);
      out.PutValue(items[i]);
      i := i + 1;
    }
    assert items[..i] == items;
    WriteTail(TailOf(h), out);
    assert out.bytes == before + EncodeBlockHeader(h);
  }

  method WriteTail(t: Tail, out: Output)
    modifies out
    ensures out.bytes == old(out.bytes) + EncodeTail(t)
  {
    hide Encode;
    if t.baseFee.Some? {
      out.PutValue(Num(t.baseFee.value));
    } else if t.withdrawalsRoot.Some? {
      out.Put([EMPTY_STRING_CODE]);
    }
    if t.withdrawalsRoot.Some? {
      out.PutValue(Str(t.withdrawalsRoot.value));
    }
  }

  /** What a reader leaves behind. */
  ghost predicate Leaves<T(!new)>(r: Reading<T>, buf: Bytes, spec: Reading<T>) {
    match spec
    case Read(v, rest) => r == spec && buf == rest
    case _ => r == spec
  }

  method ReadSlot(slot: Slot, cursor: Cursor) returns (r: Reading<Value>)
    modifies cursor
    ensures Leaves(r, cursor.buf, DecodeSlot(slot, old(cursor.buf)))
  {
    hide Decode;
    var v := cursor.Read(if slot.Plain? then slot.shape else Uint(32));
    if v.Err? {
      return Refused(v.error);
    }
    if slot.Word? && NumberOf(v.value) >= TWO_TO_THE_64 {
      return Panicked;
    }
    return Read(v.value, cursor.buf);
  }

  method ReadTail(cursor: Cursor, started: nat, payload: nat) returns (r: Reading<Tail>)
    requires |cursor.buf| <= started
    modifies cursor
    ensures Leaves(r, cursor.buf, DecodeTail(old(cursor.buf), payload - (started - |old(cursor.buf)|)))
  {
    hide DecodeSlot, DecodeFixed;
    var baseFee: Option<nat> := None;
    var root: Option<Bytes> := None;
    if started - |cursor.buf| < payload {
      if cursor.buf != [] && cursor.buf[0] == EMPTY_STRING_CODE {
        cursor.Advance(1);
      } else {
        var word := ReadSlot(Word, cursor);
        if word.Refused? {
          return Refused(word.error);
        }
        if word.Panicked? {
          return Panicked;
        }
        baseFee := Some(NumberOf(word.value));
      }
    }
    if started - |cursor.buf| < payload {
      var fixed := cursor.ReadFixed(32);
      if fixed.Err? {
        return Refused(fixed.error);
      }
      root := Some(fixed.value);
    }
    return Read(Tail(baseFee, root), cursor.buf);
  }

  /** Slots read so far, then the rest. */
  ghost function AfterSlots(so: seq<Value>, more: Reading<seq<Value>>): Reading<seq<Value>> {
    match more
    case Read(items, rest) => Read(so + items, rest)
    case _ => more
  }

  lemma {:induction false} AfterSlot(slots: seq<Slot>, buf: Bytes, so: seq<Value>)
    requires slots != []
    ensures match DecodeSlot(slots[0], buf)
      case Read(v, rest) =>
        AfterSlots(so, DecodeSlots(slots, buf)) == AfterSlots(so + [v], DecodeSlots(slots[1..], rest))
      case Refused(e) => AfterSlots(so, DecodeSlots(slots, buf)) == Refused(e)
      case Panicked => AfterSlots(so, DecodeSlots(slots, buf)) == Panicked
  {
    hide DecodeSlot;
    var first := DecodeSlot(slots[0], buf);
    if first.Read? {
      var more := DecodeSlots(slots[1..], first.rest);
      if more.Read? {
        assert so + ([first.value] + more.value) == so + [first.value] + more.value;
      }
    }
  }

  method ReadSlots(slots: seq<Slot>, cursor: Cursor) returns (r: Reading<seq<Value>>)
    modifies cursor
    ensures Leaves(r, cursor.buf, DecodeSlots(slots, old(cursor.buf)))
  {
    hide DecodeSlot, DecodeSlots;
    ghost var whole := DecodeSlots(slots, cursor.buf);
    var i, items := 0, [];
    assert slots[0..] == slots;
    assert whole.Read? ==> [] + whole.value == whole.value;
    while i < |slots|
      invariant i <= |slots|
      invariant whole == AfterSlots(items, DecodeSlots(slots[i..], cursor.buf))
    {
      AfterSlot(slots[i..], cursor.buf, items);
      assert slots[i..][1..] == slots[i + 1..];
      var v := ReadSlot(slots[i], cursor);
      if v.Refused? {
        return Refused(v.error);
      }
      if v.Panicked? {
        return Panicked;
      }
      items, i := items + [v.value], i + 1;
    }
    assert DecodeSlots([], cursor.buf) == Read([], cursor.buf) by {
      NoSlots(cursor.buf);
    }
    assert slots[i..] == [] && items + [] == items;
    return Read(items, cursor.buf);
  }

  lemma {:induction false} NoSlots(buf: Bytes)
    ensures DecodeSlots([], buf) == Read([], buf)
  {
  }

  method ReadBlockHeader(cursor: Cursor) returns (r: Reading<BlockHeader>)
    modifies cursor
    ensures Leaves(r, cursor.buf, DecodeBlockHeader(old(cursor.buf)))
  {
    hide DecodeHeader, DecodeSlots, DecodeTail;
    var head := cursor.ReadHeader();
    if head.Err? {
      return Refused(head.error);
    }
    if !head.value.list {
      return Refused(UnexpectedString);
    }
    var started := |cursor.buf|;
    var items := ReadSlots(SLOTS, cursor);
    if items.Refused? {
      return Refused(items.error);
    }
    if items.Panicked? {
      return Panicked;
    }
    var tail := ReadTail(cursor, started, head.value.payload);
    if tail.Refused? {
      return Refused(tail.error);
    }
    if tail.Panicked? {
      return Panicked;
    }
    var consumed := started - |cursor.buf|;
    if consumed != head.value.payload {
      return Refused(ListLengthMismatch(head.value.payload, consumed));
    }
    return Read(Assemble(items.value, tail.value), cursor.buf);
  }
}
