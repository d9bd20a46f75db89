/** The receipt codec: a plain list for legacy receipts, a tagged list inside a byte string for typed ones. */
module ReceiptCodec {
  import opened Words
  import opened Wrappers
  import opened BigEndian
  import opened Rlp
  import opened RlpExact
  import opened RlpBuffers

  datatype TxType = Legacy | EIP2930 | EIP1559

  datatype Log = Log(address: Bytes, topics: seq<Bytes>, data: Bytes)

  datatype Receipt = Receipt(txType: TxType, success: bool, cumulativeGasUsed: nat, bloom: Bytes, logs: seq<Log>)

  const LOG: Shape := Struct(Field(Fixed(20), Field(Vector(Fixed(32)), Field(Text, End))))

  const BODY: Shape := Struct(Field(Flag, Field(Uint(8), Field(Fixed(256), Field(Vector(LOG), End)))))

  // ---------------------------------------------------------------- receipts as values

  function ItemsOf(v: Value): seq<Value> {
    if v.List? then v.items else []
  }

  function Item(v: Value, i: nat): Value {
    if v.List? && i < |v.items| then v.items[i] else Str([])
  }

  function LogValue(l: Log): Value {
    List([Str(l.address), List(seq(|l.topics|, i requires 0 <= i < |l.topics| => Str(l.topics[i]))), Str(l.data)])
  }

  function ValueLog(v: Value): Log {
    var topics := ItemsOf(Item(v, 1));
    Log(TextOf(Item(v, 0)), seq(|topics|, i requires 0 <= i < |topics| => TextOf(topics[i])), TextOf(Item(v, 2)))
  }

  function LogValues(logs: seq<Log>): (items: seq<Value>)
    ensures |items| == |logs| && forall i :: 0 <= i < |logs| ==> items[i] == LogValue(logs[i])
  {
    seq(|logs|, i requires 0 <= i < |logs| => LogValue(logs[i]))
  }

  function BodyValue(r: Receipt): Value {
    List([Bit(r.success), Num(r.cumulativeGasUsed), Str(r.bloom), List(LogValues(r.logs))])
  }

  function ValueReceipt(txType: TxType, v: Value): Receipt {
    var gas, logs := Item(v, 1), ItemsOf(Item(v, 3));
    Receipt(txType, Item(v, 0) == Bit(true), NumberOf(gas), TextOf(Item(v, 2)),
      seq(|logs|, i requires 0 <= i < |logs| => ValueLog(logs[i])))
  }

  /** Field widths hold and lengths fit a 64-bit `usize`. */
  ghost predicate WellFormed(r: Receipt) {
    HasShape(BODY, BodyValue(r)) && Fits(BodyValue(r)) && |Tagged(r)| < TWO_TO_THE_64
  }

  // ---------------------------------------------------------------- encoding

  function Body(r: Receipt): Bytes {
    Encode(BodyValue(r))
  }

  /** The tag of a typed receipt. */
  function Tag(txType: TxType): Bytes {
    match txType
    case Legacy => []
    case EIP2930 => [1]
    case EIP1559 => [2]
  }

  function Tagged(r: Receipt): Bytes {
    Tag(r.txType) + Body(r)
  }

  function EncodeInner(r: Receipt, withHeader: bool): Bytes {
    if r.txType.Legacy? then Body(r)
    else (if withHeader then EncodeHeader(Header(false, |Body(r)| + 1)) else []) + Tagged(r)
  }

  function EncodeReceipt(r: Receipt): Bytes {
    EncodeInner(r, true)
  }

  function ReceiptLength(r: Receipt): nat {
    var list := Length(BodyValue(r));
    if r.txType.Legacy? then list else list + 1 + LengthOfLength(list + 1)
  }

  // ---------------------------------------------------------------- decoding

  function DecodeBody(txType: TxType, buf: Bytes): Outcome<Receipt> {
    var p :- Decode(BODY, buf);
    Ok(Parsed(ValueReceipt(txType, p.value), p.rest))
  }

  /** After the string header of a typed receipt, which is read and ignored. */
  function DecodeTagged(buf: Bytes): Outcome<Receipt> {
    if buf == [] then Err(Custom("typed receipt cannot be decoded from an empty slice"))
    else if buf[0] == 1 then DecodeBody(EIP2930, buf[1..])
    else if buf[0] == 2 then DecodeBody(EIP1559, buf[1..])
    else Err(Custom("invalid receipt type"))
  }

  function DecodeReceipt(buf: Bytes): Outcome<Receipt> {
    if buf == [] then Err(Custom("cannot decode a receipt from empty bytes"))
    else if buf[0] < EMPTY_LIST_CODE then
      var p :- DecodeHeader(buf);
      DecodeTagged(p.rest)
    else if buf[0] == EMPTY_LIST_CODE then Err(Custom("an empty list is not a valid receipt encoding"))
    else DecodeBody(Legacy, buf)
  }

  // ---------------------------------------------------------------- values and receipts

  lemma {:induction false} EachHasShape(element: Shape, items: seq<Value>, i: nat)
    requires AllHaveShape(element, items) && i < |items|
    ensures HasShape(element, items[i])
    decreases i
  {
    if i > 0 {
      EachHasShape(element, items[1..], i - 1);
    }
  }

  lemma {:induction false} LogBack(v: Value)
    requires HasShape(LOG, v)
    ensures LogValue(ValueLog(v)) == v
  {
    var items := v.items;
    assert HaveShapes(LOG.fields, items);
    assert HaveShapes(LOG.fields.tail, items[1..]);
    assert HaveShapes(LOG.fields.tail.tail, items[1..][1..]);
    assert HaveShapes(End, items[1..][1..][1..]);
    assert |items| == 3 && items[1..][0] == items[1] && items[1..][1..][0] == items[2];
    assert HasShape(Fixed(20), items[0]) && HasShape(Vector(Fixed(32)), items[1]) && HasShape(Text, items[2]);
    var topics := items[1].items;
    forall i | 0 <= i < |topics| ensures Str(TextOf(topics[i])) == topics[i] {
      EachHasShape(Fixed(32), topics, i);
    }
    var again := LogValue(ValueLog(v)).items;
    assert again[1].items == topics;
    assert items == again;
  }

  lemma {:induction false} BodyBack(txType: TxType, v: Value)
    requires HasShape(BODY, v)
    ensures BodyValue(ValueReceipt(txType, v)) == v
  {
    hide LogValue, ValueLog;
    var items := v.items;
    assert HaveShapes(BODY.fields, items);
    assert HaveShapes(BODY.fields.tail, items[1..]);
    assert HaveShapes(BODY.fields.tail.tail, items[1..][1..]);
    assert HaveShapes(BODY.fields.tail.tail.tail, items[1..][1..][1..]);
    assert HaveShapes(End, items[1..][1..][1..][1..]);
    assert |items| == 4 && items[1..][0] == items[1] && items[1..][1..][0] == items[2];
    assert items[1..][1..][1..][0] == items[3];
    assert HasShape(Flag, items[0]) && HasShape(Uint(8), items[1]) && HasShape(Fixed(256), items[2]);
    assert HasShape(Vector(LOG), items[3]);
    var logs := items[3].items;
    forall i | 0 <= i < |logs| ensures LogValue(ValueLog(logs[i])) == logs[i] {
      EachHasShape(LOG, logs, i);
      LogBack(logs[i]);
    }
    assert LogValues(ValueReceipt(txType, v).logs) == logs;
    assert items == BodyValue(ValueReceipt(txType, v)).items;
  }

  lemma {:induction false} LogForth(l: Log)
    ensures ValueLog(LogValue(l)) == l
  {
    assert ValueLog(LogValue(l)).topics == l.topics;
  }

  lemma {:induction false} BodyForth(r: Receipt)
    ensures ValueReceipt(r.txType, BodyValue(r)) == r
  {
    hide LogValue, ValueLog;
    forall i | 0 <= i < |r.logs| ensures ValueLog(LogValue(r.logs[i])) == r.logs[i] {
      LogForth(r.logs[i]);
    }
    assert ValueReceipt(r.txType, BodyValue(r)).logs == r.logs;
  }

  ghost predicate BodyFits(r: Receipt) {
    HasShape(BODY, BodyValue(r)) && Fits(BodyValue(r))
  }

  lemma {:induction false} BodyExact(buf: Bytes, r: Receipt, rest: Bytes)
    ensures DecodeBody(r.txType, buf) == Ok(Parsed(r, rest)) <==> BodyFits(r) && buf == Body(r) + rest
  {
    hide Decode, Encode, HasShape, Fits, ValueReceipt, BodyValue;
    BodyForth(r);
    DecodeExact(BODY, buf, BodyValue(r), rest);
    if Decode(BODY, buf).Ok? {
      var p := Decode(BODY, buf).value;
      DecodeExact(BODY, buf, p.value, p.rest);
      BodyBack(r.txType, p.value);
    }
  }

  // ---------------------------------------------------------------- whole receipts

  /** A string header announcing `p` bytes, in front of the tagged body. */
  ghost predicate Announced(p: nat, r: Receipt, buf: Bytes, rest: Bytes) {
    && p != 1 && p < TWO_TO_THE_64 && p <= |Tagged(r) + rest|
    && buf == EncodeHeader(Header(false, p)) + (Tagged(r) + rest)
  }

  /**
   * The buffers from which a receipt is read. The announced length of a typed receipt plays no part,
   * and the string header may be missing altogether.
   */
  ghost predicate Accepted(r: Receipt, buf: Bytes, rest: Bytes) {
    && BodyFits(r)
    && if r.txType.Legacy? then buf == Body(r) + rest
       else buf == Tagged(r) + rest || exists p: nat :: Announced(p, r, buf, rest)
  }

  lemma {:induction false} BodyStart(r: Receipt)
    requires BodyFits(r)
    ensures Body(r) != [] && Body(r)[0] > EMPTY_LIST_CODE
  {
    hide HasShape;
    var items := BodyValue(r).items;
    AllFitIsCanonical(items);
    FitsIsCanonical(items[0]);
    if |EncodeAll(items)| >= 56 {
      LongLengths(|EncodeAll(items)|);
    }
  }

  lemma {:induction false} TaggedExact(buf: Bytes, r: Receipt, rest: Bytes)
    requires !r.txType.Legacy?
    ensures DecodeTagged(buf) == Ok(Parsed(r, rest)) <==> BodyFits(r) && buf == Tagged(r) + rest
  {
    hide DecodeBody, BodyFits, Body;
    if buf != [] {
      TagOf(EIP2930, buf[1..]);
      TagOf(EIP1559, buf[1..]);
      BodyExact(buf[1..], r, rest);
      assert buf == [buf[0]] + buf[1..];
    }
    if buf == Tagged(r) + rest {
      assert buf[1..] == Body(r) + rest;
      BodyExact(buf[1..], r, rest);
    }
  }

  lemma {:induction false} TagOf(txType: TxType, buf: Bytes)
    ensures DecodeBody(txType, buf).Ok? ==> DecodeBody(txType, buf).value.value.txType == txType
  {
    hide Decode;
  }

  /** A receipt and a remainder come exactly from the buffers described by `Accepted`. */
  lemma {:induction false} ReceiptExact(buf: Bytes, r: Receipt, rest: Bytes)
    ensures DecodeReceipt(buf) == Ok(Parsed(r, rest)) <==> Accepted(r, buf, rest)
  {
    if DecodeReceipt(buf) == Ok(Parsed(r, rest)) {
      ReceiptSound(buf, r, rest);
    }
    if Accepted(r, buf, rest) {
      ReceiptComplete(buf, r, rest);
    }
  }

  lemma {:induction false} ReceiptSound(buf: Bytes, r: Receipt, rest: Bytes)
    requires DecodeReceipt(buf) == Ok(Parsed(r, rest))
    ensures Accepted(r, buf, rest)
  {
    hide DecodeHeader, DecodeBody, EncodeHeader, BodyFits, Body;
    if buf[0] > EMPTY_LIST_CODE {
      TagOf(Legacy, buf);
      BodyExact(buf, r, rest);
    } else {
      var p := DecodeHeader(buf).value;
      TagOf(EIP2930, p.rest[1..]);
      TagOf(EIP1559, p.rest[1..]);
      TaggedExact(p.rest, r, rest);
      HeaderSound(buf);
      if buf[0] >= 0x80 {
        StringHeader(buf);
        assert Announced(p.value.payload, r, buf, rest);
      }
    }
  }

  lemma {:induction false} StringHeader(buf: Bytes)
    requires buf != [] && buf[0] < EMPTY_LIST_CODE && DecodeHeader(buf).Ok?
    ensures !DecodeHeader(buf).value.value.list
  {
  }

  lemma {:induction false} ReceiptComplete(buf: Bytes, r: Receipt, rest: Bytes)
    requires Accepted(r, buf, rest)
    ensures DecodeReceipt(buf) == Ok(Parsed(r, rest))
  {
    hide DecodeHeader, DecodeBody, EncodeHeader, BodyFits, Body;
    if r.txType.Legacy? {
      BodyStart(r);
      BodyExact(buf, r, rest);
    } else {
      TaggedExact(Tagged(r) + rest, r, rest);
      if buf == Tagged(r) + rest {
        LoneByte(buf);
      } else {
        var p: nat :| Announced(p, r, buf, rest);
        HeaderComplete(Header(false, p), Tagged(r) + rest);
        StringCode(p);
      }
    }
  }

  lemma {:induction false} LoneByte(buf: Bytes)
    requires buf != [] && buf[0] < 0x80
    ensures DecodeHeader(buf) == Ok(Parsed(Header(false, 1), buf))
  {
  }

  lemma {:induction false} StringCode(p: nat)
    requires p < TWO_TO_THE_64
    ensures EncodeHeader(Header(false, p))[0] < EMPTY_LIST_CODE
  {
    if p >= 56 {
      LongLengths(p);
    }
  }

  /** Written receipts are read back, whatever follows them. */
  lemma {:induction false} ReceiptRoundTrip(r: Receipt, rest: Bytes)
    requires WellFormed(r)
    ensures DecodeReceipt(EncodeReceipt(r) + rest) == Ok(Parsed(r, rest))
    ensures DecodeReceipt(EncodeInner(r, false) + rest) == Ok(Parsed(r, rest))
  {
    hide DecodeReceipt, HasShape, Fits, Body, EncodeHeader;
    if !r.txType.Legacy? {
      BodyStart(r);
      var p := |Body(r)| + 1;
      assert EncodeReceipt(r) + rest == EncodeHeader(Header(false, p)) + (Tagged(r) + rest);
      assert Announced(p, r, EncodeReceipt(r) + rest, rest);
      assert [] + Tagged(r) == Tagged(r);
    }
    ReceiptComplete(EncodeReceipt(r) + rest, r, rest);
    ReceiptComplete(EncodeInner(r, false) + rest, r, rest);
  }

  /** The decoder is not injective: a typed receipt can announce no bytes at all and still be read. */
  lemma {:induction false} AnnouncedLengthIgnored(r: Receipt, rest: Bytes)
    requires WellFormed(r) && !r.txType.Legacy?
    ensures DecodeReceipt([EMPTY_STRING_CODE] + Tagged(r) + rest) == Ok(Parsed(r, rest))
    ensures [EMPTY_STRING_CODE] + Tagged(r) + rest != EncodeReceipt(r) + rest
  {
    hide DecodeReceipt, HasShape, Fits, Body;
    var buf := [EMPTY_STRING_CODE] + Tagged(r) + rest;
    assert EncodeHeader(Header(false, 0)) == [EMPTY_STRING_CODE];
    assert buf == [EMPTY_STRING_CODE] + (Tagged(r) + rest);
    assert Announced(0, r, buf, rest);
    ReceiptComplete(buf, r, rest);
    var p := |Body(r)| + 1;
    assert (EncodeReceipt(r) + rest)[0] == EncodeHeader(Header(false, p))[0];
    if p >= 56 {
      LongLengths(p);
    }
  }

  /** `length` is the number of bytes `encode` writes. */
  lemma {:induction false} ReceiptLengthExact(r: Receipt)
    requires WellFormed(r)
    ensures ReceiptLength(r) == |EncodeReceipt(r)|
  {
    hide HasShape, Fits, Length, BodyValue, EncodeHeader, LengthOfLength, Encode;
    FitsIsCanonical(BodyValue(r));
    if !r.txType.Legacy? {
      HeaderLength(Header(false, |Body(r)| + 1));
    }
  }

  // ---------------------------------------------------------------- the codec as it runs

  method WriteReceipt(r: Receipt, withHeader: bool, out: Output)
    modifies out
    ensures out.bytes == old(out.bytes) + EncodeInner(r, withHeader)
  {
    hide EncodeHeader, Encode;
    ghost var before := out.bytes;
    if r.txType.Legacy? {
      out.PutValue(BodyValue(r));
      return;
    }
    var payload := new Output();
    payload.PutValue(BodyValue(r));
    assert payload.bytes == Body(r);
    if withHeader {
      out.PutHeader(Header(false, |payload.bytes| + 1));
    }
    out.Put(Tag(r.txType));
    out.Put(payload.bytes);
    assert out.bytes == before + EncodeInner(r, withHeader);
  }

  method ReadBody(txType: TxType, cursor: Cursor) returns (r: Result<Receipt, Error>)
    modifies cursor
    ensures Reads(r, cursor.buf, DecodeBody(txType, old(cursor.buf)))
  {
    hide Decode;
    var v :- cursor.Read(BODY);
    return Ok(ValueReceipt(txType, v));
  }

  method ReadReceipt(cursor: Cursor) returns (r: Result<Receipt, Error>)
    modifies cursor
    ensures Reads(r, cursor.buf, DecodeReceipt(old(cursor.buf)))
  {
    hide DecodeHeader, DecodeBody;
    if cursor.buf == [] {
      return Err(Custom("cannot decode a receipt from empty bytes"));
    }
    var first := cursor.buf[0];
    if first == EMPTY_LIST_CODE {
      return Err(Custom("an empty list is not a valid receipt encoding"));
    }
    if first > EMPTY_LIST_CODE {
      r := ReadBody(Legacy, cursor);
      return;
    }
    var ignored :- cursor.ReadHeader();
    if cursor.buf == [] {
      return Err(Custom("typed receipt cannot be decoded from an empty slice"));
    }
    var tag := cursor.buf[0];
    if tag == 1 {
      cursor.Advance(1);
      r := ReadBody(EIP2930, cursor);
    } else if tag == 2 {
      cursor.Advance(1);
      r := ReadBody(EIP1559, cursor);
    } else {
      return Err(Custom("invalid receipt type"));
    }
  }
}
