/**
 * Recursive Length Prefix serialisation, as in Appendix B of the Ethereum Yellow Paper.
 * The decoder reads a shape (what the caller's type says) from the front of a buffer.
 */
module Rlp {
  import opened Words
  import opened Wrappers
  import opened BigEndian

  const EMPTY_STRING_CODE: Byte := 0x80
  const EMPTY_LIST_CODE: Byte := 0xC0

  datatype Error =
    | Overflow
    | LeadingZero
    | InputTooShort
    | NonCanonicalSingleByte
    | NonCanonicalSize
    | UnexpectedLength
    | UnexpectedString
    | UnexpectedList
    | ListLengthMismatch(expected: nat, got: nat)
    | Custom(message: string)

  /** A value read from the front of a buffer, and the bytes after it. */
  datatype Parsed<+T> = Parsed(value: T, rest: Bytes)

  type Outcome<+T> = Result<Parsed<T>, Error>

  datatype Header = Header(list: bool, payload: nat)

  /** The types that can be read: byte strings, integers, byte arrays, vectors and derived structures. */
  datatype Shape =
    | Text
    | Uint(width: nat)
    | Fixed(size: nat)
    | Flag
    | Vector(element: Shape)
    | Struct(fields: Fields)

  datatype Fields = End | Field(head: Shape, tail: Fields)

  datatype Value = Str(bytes: Bytes) | Num(number: nat) | Bit(on: bool) | List(items: seq<Value>)

  /** The bytes of a string value. */
  function TextOf(v: Value): Bytes {
    if v.Str? then v.bytes else []
  }

  /** The number of an integer value. */
  function NumberOf(v: Value): nat {
    if v.Num? then v.number else 0
  }

  // ---------------------------------------------------------------- encoding

  function EncodeHeader(h: Header): (out: Bytes)
    ensures out != []
  {
    if h.payload < 56 then [(if h.list then EMPTY_LIST_CODE else EMPTY_STRING_CODE) + h.payload]
    else
      var len := ZerolessView(ToBe(h.payload, 8));
      [(if h.list then 0xF7 else 0xB7) + |len|] + len
  }

  function LengthOfLength(payload: nat): nat {
    if payload < 56 then 1 else 1 + 8 - LeadingZeros(payload, 64) / 8
  }

  predicate NeedsHeader(s: Bytes) {
    |s| != 1 || s[0] >= EMPTY_STRING_CODE
  }

  function EncodeBytes(s: Bytes): (out: Bytes)
    ensures out != []
  {
    if NeedsHeader(s) then EncodeHeader(Header(false, |s|)) + s else s
  }

  function BytesLength(s: Bytes): nat {
    |s| + if NeedsHeader(s) then LengthOfLength(|s|) else 0
  }

  /** Built-in integers, `width` bytes wide. */
  function EncodeUint(n: nat, width: nat): Bytes
    requires width <= 32
  {
    if n == 0 then [EMPTY_STRING_CODE]
    else if n < EMPTY_STRING_CODE then [n]
    else
      var be := ZerolessView(ToBe(n, width));
      [EMPTY_STRING_CODE + |be|] + be
  }

  function UintLength(n: nat, width: nat): nat {
    if n < EMPTY_STRING_CODE then 1 else 1 + width - LeadingZeros(n, 8 * width) / 8
  }

  function Encode(v: Value): (out: Bytes)
    ensures out != []
    decreases v
  {
    match v
    case Str(s) => EncodeBytes(s)
    case Num(n) => EncodeBytes(MinBe(n))
    case Bit(b) => EncodeUint(if b then 1 else 0, 1)
    case List(items) => EncodeHeader(Header(true, PayloadLength(items))) + EncodeAll(items)
  }

  function EncodeAll(items: seq<Value>): Bytes
    decreases items
  {
    if items == [] then [] else Encode(items[0]) + EncodeAll(items[1..])
  }

  function Length(v: Value): nat
    decreases v
  {
    match v
    case Str(s) => BytesLength(s)
    case Num(n) => if n < EMPTY_STRING_CODE then 1 else 1 + ByteLength(n)
    case Bit(b) => UintLength(if b then 1 else 0, 1)
    case List(items) => LengthOfLength(PayloadLength(items)) + PayloadLength(items)
  }

  function PayloadLength(items: seq<Value>): nat
    decreases items
  {
    if items == [] then 0 else Length(items[0]) + PayloadLength(items[1..])
  }

  // ---------------------------------------------------------------- decoding

  /** A payload length of at least 56, in `k` bytes. */
  function DecodeLong(buf: Bytes, k: nat): Outcome<nat> {
    if |buf| < k then Err(InputTooShort)
    else
      match StaticLeftPad(buf[..k], 8)
      case None => Err(LeadingZero)
      case Some(padded) =>
        if FromBe(padded) < 56 then Err(NonCanonicalSize) else Ok(Parsed(FromBe(padded), buf[k..]))
  }

  function DecodePrefix(buf: Bytes): (r: Outcome<Header>)
    requires buf != []
    ensures r.Ok? ==> |r.value.rest| <= |buf|
    ensures r.Ok? && buf[0] >= 0x80 ==> |r.value.rest| < |buf|
  {
    var b, rest := buf[0], buf[1..];
    if b < 0x80 then Ok(Parsed(Header(false, 1), buf))
    else if b < 0xB8 then
      if b == 0x81 && rest == [] then Err(InputTooShort)
      else if b == 0x81 && rest[0] < 0x80 then Err(NonCanonicalSingleByte)
      else Ok(Parsed(Header(false, b - 0x80), rest))
    else if b < 0xC0 then
      var p :- DecodeLong(rest, b - 0xB7);
      Ok(Parsed(Header(false, p.value), p.rest))
    else if b < 0xF8 then Ok(Parsed(Header(true, b - 0xC0), rest))
    else
      var p :- DecodeLong(rest, b - 0xF7);
      Ok(Parsed(Header(true, p.value), p.rest))
  }

  function DecodeHeader(buf: Bytes): (r: Outcome<Header>)
    ensures r.Ok? ==> buf != [] && r.value.value.payload <= |r.value.rest| <= |buf|
    ensures r.Ok? && (r.value.value.list || r.value.value.payload == 0) ==> |r.value.rest| < |buf|
  {
    if buf == [] then Err(InputTooShort)
    else
      var p :- DecodePrefix(buf);
      if |p.rest| < p.value.payload then Err(InputTooShort) else Ok(p)
  }

  /** The header and payload of a byte string. */
  function DecodeText(buf: Bytes): (r: Outcome<Bytes>)
    ensures r.Ok? ==> |r.value.rest| < |buf|
  {
    var p :- DecodeHeader(buf);
    if p.value.list then Err(UnexpectedList)
    else Ok(Parsed(p.rest[..p.value.payload], p.rest[p.value.payload..]))
  }

  function DecodeUint(buf: Bytes, width: nat): (r: Outcome<nat>)
    ensures r.Ok? ==> |r.value.rest| < |buf|
  {
    var p :- DecodeHeader(buf);
    if p.value.list then Err(UnexpectedList)
    else if p.value.payload > width then Err(Overflow)
    else if p.value.payload == 0 then Ok(Parsed(0, p.rest))
    else
      match StaticLeftPad(p.rest[..p.value.payload], width)
      case None => Err(LeadingZero)
      case Some(padded) => Ok(Parsed(FromBe(padded), p.rest[p.value.payload..]))
  }

  function DecodeFixed(buf: Bytes, size: nat): (r: Outcome<Bytes>)
    ensures r.Ok? ==> |r.value.rest| < |buf|
  {
    var p :- DecodeHeader(buf);
    if p.value.list then Err(UnexpectedList)
    else if p.value.payload != size then Err(UnexpectedLength)
    else Ok(Parsed(p.rest[..size], p.rest[size..]))
  }

  function DecodeFlag(buf: Bytes): (r: Outcome<bool>)
    ensures r.Ok? ==> |r.value.rest| < |buf|
  {
    var p :- DecodeUint(buf, 1);
    if p.value == 0 then Ok(Parsed(false, p.rest))
    else if p.value == 1 then Ok(Parsed(true, p.rest))
    else Err(Custom("invalid bool value, must be 0 or 1"))
  }

  function Decode(shape: Shape, buf: Bytes): (r: Outcome<Value>)
    ensures r.Ok? ==> |r.value.rest| < |buf|
    decreases shape, |buf|, 0
  {
    match shape
    case Text =>
      var p :- DecodeText(buf);
      Ok(Parsed(Str(p.value), p.rest))
    case Uint(width) =>
      var p :- DecodeUint(buf, width);
      Ok(Parsed(Num(p.value), p.rest))
    case Fixed(size) =>
      var p :- DecodeFixed(buf, size);
      Ok(Parsed(Str(p.value), p.rest))
    case Flag =>
      var p :- DecodeFlag(buf);
      Ok(Parsed(Bit(p.value), p.rest))
    case Vector(element) =>
      var p :- DecodeHeader(buf);
      if !p.value.list then Err(UnexpectedString)
      else
        var items :- DecodeAll(element, p.rest[..p.value.payload]);
        Ok(Parsed(List(items), p.rest[p.value.payload..]))
    case Struct(fields) =>
      var p :- DecodeHeader(buf);
      if !p.value.list then Err(UnexpectedString)
      else
        var items :- DecodeFields(fields, p.rest);
        var consumed := |p.rest| - |items.rest|;
        if consumed != p.value.payload then Err(ListLengthMismatch(p.value.payload, consumed))
        else Ok(Parsed(List(items.value), items.rest))
  }

  /** Elements until the view is empty. */
  function DecodeAll(element: Shape, view: Bytes): Result<seq<Value>, Error>
    decreases element, |view|, 1
  {
    if view == [] then Ok([])
    else
      var p :- Decode(element, view);
      var more :- DecodeAll(element, p.rest);
      Ok([p.value] + more)
  }

  function DecodeFields(fields: Fields, buf: Bytes): (r: Outcome<seq<Value>>)
    ensures r.Ok? ==> |r.value.rest| <= |buf|
    decreases fields, |buf|, 1
  {
    match fields
    case End => Ok(Parsed([], buf))
    case Field(head, tail) =>
      var p :- Decode(head, buf);
      var more :- DecodeFields(tail, p.rest);
      Ok(Parsed([p.value] + more.value, more.rest))
  }

  // ---------------------------------------------------------------- what can be encoded

  predicate HasShape(shape: Shape, v: Value)
    decreases v, 0
  {
    match shape
    case Text => v.Str?
    case Uint(width) => v.Num? && |MinBe(v.number)| <= width
    case Fixed(size) => v.Str? && |v.bytes| == size
    case Flag => v.Bit?
    case Vector(element) => v.List? && AllHaveShape(element, v.items)
    case Struct(fields) => v.List? && HaveShapes(fields, v.items)
  }

  predicate AllHaveShape(element: Shape, items: seq<Value>)
    decreases items, 1
  {
    items != [] ==> HasShape(element, items[0]) && AllHaveShape(element, items[1..])
  }

  predicate HaveShapes(fields: Fields, items: seq<Value>)
    decreases items, 1
  {
    match fields
    case End => items == []
    case Field(head, tail) => items != [] && HasShape(head, items[0]) && HaveShapes(tail, items[1..])
  }

  /** Every integer type in the shape is at most 440 bits wide, so that one length byte is enough. */
  predicate Narrow(shape: Shape)
    decreases shape
  {
    match shape
    case Uint(width) => width <= 55
    case Vector(element) => Narrow(element)
    case Struct(fields) => NarrowFields(fields)
    case _ => true
  }

  predicate NarrowFields(fields: Fields)
    decreases fields
  {
    match fields
    case End => true
    case Field(head, tail) => Narrow(head) && NarrowFields(tail)
  }

  /** No integer over 55 bytes at any depth. */
  predicate Short(v: Value)
    decreases v
  {
    match v
    case Num(n) => |MinBe(n)| <= 55
    case List(items) => AllShort(items)
    case _ => true
  }

  predicate AllShort(items: seq<Value>)
    decreases items
  {
    items != [] ==> Short(items[0]) && AllShort(items[1..])
  }

  /** The encoding of Appendix B: every list is announced with the length it really has. */
  function Canonical(v: Value): (out: Bytes)
    ensures out != []
    decreases v
  {
    match v
    case List(items) => EncodeHeader(Header(true, |CanonicalAll(items)|)) + CanonicalAll(items)
    case _ => Encode(v)
  }

  function CanonicalAll(items: seq<Value>): Bytes
    decreases items
  {
    if items == [] then [] else Canonical(items[0]) + CanonicalAll(items[1..])
  }

  /** Every length in the value fits a 64-bit `usize`. */
  predicate Sized(v: Value)
    decreases v
  {
    match v
    case Str(s) => |s| < TWO_TO_THE_64
    case Num(n) => |MinBe(n)| < TWO_TO_THE_64
    case Bit(b) => true
    case List(items) => |CanonicalAll(items)| < TWO_TO_THE_64 && AllSized(items)
  }

  predicate AllSized(items: seq<Value>)
    decreases items
  {
    items != [] ==> Sized(items[0]) && AllSized(items[1..])
  }

  /** What `encode` and `length` treat alike: lengths fit a 64-bit `usize`, and every integer 55 bytes. */
  predicate Fits(v: Value) {
    Sized(v) && Short(v)
  }

  predicate AllFit(items: seq<Value>) {
    AllSized(items) && AllShort(items)
  }
}
