/** Decoding is the exact inverse of encoding, at any nesting depth. */
module RlpExact {
  import opened Words
  import opened Wrappers
  import opened BigEndian
  import opened Rlp

  // ---------------------------------------------------------------- headers

  /** A header that stands for one byte below 0x80 is never written. */
  predicate Lone(h: Header, rest: Bytes) {
    h == Header(false, 1) && rest != [] && rest[0] < 0x80
  }

  predicate Readable(h: Header, rest: Bytes) {
    h.payload < TWO_TO_THE_64 && h.payload <= |rest| && !Lone(h, rest)
  }

  lemma {:induction false} LongLengths(payload: nat)
    requires 56 <= payload < TWO_TO_THE_64
    ensures ZerolessView(ToBe(payload, 8)) == MinBe(payload)
    ensures 1 <= |MinBe(payload)| <= 8
  {
    EightBytes(payload);
    ZerolessToBe(payload, 8);
  }

  lemma {:induction false} LongSound(buf: Bytes, k: nat)
    requires k <= 8 && DecodeLong(buf, k).Ok?
    ensures var p := DecodeLong(buf, k).value;
      56 <= p.value < TWO_TO_THE_64 && |MinBe(p.value)| == k && buf == MinBe(p.value) + p.rest
  {
    PadKeepsValue(buf[..k], 8);
    MinFromBe(buf[..k]);
    EightBytes(FromBe(buf[..k]));
  }

  lemma {:induction false} LongComplete(payload: nat, rest: Bytes)
    requires 56 <= payload < TWO_TO_THE_64
    ensures DecodeLong(MinBe(payload) + rest, |MinBe(payload)|) == Ok(Parsed(payload, rest))
  {
    var len := MinBe(payload);
    LongLengths(payload);
    assert (len + rest)[..|len|] == len && (len + rest)[|len|..] == rest;
    PadKeepsValue(len, 8);
    FromMinBe(payload);
  }

  /** A long prefix is read back from the code byte and the minimal length. */
  lemma {:induction false} LongPrefix(b: Byte, rest: Bytes, list: bool, p: Parsed<nat>)
    requires var base := if list then 0xF7 else 0xB7; base < b <= base + 8 && DecodeLong(rest, b - base) == Ok(p)
    ensures p.value < TWO_TO_THE_64
    ensures [b] + rest == EncodeHeader(Header(list, p.value)) + p.rest
  {
    LongSound(rest, b - if list then 0xF7 else 0xB7);
    LongLengths(p.value);
    assert [b] + (MinBe(p.value) + p.rest) == [b] + MinBe(p.value) + p.rest;
  }

  lemma {:induction false} PrefixSound(buf: Bytes)
    requires buf != [] && buf[0] >= 0x80 && DecodePrefix(buf).Ok?
    ensures var p := DecodePrefix(buf).value;
      p.value.payload < TWO_TO_THE_64 && !Lone(p.value, p.rest) && buf == EncodeHeader(p.value) + p.rest
  {
    var b, rest := buf[0], buf[1..];
    assert buf == [b] + rest;
    if 0xB8 <= b < 0xC0 {
      LongPrefix(b, rest, false, DecodeLong(rest, b - 0xB7).value);
      LongSound(rest, b - 0xB7);
    } else if 0xF8 <= b {
      LongPrefix(b, rest, true, DecodeLong(rest, b - 0xF7).value);
    } else {
    }
  }

  lemma {:induction false} HeaderSound(buf: Bytes)
    requires DecodeHeader(buf).Ok?
    ensures var p := DecodeHeader(buf).value;
      if buf[0] < 0x80 then p == Parsed(Header(false, 1), buf)
      else Readable(p.value, p.rest) && buf == EncodeHeader(p.value) + p.rest
  {
    if buf[0] >= 0x80 {
      PrefixSound(buf);
    }
  }

  lemma {:induction false} HeaderComplete(h: Header, rest: Bytes)
    requires Readable(h, rest)
    ensures DecodeHeader(EncodeHeader(h) + rest) == Ok(Parsed(h, rest))
  {
    var buf := EncodeHeader(h) + rest;
    if h.payload < 56 {
      assert buf[1..] == rest;
    } else {
      LongLengths(h.payload);
      assert buf[1..] == MinBe(h.payload) + rest;
      LongComplete(h.payload, rest);
    }
  }

  // ---------------------------------------------------------------- byte strings

  lemma {:induction false} TextSound(buf: Bytes)
    requires DecodeText(buf).Ok?
    ensures var p := DecodeText(buf).value;
      |p.value| < TWO_TO_THE_64 && buf == EncodeBytes(p.value) + p.rest
  {
    HeaderSound(buf);
    var h := DecodeHeader(buf).value;
    var s, rest := h.rest[..h.value.payload], h.rest[h.value.payload..];
    assert h.rest == s + rest;
    if buf[0] >= 0x80 {
      assert EncodeHeader(h.value) + (s + rest) == EncodeHeader(h.value) + s + rest;
    }
  }

  lemma {:induction false} TextComplete(s: Bytes, rest: Bytes)
    requires |s| < TWO_TO_THE_64
    ensures DecodeText(EncodeBytes(s) + rest) == Ok(Parsed(s, rest))
  {
    var buf := EncodeBytes(s) + rest;
    if NeedsHeader(s) {
      assert buf == EncodeHeader(Header(false, |s|)) + (s + rest);
      HeaderComplete(Header(false, |s|), s + rest);
    } else {
      assert buf[0] == s[0];
      assert DecodeHeader(buf) == Ok(Parsed(Header(false, 1), buf));
    }
    assert (s + rest)[..|s|] == s && (s + rest)[|s|..] == rest;
  }

  /** A byte string and what follows it are read exactly from its encoding followed by that. */
  lemma {:induction false} TextExact(buf: Bytes, s: Bytes, rest: Bytes)
    ensures DecodeText(buf) == Ok(Parsed(s, rest)) <==> |s| < TWO_TO_THE_64 && buf == EncodeBytes(s) + rest
  {
    if DecodeText(buf).Ok? {
      TextSound(buf);
    }
    if |s| < TWO_TO_THE_64 {
      TextComplete(s, rest);
    }
  }

  // ---------------------------------------------------------------- integers, arrays and flags

  lemma {:induction false} UintIsText(buf: Bytes, width: nat)
    ensures DecodeUint(buf, width).Ok? <==>
      DecodeText(buf).Ok? && |DecodeText(buf).value.value| <= width && NoLeadingZero(DecodeText(buf).value.value)
    ensures DecodeUint(buf, width).Ok? ==>
      && DecodeUint(buf, width).value.value == FromBe(DecodeText(buf).value.value)
      && DecodeUint(buf, width).value.rest == DecodeText(buf).value.rest
  {
    if DecodeUint(buf, width).Ok? {
      var p := DecodeHeader(buf).value;
      if p.value.payload != 0 {
        PadKeepsValue(p.rest[..p.value.payload], width);
      }
    }
  }

  lemma {:induction false} UintExact(buf: Bytes, width: nat, n: nat, rest: Bytes)
    ensures DecodeUint(buf, width) == Ok(Parsed(n, rest)) <==>
      |MinBe(n)| <= width && |MinBe(n)| < TWO_TO_THE_64 && buf == EncodeBytes(MinBe(n)) + rest
  {
    UintIsText(buf, width);
    if DecodeUint(buf, width) == Ok(Parsed(n, rest)) {
      TextSound(buf);
      MinFromBe(DecodeText(buf).value.value);
    }
    if |MinBe(n)| <= width && |MinBe(n)| < TWO_TO_THE_64 && buf == EncodeBytes(MinBe(n)) + rest {
      TextComplete(MinBe(n), rest);
      FromMinBe(n);
    }
  }

  lemma {:induction false} FixedExact(buf: Bytes, size: nat, s: Bytes, rest: Bytes)
    ensures DecodeFixed(buf, size) == Ok(Parsed(s, rest)) <==>
      |s| == size && |s| < TWO_TO_THE_64 && buf == EncodeBytes(s) + rest
  {
    TextExact(buf, s, rest);
  }

  /** The two integer encoders write the same bytes. */
  lemma {:induction false} UintEncodersAgree(n: nat, width: nat)
    requires |MinBe(n)| <= width <= 32
    ensures EncodeUint(n, width) == EncodeBytes(MinBe(n))
  {
    MinBeLength(n, width);
    ZerolessToBe(n, width);
    if n < 0x80 {
      SmallMinBe(n);
    } else {
      MinBeLength(n, 1);
      assert Pow256(0) == 1;
      assert Pow256(1) == 256;
      if n < 256 {
        SmallMinBe(n);
      }
    }
  }

  lemma {:induction false} SmallMinBe(n: nat)
    requires n < 256
    ensures MinBe(n) == if n == 0 then [] else [n]
  {
    if n != 0 {
      assert MinBe(n / 256) == [];
    }
  }

  lemma {:induction false} FlagExact(buf: Bytes, b: bool, rest: Bytes)
    ensures DecodeFlag(buf) == Ok(Parsed(b, rest)) <==> buf == Encode(Bit(b)) + rest
  {
    hide DecodeUint, EncodeUint, EncodeBytes;
    var n: nat := if b then 1 else 0;
    UintExact(buf, 1, n, rest);
    UintEncodersAgree(n, 1);
    SmallMinBe(n);
    assert Pow256(1) == 256;
  }

  // ---------------------------------------------------------------- lengths

  lemma {:induction false} HeaderLength(h: Header)
    requires h.payload < TWO_TO_THE_64
    ensures LengthOfLength(h.payload) == |EncodeHeader(h)|
    ensures h.payload >= 56 ==> |EncodeHeader(h)| == 1 + |MinBe(h.payload)| >= 2
  {
    if h.payload >= 56 {
      LongLengths(h.payload);
      LeadingZeroBytes(h.payload, 8);
    }
  }

  lemma {:induction false} HeaderLengthGrows(list: bool, p: nat, q: nat)
    requires p <= q < TWO_TO_THE_64
    ensures |EncodeHeader(Header(list, p))| <= |EncodeHeader(Header(list, q))|
  {
    HeaderLength(Header(list, p));
    HeaderLength(Header(list, q));
    MinBeLength(q, |MinBe(q)|);
    MinBeLength(p, |MinBe(q)|);
  }

  /** `length` of an integer counts the bytes written exactly up to 55 bytes; beyond, it is short. */
  lemma {:induction false} NumLengthExact(n: nat)
    requires |MinBe(n)| < TWO_TO_THE_64
    ensures Length(Num(n)) <= |Encode(Num(n))|
    ensures Length(Num(n)) == |Encode(Num(n))| <==> |MinBe(n)| <= 55
  {
    hide MinBe, EncodeHeader, ByteLength;
    HeaderLength(Header(false, |MinBe(n)|));
    ByteLengthExact(n);
    if n < 256 {
      SmallMinBe(n);
    } else {
      TwoBytes(n);
    }
    ShortHeader(|MinBe(n)|);
  }

  lemma {:induction false} TwoBytes(n: nat)
    requires n >= 256
    ensures |MinBe(n)| >= 2
  {
    MinBeLength(n, 1);
    assert Pow256(0) == 1 && Pow256(1) == 256;
  }

  lemma {:induction false} ShortHeader(payload: nat)
    ensures payload < 56 ==> |EncodeHeader(Header(false, payload))| == 1
  {
  }

  /** `length` of a built-in integer, from its leading zero bits, is the number of bytes written. */
  lemma {:induction false} UintLengthExact(n: nat, width: nat)
    requires |MinBe(n)| <= width <= 32
    ensures UintLength(n, width) == |EncodeUint(n, width)|
  {
    LeadingZeroBytes(n, width);
    MinBeLength(n, width);
    ZerolessToBe(n, width);
  }

  /**
   * `length` never counts too many bytes, and counts exactly the bytes `encode` writes unless there is an integer
   * of more than 55 bytes somewhere inside; what is written is never longer than the canonical encoding.
   */
  lemma {:induction false} LengthExact(v: Value)
    requires Sized(v)
    ensures Length(v) <= |Encode(v)| <= |Canonical(v)|
    ensures Length(v) == |Encode(v)| <==> Short(v)
    decreases v
  {
    hide EncodeHeader, LengthOfLength, MinBe;
    match v
    case Str(s) => HeaderLength(Header(false, |s|));
    case Num(n) => NumLengthExact(n);
    case Bit(b) => BitShort(b);
    case List(items) =>
      PayloadExact(items);
      HeaderLength(Header(true, PayloadLength(items)));
      HeaderLengthGrows(true, PayloadLength(items), |CanonicalAll(items)|);
  }

  lemma {:induction false} BitShort(b: bool)
    ensures UintLength(if b then 1 else 0, 1) == |EncodeUint(if b then 1 else 0, 1)|
  {
    SmallMinBe(if b then 1 else 0);
    UintLengthExact(if b then 1 else 0, 1);
  }

  lemma {:induction false} PayloadExact(items: seq<Value>)
    requires AllSized(items)
    ensures PayloadLength(items) <= |EncodeAll(items)| <= |CanonicalAll(items)|
    ensures PayloadLength(items) == |EncodeAll(items)| <==> AllShort(items)
    decreases items
  {
    if items != [] {
      LengthExact(items[0]);
      PayloadExact(items[1..]);
    }
  }

  /** Without wide integers the encoder is canonical. */
  lemma {:induction false} FitsIsCanonical(v: Value)
    requires Fits(v)
    ensures Encode(v) == Canonical(v) && Length(v) == |Encode(v)|
    decreases v
  {
    LengthExact(v);
    if v.List? {
      AllFitIsCanonical(v.items);
    }
  }

  lemma {:induction false} AllFitIsCanonical(items: seq<Value>)
    requires AllFit(items)
    ensures EncodeAll(items) == CanonicalAll(items) && PayloadLength(items) == |EncodeAll(items)|
    decreases items
  {
    PayloadExact(items);
    if items != [] {
      FitsIsCanonical(items[0]);
      AllFitIsCanonical(items[1..]);
    }
  }

  // ---------------------------------------------------------------- any shape

  ghost predicate IsCanonical(shape: Shape, v: Value, buf: Bytes, rest: Bytes) {
    HasShape(shape, v) && Sized(v) && buf == Canonical(v) + rest
  }

  lemma {:induction false} ListHeaderRead(items: seq<Value>, rest: Bytes)
    requires |CanonicalAll(items)| < TWO_TO_THE_64
    ensures DecodeHeader(Canonical(List(items)) + rest) ==
      Ok(Parsed(Header(true, |CanonicalAll(items)|), CanonicalAll(items) + rest))
  {
    hide EncodeHeader, DecodeHeader, CanonicalAll;
    var h := Header(true, |CanonicalAll(items)|);
    assert EncodeHeader(h) + CanonicalAll(items) + rest == EncodeHeader(h) + (CanonicalAll(items) + rest);
    HeaderComplete(h, CanonicalAll(items) + rest);
  }

  lemma {:induction false} ListSound(buf: Bytes, items: seq<Value>, rest: Bytes)
    requires DecodeHeader(buf).Ok? && DecodeHeader(buf).value.value == Header(true, |CanonicalAll(items)|)
    requires DecodeHeader(buf).value.rest == CanonicalAll(items) + rest
    requires AllSized(items)
    ensures Sized(List(items)) && buf == Canonical(List(items)) + rest
  {
    hide EncodeHeader, DecodeHeader, CanonicalAll, AllSized;
    HeaderSound(buf);
    var h := Header(true, |CanonicalAll(items)|);
    assert EncodeHeader(h) + (CanonicalAll(items) + rest) == EncodeHeader(h) + CanonicalAll(items) + rest;
  }

  lemma {:induction false} DecodeSound(shape: Shape, buf: Bytes)
    requires Decode(shape, buf).Ok?
    ensures IsCanonical(shape, Decode(shape, buf).value.value, buf, Decode(shape, buf).value.rest)
    decreases shape, |buf|, 0
  {
    match shape
    case Text => TextSound(buf);
    case Uint(width) => UintSound(width, buf);
    case Fixed(size) => FixedSound(size, buf);
    case Flag => FlagSound(buf);
    case Vector(element) =>
      var p := DecodeHeader(buf).value;
      AllSound(element, p.rest[..p.value.payload]);
      VectorSound(element, buf);
    case Struct(fields) =>
      FieldsSound(fields, DecodeHeader(buf).value.rest);
      StructSound(fields, buf);
  }

  lemma {:induction false} UintSound(width: nat, buf: Bytes)
    requires Decode(Uint(width), buf).Ok?
    ensures IsCanonical(Uint(width), Decode(Uint(width), buf).value.value, buf, Decode(Uint(width), buf).value.rest)
  {
    hide DecodeUint, EncodeBytes;
    var p := DecodeUint(buf, width).value;
    UintExact(buf, width, p.value, p.rest);
  }

  lemma {:induction false} FixedSound(size: nat, buf: Bytes)
    requires Decode(Fixed(size), buf).Ok?
    ensures IsCanonical(Fixed(size), Decode(Fixed(size), buf).value.value, buf, Decode(Fixed(size), buf).value.rest)
  {
    hide DecodeFixed, EncodeBytes;
    var p := DecodeFixed(buf, size).value;
    FixedExact(buf, size, p.value, p.rest);
  }

  lemma {:induction false} FlagSound(buf: Bytes)
    requires Decode(Flag, buf).Ok?
    ensures IsCanonical(Flag, Decode(Flag, buf).value.value, buf, Decode(Flag, buf).value.rest)
  {
    hide DecodeFlag, EncodeUint;
    var p := DecodeFlag(buf).value;
    FlagExact(buf, p.value, p.rest);
  }

  lemma {:induction false} VectorSound(element: Shape, buf: Bytes)
    requires Decode(Vector(element), buf).Ok?
    requires var p := DecodeHeader(buf).value;
      var view := p.rest[..p.value.payload];
      var items := DecodeAll(element, view).value;
      AllHaveShape(element, items) && AllSized(items) && view == CanonicalAll(items)
    ensures IsCanonical(Vector(element), Decode(Vector(element), buf).value.value, buf,
      Decode(Vector(element), buf).value.rest)
  {
    hide DecodeHeader, DecodeAll, CanonicalAll, AllSized, AllHaveShape;
    var p := DecodeHeader(buf).value;
    var view, rest := p.rest[..p.value.payload], p.rest[p.value.payload..];
    assert p.rest == view + rest;
    ListSound(buf, DecodeAll(element, view).value, rest);
  }

  lemma {:induction false} StructSound(fields: Fields, buf: Bytes)
    requires Decode(Struct(fields), buf).Ok?
    requires var p := DecodeHeader(buf).value;
      var q := DecodeFields(fields, p.rest).value;
      HaveShapes(fields, q.value) && AllSized(q.value) && p.rest == CanonicalAll(q.value) + q.rest
    ensures IsCanonical(Struct(fields), Decode(Struct(fields), buf).value.value, buf,
      Decode(Struct(fields), buf).value.rest)
  {
    hide DecodeHeader, DecodeFields, CanonicalAll, AllSized, HaveShapes;
    var q := DecodeFields(fields, DecodeHeader(buf).value.rest).value;
    ListSound(buf, q.value, q.rest);
  }

  lemma {:induction false} AllSound(element: Shape, view: Bytes)
    requires DecodeAll(element, view).Ok?
    ensures var items := DecodeAll(element, view).value;
      AllHaveShape(element, items) && AllSized(items) && view == CanonicalAll(items)
    decreases element, |view|, 1
  {
    hide Canonical, HasShape, Sized;
    if view != [] {
      var p := Decode(element, view).value;
      DecodeSound(element, view);
      AllSound(element, p.rest);
      hide Decode;
      var items := DecodeAll(element, view).value;
      assert items[0] == p.value && items[1..] == DecodeAll(element, p.rest).value;
    }
  }

  lemma {:induction false} FieldsSound(fields: Fields, buf: Bytes)
    requires DecodeFields(fields, buf).Ok?
    ensures var p := DecodeFields(fields, buf).value;
      HaveShapes(fields, p.value) && AllSized(p.value) && buf == CanonicalAll(p.value) + p.rest
    decreases fields, |buf|, 1
  {
    hide Canonical, HasShape, Sized;
    match fields
    case End =>
    case Field(head, tail) =>
      var p := Decode(head, buf).value;
      DecodeSound(head, buf);
      FieldsSound(tail, p.rest);
      hide Decode;
      var q := DecodeFields(tail, p.rest).value;
      FieldsJoin(head, tail, buf, p.value, q.value, q.rest);
  }

  lemma {:induction false} FieldsJoin(
    head: Shape, tail: Fields, buf: Bytes, v: Value, more: seq<Value>, rest: Bytes)
    requires HasShape(head, v) && HaveShapes(tail, more) && Sized(v) && AllSized(more)
    requires buf == Canonical(v) + (CanonicalAll(more) + rest)
    ensures var items := [v] + more;
      HaveShapes(Field(head, tail), items) && AllSized(items) && buf == CanonicalAll(items) + rest
  {
    hide Canonical, HasShape, Sized;
    var items := [v] + more;
    assert items[1..] == more;
    assert Canonical(v) + (CanonicalAll(more) + rest) == CanonicalAll(items) + rest;
  }

  lemma {:induction false} CanonicalComplete(shape: Shape, v: Value, rest: Bytes)
    requires HasShape(shape, v) && Sized(v)
    ensures Decode(shape, Canonical(v) + rest) == Ok(Parsed(v, rest))
    decreases v, 0
  {
    hide EncodeBytes, EncodeUint, EncodeHeader, DecodeHeader, DecodeText, DecodeUint, DecodeFixed, DecodeFlag;
    var buf := Canonical(v) + rest;
    match shape
    case Text => TextComplete(v.bytes, rest);
    case Uint(width) => UintExact(buf, width, v.number, rest);
    case Fixed(size) => FixedExact(buf, size, v.bytes, rest);
    case Flag => FlagExact(buf, v.on, rest);
    case Vector(element) =>
      ListHeaderRead(v.items, rest);
      var view := CanonicalAll(v.items);
      assert (view + rest)[..|view|] == view && (view + rest)[|view|..] == rest;
      AllComplete(element, v.items);
    case Struct(fields) =>
      ListHeaderRead(v.items, rest);
      FieldsComplete(fields, v.items, rest);
  }

  lemma {:induction false} AllComplete(element: Shape, items: seq<Value>)
    requires AllHaveShape(element, items) && AllSized(items)
    ensures DecodeAll(element, CanonicalAll(items)) == Ok(items)
    decreases items, 1
  {
    hide Canonical, HasShape, Sized, Decode;
    if items != [] {
      CanonicalComplete(element, items[0], CanonicalAll(items[1..]));
      AllComplete(element, items[1..]);
      assert items == [items[0]] + items[1..];
    }
  }

  lemma {:induction false} CanonicalStep(items: seq<Value>, rest: Bytes)
    ensures CanonicalAll(items) + rest ==
      if items == [] then rest else Canonical(items[0]) + (CanonicalAll(items[1..]) + rest)
  {
  }

  lemma {:induction false} FieldsComplete(fields: Fields, items: seq<Value>, rest: Bytes)
    requires HaveShapes(fields, items) && AllSized(items)
    ensures DecodeFields(fields, CanonicalAll(items) + rest) == Ok(Parsed(items, rest))
    decreases items, 1
  {
    hide Canonical, CanonicalAll, HasShape, Sized, Decode;
    CanonicalStep(items, rest);
    if items != [] {
      CanonicalComplete(fields.head, items[0], CanonicalAll(items[1..]) + rest);
      FieldsComplete(fields.tail, items[1..], rest);
      assert items == [items[0]] + items[1..];
    }
  }

  /** For every shape, decoding yields a value exactly on its canonical encoding followed by the remainder. */
  lemma {:induction false} DecodeCanonical(shape: Shape, buf: Bytes, v: Value, rest: Bytes)
    ensures Decode(shape, buf) == Ok(Parsed(v, rest)) <==> IsCanonical(shape, v, buf, rest)
  {
    hide Decode, HasShape, Sized, Canonical;
    if Decode(shape, buf) == Ok(Parsed(v, rest)) {
      DecodeSound(shape, buf);
    }
    if IsCanonical(shape, v, buf, rest) {
      CanonicalComplete(shape, v, rest);
    }
  }

  // ---------------------------------------------------------------- what the encoder writes

  ghost predicate IsEncoding(shape: Shape, v: Value, buf: Bytes, rest: Bytes) {
    HasShape(shape, v) && Fits(v) && buf == Encode(v) + rest
  }

  lemma {:induction false} NarrowIsShort(shape: Shape, v: Value)
    requires Narrow(shape) && HasShape(shape, v)
    ensures Short(v)
    decreases v, 0
  {
    match shape
    case Vector(element) => AllNarrow(element, v.items);
    case Struct(fields) => FieldsNarrow(fields, v.items);
    case _ =>
  }

  lemma {:induction false} AllNarrow(element: Shape, items: seq<Value>)
    requires Narrow(element) && AllHaveShape(element, items)
    ensures AllShort(items)
    decreases items, 1
  {
    if items != [] {
      NarrowIsShort(element, items[0]);
      AllNarrow(element, items[1..]);
    }
  }

  lemma {:induction false} FieldsNarrow(fields: Fields, items: seq<Value>)
    requires NarrowFields(fields) && HaveShapes(fields, items)
    ensures AllShort(items)
    decreases items, 1
  {
    if items != [] {
      NarrowIsShort(fields.head, items[0]);
      FieldsNarrow(fields.tail, items[1..]);
    }
  }

  lemma {:induction false} DecodeComplete(shape: Shape, v: Value, rest: Bytes)
    requires HasShape(shape, v) && Fits(v)
    ensures Decode(shape, Encode(v) + rest) == Ok(Parsed(v, rest))
  {
    hide Decode, HasShape, Sized, Canonical, Encode;
    FitsIsCanonical(v);
    CanonicalComplete(shape, v, rest);
  }

  /**
   * Where every integer type is at most 55 bytes wide, decoding is the exact inverse of encoding: it yields a value
   * and a remainder exactly on what the encoder writes for the value, followed by the remainder.
   */
  lemma {:induction false} DecodeExact(shape: Shape, buf: Bytes, v: Value, rest: Bytes)
    requires Narrow(shape)
    ensures Decode(shape, buf) == Ok(Parsed(v, rest)) <==> IsEncoding(shape, v, buf, rest)
  {
    hide Decode, HasShape, Sized, Short, Canonical, Encode;
    DecodeCanonical(shape, buf, v, rest);
    if HasShape(shape, v) {
      NarrowIsShort(shape, v);
    }
    if Fits(v) {
      FitsIsCanonical(v);
    }
  }

  /** No encoding is a proper prefix of another, so one buffer has at most one reading. */
  lemma {:induction false} EncodingsArePrefixFree(shape: Shape, v: Value, w: Value, rest: Bytes, more: Bytes)
    requires HasShape(shape, v) && Fits(v) && HasShape(shape, w) && Fits(w)
    requires Encode(v) + rest == Encode(w) + more
    ensures v == w && rest == more
  {
    hide Decode, HasShape, Fits, Encode;
    DecodeComplete(shape, v, rest);
    DecodeComplete(shape, w, more);
  }

  /** If the encoder writes the canonical bytes of a list, it has counted them right. */
  lemma {:induction false} CanonicalListIsShort(items: seq<Value>, rest: Bytes)
    requires Sized(List(items)) && Encode(List(items)) == Canonical(List(items))
    ensures AllShort(items)
  {
    hide EncodeHeader, DecodeHeader, EncodeAll, CanonicalAll, PayloadLength, AllSized;
    PayloadExact(items);
    var written := Header(true, PayloadLength(items));
    assert Encode(List(items)) + rest == EncodeHeader(written) + (EncodeAll(items) + rest);
    HeaderComplete(written, EncodeAll(items) + rest);
    ListHeaderRead(items, rest);
  }

  /**
   * The round trip of every value of every shape: a list is read back exactly when no integer inside it, at any
   * depth, has more than 55 bytes; everything else is always read back.
   */
  lemma {:induction false} RoundTripExact(shape: Shape, v: Value, rest: Bytes)
    requires HasShape(shape, v) && Sized(v)
    ensures Decode(shape, Encode(v) + rest) == Ok(Parsed(v, rest)) <==> (v.List? ==> Short(v))
  {
    DecodeCanonical(shape, Encode(v) + rest, v, rest);
    if Short(v) {
      FitsIsCanonical(v);
    }
    hide Decode, HasShape, Sized;
    if Encode(v) + rest == Canonical(v) + rest {
      Cancel(Encode(v), Canonical(v), rest);
      if v.List? {
        CanonicalListIsShort(v.items, rest);
      }
    }
  }

  lemma {:induction false} Cancel(a: Bytes, b: Bytes, rest: Bytes)
    requires a + rest == b + rest
    ensures a == b
  {
    assert |a| == |b|;
    assert a == (a + rest)[..|a|] && b == (b + rest)[..|b|];
  }
}
