/** The encoder and decoder as they run: bytes appended to an output buffer, and a cursor that advances. */
module RlpBuffers {
  import opened Wrappers
  import opened BigEndian
  import opened Rlp
  import opened RlpExact

  lemma {:induction false} EncodeAllSnoc(items: seq<Value>, i: nat)
    requires i < |items|
    ensures EncodeAll(items[..i + 1]) == EncodeAll(items[..i]) + Encode(items[i])
    decreases i
  {
    var now, next := items[..i], items[..i + 1];
    if i == 0 {
      assert next[1..] == [] && now == [];
    } else {
      EncodeAllSnoc(items[1..], i - 1);
      assert next[1..] == items[1..][..i] && now[1..] == items[1..][..i - 1];
    }
  }

  lemma {:induction false} PayloadSnoc(items: seq<Value>, i: nat)
    requires i < |items|
    ensures PayloadLength(items[..i + 1]) == PayloadLength(items[..i]) + Length(items[i])
    decreases i
  {
    var now, next := items[..i], items[..i + 1];
    if i == 0 {
      assert next[1..] == [] && now == [];
    } else {
      PayloadSnoc(items[1..], i - 1);
      assert next[1..] == items[1..][..i] && now[1..] == items[1..][..i - 1];
    }
  }

  lemma {:induction false} ZerolessDrops(bs: Bytes, k: nat)
    requires k <= |bs| && forall i :: 0 <= i < k ==> bs[i] == 0
    ensures ZerolessView(bs) == ZerolessView(bs[k..])
    decreases k
  {
    if k == 0 {
      assert bs[0..] == bs;
    } else {
      ZerolessDrops(bs[1..], k - 1);
      assert bs[1..][k - 1..] == bs[k..];
    }
  }

  /** Count the leading zeros, then slice them off. */
  method SkipZeros(bs: Bytes) returns (view: Bytes)
    ensures view == ZerolessView(bs)
  {
    var k := 0;
    while k < |bs| && bs[k] == 0
      invariant k <= |bs| && forall i :: 0 <= i < k ==> bs[i] == 0
    {
      k := k + 1;
    }
    ZerolessDrops(bs, k);
    return bs[k..];
  }

  /** Copy the data to the end of a zeroed array. */
  method LeftPad(data: Bytes, len: nat) returns (r: Option<Bytes>)
    ensures r == StaticLeftPad(data, len)
  {
    if |data| > len {
      return None;
    }
    var v := new Byte[len](i => 0);
    if data == [] {
      assert v[..] == Zeros(len);
      return Some(v[..]);
    }
    if data[0] == 0 {
      return None;
    }
    var i, start := 0, len - |data|;
    while i < |data|
      invariant i <= |data|
      invariant forall j :: 0 <= j < start ==> v[j] == 0
      invariant forall j :: 0 <= j < i ==> v[start + j] == data[j]
    {
      v[start + i] := data[i];
      i := i + 1;
    }
    assert v[start..] == data;
    assert v[..start] == Zeros(start);
    assert v[..] == v[..start] + v[start..];
    return Some(v[..]);
  }

  /** The payload of a list is the sum of its elements' lengths. */
  method ListHeader(items: seq<Value>) returns (h: Header)
    ensures h == Header(true, PayloadLength(items))
  {
    h := Header(true, 0);
    var i := 0;
    while i < |items|
      invariant i <= |items| && h == Header(true, PayloadLength(items[..i]))
    {
      PayloadSnoc(items, i);
      h := h.(payload := h.payload + Length(items[i]));
      i := i + 1;
    }
    assert items[..i] == items;
  }

  class Output {
    var bytes: Bytes

    constructor ()
      ensures bytes == []
    {
      bytes := [];
    }

    method Put(more: Bytes)
      modifies this
      ensures bytes == old(bytes) + more
    {
      bytes := bytes + more;
    }

    method PutHeader(h: Header)
      modifies this
      ensures bytes == old(bytes) + Rlp.EncodeHeader(h)
    {
      if h.payload < 56 {
        var code := if h.list then EMPTY_LIST_CODE else EMPTY_STRING_CODE;
        Put([code + h.payload]);
      } else {
        var len := SkipZeros(ToBe(h.payload, 8));
        var code := if h.list then 0xF7 else 0xB7;
        Put([code + |len|]);
        Put(len);
      }
    }

    method PutBytes(s: Bytes)
      modifies this
      ensures bytes == old(bytes) + Rlp.EncodeBytes(s)
    {
      if |s| != 1 || s[0] >= EMPTY_STRING_CODE {
        PutHeader(Header(false, |s|));
      }
      Put(s);
    }

    method PutUint(n: nat, width: nat)
      requires width <= 32
      modifies this
      ensures bytes == old(bytes) + Rlp.EncodeUint(n, width)
    {
      if n == 0 {
        Put([EMPTY_STRING_CODE]);
      } else if n < EMPTY_STRING_CODE {
        Put([n]);
      } else {
        ghost var before := bytes;
        var be := SkipZeros(ToBe(n, width));
        Put([EMPTY_STRING_CODE + |be|]);
        Put(be);
        assert bytes == before + ([EMPTY_STRING_CODE + |be|] + be);
      }
    }

    method PutValue(v: Value)
      modifies this
      ensures bytes == old(bytes) + Rlp.Encode(v)
      decreases v
    {
      match v
      case Str(s) => PutBytes(s);
      case Num(n) => PutBytes(MinBe(n));
      case Bit(b) => PutUint(if b then 1 else 0, 1);
      case List(items) => PutList(items);
    }

    method PutList(items: seq<Value>)
      modifies this
      ensures bytes == old(bytes) + Rlp.Encode(List(items))
      decreases items
    {
      var h := ListHeader(items);
      PutHeader(h);
      ghost var before := bytes;
      var i := 0;
      while i < |items|
        invariant i <= |items|
        invariant bytes == before + EncodeAll(items[..i])
      {
        EncodeAllSnoc(items, i);
        PutValue(items[i]);
        i := i + 1;
      }
      assert items[..i] == items;
    }
  }

  /** Elements read so far, then the rest. */
  ghost function After(so: seq<Value>, more: Result<seq<Value>, Error>): Result<seq<Value>, Error> {
    match more
    case Ok(items) => Ok(so + items)
    case Err(e) => Err(e)
  }

  lemma {:induction false} AfterStep(element: Shape, view: Bytes, so: seq<Value>)
    requires view != []
    ensures match Decode(element, view)
      case Ok(p) => After(so, DecodeAll(element, view)) == After(so + [p.value], DecodeAll(element, p.rest))
      case Err(e) => After(so, DecodeAll(element, view)) == Err(e)
  {
    if Decode(element, view).Ok? {
      var p := Decode(element, view).value;
      if DecodeAll(element, p.rest).Ok? {
        var more := DecodeAll(element, p.rest).value;
        assert so + ([p.value] + more) == so + [p.value] + more;
      }
    }
  }

  lemma {:induction false} AfterStart(more: Result<seq<Value>, Error>)
    ensures After([], more) == more
  {
    if more.Ok? {
      assert [] + more.value == more.value;
    }
  }

  /** What a decoder leaves behind: the value and an advanced cursor, or an error. */
  ghost predicate Reads<T(!new)>(r: Result<T, Error>, buf: Bytes, spec: Outcome<T>) {
    match spec
    case Ok(p) => r == Ok(p.value) && buf == p.rest
    case Err(e) => r == Err(e)
  }

  class Cursor {
    var buf: Bytes

    constructor (view: Bytes)
      ensures buf == view
    {
      buf := view;
    }

    method Advance(n: nat)
      requires n <= |buf|
      modifies this
      ensures buf == old(buf)[n..]
    {
      buf := buf[n..];
    }

    /** The length bytes of a long header. */
    method ReadLong(k: nat) returns (r: Result<nat, Error>)
      modifies this
      ensures Reads(r, buf, DecodeLong(old(buf), k))
    {
      if |buf| < k {
        return Err(InputTooShort);
      }
      var padded := LeftPad(buf[..k], 8);
      if padded.None? {
        return Err(LeadingZero);
      }
      Advance(k);
      if FromBe(padded.value) < 56 {
        return Err(NonCanonicalSize);
      }
      return Ok(FromBe(padded.value));
    }

    method ReadPrefix() returns (r: Result<Header, Error>)
      requires buf != []
      modifies this
      ensures Reads(r, buf, DecodePrefix(old(buf)))
    {
      var b := buf[0];
      if b < 0x80 {
        return Ok(Header(false, 1));
      }
      Advance(1);
      if b < 0xB8 {
        var h := Header(false, b - 0x80);
        if h.payload == 1 {
          if buf == [] {
            return Err(InputTooShort);
          }
          if buf[0] < 0x80 {
            return Err(NonCanonicalSingleByte);
          }
        }
        return Ok(h);
      } else if b < 0xC0 {
        var p :- ReadLong(b - 0xB7);
        return Ok(Header(false, p));
      } else if b < 0xF8 {
        return Ok(Header(true, b - 0xC0));
      } else {
        var p :- ReadLong(b - 0xF7);
        return Ok(Header(true, p));
      }
    }

    method ReadHeader() returns (r: Result<Header, Error>)
      modifies this
      ensures Reads(r, buf, DecodeHeader(old(buf)))
    {
      if buf == [] {
        return Err(InputTooShort);
      }
      var h :- ReadPrefix();
      if |buf| < h.payload {
        return Err(InputTooShort);
      }
      return Ok(h);
    }

    method ReadText() returns (r: Result<Bytes, Error>)
      modifies this
      ensures Reads(r, buf, DecodeText(old(buf)))
    {
      var h :- ReadHeader();
      if h.list {
        return Err(UnexpectedList);
      }
      var to := buf[..h.payload];
      Advance(h.payload);
      return Ok(to);
    }

    method ReadUint(width: nat) returns (r: Result<nat, Error>)
      modifies this
      ensures Reads(r, buf, DecodeUint(old(buf), width))
    {
      var h :- ReadHeader();
      if h.list {
        return Err(UnexpectedList);
      }
      if h.payload > width {
        return Err(Overflow);
      }
      if |buf| < h.payload {
        return Err(InputTooShort);
      }
      if h.payload == 0 {
        return Ok(0);
      }
      var padded := LeftPad(buf[..h.payload], width);
      if padded.None? {
        return Err(LeadingZero);
      }
      Advance(h.payload);
      return Ok(FromBe(padded.value));
    }

    method ReadFixed(size: nat) returns (r: Result<Bytes, Error>)
      modifies this
      ensures Reads(r, buf, DecodeFixed(old(buf), size))
    {
      var h :- ReadHeader();
      if h.list {
        return Err(UnexpectedList);
      }
      if h.payload != size {
        return Err(UnexpectedLength);
      }
      var to := buf[..size];
      Advance(size);
      return Ok(to);
    }

    method ReadFlag() returns (r: Result<bool, Error>)
      modifies this
      ensures Reads(r, buf, DecodeFlag(old(buf)))
    {
      var n :- ReadUint(1);
      if n == 0 {
        return Ok(false);
      } else if n == 1 {
        return Ok(true);
      }
      return Err(Custom("invalid bool value, must be 0 or 1"));
    }

    /** Any shape; a vector's payload is read through a second cursor until it is empty. */
    method Read(shape: Shape) returns (r: Result<Value, Error>)
      modifies this
      ensures Reads(r, buf, Rlp.Decode(shape, old(buf)))
      decreases shape, 1
    {
      match shape
      case Text =>
        var s :- ReadText();
        return Ok(Str(s));
      case Uint(width) =>
        var n :- ReadUint(width);
        return Ok(Num(n));
      case Fixed(size) =>
        var s :- ReadFixed(size);
        return Ok(Str(s));
      case Flag =>
        var b :- ReadFlag();
        return Ok(Bit(b));
      case Vector(element) =>
        r := ReadVector(element);
      case Struct(fields) =>
        r := ReadStruct(fields);
    }

    method ReadVector(element: Shape) returns (r: Result<Value, Error>)
      modifies this
      ensures Reads(r, buf, Rlp.Decode(Vector(element), old(buf)))
      decreases element, 2
    {
      var h :- ReadHeader();
      if !h.list {
        return Err(UnexpectedString);
      }
      var view := new Cursor(buf[..h.payload]);
      ghost var whole := Rlp.DecodeAll(element, view.buf);
      var to: seq<Value> := [];
      AfterStart(whole);
      while view.buf != []
        invariant whole == After(to, Rlp.DecodeAll(element, view.buf))
        decreases |view.buf|
        modifies view
      {
        AfterStep(element, view.buf, to);
        var v :- view.Read(element);
        to := to + [v];
      }
      assert to + [] == to;
      Advance(h.payload);
      return Ok(List(to));
    }

    method ReadStruct(fields: Fields) returns (r: Result<Value, Error>)
      modifies this
      ensures Reads(r, buf, Rlp.Decode(Struct(fields), old(buf)))
      decreases fields, 2
    {
      var h :- ReadHeader();
      if !h.list {
        return Err(UnexpectedString);
      }
      var started := |buf|;
      var items :- ReadFields(fields);
      var consumed := started - |buf|;
      if consumed != h.payload {
        return Err(ListLengthMismatch(h.payload, consumed));
      }
      return Ok(List(items));
    }

    method ReadFields(fields: Fields) returns (r: Result<seq<Value>, Error>)
      modifies this
      ensures Reads(r, buf, Rlp.DecodeFields(fields, old(buf)))
      decreases fields, 1
    {
      match fields
      case End => return Ok([]);
      case Field(head, tail) =>
        var v :- Read(head);
        var more :- ReadFields(tail);
        return Ok([v] + more);
    }
  }

  /** Reading back what was written gives the value and leaves the cursor on whatever follows it. */
  method WriteThenRead(shape: Shape, v: Value, rest: Bytes) returns (r: Result<Value, Error>, left: Bytes)
    requires HasShape(shape, v) && Fits(v)
    ensures r == Ok(v) && left == rest
  {
    var out := new Output();
    out.PutValue(v);
    DecodeComplete(shape, v, rest);
    var cursor := new Cursor(out.bytes + rest);
    assert out.bytes == Encode(v);
    r := cursor.Read(shape);
    left := cursor.buf;
  }
}
