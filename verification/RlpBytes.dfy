/** Big-endian byte strings, with and without leading zeros. */
module BigEndian {
  import opened Words
  import opened Wrappers

  type Byte = b: nat | b < 256
  type Bytes = seq<Byte>

  function Pow256(k: nat): (p: nat)
    ensures p > 0
  {
    if k == 0 then 1 else 256 * Pow256(k - 1)
  }

  /** `from_be_bytes`. */
  function FromBe(bs: Bytes): nat {
    if bs == [] then 0 else FromBe(bs[..|bs| - 1]) * 256 + bs[|bs| - 1]
  }

  /** `to_be_bytes` of an integer type `len` bytes wide. */
  function ToBe(n: nat, len: nat): (bs: Bytes)
    ensures |bs| == len
  {
    if len == 0 then [] else ToBe(n / 256, len - 1) + [n % 256]
  }

  /** Big-endian without leading zeros; zero is empty. */
  function MinBe(n: nat): (bs: Bytes)
    ensures bs != [] ==> bs[0] != 0
    ensures bs == [] <==> n == 0
  {
    if n == 0 then [] else MinBe(n / 256) + [n % 256]
  }

  /** Everything from the first non-zero byte on. */
  function ZerolessView(bs: Bytes): (r: Bytes)
    ensures |r| <= |bs|
    ensures NoLeadingZero(r)
  {
    if bs != [] && bs[0] == 0 then ZerolessView(bs[1..]) else bs
  }

  predicate NoLeadingZero(bs: Bytes) {
    bs == [] || bs[0] != 0
  }

  /** Pad to `len` bytes on the left; refuse longer data and a leading zero. */
  function StaticLeftPad(data: Bytes, len: nat): (r: Option<Bytes>)
    ensures r.Some? <==> |data| <= len && NoLeadingZero(data)
    ensures r.Some? ==> |r.value| == len
  {
    if |data| > len then None
    else if data == [] then Some(Zeros(len))
    else if data[0] == 0 then None
    else Some(Zeros(len - |data|) + data)
  }

  function Zeros(n: nat): (bs: Bytes)
    ensures |bs| == n && forall i :: 0 <= i < n ==> bs[i] == 0
  {
    seq(n, i => 0)
  }

  lemma {:induction false} FromMinBe(n: nat)
    ensures FromBe(MinBe(n)) == n
    decreases n
  {
    if n != 0 {
      FromMinBe(n / 256);
      assert MinBe(n)[..|MinBe(n)| - 1] == MinBe(n / 256);
    }
  }

  lemma {:induction false} NumberParts(high: nat, low: Byte)
    ensures (high * 256 + low) / 256 == high && (high * 256 + low) % 256 == low
  {
  }

  lemma {:induction false} MinFromBe(bs: Bytes)
    requires NoLeadingZero(bs)
    ensures MinBe(FromBe(bs)) == bs
    decreases |bs|
  {
    if bs != [] {
      var front, last := bs[..|bs| - 1], bs[|bs| - 1];
      assert bs == front + [last];
      MinFromBe(front);
      NumberParts(FromBe(front), last);
      assert FromBe(bs) != 0;
    }
  }

  /** Short enough is the same as small enough. */
  lemma {:induction false} MinBeLength(n: nat, k: nat)
    ensures |MinBe(n)| <= k <==> n < Pow256(k)
    decreases k
  {
    if k == 0 {
      assert |MinBe(n)| == 0 <==> n == 0;
    } else if n != 0 {
      MinBeLength(n / 256, k - 1);
      assert |MinBe(n)| == |MinBe(n / 256)| + 1;
    }
  }

  lemma {:induction false} EightBytes(n: nat)
    ensures |MinBe(n)| <= 8 <==> n < TWO_TO_THE_64
    ensures n < TWO_TO_THE_64 ==> n < Pow256(8)
  {
    assert Pow256(2) == 0x1_0000;
    assert Pow256(4) == 0x1_0000_0000;
    assert Pow256(6) == 0x1_0000_0000_0000;
    MinBeLength(n, 8);
  }

  lemma {:induction false} FromZeros(k: nat, bs: Bytes)
    ensures FromBe(Zeros(k) + bs) == FromBe(bs)
    decreases |bs|, k
  {
    var all := Zeros(k) + bs;
    if bs == [] {
      assert all == Zeros(k);
      if k > 0 {
        assert all[..k - 1] == Zeros(k - 1) + [];
        FromZeros(k - 1, []);
        assert Zeros(k - 1) + [] == Zeros(k - 1);
      }
    } else {
      assert all[..|all| - 1] == Zeros(k) + bs[..|bs| - 1];
      FromZeros(k, bs[..|bs| - 1]);
    }
  }

  /** Padding does not change the number. */
  lemma {:induction false} PadKeepsValue(data: Bytes, len: nat)
    requires StaticLeftPad(data, len).Some?
    ensures FromBe(StaticLeftPad(data, len).value) == FromBe(data)
  {
    if data == [] {
      assert Zeros(len) + [] == Zeros(len);
      FromZeros(len, []);
    } else {
      FromZeros(len - |data|, data);
    }
  }

  lemma {:induction false} ToBeIsPadded(n: nat, len: nat)
    requires n < Pow256(len)
    ensures |MinBe(n)| <= len && ToBe(n, len) == Zeros(len - |MinBe(n)|) + MinBe(n)
    decreases len
  {
    MinBeLength(n, len);
    if len > 0 {
      if n == 0 {
        ToBeIsPadded(0, len - 1);
        assert Zeros(len - 1) + [] + [0] == Zeros(len) + [];
      } else {
        ToBeIsPadded(n / 256, len - 1);
        assert Zeros(len - |MinBe(n)|) + MinBe(n / 256) + [n % 256] == Zeros(len - |MinBe(n)|) + MinBe(n);
      }
    }
  }

  lemma {:induction false} ZerolessOfPadded(k: nat, bs: Bytes)
    requires NoLeadingZero(bs)
    ensures ZerolessView(Zeros(k) + bs) == bs
    decreases k
  {
    if k == 0 {
      assert Zeros(0) + bs == bs;
    } else {
      assert (Zeros(k) + bs)[1..] == Zeros(k - 1) + bs;
      ZerolessOfPadded(k - 1, bs);
    }
  }

  /** The bytes of a fixed-width integer without its leading zeros are its minimal form. */
  lemma {:induction false} ZerolessToBe(n: nat, len: nat)
    requires n < Pow256(len)
    ensures ZerolessView(ToBe(n, len)) == MinBe(n)
  {
    ToBeIsPadded(n, len);
    ZerolessOfPadded(len - |MinBe(n)|, MinBe(n));
  }

  lemma {:induction false} FromToBe(n: nat, len: nat)
    requires n < Pow256(len)
    ensures FromBe(ToBe(n, len)) == n
  {
    ToBeIsPadded(n, len);
    FromZeros(len - |MinBe(n)|, MinBe(n));
    FromMinBe(n);
  }

  lemma {:induction false} FromBeBound(bs: Bytes)
    ensures FromBe(bs) < Pow256(|bs|)
    decreases |bs|
  {
    if bs != [] {
      FromBeBound(bs[..|bs| - 1]);
    }
  }

  /** Fixed-width bytes and numbers below the width's bound are the same thing. */
  lemma {:induction false} ToFromBe(bs: Bytes)
    ensures FromBe(bs) < Pow256(|bs|) && ToBe(FromBe(bs), |bs|) == bs
    decreases |bs|
  {
    FromBeBound(bs);
    if bs != [] {
      var front, last := bs[..|bs| - 1], bs[|bs| - 1];
      ToFromBe(front);
      assert FromBe(bs) / 256 == FromBe(front) && FromBe(bs) % 256 == last;
      assert front + [last] == bs;
    }
  }

  /** The number of whole bytes a number's bits take. */
  function ByteLength(n: nat): nat {
    (BitLength(n) + 7) / 8
  }

  lemma {:induction false} EightBits(n: nat)
    requires n >= 256
    ensures BitLength(n) == 8 + BitLength(n / 256)
  {
    var a, b, c := n / 2, n / 4, n / 8;
    assert a / 2 == b && b / 2 == c && c / 2 == n / 16 && n / 16 / 2 == n / 32;
    assert n / 32 / 2 == n / 64 && n / 64 / 2 == n / 128 && n / 128 / 2 == n / 256;
    assert BitLength(n) == 1 + BitLength(a) == 2 + BitLength(b) == 3 + BitLength(c);
    assert BitLength(c) == 1 + BitLength(n / 16) == 2 + BitLength(n / 32) == 3 + BitLength(n / 64);
    assert BitLength(n / 64) == 1 + BitLength(n / 128) == 2 + BitLength(n / 256);
  }

  /** Counting bits and rounding up gives the minimal number of bytes. */
  lemma {:induction false} ByteLengthExact(n: nat)
    ensures ByteLength(n) == |MinBe(n)|
    decreases n
  {
    if n >= 256 {
      EightBits(n);
      ByteLengthExact(n / 256);
    } else if n > 0 {
      assert Pow2(1) == 2 && Pow2(3) == 8 && Pow2(5) == 32 && Pow2(7) == 128 && Pow2(8) == 256;
      BitLengthMeaning(n, 8);
      assert MinBe(n / 256) == [];
    }
  }

  lemma {:induction false} BytesInBits(width: nat)
    ensures Pow256(width) == Pow2(8 * width)
    decreases width
  {
    if width > 0 {
      BytesInBits(width - 1);
      var k := 8 * width;
      assert Pow2(k) == 2 * Pow2(k - 1) == 4 * Pow2(k - 2) == 8 * Pow2(k - 3) == 16 * Pow2(k - 4);
      assert Pow2(k - 4) == 2 * Pow2(k - 5) == 4 * Pow2(k - 6) == 8 * Pow2(k - 7) == 16 * Pow2(k - 8);
    }
  }

  /** Leading zero bits divided by eight are exactly the leading zero bytes that the encoder drops. */
  lemma {:induction false} LeadingZeroBytes(n: nat, width: nat)
    requires |MinBe(n)| <= width
    ensures LeadingZeros(n, 8 * width) / 8 == width - |MinBe(n)|
  {
    MinBeLength(n, width);
    BytesInBits(width);
    LeadingZerosExact(n, 8 * width);
    BitLengthMeaning(n, 8 * width);
    ByteLengthExact(n);
  }
}
