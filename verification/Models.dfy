/** The 16-byte database codec of epochs and block heights, and the order that the
    database puts on the encoded bytes. */
module Models {
  import opened Words
  import opened Wrappers

  datatype DeserializationError = InvalidByteLength(expected: nat, received: nat)

  /** A row of the transactions table, without its key. */
  datatype Transaction = Transaction(
    epoch: u128,
    blockPromised: u128,
    blockActual: Option<u128>,
    signature: string,
    validated: bool,
    bundleId: Option<string>)

  /** A row of the bundle table, without its key. */
  datatype Bundle = Bundle(ownerAddress: string, blockHeight: u128)

  // ----- digits in base 256

  function Pow256(n: nat): (p: nat)
    ensures p > 0
  {
    if n == 0 then 1 else 256 * Pow256(n - 1)
  }

  function BigBytes(n: nat, v: nat): (bs: seq<byte>)
    ensures |bs| == n
  {
    if n == 0 then [] else BigBytes(n - 1, v / 256) + [v % 256]
  }

  function LittleBytes(n: nat, v: nat): (bs: seq<byte>)
    ensures |bs| == n
  {
    if n == 0 then [] else [v % 256] + LittleBytes(n - 1, v / 256)
  }

  function BigValue(bs: seq<byte>): nat {
    if bs == [] then 0 else 256 * BigValue(bs[..|bs| - 1]) + bs[|bs| - 1]
  }

  function LittleValue(bs: seq<byte>): nat {
    if bs == [] then 0 else bs[0] + 256 * LittleValue(bs[1..])
  }

  // ----- the codec

  function Encode(endian: Endian, v: u128): (bs: seq<byte>)
    ensures |bs| == 16
  {
    if endian.Big? then BigBytes(16, v) else LittleBytes(16, v)
  }

  function Decode(endian: Endian, bs: seq<byte>): Result<u128, DeserializationError> {
    if |bs| != 16 then
      Err(InvalidByteLength(16, |bs|))
    else
      ValueBound(bs);
      Pow256At16();
      Ok(if endian.Big? then BigValue(bs) else LittleValue(bs))
  }

  /** `Epoch::try_from` and `Block::try_from`: copy into a local buffer, then reinterpret it. */
  method TryFrom(endian: Endian, bytes: seq<byte>) returns (r: Result<u128, DeserializationError>)
    ensures r == Decode(endian, bytes)
  {
    if |bytes| == 16 {
      var b := new byte[16](_ => 0);
      forall i | 0 <= i < 16 {
        b[i] := bytes[i];
      }
      assert b[..] == bytes;
      r := Decode(endian, b[..]);
    } else {
      r := Err(InvalidByteLength(16, |bytes|));
    }
  }

  /** The buffer a statement's parameters are serialized to. */
  class Output {
    var written: seq<byte>

    /** `to_sql` of `Epoch` and of `Block`. */
    method ToSql(endian: Endian, v: u128)
      modifies this
      ensures |written| == |old(written)| + 16 && old(written) <= written
      ensures Decode(endian, written[|old(written)|..]) == Ok(v)
    {
      RoundTrip(endian, v);
      ghost var before := written;
      written := written + Encode(endian, v);
      assert written[|before|..] == Encode(endian, v);
    }
  }

  // ----- round trips

  lemma Pow256At16()
    ensures Pow256(16) == TWO_TO_THE_128
  {
    assert Pow256(4) == 0x1_0000_0000;
    assert Pow256(8) == 0x1_0000_0000_0000_0000;
    assert Pow256(12) == 0x1_0000_0000_0000_0000_0000_0000;
  }

  /** The widths of the machine integers, in bytes. */
  lemma WordWidths()
    ensures TWO_TO_THE_64 == Pow256(8) && TWO_TO_THE_128 == Pow256(16)
    ensures I64_MAX == Pow256(8) / 2 - 1 && I64_MIN == -(Pow256(8) / 2)
  {
    assert Pow256(4) == 0x1_0000_0000;
    Pow256At16();
  }

  lemma {:induction false} ValueBound(bs: seq<byte>)
    ensures BigValue(bs) < Pow256(|bs|) && LittleValue(bs) < Pow256(|bs|)
  {
    if bs != [] {
      ValueBound(bs[..|bs| - 1]);
      ValueBound(bs[1..]);
    }
  }

  lemma {:induction false} ValueOfBytes(n: nat, v: nat)
    requires v < Pow256(n)
    ensures BigValue(BigBytes(n, v)) == v && LittleValue(LittleBytes(n, v)) == v
  {
    if n > 0 {
      ValueOfBytes(n - 1, v / 256);
      assert BigBytes(n, v)[..n - 1] == BigBytes(n - 1, v / 256);
      assert LittleBytes(n, v)[1..] == LittleBytes(n - 1, v / 256);
    }
  }

  lemma {:induction false} BigBytesOfValue(bs: seq<byte>)
    ensures BigBytes(|bs|, BigValue(bs)) == bs
  {
    if bs != [] {
      var front, last := bs[..|bs| - 1], bs[|bs| - 1];
      BigBytesOfValue(front);
      assert BigValue(bs) == 256 * BigValue(front) + last;
      assert bs == front + [last];
    }
  }

  lemma {:induction false} LittleBytesOfValue(bs: seq<byte>)
    ensures LittleBytes(|bs|, LittleValue(bs)) == bs
  {
    if bs != [] {
      LittleBytesOfValue(bs[1..]);
      assert LittleValue(bs) == bs[0] + 256 * LittleValue(bs[1..]);
      assert bs == [bs[0]] + bs[1..];
    }
  }

  /** Decoding inverts encoding on every u128. */
  lemma RoundTrip(endian: Endian, v: u128)
    ensures Decode(endian, Encode(endian, v)) == Ok(v)
  {
    Pow256At16();
    ValueOfBytes(16, v);
  }

  /** Decoding accepts exactly the 16-byte strings, and loses nothing of them. */
  lemma DecodeAcceptsExactly16(endian: Endian, bs: seq<byte>)
    ensures Decode(endian, bs).Ok? <==> |bs| == 16
    ensures Decode(endian, bs).Ok? ==> Encode(endian, Decode(endian, bs).value) == bs
    ensures Decode(endian, bs).Err? ==> Decode(endian, bs).error == InvalidByteLength(16, |bs|)
  {
    BigBytesOfValue(bs);
    LittleBytesOfValue(bs);
  }

  lemma EncodeInjective(endian: Endian, v: u128, w: u128)
    requires Encode(endian, v) == Encode(endian, w)
    ensures v == w
  {
    RoundTrip(endian, v);
    RoundTrip(endian, w);
  }

  // ----- the order of byte strings

  /** The order Postgres puts on BYTEA values: the first differing byte decides,
      and a proper prefix comes first. */
  predicate ByteLess(a: seq<byte>, b: seq<byte>) {
    b != [] && (a == [] || a[0] < b[0] || (a[0] == b[0] && ByteLess(a[1..], b[1..])))
  }

  lemma {:induction false} ByteLessAppend(a: seq<byte>, b: seq<byte>, x: byte, y: byte)
    requires |a| == |b|
    ensures ByteLess(a + [x], b + [y]) <==> ByteLess(a, b) || (a == b && x < y)
  {
    if a != [] {
      ByteLessAppend(a[1..], b[1..], x, y);
      assert (a + [x])[1..] == a[1..] + [x] && (b + [y])[1..] == b[1..] + [y];
      assert a == [a[0]] + a[1..] && b == [b[0]] + b[1..];
    }
  }

  lemma {:induction false} BigOrder(n: nat, v: nat, w: nat)
    requires v < Pow256(n) && w < Pow256(n)
    ensures ByteLess(BigBytes(n, v), BigBytes(n, w)) <==> v < w
  {
    if n > 0 {
      BigOrder(n - 1, v / 256, w / 256);
      ByteLessAppend(BigBytes(n - 1, v / 256), BigBytes(n - 1, w / 256), v % 256, w % 256);
      ValueOfBytes(n - 1, v / 256);
      ValueOfBytes(n - 1, w / 256);
    }
  }

  /** One byte of the little-endian order: the lowest byte is compared first. */
  lemma LittleOrderStep(n: nat, v: nat, w: nat)
    requires n > 0
    ensures ByteLess(LittleBytes(n, v), LittleBytes(n, w)) <==>
            (v % 256 < w % 256
             || (v % 256 == w % 256 && ByteLess(LittleBytes(n - 1, v / 256), LittleBytes(n - 1, w / 256))))
  {
    assert LittleBytes(n, v)[1..] == LittleBytes(n - 1, v / 256);
    assert LittleBytes(n, w)[1..] == LittleBytes(n - 1, w / 256);
  }

  lemma {:induction false} NothingBelowZero(n: nat, v: nat)
    ensures !ByteLess(LittleBytes(n, v), LittleBytes(n, 0))
  {
    if n > 0 {
      LittleOrderStep(n, v, 0);
      NothingBelowZero(n - 1, v / 256);
    }
  }

  /** The two encodings hold the same bytes in opposite orders. */
  lemma {:induction false} BytesReversed(n: nat, v: nat, i: nat)
    requires i < n
    ensures LittleBytes(n, v)[i] == BigBytes(n, v)[n - 1 - i]
  {
    if i > 0 {
      BytesReversed(n - 1, v / 256, i - 1);
    }
  }

  lemma LittleIsReversedBig(v: u128, i: nat)
    requires i < 16
    ensures Encode(Little, v)[i] == Encode(Big, v)[15 - i]
  {
    BytesReversed(16, v, i);
  }

  /** Reversal of the 16 bytes of a u128. */
  function SwapBytes(v: u128): u128 {
    ValueBound(LittleBytes(16, v));
    Pow256At16();
    BigValue(LittleBytes(16, v))
  }

  /** Big-endian columns sort as the numbers do; little-endian columns sort as the
      byte-reversed numbers do. */
  lemma EncodedOrder(v: u128, w: u128)
    ensures ByteLess(Encode(Big, v), Encode(Big, w)) <==> v < w
    ensures ByteLess(Encode(Little, v), Encode(Little, w)) <==> SwapBytes(v) < SwapBytes(w)
  {
    Pow256At16();
    BigOrder(16, v, w);
    BigBytesOfValue(LittleBytes(16, v));
    BigBytesOfValue(LittleBytes(16, w));
    BigOrder(16, SwapBytes(v), SwapBytes(w));
  }

  predicate SortsNumerically(endian: Endian, v: u128, w: u128) {
    ByteLess(Encode(endian, v), Encode(endian, w)) <==> v < w
  }

  /** The order that the index test expects holds on a little-endian host exactly as long
      as every epoch fits one byte. */
  lemma LittleOrderBound(n: u128)
    ensures (forall v: u128, w: u128 | v < n && w < n :: SortsNumerically(Little, v, w)) <==> n <= 256
  {
    if n <= 256 {
      forall v: u128, w: u128 | v < n && w < n ensures SortsNumerically(Little, v, w) {
        LittleOrderStep(16, v, w);
        NothingBelowZero(15, 0);
      }
    } else {
      LittleOrderStep(16, 1, 256);
      assert !SortsNumerically(Little, 1, 256);
    }
  }

  /** The largest number of `n` bytes sorts after every other. */
  lemma {:induction false} LargestSortsLast(n: nat, v: nat)
    requires v < Pow256(n)
    ensures ByteLess(LittleBytes(n, v), LittleBytes(n, Pow256(n) - 1)) <==> v != Pow256(n) - 1
  {
    if n > 0 {
      var m := Pow256(n) - 1;
      assert m % 256 == 255 && m / 256 == Pow256(n - 1) - 1;
      LittleOrderStep(n, v, m);
      LargestSortsLast(n - 1, v / 256);
    }
  }

  // ----- where little-endian order first goes wrong

  /** The first number above `t` whose little-endian bytes sort before those of `t`:
      carry out of the lowest nonzero byte of `t`. */
  function NextWrap(t: nat): (w: nat)
    requires t > 0
    ensures w > t
  {
    if t % 256 != 0 then 256 * (t / 256 + 1) else 256 * NextWrap(t / 256)
  }

  /** A carry out of the lowest byte, or of a higher one when that is zero, skips 40 numbers
      exactly when the lowest byte is below 216. */
  lemma WrapDistance(t: nat)
    requires t > 0
    ensures t + 40 < NextWrap(t) <==> t % 256 < 216
  {
    var q, r := t / 256, t % 256;
    assert t == 256 * q + r;
    if r == 0 {
      assert NextWrap(q) >= q + 1;
    }
  }

  lemma LowByteAfter40(t: nat)
    ensures (t + 40) % 256 >= 40 <==> t % 256 < 216
  {
    var q, r := t / 256, t % 256;
    assert t + 40 == 256 * q + (r + 40);
    if r >= 216 {
      assert t + 40 == 256 * (q + 1) + (r - 216);
    }
  }

  lemma {:induction false} WrapSortsFirst(n: nat, t: nat)
    requires 0 < t && NextWrap(t) < Pow256(n)
    ensures ByteLess(LittleBytes(n, NextWrap(t)), LittleBytes(n, t))
  {
    var w := NextWrap(t);
    LittleOrderStep(n, w, t);
    if t % 256 == 0 {
      assert w == 256 * NextWrap(t / 256);
      WrapSortsFirst(n - 1, t / 256);
    } else {
      assert w % 256 == 0;
    }
  }

  lemma {:induction false} NothingSortsFirstBelowWrap(n: nat, t: nat, e: nat)
    requires 0 < t <= e && ByteLess(LittleBytes(n, e), LittleBytes(n, t))
    ensures e >= NextWrap(t)
  {
    LittleOrderStep(n, e, t);
    if e % 256 == t % 256 {
      NothingBelowZero(n - 1, e / 256);
      NothingSortsFirstBelowWrap(n - 1, t / 256, e / 256);
    }
  }
}
