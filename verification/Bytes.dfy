/** Bytes, the little-endian images of C++ integers, and byte ranges of a flat buffer. */
module Bytes {
  import opened Arithmetic

  type byte = x: int | 0 <= x < 256

  /** Number of bytes of a `size_t`, the only field of a chunk header. */
  const HEADER := 8
  const SIZE_LIMIT := 0x1_0000_0000_0000_0000

  const INT_LIMIT := 0x8000_0000
  const WORD_LIMIT := 0x1_0000_0000

  /** A C++ `int`. */
  type int32 = x: int | -INT_LIMIT <= x < INT_LIMIT
  /** A C++ `size_t`. */
  type size_t = x: int | 0 <= x < SIZE_LIMIT

  function Power256(k: nat): (p: nat)
    ensures 0 < p
  {
    if k == 0 then 1 else 256 * Power256(k - 1)
  }

  /** The k low-order bytes of n, least significant first. */
  function LittleEndian(n: nat, k: nat): (image: seq<byte>)
    ensures |image| == k
  {
    if k == 0 then [] else [n % 256] + LittleEndian(n / 256, k - 1)
  }

  function FromLittleEndian(image: seq<byte>): (n: nat)
    ensures n < Power256(|image|)
  {
    if image == [] then 0 else image[0] + 256 * FromLittleEndian(image[1..])
  }

  lemma DivideTwice(n: nat, a: nat, b: nat)
    requires 0 < a && 0 < b && 0 < a * b
    ensures n / a / b == n / (a * b)
  {
    var q, r, s := n / a / b, n / a % b, n % a;
    assert n / a == b * q + r;
    assert n == a * (n / a) + s;
    MulDistributes(a, b * q, r);
    assert a * (b * q) == a * b * q;
    MulOrder(a, r + 1, b);
    MulDistributes(a, r, 1);
    DivModUnique(n, a * b, q, a * r + s);
  }

  /** Byte i of an image is digit i of the number to base 256. */
  lemma {:induction false} ByteAt(n: nat, k: nat, i: nat)
    requires i < k
    ensures LittleEndian(n, k)[i] == n / Power256(i) % 256
  {
    if i == 0 {
    } else {
      ByteAt(n / 256, k - 1, i - 1);
      DivideTwice(n, 256, Power256(i - 1));
    }
  }

  lemma {:induction false} LittleEndianRoundTrip(n: nat, k: nat)
    requires n < Power256(k)
    ensures FromLittleEndian(LittleEndian(n, k)) == n
  {
    if k == 0 {
    } else {
      LittleEndianRoundTrip(n / 256, k - 1);
      assert LittleEndian(n, k)[1..] == LittleEndian(n / 256, k - 1);
    }
  }

  lemma LastDigit(digit: byte, rest: nat)
    ensures (digit + 256 * rest) % 256 == digit && (digit + 256 * rest) / 256 == rest
  {
  }

  lemma {:induction false} ImageRoundTrip(image: seq<byte>)
    ensures LittleEndian(FromLittleEndian(image), |image|) == image
  {
    if image == [] {
    } else {
      ImageRoundTrip(image[1..]);
      LastDigit(image[0], FromLittleEndian(image[1..]));
      assert image == [image[0]] + image[1..];
    }
  }

  function EncodeSize(n: size_t): (image: seq<byte>)
    ensures |image| == HEADER
  {
    LittleEndian(n, HEADER)
  }

  function DecodeSize(image: seq<byte>): (n: size_t)
    requires |image| == HEADER
  {
    SizeRange();
    FromLittleEndian(image)
  }

  lemma SizeRange()
    ensures Power256(4) == WORD_LIMIT && Power256(HEADER) == SIZE_LIMIT
  {
    assert Power256(4) == 256 * 256 * 256 * 256;
    assert Power256(8) == 256 * 256 * 256 * 256 * Power256(4);
  }

  lemma SizeRoundTrip(n: size_t)
    ensures DecodeSize(EncodeSize(n)) == n
  {
    SizeRange();
    LittleEndianRoundTrip(n, HEADER);
  }

  lemma SizeImageRoundTrip(image: seq<byte>)
    requires |image| == HEADER
    ensures EncodeSize(DecodeSize(image)) == image
  {
    ImageRoundTrip(image);
  }

  /** The unsigned number with the bits of a C++ `int`. */
  function Word(x: int32): (n: nat)
    ensures n == if x < 0 then x + 0x1_0000_0000 else x
  {
    if x < 0 then x + WORD_LIMIT else x
  }

  /** Two's complement image of a C++ `int`. */
  function EncodeInt(x: int32): (image: seq<byte>)
    ensures |image| == 4
  {
    LittleEndian(Word(x), 4)
  }

  /** Byte i of the image of a size, and of an int. */
  lemma ImageBytes(n: size_t, x: int32)
    ensures forall i :: 0 <= i < 8 ==> EncodeSize(n)[i] == n / Power256(i) % 256
    ensures forall i :: 0 <= i < 4 ==> EncodeInt(x)[i] == Word(x) / Power256(i) % 256
  {
    forall i | 0 <= i < 8
      ensures EncodeSize(n)[i] == n / Power256(i) % 256
    {
      ByteAt(n, 8, i);
    }
    forall i | 0 <= i < 4
      ensures EncodeInt(x)[i] == Word(x) / Power256(i) % 256
    {
      ByteAt(Word(x), 4, i);
    }
  }

  function DecodeInt(image: seq<byte>): (x: int32)
    requires |image| == 4
  {
    SizeRange();
    var n := FromLittleEndian(image);
    if n < INT_LIMIT then n else n - WORD_LIMIT
  }

  lemma IntRoundTrip(x: int32)
    ensures DecodeInt(EncodeInt(x)) == x
  {
    SizeRange();
    LittleEndianRoundTrip(Word(x), 4);
  }

  lemma IntImageRoundTrip(image: seq<byte>)
    requires |image| == 4
    ensures EncodeInt(DecodeInt(image)) == image
  {
    SizeRange();
    ImageRoundTrip(image);
  }

  /** `flat` with the bytes from `offset` on replaced by `data`. */
  function Overwrite(flat: seq<byte>, data: seq<byte>, offset: nat): (flat': seq<byte>)
    requires offset + |data| <= |flat|
    ensures |flat'| == |flat|
    ensures forall i :: 0 <= i < |flat| ==> flat'[i] == if offset <= i < offset + |data| then data[i - offset] else flat[i]
  {
    seq(|flat|, i requires 0 <= i < |flat| => if offset <= i < offset + |data| then data[i - offset] else flat[i])
  }

  function Min(a: int, b: int): (m: int)
    ensures m <= a && m <= b && (m == a || m == b)
  {
    if a < b then a else b
  }

  function Max(a: int, b: int): (m: int)
    ensures a <= m && b <= m && (m == a || m == b)
  {
    if a < b then b else a
  }
}
