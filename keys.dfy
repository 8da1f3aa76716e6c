/**
 * The composite patch key: `snprintf(key, 64, "%d:%d:%d:%d", b, h, z, p)` with the
 * four uint32 layer values, then copied into a `std::string`.
 */
module Keys {
  import opened PatchTypes

  /** What `%d` makes of a `uint32_t` argument: its two's-complement reading as a 32-bit `int`. */
  function AsInt32(v: uint32): (i: int)
    ensures -0x8000_0000 <= i < 0x8000_0000
    ensures (i - v) % 0x1_0000_0000 == 0
  {
    if v < 0x8000_0000 then v else v - 0x1_0000_0000
  }

  predicate IsDigit(c: char) {
    '0' <= c <= '9'
  }

  predicate AllDigits(s: string) {
    forall i :: 0 <= i < |s| ==> IsDigit(s[i])
  }

  function DigitChar(d: nat): (c: char)
    requires d < 10
    ensures IsDigit(c) && c as int - '0' as int == d
  {
    (d + '0' as int) as char
  }

  /** The decimal digits of `n`, most significant first, without leading zeros. */
  function NatToDecimal(n: nat): (s: string)
    ensures |s| >= 1 && AllDigits(s)
    ensures |s| > 1 ==> s[0] != '0'
    decreases n
  {
    if n < 10 then [DigitChar(n)] else NatToDecimal(n / 10) + [DigitChar(n % 10)]
  }

  /** The number a string of decimal digits denotes: the inverse of NatToDecimal. */
  function DecimalValue(s: string): (r: nat)
    requires AllDigits(s)
  {
    if s == [] then 0 else DecimalValue(s[..|s| - 1]) * 10 + (s[|s| - 1] as int - '0' as int)
  }

  lemma {:induction false} NatToDecimalRoundTrip(n: nat)
    ensures DecimalValue(NatToDecimal(n)) == n
  {
    if n >= 10 {
      var s := NatToDecimal(n);
      assert s[..|s| - 1] == NatToDecimal(n / 10);
      NatToDecimalRoundTrip(n / 10);
    }
  }

  /** The `%d` rendering of an integer: a minus sign for negative values, then its magnitude. */
  function IntToDecimal(i: int): (s: string)
    ensures |s| >= 1 && ':' !in s
    ensures s[0] == '-' <==> i < 0
    ensures AllDigits(s[1..])
  {
    var digits := if i < 0 then NatToDecimal(-i) else NatToDecimal(i);
    if i < 0 then "-" + digits else digits
  }

  /** Reads back a rendering produced by IntToDecimal. */
  function DecimalToInt(s: string): (i: int)
    requires |s| >= 1 && AllDigits(s[1..])
    requires s[0] != '-' ==> IsDigit(s[0])
  {
    if s[0] == '-' then 0 - DecimalValue(s[1..]) else (assert s == [s[0]] + s[1..]; DecimalValue(s))
  }

  lemma IntToDecimalRoundTrip(i: int)
    ensures DecimalToInt(IntToDecimal(i)) == i
  {
    if i < 0 {
      assert IntToDecimal(i)[1..] == NatToDecimal(-i);
      NatToDecimalRoundTrip(-i);
    } else {
      NatToDecimalRoundTrip(i);
    }
  }

  function Pow10(k: nat): (r: nat) {
    if k == 0 then 1 else 10 * Pow10(k - 1)
  }

  lemma {:induction false} NatToDecimalLength(n: nat, k: nat)
    requires 1 <= k && n < Pow10(k)
    ensures |NatToDecimal(n)| <= k
  {
    if n >= 10 {
      assert Pow10(k) == 10 * Pow10(k - 1);
      NatToDecimalLength(n / 10, k - 1);
    }
  }

  /** A `%d` rendering of a 32-bit `int` has at most 11 characters ("-2147483648"). */
  lemma Int32DecimalLength(i: int)
    requires -0x8000_0000 <= i < 0x8000_0000
    ensures |IntToDecimal(i)| <= 11
  {
    assert Pow10(10) == 10_000_000_000 by {
      assert Pow10(1) == 10;
      assert Pow10(2) == 100;
      assert Pow10(3) == 1000;
      assert Pow10(4) == 10_000;
      assert Pow10(5) == 100_000;
      assert Pow10(6) == 1_000_000;
      assert Pow10(7) == 10_000_000;
      assert Pow10(8) == 100_000_000;
      assert Pow10(9) == 1_000_000_000;
    }
    NatToDecimalLength(if i < 0 then -i else i, 10);
  }

  /** The size of the `char key[64]` buffer the key is printed into. */
  const KeyBufferSize: nat := 64

  /** `snprintf` into a buffer of `size` bytes keeps at most `size - 1` characters of the output. */
  function Snprintf(size: nat, s: string): (r: string)
    requires size >= 1
    ensures |r| < size && r <= s
    ensures |s| < size <==> r == s
    ensures |s| >= size ==> |r| == size - 1
  {
    if |s| < size then s else s[..size - 1]
  }

  /** The full `"%d:%d:%d:%d"` output for the four layer values, before any truncation. */
  function FormatKey(q: Quad): (r: string) {
    IntToDecimal(AsInt32(q.basin)) + ":" +
      (IntToDecimal(AsInt32(q.hills)) + ":" +
        (IntToDecimal(AsInt32(q.zone)) + ":" + IntToDecimal(AsInt32(q.patch))))
  }

  /** The key string the index stores for a pixel with values `q`. */
  function PatchKey(q: Quad): (r: string) {
    Snprintf(KeyBufferSize, FormatKey(q))
  }

  /** The printed key has at most 4 * 11 + 3 = 47 characters, so the 64-byte buffer never truncates it. */
  lemma KeyFitsBuffer(q: Quad)
    ensures |FormatKey(q)| <= 47
    ensures PatchKey(q) == FormatKey(q)
  {
    Int32DecimalLength(AsInt32(q.basin));
    Int32DecimalLength(AsInt32(q.hills));
    Int32DecimalLength(AsInt32(q.zone));
    Int32DecimalLength(AsInt32(q.patch));
  }

  /** The position of the first ':' in `t`, or `|t|` if there is none. */
  function FirstColon(t: string): (n: nat)
    ensures n <= |t|
  {
    if t == [] || t[0] == ':' then 0 else 1 + FirstColon(t[1..])
  }

  lemma {:induction false} FirstColonAfterField(a: string, b: string)
    requires ':' !in a
    ensures FirstColon(a + ":" + b) == |a|
  {
    if a != [] {
      assert (a + ":" + b)[1..] == a[1..] + ":" + b;
      assert a[0] in a;
      FirstColonAfterField(a[1..], b);
    }
  }

  /** Two colon-joined strings whose first fields hold no colon split the same way. */
  lemma SplitAtFirstColon(a: string, b: string, a': string, b': string)
    requires ':' !in a && ':' !in a'
    requires a + ":" + b == a' + ":" + b'
    ensures a == a' && b == b'
  {
    var s := a + ":" + b;
    FirstColonAfterField(a, b);
    FirstColonAfterField(a', b');
    assert a == s[..|a|] == a';
    assert b == s[|a| + 1..] == b';
  }

  /** The key encoding is injective: distinct 4-tuples never share a key. */
  lemma PatchKeyInjective(q1: Quad, q2: Quad)
    requires PatchKey(q1) == PatchKey(q2)
    ensures q1 == q2
  {
    KeyFitsBuffer(q1);
    KeyFitsBuffer(q2);
    SplitAtFirstColon(IntToDecimal(AsInt32(q1.basin)),
                      IntToDecimal(AsInt32(q1.hills)) + ":" +
                        (IntToDecimal(AsInt32(q1.zone)) + ":" + IntToDecimal(AsInt32(q1.patch))),
                      IntToDecimal(AsInt32(q2.basin)),
                      IntToDecimal(AsInt32(q2.hills)) + ":" +
                        (IntToDecimal(AsInt32(q2.zone)) + ":" + IntToDecimal(AsInt32(q2.patch))));
    SplitAtFirstColon(IntToDecimal(AsInt32(q1.hills)),
                      IntToDecimal(AsInt32(q1.zone)) + ":" + IntToDecimal(AsInt32(q1.patch)),
                      IntToDecimal(AsInt32(q2.hills)),
                      IntToDecimal(AsInt32(q2.zone)) + ":" + IntToDecimal(AsInt32(q2.patch)));
    SplitAtFirstColon(IntToDecimal(AsInt32(q1.zone)), IntToDecimal(AsInt32(q1.patch)),
                      IntToDecimal(AsInt32(q2.zone)), IntToDecimal(AsInt32(q2.patch)));
    IntToDecimalRoundTrip(AsInt32(q1.basin));
    IntToDecimalRoundTrip(AsInt32(q2.basin));
    IntToDecimalRoundTrip(AsInt32(q1.hills));
    IntToDecimalRoundTrip(AsInt32(q2.hills));
    IntToDecimalRoundTrip(AsInt32(q1.zone));
    IntToDecimalRoundTrip(AsInt32(q2.zone));
    IntToDecimalRoundTrip(AsInt32(q1.patch));
    IntToDecimalRoundTrip(AsInt32(q2.patch));
  }

  /** A uint32 value of 2^31 or more appears in the key with a minus sign. */
  lemma HighValuesPrintNegative(v: uint32)
    requires v >= 0x8000_0000
    ensures IntToDecimal(AsInt32(v))[0] == '-'
  {
  }
}
