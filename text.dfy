// Byte strings as Go sees them: a Go `string` and a `[]byte` are both a
// sequence of bytes. This module holds the byte-level helpers the rest of the
// model shares: the byte-wise comparison behind `bytes.Compare` and
// `strings.Compare`, and the two `fmt` renderings the core uses (`%d` for
// integers, `%x` for a digest).

module Wrappers {
  datatype Option<+T> = None | Some(value: T)
}

module Text {

  newtype byte = b: int | 0 <= b < 256

  type Bytes = seq<byte>

  /** The bytes of an ASCII string literal, so that examples can be written
      as text. */
  function Ascii(s: string): (r: Bytes)
    ensures |r| == |s|
    ensures forall i | 0 <= i < |s| :: s[i] as int < 256 ==> r[i] as int == s[i] as int
  {
    if s == [] then []
    else [if s[0] as int < 256 then s[0] as int as byte else 0] + Ascii(s[1..])
  }

  function Sign(n: int): int {
    if n < 0 then -1 else if n > 0 then 1 else 0
  }

  // Sequence identities, stated once so that proofs can cite them instead
  // of re-deriving them by extensionality in a crowded context.

  lemma Associative<T>(a: seq<T>, b: seq<T>, c: seq<T>)
    ensures a + b + c == a + (b + c)
  {
  }

  lemma SplitAt<T>(s: seq<T>, n: nat)
    requires n <= |s|
    ensures s[..n] + s[n..] == s
  {
  }

  lemma SliceOfConcat<T>(p: seq<T>, q: seq<T>, n: nat)
    requires n <= |p|
    ensures (p + q)[..n] == p[..n]
    ensures (p + q)[n..] == p[n..] + q
  {
  }

  // ---------------------------------------------------------------------
  // bytes.Compare / strings.Compare

  /** Lexicographic byte-wise comparison, -1, 0 or 1; a proper prefix is
      smaller. Zero exactly when the two byte strings are equal. */
  function CompareBytes(a: Bytes, b: Bytes): (r: int)
    ensures -1 <= r <= 1
    ensures r == 0 <==> a == b
  {
    if a == [] then (if b == [] then 0 else -1)
    else if b == [] then 1
    else if a[0] < b[0] then -1
    else if a[0] > b[0] then 1
    else
      var r := CompareBytes(a[1..], b[1..]);
      assert a == [a[0]] + a[1..] && b == [b[0]] + b[1..];
      r
  }

  lemma {:induction false} CompareBytesAntisymmetric(a: Bytes, b: Bytes)
    ensures CompareBytes(b, a) == -CompareBytes(a, b)
  {
    if a != [] && b != [] && a[0] == b[0] {
      CompareBytesAntisymmetric(a[1..], b[1..]);
    }
  }

  lemma {:induction false} CompareBytesTransitive(a: Bytes, b: Bytes, c: Bytes)
    requires CompareBytes(a, b) <= 0 && CompareBytes(b, c) <= 0
    ensures CompareBytes(a, c) <= 0
  {
    if a != [] && b != [] && c != [] && a[0] == b[0] == c[0] {
      CompareBytesTransitive(a[1..], b[1..], c[1..]);
    }
  }

  // ---------------------------------------------------------------------
  // Decimal digits: the `%d` verb of fmt.Sprintf and the value of a digit run

  predicate IsDigit(b: byte) {
    0x30 <= b <= 0x39
  }

  predicate AllDigits(s: Bytes) {
    forall i | 0 <= i < |s| :: IsDigit(s[i])
  }

  /** The number a run of decimal digits denotes (leading zeros allowed). */
  function DigitsValue(s: Bytes): nat
    requires AllDigits(s)
  {
    if s == [] then 0 else 10 * DigitsValue(s[..|s| - 1]) + (s[|s| - 1] as int - 0x30)
  }

  function DigitChar(d: nat): (b: byte)
    requires d < 10
  {
    (0x30 + d) as byte
  }

  /** `%d` of a non-negative integer: its shortest decimal digits. */
  function DecimalNat(n: nat): (r: Bytes)
    ensures 1 <= |r| && AllDigits(r)
    ensures |r| > 1 ==> r[0] != 0x30
  {
    if n < 10 then [DigitChar(n)] else DecimalNat(n / 10) + [DigitChar(n % 10)]
  }

  /** `%d` of an integer: a '-' then the digits when it is negative. */
  function Decimal(n: int): (r: Bytes)
    ensures r != []
  {
    if n < 0 then [0x2D] + DecimalNat(-n) else DecimalNat(n)
  }

  /** Reads back what `Decimal` writes; anything else reads as some number. */
  function ParseDecimal(s: Bytes): int {
    if |s| > 0 && s[0] == 0x2D && AllDigits(s[1..]) then -(DigitsValue(s[1..]) as int)
    else if AllDigits(s) then DigitsValue(s)
    else 0
  }

  lemma {:induction false} DecimalNatValue(n: nat)
    ensures DigitsValue(DecimalNat(n)) == n
  {
    if n >= 10 {
      DecimalNatValue(n / 10);
      var r := DecimalNat(n);
      assert r[..|r| - 1] == DecimalNat(n / 10);
    }
  }

  /** `%d` round-trips: the integer is recovered from its rendering. */
  lemma DecimalRoundTrip(n: int)
    ensures ParseDecimal(Decimal(n)) == n
  {
    if n < 0 {
      DecimalNatValue(-n);
      assert Decimal(n)[1..] == DecimalNat(-n);
    } else {
      DecimalNatValue(n);
    }
  }

  function Pow10(n: nat): (r: nat)
    ensures r >= 1
  {
    if n == 0 then 1 else 10 * Pow10(n - 1)
  }

  lemma {:induction false} Pow10Monotone(m: nat, n: nat)
    requires m <= n
    ensures Pow10(m) <= Pow10(n)
  {
    if m < n {
      Pow10Monotone(m, n - 1);
    }
  }

  /** A run of k digits denotes less than 10^k. */
  lemma {:induction false} DigitsValueBound(s: Bytes)
    requires AllDigits(s)
    ensures DigitsValue(s) < Pow10(|s|)
  {
    if s != [] {
      DigitsValueBound(s[..|s| - 1]);
    }
  }

  /** The leading digit weighs 10^(number of digits after it). */
  lemma {:induction false} DigitsValueLeading(s: Bytes)
    requires s != [] && AllDigits(s)
    ensures DigitsValue(s) == (s[0] as int - 0x30) * Pow10(|s| - 1) + DigitsValue(s[1..])
  {
    if |s| > 1 {
      var init, rest := s[..|s| - 1], s[1..];
      var d, l := s[0] as int - 0x30, s[|s| - 1] as int - 0x30;
      DigitsValueLeading(init);
      assert init[1..] == rest[..|rest| - 1];
      assert init[0] == s[0];
      var x := DigitsValue(init[1..]);
      assert DigitsValue(s) == 10 * DigitsValue(init) + l;
      assert DigitsValue(init) == d * Pow10(|s| - 2) + x;
      assert DigitsValue(rest) == 10 * x + l;
      LeadingArith(d, Pow10(|s| - 2), x, l);
    }
  }

  lemma LeadingArith(d: int, p: int, x: int, l: int)
    ensures 10 * (d * p + x) + l == d * (10 * p) + (10 * x + l)
  {
    assert d * (10 * p) == 10 * (d * p);
  }

  lemma MulMonotone(x: int, y: int, p: nat)
    requires x <= y
    ensures x * p <= y * p
  {
    assert y * p - x * p == (y - x) * p;
  }

  lemma MulStep(x: int, y: int, p: nat)
    requires x < y
    ensures x * p + p <= y * p
  {
    MulMonotone(x + 1, y, p);
    assert (x + 1) * p == x * p + p;
  }

  /** A run without a leading zero denotes at least 10^(length - 1). */
  lemma LeadingNonZero(s: Bytes)
    requires s != [] && AllDigits(s) && s[0] != 0x30
    ensures DigitsValue(s) >= Pow10(|s| - 1)
  {
    DigitsValueLeading(s);
    MulMonotone(1, s[0] as int - 0x30, Pow10(|s| - 1));
  }

  /** Digit runs of one length: byte-wise order is numeric order. */
  lemma {:induction false} SameLengthDigitsOrder(a: Bytes, b: Bytes)
    requires AllDigits(a) && AllDigits(b) && |a| == |b|
    ensures CompareBytes(a, b) == Sign(DigitsValue(a) - DigitsValue(b))
  {
    if a != [] {
      if a[0] < b[0] {
        LeadingDigitDecides(a, b);
      } else if a[0] > b[0] {
        LeadingDigitDecides(b, a);
      } else {
        DigitsValueLeading(a);
        DigitsValueLeading(b);
        SameLengthDigitsOrder(a[1..], b[1..]);
        assert a == [a[0]] + a[1..] && b == [b[0]] + b[1..];
      }
    }
  }

  /** Of two digit runs of one length, the smaller leading digit gives the
      smaller number. */
  lemma LeadingDigitDecides(a: Bytes, b: Bytes)
    requires AllDigits(a) && AllDigits(b) && |a| == |b| && a != [] && a[0] < b[0]
    ensures DigitsValue(a) < DigitsValue(b)
  {
    DigitsValueLeading(a);
    DigitsValueLeading(b);
    DigitsValueBound(a[1..]);
    MulStep(a[0] as int - 0x30, b[0] as int - 0x30, Pow10(|a| - 1));
  }

  // ---------------------------------------------------------------------
  // Lower-case hexadecimal: the `%x` verb applied to a byte slice

  function HexDigit(n: nat): (b: byte)
    requires n < 16
  {
    if n < 10 then (0x30 + n) as byte else (0x61 + n - 10) as byte
  }

  function HexValue(b: byte): nat {
    if 0x30 <= b <= 0x39 then (b - 0x30) as nat
    else if 0x61 <= b <= 0x66 then (b - 0x61) as nat + 10
    else 0
  }

  /** Two lower-case hex digits per byte, high nibble first. */
  function Hex(bs: Bytes): (r: Bytes)
    ensures |r| == 2 * |bs|
  {
    if bs == [] then [] else [HexDigit(bs[0] as nat / 16), HexDigit(bs[0] as nat % 16)] + Hex(bs[1..])
  }

  function UnHex(s: Bytes): Bytes
    decreases |s|
  {
    if |s| < 2 then []
    else
      var v := HexValue(s[0]) * 16 + HexValue(s[1]);
      (if v < 256 then [v as byte] else [0]) + UnHex(s[2..])
  }

  /** `%x` round-trips: the digest bytes are recovered from their rendering. */
  lemma {:induction false} HexRoundTrip(bs: Bytes)
    ensures UnHex(Hex(bs)) == bs
  {
    if bs != [] {
      var h := Hex(bs);
      assert h[2..] == Hex(bs[1..]);
      HexRoundTrip(bs[1..]);
      assert HexValue(h[0]) == bs[0] as nat / 16;
      assert HexValue(h[1]) == bs[0] as nat % 16;
    }
  }
}
