// rpm's version comparison (rpmvercmp.go).
//
// A version string is cut into maximal runs of bytes of one class: digits,
// ASCII letters, tildes and "other" bytes. The comparison walks both strings
// run by run: "other" runs are skipped unseen, a tilde run sorts before
// everything (end of string included), the end of a string sorts before
// letters and digits, letters sort before digits, digit runs compare by
// numeric value and letter runs byte-wise.
//
// The loop of the source is `RpmvercmpBytes`. Its specification is
// `VersionCompare`: the lexicographic comparison of the two token sequences
// (`Tokens`, the runs with the "other" runs removed), padded with the end
// token, under the element order `TokenCmp`. Reflexivity, antisymmetry and
// transitivity are proved about that specification.

module Rpmvercmp {
  import opened Text

  /** The byte classes of versionT, and END for exhausted input. */
  datatype VersionClass = Alpha | Numeric | Tilde | Other | End

  /** The source's compile-time switch that gives '~' its own class. */
  const Tilda: bool := true

  /** getTbyte: the class of one byte. Every byte outside the ASCII digits,
      the ASCII letters and '~' -- '^', '.', '_' and every byte from 0x80 up
      among them -- is Other. */
  function Class(b: byte): (c: VersionClass)
    ensures c != End
    ensures c == Numeric <==> 0x30 <= b <= 0x39
    ensures c == Alpha <==> (0x61 <= b <= 0x7A || 0x41 <= b <= 0x5A)
    ensures c == Tilde <==> b == 0x7E
  {
    if 0x30 <= b <= 0x39 then Numeric
    else if 0x61 <= b <= 0x7A then Alpha
    else if 0x41 <= b <= 0x5A then Alpha
    else if b == 0x7E && Tilda then Tilde
    else Other
  }

  // ---------------------------------------------------------------------
  // Cutting a string into runs

  /** The length of the maximal run of same-class bytes that starts `d`. */
  function RunLength(d: Bytes): (n: nat)
    requires d != []
    ensures 1 <= n <= |d|
    ensures forall k | 0 <= k < n :: Class(d[k]) == Class(d[0])
    ensures n < |d| ==> Class(d[n]) != Class(d[0])
  {
    if |d| == 1 || Class(d[1]) != Class(d[0]) then 1 else 1 + RunLength(d[1..])
  }

  /** The result of nextSlice: `d` is cut into its first run `cs`, of class
      `t`, and the rest `ns`; an empty `d` gives two empty parts and END. */
  predicate IsCut(d: Bytes, cs: Bytes, t: VersionClass, ns: Bytes) {
    if d == [] then cs == [] && t == End && ns == []
    else
      && cs + ns == d
      && cs != []
      && t == Class(d[0])
      && (forall k | 0 <= k < |cs| :: Class(cs[k]) == t)
      && (ns == [] || Class(ns[0]) != t)
  }

  /** nextSlice: scan forward while the class stays that of the first byte. */
  method NextSlice(d: Bytes) returns (cs: Bytes, t: VersionClass, ns: Bytes)
    ensures IsCut(d, cs, t, ns)
  {
    if |d| <= 0 {
      return d, End, d;
    }
    t := Class(d[0]);
    var num := 1;
    while num < |d|
      invariant 1 <= num <= |d|
      invariant forall k | 0 <= k < num :: Class(d[k]) == t
    {
      if Class(d[num]) != t {
        assert d[..num] + d[num..] == d;
        return d[..num], t, d[num..];
      }
      num := num + 1;
    }
    return d, t, [];
  }

  /** A cut is unique: it is the maximal run. */
  lemma CutIsRun(d: Bytes, cs: Bytes, t: VersionClass, ns: Bytes)
    requires d != [] && IsCut(d, cs, t, ns)
    ensures |cs| == RunLength(d) && cs == d[..|cs|] && ns == d[|cs|..]
  {
    var n := RunLength(d);
    assert cs == d[..|cs|] && ns == d[|cs|..];
    if |cs| < n {
      assert false;
    } else if n < |cs| {
      assert false;
    }
  }

  // ---------------------------------------------------------------------
  // Tokens and their order

  /** One run that takes part in the comparison. */
  datatype Token = Token(cls: VersionClass, run: Bytes)

  /** What a side contributes once its string is exhausted. */
  const EndToken := Token(End, [])

  /** The runs of `d` in order, with the "other" runs left out. */
  function Tokens(d: Bytes): (ts: seq<Token>)
    ensures forall i | 0 <= i < |ts| :: ts[i].cls != Other && ts[i].cls != End && ts[i].run != []
    decreases |d|
  {
    if d == [] then []
    else
      var n := RunLength(d);
      (if Class(d[0]) == Other then [] else [Token(Class(d[0]), d[..n])]) + Tokens(d[n..])
  }

  /** Leading '0' bytes removed. */
  function TrimZeros(s: Bytes): (r: Bytes)
    ensures r == [] || r[0] != 0x30
    decreases |s|
  {
    if s != [] && s[0] == 0x30 then TrimZeros(s[1..]) else s
  }

  /** Two digit runs: without their leading zeros, the longer is greater, and
      runs of equal length compare byte-wise. */
  function NumCmp(a: Bytes, b: Bytes): int {
    var a', b' := TrimZeros(a), TrimZeros(b);
    if |a'| < |b'| then -1 else if |a'| > |b'| then 1 else CompareBytes(a', b')
  }

  /** One round of the loop of rpmvercmpBytes on the two current runs, with
      its branches in the source's order: 0 means "equal so far, go on". */
  function TokenCmp(x: Token, y: Token): int {
    if x.cls == Tilde || y.cls == Tilde then
      if x.cls == Tilde && y.cls == Tilde then
        (if |x.run| < |y.run| then 1 else if |x.run| > |y.run| then -1 else 0)
      else if x.cls == Tilde then -1
      else 1
    else if x.cls != y.cls then
      if x.cls == End then -1
      else if y.cls == End then 1
      else if x.cls == Alpha && y.cls == Numeric then -1
      else if y.cls == Alpha && x.cls == Numeric then 1
      else if x.cls == Other then -1
      else 1
    else if x.cls == Other then 0
    else if x.cls == Numeric then NumCmp(x.run, y.run)
    else CompareBytes(x.run, y.run)
  }

  function Head(ts: seq<Token>): Token {
    if ts == [] then EndToken else ts[0]
  }

  function Tail(ts: seq<Token>): seq<Token> {
    if ts == [] then [] else ts[1..]
  }

  /** Lexicographic comparison of two token sequences, each padded with
      END tokens. */
  function TokensCompare(x: seq<Token>, y: seq<Token>): int
    decreases |x| + |y|
  {
    if x == [] && y == [] then 0
    else
      var c := TokenCmp(Head(x), Head(y));
      if c != 0 then c else TokensCompare(Tail(x), Tail(y))
  }

  /** The specification of rpmvercmp. */
  function VersionCompare(a: Bytes, b: Bytes): int {
    TokensCompare(Tokens(a), Tokens(b))
  }

  // ---------------------------------------------------------------------
  // The loop

  /** The tokens a cut contributes: none for an Other run or for END. */
  function Lead(t: VersionClass, cs: Bytes): seq<Token> {
    if t == Other || t == End then [] else [Token(t, cs)]
  }

  lemma CutTokens(d: Bytes, cs: Bytes, t: VersionClass, ns: Bytes)
    requires IsCut(d, cs, t, ns)
    ensures Tokens(d) == Lead(t, cs) + Tokens(ns)
    ensures d == [] ==> ns == []
    ensures d != [] ==> |ns| < |d|
  {
    if d != [] {
      CutIsRun(d, cs, t, ns);
    }
  }

  /** One round of the comparison, seen on the token sequences. */
  lemma CompareStep(t1: VersionClass, cs1: Bytes, r1: seq<Token>, t2: VersionClass, cs2: Bytes, r2: seq<Token>)
    requires t1 != Other && t2 != Other
    requires t1 == End ==> cs1 == [] && r1 == []
    requires t2 == End ==> cs2 == [] && r2 == []
    ensures TokensCompare(Lead(t1, cs1) + r1, Lead(t2, cs2) + r2)
         == (var c := TokenCmp(Token(t1, cs1), Token(t2, cs2));
             if c != 0 then c else TokensCompare(r1, r2))
  {
    var x, y := Lead(t1, cs1) + r1, Lead(t2, cs2) + r2;
    assert Head(x) == Token(t1, cs1) && Tail(x) == r1;
    assert Head(y) == Token(t2, cs2) && Tail(y) == r2;
  }

  /** nextSlice, skipping one Other run: the first token of `d`, or END. */
  method NextToken(d: Bytes) returns (cs: Bytes, t: VersionClass, ns: Bytes)
    ensures t != Other
    ensures t == End ==> cs == [] && ns == []
    ensures Tokens(d) == Lead(t, cs) + Tokens(ns)
    ensures d != [] ==> |ns| < |d|
  {
    cs, t, ns := NextSlice(d);
    CutTokens(d, cs, t, ns);
    if t == Other {
      ghost var rest := ns;
      cs, t, ns := NextSlice(ns);
      CutTokens(rest, cs, t, ns);
    }
  }

  /** rpmvercmpBytes: -1, 0 or 1 as `s1` is older than, equal to or newer
      than `s2`, which is what the token comparison says. */
  method RpmvercmpBytes(s1: Bytes, s2: Bytes) returns (r: int)
    ensures r == VersionCompare(s1, s2)
  {
    var a, b := s1, s2;
    while |a| > 0 || |b| > 0
      invariant TokensCompare(Tokens(a), Tokens(b)) == VersionCompare(s1, s2)
      decreases |a| + |b|
    {
      var cs1, t1, ns1 := NextToken(a);
      var cs2, t2, ns2 := NextToken(b);
      ghost var h1, h2 := Token(t1, cs1), Token(t2, cs2);
      ghost var c := TokenCmp(h1, h2);
      CompareStep(t1, cs1, Tokens(ns1), t2, cs2, Tokens(ns2));
      assert c != 0 ==> c == VersionCompare(s1, s2);
      assert c == 0 ==> TokensCompare(Tokens(ns1), Tokens(ns2)) == VersionCompare(s1, s2);

      a, b := ns1, ns2;

      if t1 == Tilde || t2 == Tilde {
        if t1 == Tilde && t2 == Tilde {
          if |cs1| < |cs2| {
            return 1;
          }
          if |cs1| > |cs2| {
            return -1;
          }
          continue;
        }
        if t1 == Tilde {
          return -1;
        }
        if t2 == Tilde {
          return 1;
        }
      }

      if t1 != t2 {
        if t1 == End {
          return -1;
        }
        if t2 == End {
          return 1;
        }
        if t1 == Alpha && t2 == Numeric {
          return -1;
        }
        if t2 == Alpha && t1 == Numeric {
          return 1;
        }
        // The source's remaining branch (an Other run against a letter or
        // digit run) cannot be reached: NextToken never yields Other.
        assert false;
      }

      // Likewise the source's "both Other: continue" cannot be reached.
      assert t1 != Other;

      if t1 == Numeric {
        cs1 := SkipZeros(cs1);
        cs2 := SkipZeros(cs2);
        if |cs1| < |cs2| {
          return -1;
        }
        if |cs1| > |cs2| {
          return 1;
        }
      }

      var ret := CompareBytes(cs1, cs2);
      if ret != 0 {
        return ret;
      }
    }
    return 0;
  }

  /** The loop that throws away the leading zeros of a digit run. */
  method SkipZeros(cs: Bytes) returns (r: Bytes)
    ensures r == TrimZeros(cs)
  {
    r := cs;
    while |r| > 0 && r[0] == 0x30
      invariant TrimZeros(r) == TrimZeros(cs)
    {
      r := r[1..];
    }
  }

  /** rpmvercmp: the string entry point (a Go string is its bytes). */
  method RpmVerCmp(s1: Bytes, s2: Bytes) returns (r: int)
    ensures r == VersionCompare(s1, s2)
    ensures -1 <= r <= 1
  {
    r := RpmvercmpBytes(s1, s2);
    VersionCompareRange(s1, s2);
  }

  // ---------------------------------------------------------------------
  // Digit runs compare by the number they denote

  /** Stripping leading zeros keeps the digits and their value. */
  lemma {:induction false} TrimZerosValue(s: Bytes)
    requires AllDigits(s)
    ensures AllDigits(TrimZeros(s))
    ensures DigitsValue(TrimZeros(s)) == DigitsValue(s)
    decreases |s|
  {
    if s != [] && s[0] == 0x30 {
      TrimZerosValue(s[1..]);
      DigitsValueLeading(s);
    }
  }

  /** The source's numeric branch is the numeric order: leading zeros are
      ignored, so "0010" and "10" are equal and "9" is less than "10". */
  lemma NumCmpIsNumeric(a: Bytes, b: Bytes)
    requires AllDigits(a) && AllDigits(b)
    ensures NumCmp(a, b) == Sign(DigitsValue(a) - DigitsValue(b))
  {
    var a', b' := TrimZeros(a), TrimZeros(b);
    TrimZerosValue(a);
    TrimZerosValue(b);
    var va, vb := DigitsValue(a'), DigitsValue(b');
    if |a'| < |b'| {
      ShorterIsSmaller(a', b');
      assert va < vb;
    } else if |a'| > |b'| {
      ShorterIsSmaller(b', a');
      assert va > vb;
    } else {
      SameLengthDigitsOrder(a', b');
      assert CompareBytes(a', b') == Sign(va - vb);
    }
  }

  /** Without leading zeros, fewer digits means a smaller number. */
  lemma ShorterIsSmaller(a: Bytes, b: Bytes)
    requires AllDigits(a) && AllDigits(b) && |a| < |b| && b[0] != 0x30
    ensures DigitsValue(a) < DigitsValue(b)
  {
    DigitsValueBound(a);
    LeadingNonZero(b);
    Pow10Monotone(|a|, |b| - 1);
  }

  /** Two digit tokens compare by their numeric values. */
  lemma NumericTokens(x: Token, y: Token)
    requires x.cls == Numeric && y.cls == Numeric
    requires AllDigits(x.run) && AllDigits(y.run)
    ensures TokenCmp(x, y) == Sign(DigitsValue(x.run) - DigitsValue(y.run))
  {
    NumCmpIsNumeric(x.run, y.run);
  }

  // ---------------------------------------------------------------------
  // Properties of the element order

  /** The order between classes: Tilde < END < Other < Alpha < Numeric. */
  function Rank(c: VersionClass): nat {
    match c
    case Tilde => 0
    case End => 1
    case Other => 2
    case Alpha => 3
    case Numeric => 4
  }

  lemma TokenCmpAcrossClasses(x: Token, y: Token)
    requires x.cls != y.cls
    ensures TokenCmp(x, y) == if Rank(x.cls) < Rank(y.cls) then -1 else 1
  {
  }

  lemma TokenCmpRange(x: Token, y: Token)
    ensures -1 <= TokenCmp(x, y) <= 1
  {
  }

  lemma TokenCmpReflexive(x: Token)
    ensures TokenCmp(x, x) == 0
  {
  }

  lemma TokenCmpAntisymmetric(x: Token, y: Token)
    ensures TokenCmp(y, x) == -TokenCmp(x, y)
  {
    if x.cls == y.cls {
      if x.cls == Numeric {
        CompareBytesAntisymmetric(TrimZeros(x.run), TrimZeros(y.run));
      } else {
        CompareBytesAntisymmetric(x.run, y.run);
      }
    }
  }

  lemma TokenCmpTransitive(x: Token, y: Token, z: Token)
    requires TokenCmp(x, y) <= 0 && TokenCmp(y, z) <= 0
    ensures TokenCmp(x, z) <= 0
  {
    if x.cls == y.cls == z.cls {
      if x.cls == Numeric {
        var x', y', z' := TrimZeros(x.run), TrimZeros(y.run), TrimZeros(z.run);
        if |x'| == |y'| == |z'| {
          CompareBytesTransitive(x', y', z');
        }
      } else if x.cls != Tilde && x.cls != Other {
        CompareBytesTransitive(x.run, y.run, z.run);
      }
    } else {
      if x.cls != y.cls { TokenCmpAcrossClasses(x, y); }
      if y.cls != z.cls { TokenCmpAcrossClasses(y, z); }
      if x.cls != z.cls { TokenCmpAcrossClasses(x, z); }
    }
  }

  // ---------------------------------------------------------------------
  // Properties of the comparison

  lemma {:induction false} TokensCompareRange(x: seq<Token>, y: seq<Token>)
    ensures -1 <= TokensCompare(x, y) <= 1
    decreases |x| + |y|
  {
    if x != [] || y != [] {
      TokenCmpRange(Head(x), Head(y));
      TokensCompareRange(Tail(x), Tail(y));
    }
  }

  lemma {:induction false} TokensCompareReflexive(x: seq<Token>)
    ensures TokensCompare(x, x) == 0
    decreases |x|
  {
    if x != [] {
      TokenCmpReflexive(Head(x));
      TokensCompareReflexive(Tail(x));
    }
  }

  lemma {:induction false} TokensCompareAntisymmetric(x: seq<Token>, y: seq<Token>)
    ensures TokensCompare(y, x) == -TokensCompare(x, y)
    decreases |x| + |y|
  {
    if x != [] || y != [] {
      TokenCmpAntisymmetric(Head(x), Head(y));
      TokensCompareAntisymmetric(Tail(x), Tail(y));
    }
  }

  lemma {:induction false} TokensCompareTransitive(x: seq<Token>, y: seq<Token>, z: seq<Token>)
    requires TokensCompare(x, y) <= 0 && TokensCompare(y, z) <= 0
    ensures TokensCompare(x, z) <= 0
    decreases |x| + |y| + |z|
  {
    if x == [] && z == [] {
      assert TokensCompare(x, z) == 0;
    } else {
      var hx, hy, hz := Head(x), Head(y), Head(z);
      // The heads are ordered hx <= hy <= hz.
      if x != [] || y != [] {
        assert TokenCmp(hx, hy) <= 0;
      } else {
        TokenCmpReflexive(hx);
      }
      if y != [] || z != [] {
        assert TokenCmp(hy, hz) <= 0;
      } else {
        TokenCmpReflexive(hy);
      }
      TokenCmpTransitive(hx, hy, hz);
      if TokenCmp(hx, hz) == 0 {
        // All three heads are then equivalent, and the tails decide.
        TokenCmpAntisymmetric(hx, hz);
        TokenCmpTransitive(hy, hz, hx);
        TokenCmpTransitive(hz, hx, hy);
        TokenCmpAntisymmetric(hx, hy);
        TokenCmpAntisymmetric(hy, hz);
        TokensCompareTransitive(Tail(x), Tail(y), Tail(z));
      }
    }
  }

  lemma VersionCompareRange(a: Bytes, b: Bytes)
    ensures -1 <= VersionCompare(a, b) <= 1
  {
    TokensCompareRange(Tokens(a), Tokens(b));
  }

  /** rpmvercmp(a, a) == 0. */
  lemma VersionCompareReflexive(a: Bytes)
    ensures VersionCompare(a, a) == 0
  {
    TokensCompareReflexive(Tokens(a));
  }

  /** rpmvercmp(b, a) == -rpmvercmp(a, b). */
  lemma VersionCompareAntisymmetric(a: Bytes, b: Bytes)
    ensures VersionCompare(b, a) == -VersionCompare(a, b)
  {
    TokensCompareAntisymmetric(Tokens(a), Tokens(b));
  }

  /** a <= b and b <= c give a <= c. */
  lemma VersionCompareTransitive(a: Bytes, b: Bytes, c: Bytes)
    requires VersionCompare(a, b) <= 0 && VersionCompare(b, c) <= 0
    ensures VersionCompare(a, c) <= 0
  {
    TokensCompareTransitive(Tokens(a), Tokens(b), Tokens(c));
  }

  /** Versions that compare equal are interchangeable in every comparison,
      so "compares equal" is an equivalence and the order a total preorder. */
  lemma VersionCompareEquivalent(a: Bytes, b: Bytes, c: Bytes)
    requires VersionCompare(a, b) == 0
    ensures VersionCompare(a, c) == VersionCompare(b, c)
  {
    VersionCompareAntisymmetric(a, b);
    VersionCompareAntisymmetric(a, c);
    VersionCompareAntisymmetric(b, c);
    VersionCompareRange(a, c);
    VersionCompareRange(b, c);
    if VersionCompare(b, c) <= 0 {
      VersionCompareTransitive(a, b, c);
    }
    if VersionCompare(a, c) <= 0 {
      VersionCompareTransitive(b, a, c);
    }
    if VersionCompare(c, b) <= 0 {
      VersionCompareTransitive(c, b, a);
    }
    if VersionCompare(c, a) <= 0 {
      VersionCompareTransitive(c, a, b);
    }
  }

  // ---------------------------------------------------------------------
  // How the tokens of a concatenation arise

  predicate AllOther(s: Bytes) {
    forall i | 0 <= i < |s| :: Class(s[i]) == Other
  }

  /** A string of one class is a single run. */
  lemma SingleRun(d: Bytes)
    requires d != [] && forall i | 0 <= i < |d| :: Class(d[i]) == Class(d[0])
    ensures Tokens(d) == Lead(Class(d[0]), d)
  {
    assert d + [] == d;
    CutTokens(d, d, Class(d[0]), []);
  }

  lemma TokensUnfold(d: Bytes)
    requires d != []
    ensures Tokens(d) == Lead(Class(d[0]), d[..RunLength(d)]) + Tokens(d[RunLength(d)..])
  {
  }

  /** The first run of `p + q` is the first run of `p` when it ends before
      the join, or when the bytes at the join differ in class. */
  lemma FirstRunOfConcat(p: Bytes, q: Bytes)
    requires p != []
    requires RunLength(p) < |p| || q == [] || Class(p[|p| - 1]) != Class(q[0])
    ensures RunLength(p + q) == RunLength(p)
    ensures (p + q)[..RunLength(p)] == p[..RunLength(p)]
    ensures (p + q)[RunLength(p)..] == p[RunLength(p)..] + q
  {
    var n, d := RunLength(p), p + q;
    var cs, ns := d[..n], d[n..];
    SliceOfConcat(p, q, n);
    assert IsCut(d, cs, Class(d[0]), ns) by {
      assert cs + ns == d by {
        SplitAt(d, n);
      }
      assert d[0] == p[0];
      assert ns == [] || Class(ns[0]) != Class(d[0]) by {
        if n < |p| {
          assert ns[0] == p[n];
        } else if q != [] {
          assert ns[0] == q[0];
          assert Class(p[|p| - 1]) == Class(p[0]);
        }
      }
    }
    CutIsRun(d, cs, Class(d[0]), ns);
  }

  /** Two strings whose touching bytes differ in class keep their runs
      apart, so their tokens concatenate. */
  lemma {:induction false} TokensConcat(p: Bytes, q: Bytes)
    requires p == [] || q == [] || Class(p[|p| - 1]) != Class(q[0])
    ensures Tokens(p + q) == Tokens(p) + Tokens(q)
    decreases |p|
  {
    if p == [] {
      assert p + q == q;
    } else if q == [] {
      assert p + q == p;
    } else {
      var n := RunLength(p);
      var r := p[n..];
      var lead := Lead(Class(p[0]), p[..n]);
      assert Tokens(p + q) == lead + Tokens(r + q) by {
        FirstRunOfConcat(p, q);
        TokensUnfold(p + q);
      }
      assert Tokens(r + q) == Tokens(r) + Tokens(q) by {
        assert r != [] ==> r[|r| - 1] == p[|p| - 1];
        TokensConcat(r, q);
      }
      assert Tokens(p) == lead + Tokens(r) by {
        TokensUnfold(p);
      }
      Associative(lead, Tokens(r), Tokens(q));
    }
  }

  lemma {:induction false} TokensAllOther(s: Bytes)
    requires AllOther(s)
    ensures Tokens(s) == []
    decreases |s|
  {
    if s != [] {
      TokensAllOther(s[RunLength(s)..]);
    }
  }

  /** Separator bytes in front of a string contribute nothing. */
  lemma TokensOtherPrefix(s: Bytes, q: Bytes)
    requires AllOther(s)
    ensures Tokens(s + q) == Tokens(q)
  {
    if q == [] || Class(q[0]) != Other {
      OtherBeforeRun(s, q);
    } else {
      var m := RunLength(q);
      assert q[..m] + q[m..] == q;
      OtherBeforeOther(s, q[..m], q[m..]);
    }
  }

  /** The case of TokensOtherPrefix where `q` begins with a separator run
      `head`. */
  lemma OtherBeforeOther(s: Bytes, head: Bytes, tail: Bytes)
    requires AllOther(s) && AllOther(head)
    requires tail == [] || Class(tail[0]) != Other
    ensures Tokens(s + (head + tail)) == Tokens(head + tail)
  {
    assert AllOther(s + head);
    OtherBeforeRun(s + head, tail);
    OtherBeforeRun(head, tail);
    Associative(s, head, tail);
  }

  /** The case of TokensOtherPrefix where `q` does not begin with a
      separator. */
  lemma OtherBeforeRun(s: Bytes, q: Bytes)
    requires AllOther(s)
    requires q == [] || Class(q[0]) != Other
    ensures Tokens(s + q) == Tokens(q)
  {
    TokensAllOther(s);
    TokensConcat(s, q);
    assert Tokens(s) + Tokens(q) == Tokens(q);
  }

  /** A non-empty separator run between two strings contributes nothing and
      keeps their runs apart. */
  lemma {:induction false} TokensAroundSeparator(p: Bytes, s: Bytes, q: Bytes)
    requires s != [] && AllOther(s)
    ensures Tokens(p + s + q) == Tokens(p) + Tokens(q)
    decreases |p|, 1
  {
    if p == [] {
      assert p + s + q == s + q;
      TokensOtherPrefix(s, q);
    } else if RunLength(p) < |p| {
      SeparatorAfterRuns(p, s, q);
    } else {
      SeparatorAfterRun(p, s, q);
    }
  }

  /** The case of TokensAroundSeparator where `p` has more than one run. */
  lemma {:induction false} SeparatorAfterRuns(p: Bytes, s: Bytes, q: Bytes)
    requires s != [] && AllOther(s)
    requires p != [] && RunLength(p) < |p|
    ensures Tokens(p + s + q) == Tokens(p) + Tokens(q)
    decreases |p|, 0
  {
    var n := RunLength(p);
    var r := p[n..];
    var t := s + q;
    assert Tokens(r + t) == Tokens(r) + Tokens(q) by {
      TokensAroundSeparator(r, s, q);
      Associative(r, s, q);
    }
    SeparatorAfterRunsStep(p, t, Tokens(q));
    Associative(p, s, q);
  }

  lemma SeparatorAfterRunsStep(p: Bytes, t: Bytes, rest: seq<Token>)
    requires p != [] && RunLength(p) < |p|
    requires Tokens(p[RunLength(p)..] + t) == Tokens(p[RunLength(p)..]) + rest
    ensures Tokens(p + t) == Tokens(p) + rest
  {
    var n := RunLength(p);
    var lead := Lead(Class(p[0]), p[..n]);
    FirstRunOfConcat(p, t);
    TokensUnfold(p + t);
    TokensUnfold(p);
    Associative(lead, Tokens(p[n..]), rest);
  }

  /** The case of TokensAroundSeparator where `p` is a single run. */
  lemma SeparatorAfterRun(p: Bytes, s: Bytes, q: Bytes)
    requires s != [] && AllOther(s)
    requires p != [] && RunLength(p) == |p|
    ensures Tokens(p + s + q) == Tokens(p) + Tokens(q)
  {
    assert forall i | 0 <= i < |p| :: Class(p[i]) == Class(p[0]);
    if Class(p[0]) != Other {
      assert Tokens(p + s + q) == Tokens(p) + Tokens(s + q) by {
        Associative(p, s, q);
        TokensConcat(p, s + q);
      }
      TokensOtherPrefix(s, q);
    } else {
      assert Tokens(p + s + q) == Tokens(q) by {
        Associative(p, s, q);
        assert AllOther(p + s);
        TokensOtherPrefix(p + s, q);
      }
      TokensAllOther(p);
    }
  }

  lemma {:induction false} TokensCompareCommonPrefix(p: seq<Token>, x: seq<Token>, y: seq<Token>)
    ensures TokensCompare(p + x, p + y) == TokensCompare(x, y)
    decreases |p|
  {
    if p == [] {
      assert p + x == x && p + y == y;
    } else {
      TokenCmpReflexive(p[0]);
      assert Head(p + x) == p[0] && Tail(p + x) == p[1..] + x;
      assert Head(p + y) == p[0] && Tail(p + y) == p[1..] + y;
      TokensCompareCommonPrefix(p[1..], x, y);
    }
  }

  // ---------------------------------------------------------------------
  // The comparison rules, stated on strings

  /** Separators are skipped unexamined: exchanging one non-empty separator
      run for another never changes the result ("2.0" == "2_0",
      "1.1.α" == "1.1.ββ"). */
  lemma SeparatorsInterchangeable(p: Bytes, s1: Bytes, s2: Bytes, q: Bytes)
    requires s1 != [] && AllOther(s1) && s2 != [] && AllOther(s2)
    ensures VersionCompare(p + s1 + q, p + s2 + q) == 0
  {
    TokensAroundSeparator(p, s1, q);
    TokensAroundSeparator(p, s2, q);
    TokensCompareReflexive(Tokens(p) + Tokens(q));
  }

  /** Extending a version `p` by `q` (with no run straddling the join):
      nothing changes when `q` holds only separators, the result is older
      when the first run of `q` that counts is a tilde run ("1.0~rc1" <
      "1.0"), and newer otherwise ("2.0.1" > "2.0", "2.0.1a" > "2.0.1"). */
  lemma ExtensionOrder(p: Bytes, q: Bytes)
    requires p == [] || q == [] || Class(p[|p| - 1]) != Class(q[0])
    ensures VersionCompare(p + q, p)
         == if Tokens(q) == [] then 0 else if Tokens(q)[0].cls == Tilde then -1 else 1
  {
    TokensConcat(p, q);
    assert Tokens(p) + [] == Tokens(p);
    TokensCompareCommonPrefix(Tokens(p), Tokens(q), []);
    AgainstEnd(Tokens(q));
  }

  /** Tokens against an exhausted side: END is newer than a tilde run and
      older than anything else. */
  lemma AgainstEnd(ts: seq<Token>)
    requires forall i | 0 <= i < |ts| :: ts[i].cls != Other && ts[i].cls != End
    ensures TokensCompare(ts, []) == if ts == [] then 0 else if ts[0].cls == Tilde then -1 else 1
  {
  }

  /** A digit run on its own is one numeric token. */
  lemma DigitRunToken(q: Bytes)
    requires q != [] && AllDigits(q)
    ensures Tokens(q) == [Token(Numeric, q)]
  {
    assert forall i | 0 <= i < |q| :: Class(q[i]) == Numeric;
    SingleRun(q);
  }

  /** After a common beginning and a separator, two final digit runs compare
      by the numbers they denote ("10.0001" == "10.1"). */
  lemma DigitRunsAfterCommonPrefix(p: Bytes, s: Bytes, q1: Bytes, q2: Bytes)
    requires s != [] && AllOther(s)
    requires q1 != [] && AllDigits(q1) && q2 != [] && AllDigits(q2)
    ensures VersionCompare(p + s + q1, p + s + q2) == Sign(DigitsValue(q1) - DigitsValue(q2))
  {
    var t1, t2 := Token(Numeric, q1), Token(Numeric, q2);
    DigitRunAfterSeparator(p, s, q1);
    DigitRunAfterSeparator(p, s, q2);
    SingleDigitRuns(q1, q2);
    TokensCompareCommonPrefix(Tokens(p), [t1], [t2]);
  }

  lemma DigitRunAfterSeparator(p: Bytes, s: Bytes, q: Bytes)
    requires s != [] && AllOther(s)
    requires q != [] && AllDigits(q)
    ensures Tokens(p + s + q) == Tokens(p) + [Token(Numeric, q)]
  {
    TokensAroundSeparator(p, s, q);
    DigitRunToken(q);
  }

  lemma SingleDigitRuns(q1: Bytes, q2: Bytes)
    requires AllDigits(q1) && AllDigits(q2)
    ensures TokensCompare([Token(Numeric, q1)], [Token(Numeric, q2)]) == Sign(DigitsValue(q1) - DigitsValue(q2))
  {
    NumCmpIsNumeric(q1, q2);
    CompareStep(Numeric, q1, [], Numeric, q2, []);
    assert [Token(Numeric, q1)] == Lead(Numeric, q1) + [];
    assert [Token(Numeric, q2)] == Lead(Numeric, q2) + [];
  }


  /** Two versions that begin with digit runs of different value, each
      followed by a separator, are ordered by those numbers alone
      ("4.999.9" < "5.0"). */
  lemma LeadingNumbersDecide(x: Bytes, s1: Bytes, q1: Bytes, y: Bytes, s2: Bytes, q2: Bytes)
    requires x != [] && AllDigits(x) && y != [] && AllDigits(y)
    requires s1 != [] && AllOther(s1) && s2 != [] && AllOther(s2)
    requires DigitsValue(x) != DigitsValue(y)
    ensures VersionCompare(x + s1 + q1, y + s2 + q2) == Sign(DigitsValue(x) - DigitsValue(y))
  {
    var a, b := x + s1 + q1, y + s2 + q2;
    assert Tokens(a) == Lead(Numeric, x) + Tokens(q1) by {
      TokensAroundSeparator(x, s1, q1);
      DigitRunToken(x);
    }
    assert Tokens(b) == Lead(Numeric, y) + Tokens(q2) by {
      TokensAroundSeparator(y, s2, q2);
      DigitRunToken(y);
    }
    var c := TokenCmp(Token(Numeric, x), Token(Numeric, y));
    assert c == Sign(DigitsValue(x) - DigitsValue(y)) && c != 0 by {
      NumCmpIsNumeric(x, y);
    }
    CompareStep(Numeric, x, Tokens(q1), Numeric, y, Tokens(q2));
  }

  /** A separator between two runs of different classes (or at either end)
      can be dropped: "1.a" == "1a", "1...." == "1". */
  lemma SeparatorBetweenRuns(p: Bytes, s: Bytes, q: Bytes)
    requires s != [] && AllOther(s)
    requires p == [] || q == [] || Class(p[|p| - 1]) != Class(q[0])
    ensures VersionCompare(p + s + q, p + q) == 0
  {
    TokensAroundSeparator(p, s, q);
    TokensConcat(p, q);
    TokensCompareReflexive(Tokens(p) + Tokens(q));
  }

  /** Two tilde runs at the same place: the shorter run is newer, runs of
      equal length are passed over ("1.0~~~" > "1.0~~~~"). */
  lemma TildeRuns(p: Bytes, t1: Bytes, q1: Bytes, t2: Bytes, q2: Bytes)
    requires p == [] || Class(p[|p| - 1]) != Tilde
    requires t1 != [] && forall i | 0 <= i < |t1| :: t1[i] == 0x7E
    requires t2 != [] && forall i | 0 <= i < |t2| :: t2[i] == 0x7E
    requires q1 == [] || Class(q1[0]) != Tilde
    requires q2 == [] || Class(q2[0]) != Tilde
    ensures VersionCompare(p + t1 + q1, p + t2 + q2)
         == if |t1| < |t2| then 1 else if |t1| > |t2| then -1 else VersionCompare(q1, q2)
  {
    assert Tokens(p + t1 + q1) == Tokens(p) + ([Token(Tilde, t1)] + Tokens(q1)) by {
      TildeRunTokens(p, t1, q1);
    }
    assert Tokens(p + t2 + q2) == Tokens(p) + ([Token(Tilde, t2)] + Tokens(q2)) by {
      TildeRunTokens(p, t2, q2);
    }
    TokensCompareCommonPrefix(Tokens(p), [Token(Tilde, t1)] + Tokens(q1), [Token(Tilde, t2)] + Tokens(q2));
    CompareStep(Tilde, t1, Tokens(q1), Tilde, t2, Tokens(q2));
  }

  lemma TildeRunTokens(p: Bytes, t: Bytes, q: Bytes)
    requires p == [] || Class(p[|p| - 1]) != Tilde
    requires t != [] && forall i | 0 <= i < |t| :: t[i] == 0x7E
    requires q == [] || Class(q[0]) != Tilde
    ensures Tokens(p + t + q) == Tokens(p) + ([Token(Tilde, t)] + Tokens(q))
  {
    var tq := t + q;
    calc {
      Tokens(p + t + q);
      { Associative(p, t, q); }
      Tokens(p + tq);
      { assert tq[0] == t[0];
        TokensConcat(p, tq); }
      Tokens(p) + Tokens(tq);
      { assert Class(t[0]) == Tilde && Class(t[|t| - 1]) == Tilde;
        SingleRun(t);
        TokensConcat(t, q); }
      Tokens(p) + ([Token(Tilde, t)] + Tokens(q));
    }
  }


}
