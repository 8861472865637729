// Worked comparisons, stated on the specification `VersionCompare`. Most
// are rows of the test table of rpmvercmp (itself taken from rpm's own
// tests/rpmvercmp.at); `TenAfterNine` and `CaretIsSeparator` state what
// rpmvercmp.go computes, and the table expects 1 for "1.0^" against "1.0".
// `RpmVerCmp` returns exactly these values. The longer
// strings are settled with the general rules rather than by unfolding.

module RpmvercmpVectors {
  import opened Text
  import opened Rpmvercmp

  lemma OneBeforeTwo()
    ensures VersionCompare(Ascii("1.0"), Ascii("2.0")) == -1
  {
  }

  /** Digit runs compare as numbers, not as text. */
  lemma TenAfterNine()
    ensures VersionCompare(Ascii("10"), Ascii("9")) == 1
  {
  }

  /** A letter run is older than a digit run. */
  lemma LettersBeforeDigits()
    ensures VersionCompare(Ascii("xyz.4"), Ascii("8")) == -1
  {
  }

  /** Separators: "2_0" == "2.0". */
  lemma UnderscoreIsSeparator()
    ensures VersionCompare(Ascii("2_0"), Ascii("2.0")) == 0
  {
  }

  /** '^' is a separator to this code: "1.0^" == "1.0". */
  lemma CaretIsSeparator(p: Bytes, caret: Bytes)
    requires p == Ascii("1.0") && caret == Ascii("^")
    ensures VersionCompare(p + caret, p) == 0
  {
    assert AllOther(caret);
    TokensAllOther(caret);
    ExtensionOrder(p, caret);
  }

  /** Bytes above 0x7F are separators too: "1.1.α" == "1.1.ββ" in UTF-8. */
  lemma NonAsciiSeparators()
    ensures VersionCompare(Ascii("1.1.") + [0xCE, 0xB1], Ascii("1.1.") + [0xCE, 0xB2, 0xCE, 0xB2]) == 0
  {
    var p := Ascii("1.1");
    assert p + [0x2E, 0xCE, 0xB1] + [] == Ascii("1.1.") + [0xCE, 0xB1];
    assert p + [0x2E, 0xCE, 0xB2, 0xCE, 0xB2] + [] == Ascii("1.1.") + [0xCE, 0xB2, 0xCE, 0xB2];
    SeparatorsInterchangeable(p, [0x2E, 0xCE, 0xB1], [0x2E, 0xCE, 0xB2, 0xCE, 0xB2], []);
  }

  // The longer vectors name the pieces of their strings as parameters, so
  // that the verifier works from the general rules instead of evaluating
  // the comparison on the literals.

  /** Extensions: "2.0.1a" > "2.0.1". */
  lemma LetterExtension(p: Bytes, q: Bytes)
    requires p == Ascii("2.0.1") && q == Ascii("a")
    ensures VersionCompare(p + q, p) == 1
  {
    assert Tokens(q) == [Token(Alpha, q)] by {
      SingleRun(q);
    }
    ExtensionOrder(p, q);
  }

  /** A pre-release: "1.0~rc1" < "1.0". */
  lemma TildeExtension(p: Bytes, q: Bytes)
    requires p == Ascii("1.0") && q == Ascii("~rc1")
    ensures VersionCompare(p + q, p) == -1
  {
    assert Tokens(q)[0].cls == Tilde by {
      TokensUnfold(q);
    }
    ExtensionOrder(p, q);
  }

  /** A common beginning is passed over: "5.5p1" < "5.5p2". */
  lemma CommonPrefixVector(p: Bytes, one: Bytes, two: Bytes)
    requires p == Ascii("5.5p") && one == Ascii("1") && two == Ascii("2")
    ensures VersionCompare(p + one, p + two) == -1
  {
    assert TokensCompare(Tokens(one), Tokens(two)) == -1 by {
      SingleRun(one);
      SingleRun(two);
      NumCmpIsNumeric(one, two);
      assert TokenCmp(Token(Numeric, one), Token(Numeric, two)) == -1;
    }
    TokensConcat(p, one);
    TokensConcat(p, two);
    TokensCompareCommonPrefix(Tokens(p), Tokens(one), Tokens(two));
  }

  /** Tilde runs: "1.0~~~" > "1.0~~~~". */
  lemma TildeVector(p: Bytes, t1: Bytes, t2: Bytes)
    requires p == Ascii("1.0") && t1 == Ascii("~~~") && t2 == Ascii("~~~~")
    ensures VersionCompare(p + t1, p + t2) == 1
  {
    assert p + t1 == p + t1 + [] && p + t2 == p + t2 + [];
    TildeRuns(p, t1, [], t2, []);
  }

  /** Leading zeros are ignored: "10.0001" == "10.1". */
  lemma LeadingZerosIgnored(p: Bytes, dot: Bytes, q1: Bytes, q2: Bytes)
    requires p == Ascii("10") && dot == Ascii(".") && q1 == Ascii("0001") && q2 == Ascii("1")
    ensures VersionCompare(p + dot + q1, p + dot + q2) == 0
  {
    OneWithZeros(q1);
    assert AllDigits(q2) && DigitsValue(q2) == 1 by {
      assert q2 == [0x31];
    }
    assert AllOther(dot);
    DigitRunsAfterCommonPrefix(p, dot, q1, q2);
  }

  /** "0001" denotes 1. */
  lemma OneWithZeros(q: Bytes)
    requires q == Ascii("0001")
    ensures AllDigits(q) && DigitsValue(q) == 1
  {
    var z1, z2, z3: Bytes := [0x30], [0x30, 0x30], [0x30, 0x30, 0x30];
    assert DigitsValue(z1) == 0 by {
      assert z1[..0] == [];
    }
    assert DigitsValue(z2) == 0 by {
      assert z2[..1] == z1;
    }
    assert DigitsValue(z3) == 0 by {
      assert z3[..2] == z2;
    }
    assert q == z3 + [0x31];
    assert q[..3] == z3;
  }

  /** The first differing run decides: "4.999.9" < "5.0". */
  lemma FirstRunDecides(four: Bytes, dot: Bytes, q1: Bytes, five: Bytes, q2: Bytes)
    requires four == Ascii("4") && dot == Ascii(".") && q1 == Ascii("999.9")
    requires five == Ascii("5") && q2 == Ascii("0")
    ensures VersionCompare(four + dot + q1, five + dot + q2) == -1
  {
    assert AllOther(dot);
    assert AllDigits(four) && DigitsValue(four) == 4 by {
      assert four == [0x34] && four[..0] == [];
    }
    assert AllDigits(five) && DigitsValue(five) == 5 by {
      assert five == [0x35] && five[..0] == [];
    }
    LeadingNumbersDecide(four, dot, q1, five, dot, q2);
  }
}
