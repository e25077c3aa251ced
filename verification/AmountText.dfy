/** Amounts as text: exactly which texts are amounts, what they are worth, and what printed amounts look like. */
module AmountText {
  import opened Integers
  import opened Wrappers
  import opened Decimals
  import opened Rounding
  import opened Moneys
  import opened MoneyText

  // ----- what is read

  predicate AllSpaces(s: string)
  {
    forall i :: 0 <= i < |s| ==> IsSpace(s[i])
  }

  /** The first six places after the point, as micros; missing ones count as zeros. */
  function Micros(f: string): nat
    requires AllDigits(f)
  {
    Value((f + "000000")[..6])
  }

  lemma SixZeros()
    ensures AllDigits("000000") && forall k :: 0 <= k <= 6 ==> "000000"[..k] == ZeroDigits(k)
  {
    assert "000000"[..0] == ZeroDigits(0);
    assert "000000"[..1] == ZeroDigits(1);
    assert "000000"[..2] == ZeroDigits(2);
    assert "000000"[..3] == ZeroDigits(3);
    assert "000000"[..4] == ZeroDigits(4);
    assert "000000"[..5] == ZeroDigits(5);
    assert "000000"[..6] == ZeroDigits(6);
  }

  lemma FractionIsMicros(f: string)
    requires AllDigits(f)
    ensures ReadFraction(f) == Micros(f)
  {
    SixZeros();
    hide Value, Pow10, ZeroDigits;
    if |f| >= 6 {
      assert (f + "000000")[..6] == f[..6];
    } else {
      var k := 6 - |f|;
      assert (f + "000000")[..6] == f + "000000"[..k];
      ValueConcat(f, ZeroDigits(k));
      ValueZeros(k);
    }
  }

  /** Digits, or digits with a point before, between or after them. */
  datatype Amount = Amount(whole: string, point: bool, fraction: string)

  predicate WellFormed(a: Amount)
  {
    AllDigits(a.whole) && AllDigits(a.fraction) && (!a.point ==> a.fraction == "") && a.whole + a.fraction != ""
  }

  function Written(a: Amount): string
  {
    a.whole + if a.point then "." + a.fraction else ""
  }

  function Worth(a: Amount): nat
    requires WellFormed(a)
  {
    Value(a.whole) * ONE + Micros(a.fraction)
  }

  /** The whole part is refused only when it is out of range. */
  lemma {:induction false} WholeIsRead(digits: string)
    requires AllDigits(digits)
    ensures ReadWhole(digits).Some? ==> ReadWhole(digits).value == Value(digits)
    ensures ReadWhole(digits).None? ==> Value(digits) > WHOLE_GUARD
  {
    if digits != [] {
      WholeIsRead(digits[..|digits| - 1]);
    }
  }

  lemma UnsignedIsRead(a: Amount)
    requires WellFormed(a)
    ensures if Worth(a) <= INT64_MAX then ReadUnsigned(Written(a)) == Ok(Worth(a)) else ReadUnsigned(Written(a)).Err?
  {
    hide Value, Micros, ReadUnsigned, ReadWhole, ReadFraction;
    WholeIsRead(a.whole);
    FractionIsMicros(a.fraction);
    NoFraction();
    if a.point {
      PartsWithPoint(a.whole, a.fraction);
      assert Written(a) == a.whole + "." + a.fraction;
    } else {
      PartsWithoutPoint(a.whole);
      assert Written(a) == a.whole;
    }
  }

  lemma PartsWithPoint(w: string, f: string)
    requires AllDigits(w) && AllDigits(f) && w + f != ""
    ensures ReadUnsigned(w + "." + f)
         == if ReadWhole(w).None? then Err(TooLarge) else Clamp(ReadWhole(w).value * ONE + ReadFraction(f))
  {
    hide ReadWhole, ReadFraction, DigitRun;
    var t := w + "." + f;
    assert t == w + ("." + f);
    DigitRunOf(w, "." + f);
    assert t[..|w|] == w && t[|w| + 1..] == f;
    DigitRunOf(f, "");
    assert f + "" == f && f[..|f|] == f;
  }

  lemma PartsWithoutPoint(w: string)
    requires AllDigits(w) && w != ""
    ensures ReadUnsigned(w) == if ReadWhole(w).None? then Err(TooLarge) else Clamp(ReadWhole(w).value * ONE)
  {
    hide ReadWhole, ReadFraction, DigitRun;
    DigitRunOf(w, "");
    assert w + "" == w && w[..|w|] == w;
  }

  lemma NoFraction()
    ensures Micros("") == 0
  {
    SixZeros();
    assert ("" + "000000")[..6] == ZeroDigits(6);
    ValueZeros(6);
  }

  lemma {:induction false} SpacesTrimmedLeft(before: string, s: string)
    requires AllSpaces(before) && (s == "" || !IsSpace(s[0]))
    ensures TrimLeft(before + s) == s
  {
    if before == "" {
      assert before + s == s;
    } else {
      assert (before + s)[1..] == before[1..] + s;
      SpacesTrimmedLeft(before[1..], s);
    }
  }

  lemma {:induction false} SpacesTrimmedRight(s: string, after: string)
    requires AllSpaces(after) && (s == "" || !IsSpace(s[|s| - 1]))
    ensures TrimRight(s + after) == s
  {
    if after == "" {
      assert s + after == s;
    } else {
      var n := |after| - 1;
      assert (s + after)[..|s + after| - 1] == s + after[..n];
      SpacesTrimmedRight(s, after[..n]);
    }
  }

  /** Spaces around it, a sign before it, and no other. */
  lemma SpacesDoNotMatter(before: string, s: string, after: string)
    requires AllSpaces(before) && AllSpaces(after) && s != "" && !IsSpace(s[0]) && !IsSpace(s[|s| - 1])
    ensures TrimRight(TrimLeft(before + s + after)) == s
  {
    assert before + s + after == before + (s + after);
    SpacesTrimmedLeft(before, s + after);
    SpacesTrimmedRight(s, after);
  }

  predicate IsSign(sign: string)
  {
    sign == "" || sign == "+" || sign == "-"
  }

  function Signed(sign: string, worth: int): int
  {
    if sign == "-" then -worth else worth
  }

  lemma WrittenEnds(a: Amount)
    requires WellFormed(a)
    ensures var t := Written(a);
            t != "" && !IsSpace(t[0]) && !IsSpace(t[|t| - 1]) && t[0] != '+' && t[0] != '-'
  {
    assert a.whole != "" ==> IsDigit(a.whole[0]) && IsDigit(a.whole[|a.whole| - 1]);
    assert a.fraction != "" ==> IsDigit(a.fraction[|a.fraction| - 1]);
  }

  /** An amount is read at its worth, with the sign before it and whatever spaces around it, or refused as out of range. */
  lemma AmountIsRead(before: string, sign: string, a: Amount, after: string, ccy: int)
    requires AllSpaces(before) && AllSpaces(after) && IsSign(sign) && WellFormed(a)
    ensures var r := Parse(before + (sign + Written(a)) + after, ccy);
            if Worth(a) <= INT64_MAX then r == Ok(Money(Signed(sign, Worth(a)), ccy)) else r.Err?
  {
    var t := sign + Written(a);
    WrittenEnds(a);
    UnsignedIsRead(a);
    hide Written, Worth, ReadUnsigned, TrimLeft, TrimRight, IsSpace;
    SignsAreNoSpaces();
    assert t[0] == (if sign == "" then Written(a) else sign)[0] && t[|t| - 1] == Written(a)[|Written(a)| - 1];
    SpacesDoNotMatter(before, t, after);
    assert sign != "" ==> t[1..] == Written(a);
    assert sign == "" ==> t == Written(a);
  }

  lemma SignsAreNoSpaces()
    ensures !IsSpace('+') && !IsSpace('-')
  {
  }

  // ----- what is refused

  lemma {:induction false} TrimmedLeft(s: string) returns (before: string)
    ensures AllSpaces(before) && s == before + TrimLeft(s)
  {
    if s != [] && IsSpace(s[0]) {
      var rest := TrimmedLeft(s[1..]);
      before := [s[0]] + rest;
    } else {
      before := "";
    }
  }

  lemma {:induction false} TrimmedRight(s: string) returns (after: string)
    ensures AllSpaces(after) && s == TrimRight(s) + after
  {
    if s != [] && IsSpace(s[|s| - 1]) {
      var rest := TrimmedRight(s[..|s| - 1]);
      after := rest + [s[|s| - 1]];
    } else {
      after := "";
    }
  }

  lemma UnsignedIsAmount(t: string) returns (a: Amount)
    requires ReadUnsigned(t).Ok?
    ensures WellFormed(a) && t == Written(a)
  {
    var k := DigitRun(t);
    if k < |t| && t[k] == '.' {
      var m := DigitRun(t[k + 1..]);
      a := Amount(t[..k], true, t[k + 1..][..m]);
      assert t == t[..k] + "." + t[k + 1..];
    } else {
      a := Amount(t[..k], false, "");
    }
  }

  /** Nothing else is read, but for the empty text, which counts as zero. */
  lemma OnlyAmountsAreRead(text: string, ccy: int) returns (before: string, sign: string, a: Amount, after: string)
    requires Parse(text, ccy).Ok? && !AllSpaces(text)
    ensures AllSpaces(before) && AllSpaces(after) && IsSign(sign) && WellFormed(a)
    ensures text == before + (sign + Written(a)) + after
  {
    before := TrimmedLeft(text);
    after := TrimmedRight(TrimLeft(text));
    var t := TrimRight(TrimLeft(text));
    assert text == before + (t + after);
    assert t == "" ==> text == before + after;
    hide TrimLeft, TrimRight, IsSpace;
    sign, a := SignedIsAmount(text, t, ccy);
  }

  lemma SignedIsAmount(text: string, t: string, ccy: int) returns (sign: string, a: Amount)
    requires t == TrimRight(TrimLeft(text)) && t != "" && Parse(text, ccy).Ok?
    ensures IsSign(sign) && WellFormed(a) && t == sign + Written(a)
  {
    hide TrimLeft, TrimRight, ReadUnsigned, Written, WellFormed;
    sign := if t[0] == '+' then "+" else if t[0] == '-' then "-" else "";
    a := UnsignedIsAmount(if sign == "" then t else t[1..]);
  }

  // ----- what is printed

  /**
   A printed amount has a minus sign if it is negative, its whole units without needless zeros, and, for more than no
   places, a point and exactly that many digits: what is left of the amount in units of the last place.
   */
  lemma PrintedAmount(u: int, dp: nat) returns (a: Amount)
    requires dp <= SCALE
    ensures WellFormed(a) && Format(u, dp) == (if u < 0 then "-" else "") + Written(a)
    ensures a.whole != "" && (|a.whole| > 1 ==> a.whole[0] != '0')
    ensures a.point == (dp > 0) && |a.fraction| == dp
    ensures Value(a.whole) == Abs(u) / ONE && Value(a.fraction) == Abs(u) % ONE / Pow10(SCALE - dp)
  {
    var whole, frac := Abs(u) / ONE, Abs(u) % ONE;
    var f := FractionDigits(frac);
    a := Amount(Decimal(whole), dp > 0, f[..dp]);
    NoLeadingZero(whole);
    ValueOfDecimal(whole);
    ShownDigits(frac, dp);
    hide Value, Decimal, Pow10, FractionDigits;
    assert dp == 0 ==> f[..dp] == "";
  }

  lemma ShownDigits(frac: nat, dp: nat)
    requires frac < ONE && dp <= SCALE
    ensures AllDigits(FractionDigits(frac)[..dp])
    ensures Value(FractionDigits(frac)[..dp]) == frac / Pow10(SCALE - dp)
  {
    var f := FractionDigits(frac);
    ValueOfPadded(frac, SCALE);
    assert Value(f) == frac;
    hide Value, Pow10, FractionDigits;
    DigitsOfPrefix(f, dp);
    assert f == f[..dp] + f[dp..];
    ValueConcat(f[..dp], f[dp..]);
    ValueBound(f[dp..]);
    Quotient(frac, Value(f[..dp]), Value(f[dp..]), Pow10(SCALE - dp));
  }

  lemma Quotient(n: nat, q: nat, r: nat, unit: nat)
    requires n == q * unit + r && r < unit
    ensures q == n / unit
  {
    var p := n / unit;
    assert n == p * unit + n % unit;
    assert (q - p) * unit == n % unit - r;
    MultipleSize(q - p, unit);
  }
}
