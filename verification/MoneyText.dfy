/** Reading amounts from decimal text and writing them back. */
module MoneyText {
  import opened Integers
  import opened Wrappers
  import opened Decimals
  import opened Rounding
  import opened Moneys

  predicate IsSpace(c: char)
  {
    c == ' ' || '\t' <= c <= '\r'
  }

  function TrimLeft(s: string): string
  {
    if s != [] && IsSpace(s[0]) then TrimLeft(s[1..]) else s
  }

  function TrimRight(s: string): string
  {
    if s != [] && IsSpace(s[|s| - 1]) then TrimRight(s[..|s| - 1]) else s
  }

  /** The number of digits that s begins with. */
  function DigitRun(s: string): (k: nat)
    ensures k <= |s| && AllDigits(s[..k])
    ensures k < |s| ==> !IsDigit(s[k])
  {
    if s == [] || !IsDigit(s[0]) then 0 else 1 + DigitRun(s[1..])
  }

  const WHOLE_GUARD: int := 922337203685477579

  /** The value of the whole part, guarded before each multiplication. */
  function ReadWhole(digits: string): Option<nat>
    requires AllDigits(digits)
  {
    if digits == [] then Some(0)
    else match ReadWhole(digits[..|digits| - 1])
         case None => None
         case Some(w) => if w > WHOLE_GUARD then None else Some(10 * w + DigitOf(digits[|digits| - 1]))
  }

  /** The micros of a fractional part: digits beyond the sixth are discarded. */
  function ReadFraction(digits: string): (micros: nat)
    requires AllDigits(digits)
  {
    if |digits| >= SCALE then Value(digits[..SCALE]) else Value(digits) * Pow10(SCALE - |digits|)
  }

  /** The amount in unsigned decimal text. */
  function ReadUnsigned(t: string): (r: Result<Int64, MoneyError>)
    ensures r.Ok? ==> r.value >= 0
  {
    var k := DigitRun(t);
    match ReadWhole(t[..k])
    case None => Err(TooLarge)
    case Some(whole) =>
      var point := k < |t| && t[k] == '.';
      var m := if point then DigitRun(t[k + 1..]) else 0;
      var frac := if point then ReadFraction(t[k + 1..][..m]) else 0;
      var end := if point then k + 1 + m else k;
      if k + m == 0 || end != |t| then Err(Malformed) else Clamp(whole * ONE + frac)
  }

  function Parse(text: string, ccy: int): Result<Money, MoneyError>
  {
    var t := TrimRight(TrimLeft(text));
    if t == [] then Ok(Money(0, ccy))
    else
      var neg := t[0] == '-';
      var body := if neg || t[0] == '+' then t[1..] else t;
      if body == [] then Err(Malformed)
      else
        var v :- ReadUnsigned(body);
        Ok(Money(if neg then -v else v, ccy))
  }

  function ToString(a: Money, dp: int): Result<string, MoneyError>
  {
    var r :- RoundTo(a, Places(dp));
    Ok(Format(r.u, Places(dp)))
  }

  /** An already rounded amount at dp places. */
  function Format(u: int, dp: nat): (s: string)
    requires dp <= SCALE
  {
    if u < 0 then "-" + Body(Abs(u), dp) else Body(Abs(u), dp)
  }

  /** The digits of a magnitude in micros: the whole part, and dp of the six fraction digits. */
  function Body(mag: nat, dp: nat): (s: string)
    requires dp <= SCALE
    ensures s != [] && IsDigit(s[0]) && IsDigit(s[|s| - 1])
  {
    Decimal(mag / ONE) + (if dp == 0 then "" else "." + FractionDigits(mag % ONE)[..dp])
  }

  function FractionDigits(frac: nat): (f: string)
    requires frac < ONE
    ensures |f| == SCALE && AllDigits(f)
  {
    Units();
    DecimalLength(frac, SCALE);
    Padded(Decimal(frac), SCALE)
  }

  // ----- the parsing loops

  method ParseText(text: string, ccy: int) returns (r: Result<Money, MoneyError>)
    ensures r == Parse(text, ccy)
  {
    var t := text;
    while t != [] && IsSpace(t[0])
      invariant TrimLeft(t) == TrimLeft(text)
    {
      t := t[1..];
    }
    ghost var left := t;
    while t != [] && IsSpace(t[|t| - 1])
      invariant TrimRight(t) == TrimRight(left)
    {
      t := t[..|t| - 1];
    }
    if t == [] {
      return Ok(Money(0, ccy));
    }
    var neg := false;
    if t[0] == '+' || t[0] == '-' {
      neg := t[0] == '-';
      t := t[1..];
    }
    if t == [] {
      return Err(Malformed);
    }
    hide ReadUnsigned;
    var v := ParseUnsigned(t);
    if v.Err? {
      return Err(v.error);
    }
    r := Ok(Money(if neg then -v.value else v.value, ccy));
  }

  method ParseUnsigned(t: string) returns (r: Result<Int64, MoneyError>)
    ensures r == ReadUnsigned(t)
  {
    hide Value, Pow10, Decimal;
    var whole := 0;
    var i := 0;
    var sawDigit := false;
    ghost var k := DigitRun(t);
    assert t[..0] == [];
    while i < |t| && IsDigit(t[i])
      invariant i <= k && sawDigit == (i > 0)
      invariant ReadWhole(t[..i]) == Some(whole)
    {
      sawDigit := true;
      assert t[..i + 1][..i] == t[..i];
      assert i < k && t[..k][i] == t[i];
      if whole > WHOLE_GUARD {
        assert t[..k][..i + 1] == t[..i + 1];
        WholeTooLarge(t[..k], i + 1);
        return Err(TooLarge);
      }
      whole := whole * 10 + DigitOf(t[i]);
      i := i + 1;
    }
    var frac := 0;
    if i < |t| && t[i] == '.' {
      ghost var m := DigitRun(t[i + 1..]);
      var end;
      frac, end := ParseFraction(t, i + 1);
      sawDigit := sawDigit || end > i + 1;
      i := end;
    }
    if !sawDigit || i != |t| {
      return Err(Malformed);
    }
    r := Clamp(whole * ONE + frac);
  }

  method ParseFraction(t: string, start: nat) returns (frac: nat, end: nat)
    requires start <= |t|
    ensures var m := DigitRun(t[start..]); end == start + m && frac == ReadFraction(t[start..][..m])
  {
    hide Pow10;
    var i := start;
    frac := 0;
    var digits := 0;
    ghost var run := t[start..][..DigitRun(t[start..])];
    while i < |t| && IsDigit(t[i])
      invariant start <= i <= start + |run|
      invariant digits == if i - start < SCALE then i - start else SCALE
      invariant frac == Value(run[..digits])
    {
      assert i - start < |run| && run[i - start] == t[i];
      if digits < SCALE {
        assert run[..digits + 1][..digits] == run[..digits];
        frac := frac * 10 + DigitOf(t[i]);
        digits := digits + 1;
      }
      i := i + 1;
    }
    end := i;
    assert i - start == |run|;
    assert digits < SCALE ==> run[..digits] == run;
    assert digits == SCALE ==> Pow10(SCALE - digits) == 1 by {
      Units();
    }
    frac := frac * Pow10(SCALE - digits);
  }

  lemma {:induction false} WholeTooLarge(digits: string, i: nat)
    requires AllDigits(digits) && i <= |digits| && ReadWhole(digits[..i]) == None
    ensures ReadWhole(digits) == None
    decreases |digits| - i
  {
    if i == |digits| {
      assert digits[..i] == digits;
    } else {
      assert digits[..i + 1][..i] == digits[..i];
      WholeTooLarge(digits, i + 1);
    }
  }

  // ----- formatting and parsing are inverse

  lemma {:induction false} DigitRunOf(digits: string, rest: string)
    requires AllDigits(digits) && (rest == [] || !IsDigit(rest[0]))
    ensures DigitRun(digits + rest) == |digits|
  {
    if digits == [] {
      assert digits + rest == rest;
    } else {
      DigitRunOf(digits[1..], rest);
      assert (digits + rest)[1..] == digits[1..] + rest;
    }
  }

  lemma {:induction false} ReadWholeValue(digits: string)
    requires AllDigits(digits) && Value(digits) <= WHOLE_GUARD
    ensures ReadWhole(digits) == Some(Value(digits))
  {
    if digits != [] {
      ReadWholeValue(digits[..|digits| - 1]);
    }
  }

  lemma ZeroMultiple(x: int, unit: int, k: int)
    requires unit > 0 && x == k * unit && 0 <= x < unit
    ensures x == 0
  {
    MultipleSize(k, unit);
  }

  lemma CutIsZero(frac: nat, shown: nat, cut: nat, unit: nat, k: int)
    requires cut < unit && frac == shown * unit + cut && frac == k * unit
    ensures cut == 0
  {
    assert (k - shown) * unit == k * unit - shown * unit;
    ZeroMultiple(cut, unit, k - shown);
  }

  /** The micros below the shown places of a rounded amount are zero, so cutting them off loses nothing. */
  lemma FractionReads(frac: nat, dp: nat, k: int)
    requires frac < ONE && dp <= SCALE && frac == k * Pow10(SCALE - dp)
    ensures dp == 0 ==> frac == 0
    ensures ReadFraction(FractionDigits(frac)[..dp]) == frac
  {
    var f := FractionDigits(frac);
    var shown, cut, unit := f[..dp], f[dp..], Pow10(SCALE - dp);
    ValueOfPadded(frac, SCALE);
    assert Value(f) == frac;
    hide Value, Pow10, FractionDigits;
    ValueBound(cut);
    assert f == shown + cut;
    ValueConcat(shown, cut);
    CutIsZero(frac, Value(shown), Value(cut), unit, k);
    if dp == 0 {
      Units();
      ZeroMultiple(frac, unit, k);
    }
    if dp == SCALE {
      Units();
      assert shown[..SCALE] == shown;
    }
  }

  lemma FractionOfMultiple(q: int, dp: nat)
    requires dp <= SCALE
    ensures var unit := Pow10(SCALE - dp);
            exists k: int :: Abs(q * unit) % ONE == k * unit
  {
    Units();
    var unit: int := Pow10(SCALE - dp);
    var scale: int := Pow10(dp);
    assert unit * scale == ONE;
    hide Pow10;
    MultipleMod(q, unit, scale);
  }

  lemma MultipleMod(q: int, unit: int, scale: int)
    requires unit >= 1 && scale >= 1 && unit * scale == ONE
    ensures exists k: int :: Abs(q * unit) % ONE == k * unit
  {
    MulSign(Abs(q), unit);
    var w := Abs(q * unit) / ONE;
    var f := Abs(q * unit) % ONE;
    assert Abs(q * unit) == Abs(q) * unit;
    assert f == Abs(q) * unit - w * ONE;
    assert w * ONE == (w * scale) * unit;
    assert f == (Abs(q) - w * scale) * unit;
  }

  /** Digits without a point, and digits on both sides of a point. */
  lemma ReadDigits(w: string, f: string)
    requires AllDigits(w) && AllDigits(f) && w != []
    requires ReadWhole(w).Some?
    ensures ReadUnsigned(w) == Clamp(ReadWhole(w).value * ONE)
    ensures ReadUnsigned(w + ("." + f)) == Clamp(ReadWhole(w).value * ONE + ReadFraction(f))
  {
    hide ReadWhole, ReadFraction, DigitRun;
    DigitRunOf(w, "");
    assert w + "" == w && w[..|w|] == w;
    DigitRunOf(w, "." + f);
    var t := w + ("." + f);
    assert t[..|w|] == w && t[|w| + 1..] == f;
    DigitRunOf(f, "");
    assert f + "" == f && f[..|f|] == f;
  }

  lemma ReadFormatted(mag: nat, dp: nat, k: int)
    requires dp <= SCALE && mag <= INT64_MAX + 1 && mag % ONE == k * Pow10(SCALE - dp)
    ensures ReadUnsigned(Body(mag, dp)) == Clamp(mag)
  {
    ReadParts(mag / ONE, mag % ONE, dp, k);
    hide ReadUnsigned, Pow10, Clamp, Decimal, FractionDigits;
  }

  lemma ReadParts(whole: nat, frac: nat, dp: nat, k: int)
    requires dp <= SCALE && frac < ONE && whole * ONE + frac <= INT64_MAX + 1 && frac == k * Pow10(SCALE - dp)
    ensures ReadUnsigned(Decimal(whole) + (if dp == 0 then "" else "." + FractionDigits(frac)[..dp]))
         == Clamp(whole * ONE + frac)
  {
    hide Decimal, FractionDigits, Value, ReadFraction, ReadWhole, ReadUnsigned, Pow10, Clamp, AllDigits;
    var w, f := Decimal(whole), FractionDigits(frac)[..dp];
    FractionReads(frac, dp, k);
    ValueOfDecimal(whole);
    ReadWholeValue(w);
    DigitsOfPrefix(FractionDigits(frac), dp);
    ReadDigits(w, f);
    assert w + "" == w;
  }

  lemma DigitsOfPrefix(s: string, n: nat)
    requires AllDigits(s) && n <= |s|
    ensures AllDigits(s[..n])
  {
  }

  lemma NothingToTrim(s: string)
    requires s != [] && !IsSpace(s[0]) && !IsSpace(s[|s| - 1])
    ensures TrimRight(TrimLeft(s)) == s
  {
  }

  /** A rounded amount is read back exactly, unless it is the one whose magnitude does not fit. */
  lemma FormatRoundTrip(q: int, dp: nat, ccy: int)
    requires dp <= SCALE && INT64_MIN <= q * Pow10(SCALE - dp) <= INT64_MAX
    ensures var u := q * Pow10(SCALE - dp);
            Parse(Format(u, dp), ccy) == if u == INT64_MIN then Err(Overflow) else Ok(Money(u, ccy))
  {
    var u := q * Pow10(SCALE - dp);
    FractionOfMultiple(q, dp);
    var k: int :| Abs(u) % ONE == k * Pow10(SCALE - dp);
    ReadFormatted(Abs(u), dp, k);
    ParseSigned(u, dp, ccy);
  }

  lemma ParseSigned(u: int, dp: nat, ccy: int)
    requires dp <= SCALE && INT64_MIN <= u <= INT64_MAX
    requires ReadUnsigned(Body(Abs(u), dp)) == Clamp(Abs(u))
    ensures Parse(Format(u, dp), ccy) == if u == INT64_MIN then Err(Overflow) else Ok(Money(u, ccy))
  {
    var body := Body(Abs(u), dp);
    hide ReadUnsigned, Body, Parse;
    if u < 0 {
      ParseNegative(body, ccy);
    } else {
      ParsePositive(body, ccy);
    }
  }

  lemma ParsePositive(body: string, ccy: int)
    requires body != [] && IsDigit(body[0]) && IsDigit(body[|body| - 1])
    ensures ReadUnsigned(body).Ok? ==> Parse(body, ccy) == Ok(Money(ReadUnsigned(body).value, ccy))
    ensures ReadUnsigned(body).Err? ==> Parse(body, ccy) == Err(ReadUnsigned(body).error)
  {
    hide ReadUnsigned, TrimLeft, TrimRight;
    NothingToTrim(body);
  }

  lemma ParseNegative(body: string, ccy: int)
    requires body != [] && IsDigit(body[0]) && IsDigit(body[|body| - 1])
    ensures ReadUnsigned(body).Ok? ==> Parse("-" + body, ccy) == Ok(Money(-ReadUnsigned(body).value, ccy))
    ensures ReadUnsigned(body).Err? ==> Parse("-" + body, ccy) == Err(ReadUnsigned(body).error)
  {
    hide ReadUnsigned, TrimLeft, TrimRight;
    var s := "-" + body;
    assert s[0] == '-' && s[|s| - 1] == body[|body| - 1];
    NothingToTrim(s);
    assert s[1..] == body;
  }

  /** The code's promise, and exactly where it fails: the least amount shown at full scale cannot be read back. */
  lemma ParseToString(a: Money, dp: int)
    ensures RoundTo(a, dp).Err? <==> ToString(a, dp).Err?
    ensures RoundTo(a, dp).Ok? ==>
              (Parse(ToString(a, dp).value, a.ccy) == RoundTo(a, dp) <==> !(a.u == INT64_MIN && dp >= SCALE))
  {
    var n := Places(dp);
    assert RoundTo(a, n) == RoundTo(a, dp);
    if RoundTo(a, dp).Ok? {
      var r := RoundTo(a, dp).value;
      RoundToNearest(a, dp);
      var q: int :| r.u == q * Unit(dp);
      assert Unit(dp) == Pow10(SCALE - n);
      FormatRoundTrip(q, n, a.ccy);
      if n < SCALE {
        LeastAmountNotRounded(q, n);
      }
      hide Format, Parse, Pow10;
    }
  }

  /** The least amount is not a multiple of ten micros, so rounding to fewer places never yields it. */
  lemma LeastAmountNotRounded(q: int, dp: nat)
    requires dp < SCALE
    ensures q * Pow10(SCALE - dp) != INT64_MIN
  {
    var p: int := Pow10(SCALE - dp - 1);
    assert q * Pow10(SCALE - dp) == 10 * (q * p);
  }
}
