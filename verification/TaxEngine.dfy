/** Tax on one document line: inclusive taxes backed out of the gross by subtraction, exclusive taxes added on top. */
module TaxEngine {
  import opened Integers
  import opened Wrappers
  import opened Rounding
  import opened Moneys

  datatype TaxDef = TaxDef(id: int, name: string, rate: Money, amountType: string, priceInclude: bool, sequence: int)
  datatype Component = Component(taxId: int, name: string, base: Money, amount: Money)
  datatype Computation = Computation(baseExcluded: Money, totalTax: Money, totalIncluded: Money, components: seq<Component>)

  /** The unchecked cast from 128 to 64 bits. */
  function Narrow(v: int): (n: Int64)
    ensures INT64_MIN <= v <= INT64_MAX ==> n == v
  {
    (v - INT64_MIN) % 0x1_0000_0000_0000_0000 + INT64_MIN
  }

  const HUNDRED: Int64 := 100000000

  // ----- the line as a function

  /** Price times quantity less the discount: the gross that is passed on to rounding. */
  function Unrounded(priceUnit: Money, quantity: Money, discountPct: Money): Result<Money, MoneyError>
  {
    var gross :- MulQty(priceUnit, quantity);
    if discountPct.u == 0 then Ok(gross)
    else
      var discount :- Percent(gross, discountPct);
      Sub(gross, discount)
  }

  function Gross(priceUnit: Money, quantity: Money, discountPct: Money, dp: int): Result<Money, MoneyError>
  {
    var gross :- Unrounded(priceUnit, quantity, discountPct);
    RoundTo(gross, dp)
  }

  /** Stable insertion by sequence number: after every element that is not greater. */
  function Insert(t: TaxDef, sorted: seq<TaxDef>): (r: seq<TaxDef>)
    ensures |r| == |sorted| + 1
  {
    if sorted == [] || sorted[|sorted| - 1].sequence <= t.sequence then sorted + [t]
    else Insert(t, sorted[..|sorted| - 1]) + [sorted[|sorted| - 1]]
  }

  function StableSort(taxes: seq<TaxDef>): (r: seq<TaxDef>)
    ensures |r| == |taxes|
  {
    if taxes == [] then [] else Insert(taxes[|taxes| - 1], StableSort(taxes[..|taxes| - 1]))
  }

  function Select(taxes: seq<TaxDef>, inclusive: bool): (r: seq<TaxDef>)
    ensures forall i :: 0 <= i < |r| ==> r[i].priceInclude == inclusive
  {
    if taxes == [] then []
    else
      var last := taxes[|taxes| - 1];
      Select(taxes[..|taxes| - 1], inclusive) + (if last.priceInclude == inclusive then [last] else [])
  }

  /** The fixed amount of a tax, in the currency of the line. */
  function FixedAmount(t: TaxDef, quantity: Money, ccy: int): Result<Money, MoneyError>
  {
    var m :- MulQty(t.rate, quantity);
    Ok(Money(m.u, ccy))
  }

  datatype Sums = Sums(rateSum: Money, fixedSum: Money)

  /** Percentage rates and fixed amounts of the inclusive taxes, added up in order. */
  function InclusiveSums(taxes: seq<TaxDef>, quantity: Money, ccy: int): Result<Sums, MoneyError>
  {
    if taxes == [] then Ok(Sums(Money(0, 0), Money(0, ccy)))
    else
      var t := taxes[|taxes| - 1];
      var s :- InclusiveSums(taxes[..|taxes| - 1], quantity, ccy);
      if t.amountType == "percent" then
        var sum :- Add(s.rateSum, t.rate);
        Ok(s.(rateSum := sum))
      else
        var fixed :- FixedAmount(t, quantity, ccy);
        var sum :- Add(s.fixedSum, fixed);
        Ok(s.(fixedSum := sum))
  }

  /** The net amount when there are inclusive taxes. Division by zero ends the program. */
  function UnwoundBase(gross: Money, s: Sums, dp: int): Result<Money, MoneyError>
  {
    var grossForPct :- Sub(gross, s.fixedSum);
    if s.rateSum.u == 0 then Ok(grossForPct)
    else
      var divisor :- Add(Money(HUNDRED, 0), s.rateSum);
      var numerator :- MulQty(grossForPct, Money(HUNDRED, 0));
      if divisor.u == 0 then Err(DivisionByZero)
      else RoundTo(Money(Narrow(TruncDiv(numerator.u * ONE, divisor.u)), gross.ccy), dp)
  }

  /** What an inclusive tax other than the last receives. */
  function Share(t: TaxDef, taxTotal: Money, rateSum: Money, quantity: Money, dp: int): Result<Money, MoneyError>
  {
    if t.amountType == "fixed" then
      var fixed :- FixedAmount(t, quantity, taxTotal.ccy);
      RoundTo(fixed, dp)
    else if rateSum.u != 0 then
      RoundTo(Money(Narrow(TruncDiv(taxTotal.u * t.rate.u, rateSum.u)), taxTotal.ccy), dp)
    else Ok(Money(0, taxTotal.ccy))
  }

  datatype Allocation = Allocation(given: Money, components: seq<Component>)

  /** The first k inclusive taxes' components; the very last one takes the remainder. */
  function Distribute(incl: seq<TaxDef>, k: nat, base: Money, taxTotal: Money, rateSum: Money, quantity: Money, dp: int)
    : (r: Result<Allocation, MoneyError>)
    requires k <= |incl|
    ensures r.Ok? ==> |r.value.components| == k
  {
    if k == 0 then Ok(Allocation(Money(0, taxTotal.ccy), []))
    else
      var a :- Distribute(incl, k - 1, base, taxTotal, rateSum, quantity, dp);
      var t := incl[k - 1];
      var share :- if k == |incl| then Sub(taxTotal, a.given) else Share(t, taxTotal, rateSum, quantity, dp);
      var given :- Add(a.given, share);
      Ok(Allocation(given, a.components + [Component(t.id, t.name, base, share)]))
  }

  function ExclusiveAmount(t: TaxDef, base: Money, quantity: Money, dp: int): Result<Money, MoneyError>
  {
    var amt :- if t.amountType == "fixed" then FixedAmount(t, quantity, base.ccy) else Percent(base, t.rate);
    RoundTo(amt, dp)
  }

  function ExclusiveComponents(excl: seq<TaxDef>, base: Money, quantity: Money, dp: int): (r: Result<seq<Component>, MoneyError>)
    ensures r.Ok? ==> |r.value| == |excl|
  {
    if excl == [] then Ok([])
    else
      var t := excl[|excl| - 1];
      var before :- ExclusiveComponents(excl[..|excl| - 1], base, quantity, dp);
      var amt :- ExclusiveAmount(t, base, quantity, dp);
      Ok(before + [Component(t.id, t.name, base, amt)])
  }

  function AddUp(components: seq<Component>, ccy: int): (r: Result<Money, MoneyError>)
  {
    if components == [] then Ok(Money(0, ccy))
    else
      var sum :- AddUp(components[..|components| - 1], ccy);
      Add(sum, components[|components| - 1].amount)
  }

  /** Everything after the gross amount is known. */
  function ComputeTaxes(gross: Money, quantity: Money, sorted: seq<TaxDef>, dp: int): Result<Computation, MoneyError>
  {
    var incl, excl := Select(sorted, true), Select(sorted, false);
    var s :- InclusiveSums(incl, quantity, gross.ccy);
    var base :- if incl == [] then Ok(gross) else UnwoundBase(gross, s, dp);
    var taxTotal :- if incl == [] then Ok(Money(0, gross.ccy)) else Sub(gross, base);
    var distribution :- Distribute(incl, |incl|, base, taxTotal, s.rateSum, quantity, dp);
    var exclusive :- ExclusiveComponents(excl, base, quantity, dp);
    var components := distribution.components + exclusive;
    var totalTax :- AddUp(components, gross.ccy);
    var totalIncluded :- Add(base, totalTax);
    Ok(Computation(base, totalTax, totalIncluded, components))
  }

  function ComputeLine(priceUnit: Money, quantity: Money, discountPct: Money, taxes: seq<TaxDef>, dp: int)
    : Result<Computation, MoneyError>
  {
    var gross :- Gross(priceUnit, quantity, discountPct, dp);
    if taxes == [] then Ok(Computation(gross, Money(0, gross.ccy), gross, []))
    else ComputeTaxes(gross, quantity, StableSort(taxes), dp)
  }

  // ----- the loops

  method Compute(priceUnit: Money, quantity: Money, discountPct: Money, taxesIn: seq<TaxDef>, dp: int)
    returns (r: Result<Computation, MoneyError>)
    ensures r == ComputeLine(priceUnit, quantity, discountPct, taxesIn, dp)
  {
    var g := Gross(priceUnit, quantity, discountPct, dp);
    if g.Err? {
      return Err(g.error);
    }
    var gross := g.value;
    if taxesIn == [] {
      return Ok(Computation(gross, Money(0, gross.ccy), gross, []));
    }
    var taxes := StableSort(taxesIn);
    hide InclusiveSums, UnwoundBase, Distribute, ExclusiveComponents, AddUp, Select, StableSort, Gross;
    var included, excluded, sums := Separate(taxes, quantity, gross.ccy);
    if sums.Err? {
      return Err(sums.error);
    }
    var base := gross;
    var taxTotal := Money(0, gross.ccy);
    if included != [] {
      var b := UnwoundBase(gross, sums.value, dp);
      if b.Err? {
        return Err(b.error);
      }
      base := b.value;
      var t := Sub(gross, base);
      if t.Err? {
        return Err(t.error);
      }
      taxTotal := t.value;
    }
    var components := DistributeInclusive(included, base, taxTotal, sums.value.rateSum, quantity, dp);
    if components.Err? {
      return Err(components.error);
    }
    var exclusive := ApplyExclusive(excluded, base, quantity, dp);
    if exclusive.Err? {
      return Err(exclusive.error);
    }
    var all := components.value + exclusive.value;
    var totalTax := AddComponents(all, gross.ccy);
    if totalTax.Err? {
      return Err(totalTax.error);
    }
    var totalIncluded := Add(base, totalTax.value);
    if totalIncluded.Err? {
      return Err(totalIncluded.error);
    }
    r := Ok(Computation(base, totalTax.value, totalIncluded.value, all));
  }

  /** One loop that sorts the taxes into two lists and sums the rates and fixed amounts of the first. */
  method Separate(taxes: seq<TaxDef>, quantity: Money, ccy: int)
    returns (included: seq<TaxDef>, excluded: seq<TaxDef>, sums: Result<Sums, MoneyError>)
    ensures sums == InclusiveSums(Select(taxes, true), quantity, ccy)
    ensures sums.Ok? ==> included == Select(taxes, true) && excluded == Select(taxes, false)
  {
    included, excluded := [], [];
    var rateSum, fixedSum := Money(0, 0), Money(0, ccy);
    for i := 0 to |taxes|
      invariant included == Select(taxes[..i], true) && excluded == Select(taxes[..i], false)
      invariant InclusiveSums(included, quantity, ccy) == Ok(Sums(rateSum, fixedSum))
    {
      var t := taxes[i];
      assert taxes[..i + 1][..i] == taxes[..i];
      if t.priceInclude {
        assert (included + [t])[..|included|] == included;
        included := included + [t];
        var sum := Err(Overflow);
        if t.amountType == "percent" {
          sum := Add(rateSum, t.rate);
          rateSum := if sum.Ok? then sum.value else rateSum;
        } else {
          var fixed := FixedAmount(t, quantity, ccy);
          sum := if fixed.Ok? then Add(fixedSum, fixed.value) else Err(fixed.error);
          fixedSum := if sum.Ok? then sum.value else fixedSum;
        }
        if sum.Err? {
          sums := Err(sum.error);
          assert InclusiveSums(Select(taxes[..i + 1], true), quantity, ccy) == Err(sum.error);
          SumsFail(taxes, i + 1, quantity, ccy);
          return;
        }
      } else {
        excluded := excluded + [t];
      }
    }
    assert taxes[..|taxes|] == taxes;
    sums := Ok(Sums(rateSum, fixedSum));
  }

  lemma {:induction false} SumsFail(taxes: seq<TaxDef>, i: nat, quantity: Money, ccy: int)
    requires i <= |taxes| && InclusiveSums(Select(taxes[..i], true), quantity, ccy).Err?
    ensures InclusiveSums(Select(taxes, true), quantity, ccy) == InclusiveSums(Select(taxes[..i], true), quantity, ccy)
    decreases |taxes| - i
  {
    hide FixedAmount, Add;
    if i == |taxes| {
      assert taxes[..i] == taxes;
    } else {
      assert taxes[..i + 1][..i] == taxes[..i];
      var before, after := Select(taxes[..i], true), Select(taxes[..i + 1], true);
      assert after == before || (after == before + [taxes[i]] && after[..|after| - 1] == before);
      SumsFail(taxes, i + 1, quantity, ccy);
    }
  }

  /** The loop over the inclusive taxes: shares by rate, and what is then missing for the last one. */
  method DistributeInclusive(incl: seq<TaxDef>, base: Money, taxTotal: Money, rateSum: Money, quantity: Money, dp: int)
    returns (r: Result<seq<Component>, MoneyError>)
    ensures var d := Distribute(incl, |incl|, base, taxTotal, rateSum, quantity, dp);
            r == if d.Ok? then Ok(d.value.components) else Err(d.error)
  {
    hide Share, Add, Sub;
    var given := Money(0, taxTotal.ccy);
    var components := [];
    for i := 0 to |incl|
      invariant Distribute(incl, i, base, taxTotal, rateSum, quantity, dp) == Ok(Allocation(given, components))
    {
      var t := incl[i];
      var share := if i + 1 == |incl| then Sub(taxTotal, given) else Share(t, taxTotal, rateSum, quantity, dp);
      var next := if share.Ok? then Add(given, share.value) else share;
      if next.Err? {
        DistributeFails(incl, i + 1, base, taxTotal, rateSum, quantity, dp);
        return Err(next.error);
      }
      given := next.value;
      components := components + [Component(t.id, t.name, base, share.value)];
    }
    r := Ok(components);
  }

  lemma {:induction false} DistributeFails(incl: seq<TaxDef>, k: nat, base: Money, taxTotal: Money, rateSum: Money,
                                           quantity: Money, dp: int)
    requires k <= |incl| && Distribute(incl, k, base, taxTotal, rateSum, quantity, dp).Err?
    ensures Distribute(incl, |incl|, base, taxTotal, rateSum, quantity, dp)
         == Distribute(incl, k, base, taxTotal, rateSum, quantity, dp)
    decreases |incl| - k
  {
    if k < |incl| {
      DistributeFails(incl, k + 1, base, taxTotal, rateSum, quantity, dp);
    }
  }

  method ApplyExclusive(excl: seq<TaxDef>, base: Money, quantity: Money, dp: int) returns (r: Result<seq<Component>, MoneyError>)
    ensures r == ExclusiveComponents(excl, base, quantity, dp)
  {
    hide ExclusiveAmount;
    var components := [];
    for i := 0 to |excl|
      invariant ExclusiveComponents(excl[..i], base, quantity, dp) == Ok(components)
    {
      var t := excl[i];
      assert excl[..i + 1][..i] == excl[..i];
      var amt := ExclusiveAmount(t, base, quantity, dp);
      if amt.Err? {
        ExclusiveFails(excl, i + 1, base, quantity, dp);
        return Err(amt.error);
      }
      components := components + [Component(t.id, t.name, base, amt.value)];
    }
    assert excl[..|excl|] == excl;
    r := Ok(components);
  }

  lemma {:induction false} ExclusiveFails(excl: seq<TaxDef>, i: nat, base: Money, quantity: Money, dp: int)
    requires i <= |excl| && ExclusiveComponents(excl[..i], base, quantity, dp).Err?
    ensures ExclusiveComponents(excl, base, quantity, dp) == ExclusiveComponents(excl[..i], base, quantity, dp)
    decreases |excl| - i
  {
    if i == |excl| {
      assert excl[..i] == excl;
    } else {
      assert excl[..i + 1][..i] == excl[..i];
      ExclusiveFails(excl, i + 1, base, quantity, dp);
    }
  }

  method AddComponents(components: seq<Component>, ccy: int) returns (r: Result<Money, MoneyError>)
    ensures r == AddUp(components, ccy)
  {
    r := Ok(Money(0, ccy));
    for i := 0 to |components|
      invariant r == AddUp(components[..i], ccy)
    {
      assert components[..i + 1][..i] == components[..i];
      r := if r.Ok? then Add(r.value, components[i].amount) else r;
    }
    assert components[..|components|] == components;
  }

  // ----- no micro is lost

  function Total(components: seq<Component>): int
  {
    if components == [] then 0 else Total(components[..|components| - 1]) + components[|components| - 1].amount.u
  }

  lemma {:induction false} TotalConcat(a: seq<Component>, b: seq<Component>)
    ensures Total(a + b) == Total(a) + Total(b)
  {
    if b == [] {
      assert a + b == a;
    } else {
      assert (a + b)[..|a + b| - 1] == a + b[..|b| - 1];
      TotalConcat(a, b[..|b| - 1]);
    }
  }

  lemma {:induction false} AddUpIsTotal(components: seq<Component>, ccy: int)
    requires AddUp(components, ccy).Ok?
    ensures AddUp(components, ccy).value.u == Total(components)
  {
    if components != [] {
      AddUpIsTotal(components[..|components| - 1], ccy);
    }
  }

  lemma {:induction false} GivenIsTotal(incl: seq<TaxDef>, k: nat, base: Money, taxTotal: Money, rateSum: Money,
                                        quantity: Money, dp: int)
    requires k <= |incl| && Distribute(incl, k, base, taxTotal, rateSum, quantity, dp).Ok?
    ensures var a := Distribute(incl, k, base, taxTotal, rateSum, quantity, dp).value; a.given.u == Total(a.components)
    ensures k == |incl| > 0 ==>
              Total(Distribute(incl, k, base, taxTotal, rateSum, quantity, dp).value.components) == taxTotal.u
  {
    hide Share;
    if k > 0 {
      GivenIsTotal(incl, k - 1, base, taxTotal, rateSum, quantity, dp);
      var a := Distribute(incl, k, base, taxTotal, rateSum, quantity, dp).value;
      assert a.components[..k - 1] == Distribute(incl, k - 1, base, taxTotal, rateSum, quantity, dp).value.components;
    }
  }

  /** The number of inclusive taxes, whose components come first. */
  function Inclusive(taxes: seq<TaxDef>): nat
  {
    |Select(StableSort(taxes), true)|
  }

  /**
   For every line and every mix of taxes: the inclusive components sum exactly to gross minus base, so the total
   is the gross plus the exclusive taxes, and it is the gross itself when every tax is inclusive.
   */
  lemma NoMicroIsLost(priceUnit: Money, quantity: Money, discountPct: Money, taxes: seq<TaxDef>, dp: int)
    requires ComputeLine(priceUnit, quantity, discountPct, taxes, dp).Ok?
    ensures var gross, c, n := Gross(priceUnit, quantity, discountPct, dp).value,
                               ComputeLine(priceUnit, quantity, discountPct, taxes, dp).value, Inclusive(taxes);
            && |c.components| == |taxes|
            && n <= |c.components|
            && Total(c.components[..n]) == gross.u - c.baseExcluded.u
            && c.totalTax.u == Total(c.components)
            && c.totalIncluded.u == c.baseExcluded.u + c.totalTax.u
            && c.totalIncluded.u == gross.u + Total(c.components[n..])
            && (n == |taxes| > 0 ==> c.totalIncluded.u == gross.u)
            && (n == 0 ==> c.baseExcluded == gross)
  {
    hide ComputeTaxes, StableSort, Gross, Select;
    if taxes != [] {
      TaxesAddUp(Gross(priceUnit, quantity, discountPct, dp).value, quantity, StableSort(taxes), dp);
    } else {
      NothingSelected();
    }
  }

  /** Rounding changes an amount unless it is a multiple of the unit. */
  lemma RoundingIsExact(a: Money, dp: int)
    requires RoundTo(a, dp).Ok?
    ensures RoundTo(a, dp).value.u == a.u <==> a.u % Unit(dp) == 0
  {
    RoundToNearest(a, dp);
    if a.u % Unit(dp) == 0 {
      RoundToFixesMultiples(a, dp, a.u / Unit(dp));
    }
    hide RoundTo, Unit;
    var unit: int := Unit(dp);
    if RoundTo(a, dp).value.u == a.u {
      var q: int :| a.u == q * unit;
      MultipleHasNoRemainder(q, unit);
    }
  }

  lemma MultipleHasNoRemainder(q: int, unit: int)
    requires unit > 0
    ensures (q * unit) % unit == 0
  {
    var d, r := (q * unit) / unit, (q * unit) % unit;
    assert q * unit == d * unit + r;
    assert (q - d) * unit == r;
    MultipleSize(q - d, unit);
  }

  /**
   When every tax is inclusive, the total is the gross that was passed on to rounding exactly when that is a multiple of
   the unit at dp.
   */
  lemma TotalIsGrossExactly(priceUnit: Money, quantity: Money, discountPct: Money, taxes: seq<TaxDef>, dp: int)
    requires ComputeLine(priceUnit, quantity, discountPct, taxes, dp).Ok? && Inclusive(taxes) == |taxes|
    ensures var gross := Unrounded(priceUnit, quantity, discountPct).value;
            ComputeLine(priceUnit, quantity, discountPct, taxes, dp).value.totalIncluded.u == gross.u
            <==> gross.u % Unit(dp) == 0
  {
    NoMicroIsLost(priceUnit, quantity, discountPct, taxes, dp);
    var gross := Unrounded(priceUnit, quantity, discountPct).value;
    assert Gross(priceUnit, quantity, discountPct, dp) == RoundTo(gross, dp);
    RoundingIsExact(gross, dp);
    hide Unrounded, RoundTo, Unit, Inclusive, ComputeTaxes, StableSort;
  }

  /** Such a line: 10.005 at two places with 10 percent tax included comes to 10.01. */
  lemma TotalIsNotGross()
    ensures var price, one, none := Money(10005000, 0), Money(ONE, 0), Money(0, 0);
            var tax := TaxDef(1, "VAT", Money(10 * ONE, 0), "percent", true, 0);
            var line := ComputeLine(price, one, none, [tax], 2);
            && Unrounded(price, one, none) == Ok(price)
            && line.Ok? && line.value.totalIncluded == Money(10010000, 0)
  {
    var price, one, none := Money(10005000, 0), Money(ONE, 0), Money(0, 0);
    var tax := TaxDef(1, "VAT", Money(10 * ONE, 0), "percent", true, 0);
    var taxes, gross := [tax], Money(10010000, 0);
    GrossExample(price, one, none);
    SortOfOne(tax);
    hide StableSort, Gross, ComputeTaxes, Unrounded;
    OneInclusiveTax(gross, one, tax);
  }

  lemma SortOfOne(tax: TaxDef)
    ensures StableSort([tax]) == [tax]
  {
    assert [tax][..0] == [];
  }

  lemma GrossExample(price: Money, one: Money, none: Money)
    requires price == Money(10005000, 0) && one == Money(ONE, 0) && none == Money(0, 0)
    ensures Unrounded(price, one, none) == Ok(price) && Gross(price, one, none, 2) == Ok(Money(10010000, 0))
  {
    assert Unit(2) == 10000 by { Units(); }
    assert DivRoundHalfAway(price.u * ONE, ONE) == price.u by { RoundOfMultiple(price.u, ONE); }
    assert DivRoundHalfAway(price.u, 10000) == 1001;
    hide DivRoundHalfAway;
  }

  lemma OneInclusiveTax(gross: Money, one: Money, tax: TaxDef)
    requires gross == Money(10010000, 0) && tax.rate == Money(10 * ONE, 0) && tax.amountType == "percent" && tax.priceInclude
    ensures ComputeTaxes(gross, one, [tax], 2).Ok? && ComputeTaxes(gross, one, [tax], 2).value.totalIncluded == gross
  {
    var taxes := [tax];
    assert taxes[..0] == [];
    assert Select(taxes, true) == taxes && Select(taxes, false) == [];
    var s := Sums(Money(10 * ONE, 0), Money(0, 0));
    assert InclusiveSums(taxes, one, 0) == Ok(s);
    var base, share := Money(9100000, 0), Money(910000, 0);
    UnwoundExample(gross, s);
    OnlyShare(tax, base, share, s.rateSum, one);
    var c := Component(tax.id, tax.name, base, share);
    assert ExclusiveComponents([], base, one, 2) == Ok([]);
    assert [c] + [] == [c] && [c][..0] == [];
    assert AddUp([c], 0) == Ok(share);
    hide UnwoundBase, InclusiveSums, Distribute, ExclusiveComponents, AddUp, Select;
  }

  lemma UnwoundExample(gross: Money, s: Sums)
    requires gross == Money(10010000, 0) && s == Sums(Money(10 * ONE, 0), Money(0, 0))
    ensures UnwoundBase(gross, s, 2) == Ok(Money(9100000, 0))
  {
    assert Unit(2) == 10000 by { Units(); }
    var numerator := Money(1001000000, 0);
    assert MulQty(gross, Money(HUNDRED, 0)) == Ok(numerator);
    assert TruncDiv(numerator.u * ONE, 110000000) == 9100000;
    assert RoundTo(Money(9100000, 0), 2) == Ok(Money(9100000, 0));
    hide TruncDiv, RoundTo, MulQty;
  }

  lemma OnlyShare(tax: TaxDef, base: Money, share: Money, rateSum: Money, one: Money)
    requires share.ccy == 0
    ensures Distribute([tax], 1, base, share, rateSum, one, 2)
         == Ok(Allocation(share, [Component(tax.id, tax.name, base, share)]))
  {
    hide Share;
    var c := Component(tax.id, tax.name, base, share);
    assert Distribute([tax], 0, base, share, rateSum, one, 2) == Ok(Allocation(Money(0, 0), []));
    assert [] + [c] == [c];
  }

  // ----- when the program divides by zero

  /** The sum of one part of each inclusive tax. */
  function InclusiveTotal(taxes: seq<TaxDef>, part: TaxDef -> int): int
  {
    if taxes == [] then 0
    else
      var t := taxes[|taxes| - 1];
      InclusiveTotal(taxes[..|taxes| - 1], part) + if t.priceInclude then part(t) else 0
  }

  function RatePart(): TaxDef -> int
  {
    (t: TaxDef) => if t.amountType == "percent" then t.rate.u else 0
  }

  function FixedPart(quantity: Money): TaxDef -> int
  {
    (t: TaxDef) => if t.amountType == "percent" then 0 else DivRoundHalfAway(t.rate.u * quantity.u, ONE)
  }

  /** The percentages of the inclusive taxes, added up. */
  function InclusiveRate(taxes: seq<TaxDef>): int
  {
    InclusiveTotal(taxes, RatePart())
  }

  /** The fixed amounts of the inclusive taxes, added up. */
  function InclusiveFixed(taxes: seq<TaxDef>, quantity: Money): int
  {
    InclusiveTotal(taxes, FixedPart(quantity))
  }

  /** The operations before the division go through: no mixed currencies, nothing out of range. */
  predicate ReachesDivision(priceUnit: Money, quantity: Money, discountPct: Money, taxes: seq<TaxDef>, dp: int)
  {
    var gross := Gross(priceUnit, quantity, discountPct, dp);
    && gross.Ok?
    && var s := InclusiveSums(Select(StableSort(taxes), true), quantity, gross.value.ccy);
       && s.Ok?
       && var net := Sub(gross.value, s.value.fixedSum);
          net.Ok? && MulQty(net.value, Money(HUNDRED, 0)).Ok?
  }

  lemma {:induction false} SumsAreTotals(taxes: seq<TaxDef>, quantity: Money, ccy: int)
    requires InclusiveSums(Select(taxes, true), quantity, ccy).Ok?
    ensures var s := InclusiveSums(Select(taxes, true), quantity, ccy).value;
            && s.rateSum.u == InclusiveRate(taxes) && s.rateSum.ccy == 0
            && s.fixedSum.u == InclusiveFixed(taxes, quantity)
  {
    hide DivRoundHalfAway;
    if taxes != [] {
      var init, last := taxes[..|taxes| - 1], taxes[|taxes| - 1];
      var a, b := Select(init, true), Select(taxes, true);
      if last.priceInclude {
        assert b == a + [last] && b[..|b| - 1] == a;
        assert InclusiveSums(a, quantity, ccy).Ok?;
        SumsAreTotals(init, quantity, ccy);
        hide Select;
        OneMoreTax(a, last, quantity, ccy);
      } else {
        assert b == a;
        SumsAreTotals(init, quantity, ccy);
      }
    }
  }

  lemma OneMoreTax(taxes: seq<TaxDef>, t: TaxDef, quantity: Money, ccy: int)
    requires InclusiveSums(taxes + [t], quantity, ccy).Ok?
    ensures InclusiveSums(taxes, quantity, ccy).Ok?
    ensures var s, before := InclusiveSums(taxes + [t], quantity, ccy).value, InclusiveSums(taxes, quantity, ccy).value;
            && s.rateSum.u == before.rateSum.u + (if t.amountType == "percent" then t.rate.u else 0)
            && s.rateSum.ccy == before.rateSum.ccy
            && s.fixedSum.u
               == before.fixedSum.u
                  + (if t.amountType == "percent" then 0 else DivRoundHalfAway(t.rate.u * quantity.u, ONE))
  {
    hide DivRoundHalfAway;
    assert (taxes + [t])[..|taxes|] == taxes;
  }

  lemma {:induction false} InsertKeepsTotal(t: TaxDef, sorted: seq<TaxDef>, part: TaxDef -> int)
    ensures InclusiveTotal(Insert(t, sorted), part)
         == InclusiveTotal(sorted, part) + if t.priceInclude then part(t) else 0
  {
    var r := Insert(t, sorted);
    if sorted == [] || sorted[|sorted| - 1].sequence <= t.sequence {
      assert r[..|r| - 1] == sorted;
    } else {
      InsertKeepsTotal(t, sorted[..|sorted| - 1], part);
      assert r[..|r| - 1] == Insert(t, sorted[..|sorted| - 1]);
    }
  }

  lemma {:induction false} SortKeepsTotal(taxes: seq<TaxDef>, part: TaxDef -> int)
    ensures InclusiveTotal(StableSort(taxes), part) == InclusiveTotal(taxes, part)
  {
    if taxes != [] {
      var init, last := taxes[..|taxes| - 1], taxes[|taxes| - 1];
      SortKeepsTotal(init, part);
      InsertKeepsTotal(last, StableSort(init), part);
    }
  }

  lemma SortKeepsSums(taxes: seq<TaxDef>, quantity: Money)
    ensures InclusiveRate(StableSort(taxes)) == InclusiveRate(taxes)
    ensures InclusiveFixed(StableSort(taxes), quantity) == InclusiveFixed(taxes, quantity)
  {
    SortKeepsTotal(taxes, RatePart());
    SortKeepsTotal(taxes, FixedPart(quantity));
  }

  lemma {:induction false} SumsNeverDivide(taxes: seq<TaxDef>, quantity: Money, ccy: int)
    ensures InclusiveSums(taxes, quantity, ccy) != Err(DivisionByZero)
  {
    if taxes != [] {
      SumsNeverDivide(taxes[..|taxes| - 1], quantity, ccy);
    }
  }

  lemma {:induction false} DistributeNeverDivides(incl: seq<TaxDef>, k: nat, base: Money, taxTotal: Money, rateSum: Money,
                                                  quantity: Money, dp: int)
    requires k <= |incl|
    ensures Distribute(incl, k, base, taxTotal, rateSum, quantity, dp) != Err(DivisionByZero)
  {
    hide DivRoundHalfAway, TruncDiv, Narrow;
    if k > 0 {
      DistributeNeverDivides(incl, k - 1, base, taxTotal, rateSum, quantity, dp);
    }
  }

  lemma {:induction false} ExclusiveNeverDivides(excl: seq<TaxDef>, base: Money, quantity: Money, dp: int)
    ensures ExclusiveComponents(excl, base, quantity, dp) != Err(DivisionByZero)
  {
    hide DivRoundHalfAway;
    if excl != [] {
      ExclusiveNeverDivides(excl[..|excl| - 1], base, quantity, dp);
    }
  }

  lemma {:induction false} AddUpNeverDivides(components: seq<Component>, ccy: int)
    ensures AddUp(components, ccy) != Err(DivisionByZero)
  {
    if components != [] {
      AddUpNeverDivides(components[..|components| - 1], ccy);
    }
  }

  lemma UnwoundDividesByZero(gross: Money, s: Sums, dp: int)
    requires s.rateSum.ccy == 0
    ensures UnwoundBase(gross, s, dp) == Err(DivisionByZero)
       <==> s.rateSum.u == -HUNDRED && Sub(gross, s.fixedSum).Ok?
            && MulQty(Sub(gross, s.fixedSum).value, Money(HUNDRED, 0)).Ok?
  {
    hide DivRoundHalfAway, TruncDiv, Narrow;
  }

  /**
   The program divides by zero exactly when the inclusive percentages add up to minus one hundred and no operation
   before the division refuses.
   */
  lemma DividesByZeroExactly(priceUnit: Money, quantity: Money, discountPct: Money, taxes: seq<TaxDef>, dp: int)
    ensures ComputeLine(priceUnit, quantity, discountPct, taxes, dp) == Err(DivisionByZero)
       <==> InclusiveRate(taxes) == -HUNDRED && ReachesDivision(priceUnit, quantity, discountPct, taxes, dp)
  {
    GrossNeverDivides(priceUnit, quantity, discountPct, dp);
    SortKeepsSums(taxes, quantity);
    var g := Gross(priceUnit, quantity, discountPct, dp);
    hide Gross, StableSort;
    if g.Ok? && taxes != [] {
      TaxesDivideByZero(g.value, quantity, StableSort(taxes), dp);
    }
  }

  /** Such a line: 10 with an included tax of minus one hundred percent. */
  lemma FullRebateDividesByZero(id: int, name: string)
    ensures var price, one, none := Money(10 * ONE, 0), Money(ONE, 0), Money(0, 0);
            var tax := TaxDef(id, name, Money(-HUNDRED, 0), "percent", true, 0);
            ComputeLine(price, one, none, [tax], 2) == Err(DivisionByZero)
  {
    var price, one, none := Money(10 * ONE, 0), Money(ONE, 0), Money(0, 0);
    var tax := TaxDef(id, name, Money(-HUNDRED, 0), "percent", true, 0);
    RoundGross(price, one, none);
    SortOfOne(tax);
    assert [tax][..0] == [];
    assert Select([tax], true) == [] + [tax];
    assert InclusiveSums([tax], one, 0) == Ok(Sums(Money(-HUNDRED, 0), Money(0, 0)));
    RoundOfMultiple(1000 * ONE, ONE);
    SumsAreTotals([tax], one, 0);
    hide Gross, StableSort, InclusiveSums, Select, InclusiveRate, DivRoundHalfAway;
    DividesByZeroExactly(price, one, none, [tax], 2);
  }

  lemma RoundGross(price: Money, one: Money, none: Money)
    requires price == Money(10 * ONE, 0) && one == Money(ONE, 0) && none == Money(0, 0)
    ensures Gross(price, one, none, 2) == Ok(price)
  {
    RoundOfMultiple(price.u, ONE);
    assert Unit(2) == 10000 by { Units(); }
    RoundToFixesMultiples(price, 2, 1000);
    hide DivRoundHalfAway, RoundTo, Unit;
  }

  lemma GrossNeverDivides(priceUnit: Money, quantity: Money, discountPct: Money, dp: int)
    ensures Gross(priceUnit, quantity, discountPct, dp) != Err(DivisionByZero)
  {
    hide DivRoundHalfAway;
  }

  lemma TaxesDivideByZero(gross: Money, quantity: Money, sorted: seq<TaxDef>, dp: int)
    ensures ComputeTaxes(gross, quantity, sorted, dp) == Err(DivisionByZero)
       <==> InclusiveRate(sorted) == -HUNDRED
            && var s := InclusiveSums(Select(sorted, true), quantity, gross.ccy);
               && s.Ok? && Sub(gross, s.value.fixedSum).Ok?
               && MulQty(Sub(gross, s.value.fixedSum).value, Money(HUNDRED, 0)).Ok?
  {
    var incl, excl := Select(sorted, true), Select(sorted, false);
    var s := InclusiveSums(incl, quantity, gross.ccy);
    SumsNeverDivide(incl, quantity, gross.ccy);
    if s.Ok? {
      SumsAreTotals(sorted, quantity, gross.ccy);
      UnwoundDividesByZero(gross, s.value, dp);
      assert incl == [] ==> InclusiveSums([], quantity, gross.ccy).value.rateSum.u == 0;
      var base := if incl == [] then Ok(gross) else UnwoundBase(gross, s.value, dp);
      hide UnwoundBase, Select, InclusiveSums, Distribute, ExclusiveComponents, AddUp, InclusiveRate, DivRoundHalfAway;
      if base.Ok? {
        var taxTotal := if incl == [] then Ok(Money(0, gross.ccy)) else Sub(gross, base.value);
        if taxTotal.Ok? {
          var d := Distribute(incl, |incl|, base.value, taxTotal.value, s.value.rateSum, quantity, dp);
          DistributeNeverDivides(incl, |incl|, base.value, taxTotal.value, s.value.rateSum, quantity, dp);
          ExclusiveNeverDivides(excl, base.value, quantity, dp);
          var e := ExclusiveComponents(excl, base.value, quantity, dp);
          if d.Ok? && e.Ok? {
            AddUpNeverDivides(d.value.components + e.value, gross.ccy);
          }
        }
      }
    }
  }

  /** What a line consists of. */
  lemma PartsOfLine(gross: Money, quantity: Money, sorted: seq<TaxDef>, dp: int)
    returns (s: Sums, d: seq<Component>, e: seq<Component>)
    requires ComputeTaxes(gross, quantity, sorted, dp).Ok?
    ensures var c, incl := ComputeTaxes(gross, quantity, sorted, dp).value, Select(sorted, true);
            && c.components == d + e
            && InclusiveSums(incl, quantity, gross.ccy) == Ok(s)
            && ExclusiveComponents(Select(sorted, false), c.baseExcluded, quantity, dp) == Ok(e)
            && (incl == [] ==> c.baseExcluded == gross && d == [])
            && (incl != [] ==>
                  && UnwoundBase(gross, s, dp) == Ok(c.baseExcluded)
                  && Sub(gross, c.baseExcluded).Ok?
                  && var all := Distribute(incl, |incl|, c.baseExcluded, Sub(gross, c.baseExcluded).value, s.rateSum,
                                           quantity, dp);
                     all.Ok? && d == all.value.components)
  {
    hide Select, InclusiveSums, UnwoundBase, Distribute, ExclusiveComponents, AddUp;
    var incl := Select(sorted, true);
    s := InclusiveSums(incl, quantity, gross.ccy).value;
    var base := if incl == [] then gross else UnwoundBase(gross, s, dp).value;
    var taxTotal := if incl == [] then Money(0, gross.ccy) else Sub(gross, base).value;
    d := Distribute(incl, |incl|, base, taxTotal, s.rateSum, quantity, dp).value.components;
    e := ExclusiveComponents(Select(sorted, false), base, quantity, dp).value;
  }

  lemma NoSums(quantity: Money, ccy: int)
    ensures InclusiveSums([], quantity, ccy) == Ok(Sums(Money(0, 0), Money(0, ccy)))
  {
  }

  lemma NothingSelected()
    ensures Inclusive([]) == 0
  {
  }

  lemma TaxesAddUp(gross: Money, quantity: Money, sorted: seq<TaxDef>, dp: int)
    requires ComputeTaxes(gross, quantity, sorted, dp).Ok?
    ensures var c, n := ComputeTaxes(gross, quantity, sorted, dp).value, |Select(sorted, true)|;
            && |c.components| == |sorted|
            && n <= |c.components|
            && Total(c.components[..n]) == gross.u - c.baseExcluded.u
            && c.totalTax.u == Total(c.components)
            && c.totalIncluded.u == c.baseExcluded.u + c.totalTax.u
            && c.totalIncluded.u == gross.u + Total(c.components[n..])
            && (n == |sorted| ==> c.totalIncluded.u == gross.u)
            && (n == 0 ==> c.baseExcluded == gross)
  {
    SelectSplits(sorted);
    hide Select, InclusiveSums, UnwoundBase, Distribute, ExclusiveComponents, AddUp;
    var incl, excl := Select(sorted, true), Select(sorted, false);
    var s := InclusiveSums(incl, quantity, gross.ccy).value;
    var base := if incl == [] then gross else UnwoundBase(gross, s, dp).value;
    var taxTotal := if incl == [] then Money(0, gross.ccy) else Sub(gross, base).value;
    var d := Distribute(incl, |incl|, base, taxTotal, s.rateSum, quantity, dp).value.components;
    var e := ExclusiveComponents(excl, base, quantity, dp).value;
    GivenIsTotal(incl, |incl|, base, taxTotal, s.rateSum, quantity, dp);
    AddUpIsTotal(d + e, gross.ccy);
    TotalConcat(d, e);
    assert (d + e)[..|d|] == d && (d + e)[|d|..] == e;
  }

  lemma {:induction false} SelectSplits(taxes: seq<TaxDef>)
    ensures |Select(taxes, true)| + |Select(taxes, false)| == |taxes|
    ensures multiset(Select(taxes, true)) + multiset(Select(taxes, false)) == multiset(taxes)
  {
    if taxes != [] {
      var init, last := taxes[..|taxes| - 1], taxes[|taxes| - 1];
      assert taxes == init + [last];
      SelectSplits(init);
    }
  }

  // ----- the order of the components

  predicate Ordered(taxes: seq<TaxDef>)
  {
    forall i, j :: 0 <= i < j < |taxes| ==> taxes[i].sequence <= taxes[j].sequence
  }

  /** The taxes with one sequence number, in the order given. */
  function WithSequence(taxes: seq<TaxDef>, q: int): seq<TaxDef>
  {
    if taxes == [] then []
    else
      var last := taxes[|taxes| - 1];
      WithSequence(taxes[..|taxes| - 1], q) + (if last.sequence == q then [last] else [])
  }

  lemma {:induction false} InsertKeepsElements(t: TaxDef, sorted: seq<TaxDef>)
    ensures multiset(Insert(t, sorted)) == multiset(sorted) + multiset{t}
  {
    if sorted != [] && sorted[|sorted| - 1].sequence > t.sequence {
      var init, last := sorted[..|sorted| - 1], sorted[|sorted| - 1];
      InsertKeepsElements(t, init);
      assert sorted == init + [last];
    }
  }

  predicate AtMost(taxes: seq<TaxDef>, bound: int)
  {
    forall i :: 0 <= i < |taxes| ==> taxes[i].sequence <= bound
  }

  lemma {:induction false} InsertKeepsOrder(t: TaxDef, sorted: seq<TaxDef>, bound: int)
    requires Ordered(sorted)
    ensures Ordered(Insert(t, sorted))
    ensures t.sequence <= bound && AtMost(sorted, bound) ==> AtMost(Insert(t, sorted), bound)
  {
    if sorted != [] && sorted[|sorted| - 1].sequence > t.sequence {
      var init, last := sorted[..|sorted| - 1], sorted[|sorted| - 1];
      InsertKeepsOrder(t, init, last.sequence);
      InsertKeepsOrder(t, init, bound);
      assert AtMost(init, last.sequence);
    }
  }

  lemma {:induction false} InsertIsStable(t: TaxDef, sorted: seq<TaxDef>, q: int)
    ensures WithSequence(Insert(t, sorted), q) == WithSequence(sorted, q) + (if t.sequence == q then [t] else [])
  {
    var r := Insert(t, sorted);
    if sorted == [] || sorted[|sorted| - 1].sequence <= t.sequence {
      assert r[..|r| - 1] == sorted;
    } else {
      var init := sorted[..|sorted| - 1];
      InsertIsStable(t, init, q);
      assert r[..|r| - 1] == Insert(t, init);
      assert WithSequence(init, q) + [] == WithSequence(init, q);
    }
  }

  /** Sorting by sequence number keeps the taxes, and keeps the given order among equal numbers. */
  lemma {:induction false} StableSortFacts(taxes: seq<TaxDef>, q: int)
    ensures Ordered(StableSort(taxes))
    ensures multiset(StableSort(taxes)) == multiset(taxes)
    ensures WithSequence(StableSort(taxes), q) == WithSequence(taxes, q)
  {
    if taxes != [] {
      var init, last := taxes[..|taxes| - 1], taxes[|taxes| - 1];
      assert taxes == init + [last];
      StableSortFacts(init, q);
      InsertKeepsOrder(last, StableSort(init), last.sequence);
      InsertKeepsElements(last, StableSort(init));
      InsertIsStable(last, StableSort(init), q);
    }
  }

  /** The components are those of these taxes, in their order, on this base. */
  predicate BelongTo(components: seq<Component>, taxes: seq<TaxDef>, base: Money)
  {
    |components| == |taxes|
    && forall i :: 0 <= i < |components| ==> components[i].taxId == taxes[i].id && components[i].base == base
  }

  predicate AreExclusive(components: seq<Component>, excl: seq<TaxDef>, base: Money, quantity: Money, dp: int)
  {
    |components| == |excl|
    && forall i :: 0 <= i < |components| ==> ExclusiveAmount(excl[i], base, quantity, dp) == Ok(components[i].amount)
  }

  lemma {:induction false} DistributeNames(incl: seq<TaxDef>, k: nat, base: Money, taxTotal: Money, rateSum: Money,
                                           quantity: Money, dp: int)
    requires k <= |incl| && Distribute(incl, k, base, taxTotal, rateSum, quantity, dp).Ok?
    ensures BelongTo(Distribute(incl, k, base, taxTotal, rateSum, quantity, dp).value.components, incl[..k], base)
    ensures k == |incl| ==> incl[..k] == incl
  {
    hide Share;
    if k > 0 {
      DistributeNames(incl, k - 1, base, taxTotal, rateSum, quantity, dp);
      assert incl[..k] == incl[..k - 1] + [incl[k - 1]];
    }
  }

  lemma {:induction false} ExclusiveNames(excl: seq<TaxDef>, base: Money, quantity: Money, dp: int)
    requires ExclusiveComponents(excl, base, quantity, dp).Ok?
    ensures BelongTo(ExclusiveComponents(excl, base, quantity, dp).value, excl, base)
    ensures AreExclusive(ExclusiveComponents(excl, base, quantity, dp).value, excl, base, quantity, dp)
  {
    hide ExclusiveAmount;
    if excl != [] {
      ExclusiveNames(excl[..|excl| - 1], base, quantity, dp);
    }
  }

  /** One component per tax, inclusive ones first; each exclusive tax is its own rounded amount on the same base. */
  lemma ComponentsFollowTaxes(gross: Money, quantity: Money, sorted: seq<TaxDef>, dp: int)
    requires ComputeTaxes(gross, quantity, sorted, dp).Ok?
    ensures var c, incl, excl := ComputeTaxes(gross, quantity, sorted, dp).value, Select(sorted, true), Select(sorted, false);
            && |c.components| == |incl| + |excl|
            && BelongTo(c.components, incl + excl, c.baseExcluded)
            && AreExclusive(c.components[|incl|..], excl, c.baseExcluded, quantity, dp)
  {
    var incl, excl := Select(sorted, true), Select(sorted, false);
    var base := ComputeTaxes(gross, quantity, sorted, dp).value.baseExcluded;
    var s, d, e := PartsOfLine(gross, quantity, sorted, dp);
    hide ComputeTaxes, Select, InclusiveSums, UnwoundBase, Distribute, ExclusiveComponents, AreExclusive, BelongTo;
    if incl == [] {
      NoComponents(base);
    } else {
      DistributeNames(incl, |incl|, base, Sub(gross, base).value, s.rateSum, quantity, dp);
    }
    ExclusiveNames(excl, base, quantity, dp);
    BelongTogether(d, e, incl, excl, base);
  }

  lemma NoComponents(base: Money)
    ensures BelongTo([], [], base)
  {
  }

  lemma BelongTogether(d: seq<Component>, e: seq<Component>, incl: seq<TaxDef>, excl: seq<TaxDef>, base: Money)
    requires BelongTo(d, incl, base) && BelongTo(e, excl, base)
    ensures BelongTo(d + e, incl + excl, base) && |d| == |incl| && (d + e)[|incl|..] == e && |d + e| == |incl| + |excl|
  {
  }

  // ----- the unwound base is close to the exact quotient

  lemma TripleProduct(g: int)
    ensures g * HUNDRED == (g * 100) * ONE
  {
  }

  /**
   With a positive divisor, and unless the 64-bit cast loses bits, the base differs from the exact quotient
   (gross - fixed) * 100 / (100 + rates) by less than one micro plus half a unit at dp.
   */
  lemma UnwoundBaseAccuracy(gross: Money, s: Sums, dp: int)
    requires UnwoundBase(gross, s, dp).Ok? && s.rateSum.u != 0
    requires var d, g := HUNDRED + s.rateSum.u, gross.u - s.fixedSum.u;
             d > 0 && INT64_MIN <= TruncDiv(g * HUNDRED, d) <= INT64_MAX
    ensures var d, g, base := HUNDRED + s.rateSum.u, gross.u - s.fixedSum.u, UnwoundBase(gross, s, dp).value.u;
            2 * Abs(base * d - g * HUNDRED) < (Unit(dp) + 2) * d
  {
    var d, g := HUNDRED + s.rateSum.u, gross.u - s.fixedSum.u;
    TripleProduct(g);
    RoundOfMultiple(g * 100, ONE);
    var q := TruncDiv(g * HUNDRED, d);
    TruncDivFacts(g * HUNDRED, d);
    hide TruncDiv, DivRoundHalfAway;
    var base := UnwoundBase(gross, s, dp).value.u;
    assert RoundTo(Money(q, gross.ccy), dp) == Ok(Money(base, gross.ccy));
    RoundToNearest(Money(q, gross.ccy), dp);
    ScaledDistance(base, q, d, Unit(dp), g * HUNDRED);
  }

  /** An inclusive percentage tax other than the last gets its proportion, to within a micro and half a unit at dp. */
  lemma ShareIsProportional(t: TaxDef, taxTotal: Money, rateSum: Money, quantity: Money, dp: int)
    requires t.amountType != "fixed" && rateSum.u > 0 && Share(t, taxTotal, rateSum, quantity, dp).Ok?
    requires INT64_MIN <= TruncDiv(taxTotal.u * t.rate.u, rateSum.u) <= INT64_MAX
    ensures var share := Share(t, taxTotal, rateSum, quantity, dp).value.u;
            2 * Abs(share * rateSum.u - taxTotal.u * t.rate.u) < (Unit(dp) + 2) * rateSum.u
  {
    var q := TruncDiv(taxTotal.u * t.rate.u, rateSum.u);
    TruncDivFacts(taxTotal.u * t.rate.u, rateSum.u);
    hide TruncDiv, DivRoundHalfAway;
    var share := Share(t, taxTotal, rateSum, quantity, dp).value.u;
    assert RoundTo(Money(q, taxTotal.ccy), dp) == Ok(Money(share, taxTotal.ccy));
    RoundToNearest(Money(q, taxTotal.ccy), dp);
    ScaledDistance(share, q, rateSum.u, Unit(dp), taxTotal.u * t.rate.u);
  }

  lemma ScaledDistance(base: int, q: int, d: int, unit: int, target: int)
    requires d > 0 && 2 * Abs(q - base) <= unit && Abs(target - q * d) < d
    ensures 2 * Abs(base * d - target) < (unit + 2) * d
  {
    var a: int := Abs(q - base);
    Scaled(base, q, d, a);
    MulMono(2 * a, unit, d);
    SumOfDistances(base * d, q * d, target, a * d, unit * d, d);
    assert (unit + 2) * d == unit * d + 2 * d;
  }

  lemma Scaled(base: int, q: int, d: int, a: int)
    requires d > 0 && a == Abs(q - base)
    ensures Abs(base * d - q * d) == a * d && (2 * a) * d == 2 * (a * d)
  {
    assert base * d - q * d == (base - q) * d;
    MulSign(a, d);
  }

  lemma SumOfDistances(p: int, r: int, target: int, ad: int, ud: int, d: int)
    requires Abs(p - r) == ad && 2 * ad <= ud && Abs(target - r) < d
    ensures 2 * Abs(p - target) < ud + 2 * d
  {
  }

  /** With rates that are not negative the cast never loses bits. */
  lemma NonNegativeRatesFit(g: int, rateSum: int)
    requires rateSum >= 0
    ensures Abs(TruncDiv(g * HUNDRED, HUNDRED + rateSum)) <= Abs(g)
  {
    var d := HUNDRED + rateSum;
    var q := TruncDiv(g * HUNDRED, d);
    TruncDivFacts(g * HUNDRED, d);
    hide TruncDiv;
    MulSign(Abs(q), d);
    MulSign(Abs(g), HUNDRED);
    QuotientBound(Abs(q), Abs(g), d, HUNDRED);
  }

  lemma QuotientBound(q: nat, g: nat, d: int, h: int)
    requires d >= h > 0 && q * d <= g * h
    ensures q <= g
  {
    if q > g {
      NonNegative(q - g - 1, d);
      NonNegative(g, d - h);
    }
  }
}
