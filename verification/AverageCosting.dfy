/** Average costing: how far the cached value may be from quantity times price, over any run. */
module AverageCosting {
  import opened Integers
  import opened Rounding
  import opened Valuation

  /** The value beyond quantity times price, in millionths of a micro. */
  function Gap(p: Costing): int
  {
    p.value * MICROS - p.standardPrice * p.quantity
  }

  ghost predicate Good(p: Costing)
  {
    p.costMethod.Average? && p.quantity >= 0 && p.value >= 0 && p.standardPrice >= 0 && Gap(p) >= 0
  }

  /** Issues are covered by the quantity, and no revaluation takes the value below zero. */
  predicate Allowed(p: Costing, e: Event)
  {
    match e
    case Receipt(qty, inputCost) => true
    case Issue(qty) => qty <= p.quantity
    case Revaluation(value) => p.value + value >= 0
  }

  predicate AllAllowed(p: Costing, events: seq<Event>)
  {
    events == [] || (AllAllowed(p, events[..|events| - 1])
                     && Allowed(Run(p, events[..|events| - 1]), events[|events| - 1]))
  }

  // ----- the arithmetic

  /** A new price is the average, rounded down: quantity times price falls short of the value by less than a quantity. */
  lemma AveragePrice(value: int, qty: int)
    requires value >= 0 && qty > 0
    ensures var price := DivMicros(value, qty);
            price >= 0 && 0 <= value * MICROS - price * qty < qty
  {
    TruncDivFacts(value * MICROS, qty);
    var price := DivMicros(value, qty);
    var r := value * MICROS - price * qty;
    hide TruncDiv, DivMicros;
    if price < 0 {
      MultipleSize(price, qty);
      MulMono(price, -1, qty);
    }
  }

  /** The value of an issue is quantity times price, rounded down to a micro. */
  lemma IssueValue(qty: int, price: int)
    requires qty >= 0 && price >= 0
    ensures var v := MulMicros(qty, price);
            v >= 0 && 0 <= qty * price - v * MICROS < MICROS
  {
    MulMono(0, qty, price);
    TruncDivFacts(qty * price, MICROS);
    hide TruncDiv;
  }

  lemma IssueGap(p: Costing, qty: int)
    requires Good(p) && 0 < qty <= p.quantity
    ensures var r := Issued(p, qty);
            Good(r) && 0 <= Gap(r) - Gap(p) < MICROS && r.standardPrice == p.standardPrice
  {
    var r := Issued(p, qty);
    IssueValue(qty, p.standardPrice);
    var out := MulMicros(qty, p.standardPrice);
    assert r.value == p.value - out && r.quantity == p.quantity - qty && r.standardPrice == p.standardPrice;
    hide MulMicros, DivMicros, Issued;
    assert p.standardPrice * (p.quantity - qty) == p.standardPrice * p.quantity - qty * p.standardPrice;
    MulMono(0, r.quantity, p.standardPrice);
  }

  lemma ReceiptGap(p: Costing, qty: int, inputCost: int)
    requires Good(p) && qty > 0
    ensures var r := Received(p, qty, inputCost);
            Good(r) && 0 <= Gap(r) < r.quantity
  {
    var r := Received(p, qty, inputCost);
    var unitCost := if inputCost >= 0 then inputCost else p.standardPrice;
    IssueValue(qty, unitCost);
    assert r.value == p.value + MulMicros(qty, unitCost) && r.quantity == p.quantity + qty;
    assert r.standardPrice == DivMicros(r.value, r.quantity);
    hide MulMicros, DivMicros;
    AveragePrice(r.value, r.quantity);
  }

  lemma RevaluationGap(p: Costing, value: int)
    requires Good(p) && p.value + value >= 0
    ensures var r := Revalued(p, value);
            && Good(r)
            && (p.quantity > 0 ==> Gap(r) < r.quantity)
  {
    var r := Revalued(p, value);
    assert r.value == p.value + value && r.quantity == p.quantity;
    if p.quantity > 0 {
      AveragePrice(r.value, r.quantity);
    } else {
      assert p.standardPrice * p.quantity == 0;
    }
  }

  // ----- runs

  /** The quantity at the last change of the price, and the issues since. */
  datatype Since = Since(quantity: int, issues: nat)

  function SinceLastPrice(p: Costing, events: seq<Event>): Since
  {
    if events == [] then Since(p.quantity, 0)
    else
      var s, before := SinceLastPrice(p, events[..|events| - 1]), Run(p, events[..|events| - 1]);
      match events[|events| - 1]
      case Receipt(qty, inputCost) => if qty <= 0 then s else Since(before.quantity + qty, 0)
      case Issue(qty) => if qty <= 0 then s else Since(s.quantity, s.issues + 1)
      case Revaluation(value) => if value == 0 then s else Since(before.quantity, 0)
  }

  predicate RevaluesEmptyStock(p: Costing, e: Event)
  {
    e.Revaluation? && e.value != 0 && p.quantity == 0
  }

  predicate NoEmptyRevaluation(p: Costing, events: seq<Event>)
  {
    events == [] || (NoEmptyRevaluation(p, events[..|events| - 1])
                     && !RevaluesEmptyStock(Run(p, events[..|events| - 1]), events[|events| - 1]))
  }

  /** In every reachable state quantity times price is covered by the value, so neither is ever negative. */
  lemma {:induction false} ValueCoversPrice(p: Costing, events: seq<Event>)
    requires Good(p) && AllAllowed(p, events)
    ensures var r := Run(p, events);
            && r.quantity >= 0 && r.value >= 0 && r.standardPrice >= 0
            && r.standardPrice * r.quantity <= r.value * MICROS
            && Good(r)
  {
    hide Gap;
    if events != [] {
      ValueCoversPrice(p, events[..|events| - 1]);
      GoodStep(Run(p, events[..|events| - 1]), events[|events| - 1]);
    }
    GoodMeans(Run(p, events));
  }

  lemma GoodMeans(p: Costing)
    requires Good(p)
    ensures p.standardPrice * p.quantity <= p.value * MICROS
  {
  }

  lemma GoodStep(p: Costing, e: Event)
    requires Good(p) && Allowed(p, e)
    ensures Good(After(p, e))
  {
    hide Good, Gap;
    match e {
      case Receipt(qty, inputCost) => if qty > 0 { ReceiptGap(p, qty, inputCost); }
      case Issue(qty) => if qty > 0 { IssueGap(p, qty); }
      case Revaluation(value) => if value != 0 { RevaluationGap(p, value); }
    }
  }

  /**
   Unless empty stock was revalued, the gap is at most the quantity at the last re-pricing plus one unit of price
   precision for each issue since.
   */
  lemma {:induction false} GapIsBounded(p: Costing, events: seq<Event>)
    requires Good(p) && AllAllowed(p, events) && NoEmptyRevaluation(p, events)
    requires p.quantity == 0 ==> Gap(p) == 0
    requires p.quantity > 0 ==> Gap(p) < p.quantity
    ensures Within(Run(p, events), SinceLastPrice(p, events))
  {
    hide Gap;
    if events != [] {
      var init, e := events[..|events| - 1], events[|events| - 1];
      GapIsBounded(p, init);
      ValueCoversPrice(p, init);
      GapStep(Run(p, init), SinceLastPrice(p, init), e);
    }
  }

  ghost predicate Within(p: Costing, s: Since)
  {
    && s.quantity >= 0
    && 0 <= Gap(p) <= s.quantity + s.issues * MICROS
    && (s.quantity > 0 || s.issues > 0 ==> Gap(p) < s.quantity + s.issues * MICROS)
  }

  lemma GapStep(p: Costing, s: Since, e: Event)
    requires Good(p) && Allowed(p, e) && !RevaluesEmptyStock(p, e) && Within(p, s)
    ensures var next := match e
                        case Receipt(qty, inputCost) => if qty <= 0 then s else Since(p.quantity + qty, 0)
                        case Issue(qty) => if qty <= 0 then s else Since(s.quantity, s.issues + 1)
                        case Revaluation(value) => if value == 0 then s else Since(p.quantity, 0);
            Within(After(p, e), next)
  {
    GoodStep(p, e);
    assert Good(After(p, e)) && p.quantity >= 0;
    hide Gap;
    match e {
      case Receipt(qty, inputCost) => if qty > 0 { ReceiptGap(p, qty, inputCost); }
      case Issue(qty) =>
        if qty > 0 {
          IssueGap(p, qty);
          assert (s.issues + 1) * MICROS == s.issues * MICROS + MICROS;
        }
      case Revaluation(value) => if value != 0 { RevaluationGap(p, value); }
    }
  }
}
