/** Standard costing: what the cached value is made of, over any run. */
module StandardCosting {
  import opened Valuation
  import AverageCosting

  ghost predicate Good(p: Costing)
  {
    p.costMethod.Standard? && p.standardPrice >= 0
  }

  /** What a receipt brings in beyond its quantity at the standard price, in millionths of a micro. */
  function Variance(p: Costing, e: Event): int
  {
    match e
    case Receipt(qty, inputCost) => if qty <= 0 || inputCost < 0 then 0 else qty * (inputCost - p.standardPrice)
    case _ => 0
  }

  datatype Tally = Tally(variance: int, revalued: int, receipts: nat, issues: nat)

  /** Price variances, revaluations, and the numbers of receipts and issues. */
  function Tallied(p: Costing, events: seq<Event>): Tally
  {
    if events == [] then Tally(0, 0, 0, 0)
    else
      var e, t := events[|events| - 1], Tallied(p, events[..|events| - 1]);
      match e
      case Receipt(qty, _) => if qty <= 0 then t else t.(variance := t.variance + Variance(p, e), receipts := t.receipts + 1)
      case Issue(qty) => if qty <= 0 then t else t.(issues := t.issues + 1)
      case Revaluation(value) => t.(revalued := t.revalued + value)
  }

  /** The value beyond quantity times price that neither variances nor revaluations account for. */
  function Unexplained(p: Costing, t: Tally): int
  {
    AverageCosting.Gap(p) - t.variance - t.revalued * MICROS
  }

  lemma ReceiptStep(p: Costing, qty: int, inputCost: int)
    requires Good(p) && qty > 0
    ensures var r, v := Received(p, qty, inputCost), Variance(p, Receipt(qty, inputCost));
            && Good(r) && r.standardPrice == p.standardPrice
            && AverageCosting.Gap(p) + v - MICROS < AverageCosting.Gap(r) <= AverageCosting.Gap(p) + v
  {
    var r := Received(p, qty, inputCost);
    var unitCost := if inputCost >= 0 then inputCost else p.standardPrice;
    AverageCosting.IssueValue(qty, unitCost);
    assert r.value == p.value + MulMicros(qty, unitCost) && r.quantity == p.quantity + qty;
    hide MulMicros;
    assert p.standardPrice * (p.quantity + qty) == p.standardPrice * p.quantity + qty * p.standardPrice;
    assert qty * (unitCost - p.standardPrice) == qty * unitCost - qty * p.standardPrice;
  }

  lemma IssueStep(p: Costing, qty: int)
    requires Good(p) && qty > 0
    ensures var r := Issued(p, qty);
            && Good(r) && r.standardPrice == p.standardPrice
            && AverageCosting.Gap(p) <= AverageCosting.Gap(r) < AverageCosting.Gap(p) + MICROS
  {
    var r := Issued(p, qty);
    AverageCosting.IssueValue(qty, p.standardPrice);
    assert r.value == p.value - MulMicros(qty, p.standardPrice) && r.quantity == p.quantity - qty;
    hide MulMicros, DivMicros, Issued;
    assert p.standardPrice * (p.quantity - qty) == p.standardPrice * p.quantity - qty * p.standardPrice;
  }

  lemma RevaluationStep(p: Costing, value: int)
    requires Good(p)
    ensures var r := Revalued(p, value);
            && Good(r) && r.standardPrice == p.standardPrice
            && AverageCosting.Gap(r) == AverageCosting.Gap(p) + value * MICROS
  {
    var r := Revalued(p, value);
    assert r.value == p.value + value && r.quantity == p.quantity;
    assert (p.value + value) * MICROS == p.value * MICROS + value * MICROS;
  }

  /**
   Over any run the value is the quantity at the standard price, plus the variances of the receipts that named a cost,
   plus the revaluations, to within one micro a move: receipts round down what comes in, issues what goes out.
   */
  lemma {:induction false} ValueIsExplained(p: Costing, events: seq<Event>)
    requires Good(p)
    ensures var r, t := Run(p, events), Tallied(p, events);
            && Good(r) && r.standardPrice == p.standardPrice
            && AverageCosting.Gap(p) - t.receipts * MICROS <= Unexplained(r, t) <= AverageCosting.Gap(p) + t.issues * MICROS
  {
    hide AverageCosting.Gap, Received, Issued, Revalued;
    if events != [] {
      var init, e := events[..|events| - 1], events[|events| - 1];
      ValueIsExplained(p, init);
      var before := Run(p, init);
      match e {
        case Receipt(qty, inputCost) =>
          if qty > 0 {
            ReceiptStep(before, qty, inputCost);
            assert Variance(before, e) == Variance(p, e);
          }
        case Issue(qty) => if qty > 0 { IssueStep(before, qty); }
        case Revaluation(value) => if value != 0 { RevaluationStep(before, value); }
      }
    }
  }
}
