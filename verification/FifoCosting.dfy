/** First-in, first-out costing: the shape of the cost layers, and what their remains add up to, over any run. */
module FifoCosting {
  import opened Integers
  import opened Rounding
  import opened Valuation

  // ----- the shape of the layers

  /** Nothing remains, neither quantity nor value. */
  predicate Closed(l: Layer)
  {
    l.remQty == 0 && l.remValue == 0
  }

  /** No unit of the layer has been issued. */
  predicate Untouched(l: Layer)
  {
    if l.quantity > 0 then l.remQty == l.quantity else Closed(l)
  }

  /** The layers before the cut are used up, those after it are untouched; only the one at the cut may be partial. */
  predicate Cut(layers: seq<Layer>, c: nat)
  {
    && c <= |layers|
    && (forall i :: 0 <= i < c ==> Closed(layers[i]))
    && (c < |layers| ==> 0 < layers[c].remQty <= layers[c].quantity)
    && (forall i :: c < i < |layers| ==> Untouched(layers[i]))
  }

  ghost predicate HasCut(layers: seq<Layer>)
  {
    exists c: nat :: Cut(layers, c)
  }

  /** When the first j layers are used up and the others untouched, the cut is the first open layer. */
  lemma {:induction false} CutFrom(layers: seq<Layer>, j: nat)
    requires j <= |layers|
    requires forall i :: 0 <= i < j ==> Closed(layers[i])
    requires forall i :: j <= i < |layers| ==> Untouched(layers[i])
    ensures HasCut(layers)
    decreases |layers| - j
  {
    if j == |layers| || layers[j].quantity > 0 {
      assert Cut(layers, j);
    } else {
      CutFrom(layers, j + 1);
    }
  }

  lemma CutOfAppend(layers: seq<Layer>, l: Layer)
    requires HasCut(layers) && Untouched(l)
    ensures HasCut(layers + [l])
  {
    var c: nat :| Cut(layers, c);
    if c == |layers| && l.quantity <= 0 {
      assert Cut(layers + [l], c + 1);
    } else {
      assert Cut(layers + [l], c);
    }
  }

  /** A layer from which nothing remains is worth nothing, and no layer has more left than it received. */
  lemma CutMeans(layers: seq<Layer>, i: nat)
    requires HasCut(layers) && i < |layers|
    ensures layers[i].remQty == 0 ==> layers[i].remValue == 0
    ensures 0 <= layers[i].remQty
    ensures layers[i].quantity > 0 ==> layers[i].remQty <= layers[i].quantity
  {
    var c: nat :| Cut(layers, c);
    assert i < c || i == c || i > c;
  }

  // ----- consumption

  /** The last unit of a layer takes all the value that is left. */
  lemma FullPortion(value: int, qty: int)
    requires qty > 0
    ensures TruncDiv(value * qty, qty) == value
  {
    TruncDivFacts(value * qty, qty);
    var q := TruncDiv(value * qty, qty);
    hide TruncDiv;
    MulSub(value, q, qty);
    MultipleSize(value - q, qty);
  }

  /** After the first k layers: either the need is covered and there is a cut, or these layers are all used up. */
  ghost predicate DrawnShape(d: Draw, k: nat)
    requires k <= |d.layers|
  {
    && d.left >= 0
    && (d.left == 0 ==> HasCut(d.layers))
    && (d.left > 0 ==> forall i :: 0 <= i < k ==> Closed(d.layers[i]))
  }

  lemma DrawnShapeStep(layers: seq<Layer>, c: nat, d: Draw, k: nat, next: Draw)
    requires Cut(layers, c) && k < |layers| == |d.layers| && DrawnShape(d, k) && d.left > 0
    requires forall i :: k <= i < |layers| ==> d.layers[i] == layers[i]
    requires var l := layers[k];
             if l.remQty <= 0 then next == d
             else var take := Min(l.remQty, d.left);
                  && next.left == d.left - take && |next.layers| == |layers|
                  && next.layers[k].quantity == l.quantity && next.layers[k].remQty == l.remQty - take
                  && (take == l.remQty ==> next.layers[k].remValue == 0)
                  && forall i :: 0 <= i < |layers| && i != k ==> next.layers[i] == d.layers[i]
    ensures DrawnShape(next, k + 1)
  {
    var l := layers[k];
    if l.remQty > 0 {
      assert k >= c;
      assert forall i :: k < i < |layers| ==> Untouched(next.layers[i]);
      if next.left == 0 {
        if next.layers[k].remQty == 0 {
          CutFrom(next.layers, k + 1);
        } else {
          assert Cut(next.layers, k);
        }
      }
    } else {
      assert k != c;
    }
  }

  lemma {:induction false} DrawnKeepsShape(layers: seq<Layer>, c: nat, k: nat, qty: int)
    requires Cut(layers, c) && k <= |layers| && qty > 0
    ensures DrawnShape(Drawn(layers, k, qty), k)
  {
    hide Closed, Untouched, HasCut;
    if k > 0 {
      DrawnKeepsShape(layers, c, k - 1, qty);
      var d, next := Drawn(layers, k - 1, qty), Drawn(layers, k, qty);
      if d.left > 0 {
        var l := layers[k - 1];
        if l.remQty > 0 {
          FullPortion(l.remValue, l.remQty);
        }
        hide TruncDiv, Cut, DrawnShape;
        DrawnShapeStep(layers, c, d, k - 1, next);
      }
    }
  }

  /** Consumption neither loses nor creates quantity or value. */
  lemma {:induction false} DrawnConserves(layers: seq<Layer>, k: nat, qty: int)
    requires k <= |layers|
    ensures var d := Drawn(layers, k, qty);
            && RemQty(d.layers) + qty == RemQty(layers) + d.left
            && RemValue(d.layers) + d.value == RemValue(layers)
  {
    hide RemQty, RemValue, TruncDiv;
    if k > 0 {
      DrawnConserves(layers, k - 1, qty);
      var d, l := Drawn(layers, k - 1, qty), Drawn(layers, k, qty).layers[k - 1];
      SumsOfUpdate(d.layers, k - 1, l);
    }
  }

  /** What a layer gives is the share of its value that goes with the units taken, to within a micro. */
  predicate Proportional(before: Layer, after: Layer)
  {
    before.remQty > 0 ==>
      Abs((before.remValue - after.remValue) * before.remQty - before.remValue * (before.remQty - after.remQty)) < before.remQty
  }

  lemma TakenIsProportional(l: Layer, take: int, after: Layer)
    requires l.remQty > 0
    requires after == l.(remQty := l.remQty - take, remValue := l.remValue - TruncDiv(l.remValue * take, l.remQty))
    ensures Proportional(l, after)
  {
    TruncDivFacts(l.remValue * take, l.remQty);
    hide TruncDiv;
  }

  lemma {:induction false} IssueTakesProportion(layers: seq<Layer>, k: nat, qty: int)
    requires k <= |layers|
    ensures forall i :: 0 <= i < |layers| ==> Proportional(layers[i], Drawn(layers, k, qty).layers[i])
  {
    if k == 0 {
      forall i | 0 <= i < |layers| ensures Proportional(layers[i], layers[i]) {
        assert (layers[i].remValue - layers[i].remValue) * layers[i].remQty == 0;
      }
    } else {
      IssueTakesProportion(layers, k - 1, qty);
      var d, l := Drawn(layers, k - 1, qty), layers[k - 1];
      if d.left > 0 && l.remQty > 0 {
        TakenIsProportional(l, Min(l.remQty, d.left), Drawn(layers, k, qty).layers[k - 1]);
      }
      hide Proportional, TruncDiv;
    }
  }

  // ----- revaluation

  predicate NearShare(l: Layer, share: int, value: int, total: int)
  {
    Abs(share * total - value * l.remQty) < total
  }

  predicate AllNear(layers: seq<Layer>, adds: seq<(int, int)>, value: int, total: int)
  {
    forall add :: add in adds ==> 0 <= add.0 < |layers| && NearShare(layers[add.0], add.1, value, total)
  }

  /** Before the remainder, each open layer gets its share by remaining quantity, to within a micro. */
  lemma {:induction false} SharesAreProportional(layers: seq<Layer>, k: nat, value: int, total: int)
    requires k <= |layers| && total > 0
    ensures AllNear(layers, Shares(layers, k, value, total), value, total)
  {
    hide TruncDiv, NearShare;
    if k > 0 {
      SharesAreProportional(layers, k - 1, value, total);
      ShareIsNear(layers[k - 1], value, total);
    }
  }

  lemma ShareIsNear(l: Layer, value: int, total: int)
    requires total > 0
    ensures NearShare(l, TruncDiv(value * l.remQty, total), value, total)
  {
    TruncDivFacts(value * l.remQty, total);
    hide TruncDiv;
  }

  lemma {:induction false} AddedSums(layers: seq<Layer>, adds: seq<(int, int)>, k: nat)
    requires k <= |adds| && forall j :: 0 <= j < |adds| ==> 0 <= adds[j].0 < |layers|
    ensures var r := Added(layers, adds, k);
            && RemQty(r) == RemQty(layers)
            && RemValue(r) == RemValue(layers) + SumOf(adds[..k])
  {
    hide RemQty, RemValue;
    if k > 0 {
      AddedSums(layers, adds, k - 1);
      var r, i := Added(layers, adds, k - 1), adds[k - 1].0;
      SumsOfUpdate(r, i, r[i].(remValue := r[i].remValue + adds[k - 1].1));
      assert adds[..k][..k - 1] == adds[..k - 1];
    }
  }

  lemma WithRemainderSum(adds: seq<(int, int)>, value: int)
    requires adds != []
    ensures SumOf(WithRemainder(adds, value)) == value
  {
    var r := WithRemainder(adds, value);
    assert r[..|adds| - 1] == adds[..|adds| - 1];
  }

  lemma {:induction false} SomeShares(layers: seq<Layer>, k: nat, value: int, total: int)
    requires k <= |layers| && total > 0
    ensures Shares(layers, k, value, total) == [] <==> OpenQty(layers[..k]) == 0
  {
    if k > 0 {
      assert layers[..k][..k - 1] == layers[..k - 1];
      SomeShares(layers, k - 1, value, total);
    }
  }

  /** The whole value, not a micro less, lands on the open layers, if there are any. */
  lemma SpreadConserves(layers: seq<Layer>, value: int)
    ensures var r := Spread(layers, value);
            && RemQty(r) == RemQty(layers)
            && RemValue(r) == RemValue(layers) + if OpenQty(layers) > 0 then value else 0
  {
    if OpenQty(layers) > 0 {
      var shares := Shares(layers, |layers|, value, OpenQty(layers));
      var adds := WithRemainder(shares, value);
      assert layers[..|layers|] == layers;
      SomeShares(layers, |layers|, value, OpenQty(layers));
      WithRemainderSum(shares, value);
      AddedSums(layers, adds, |adds|);
      assert adds[..|adds|] == adds;
    }
  }

  /** Only the remaining value of open layers changes. */
  predicate SameButOpenValue(a: seq<Layer>, b: seq<Layer>)
  {
    && |a| == |b|
    && forall i :: 0 <= i < |a| ==> b[i] == (if a[i].remQty > 0 then a[i].(remValue := b[i].remValue) else a[i])
  }

  lemma {:induction false} AddedChangesValues(layers: seq<Layer>, adds: seq<(int, int)>, k: nat)
    requires k <= |adds|
    requires forall j :: 0 <= j < |adds| ==> 0 <= adds[j].0 < |layers| && layers[adds[j].0].remQty > 0
    ensures SameButOpenValue(layers, Added(layers, adds, k))
  {
    if k > 0 {
      AddedChangesValues(layers, adds, k - 1);
    }
  }

  lemma SpreadChangesValues(layers: seq<Layer>, value: int)
    ensures SameButOpenValue(layers, Spread(layers, value))
  {
    if OpenQty(layers) > 0 {
      var adds := WithRemainder(Shares(layers, |layers|, value, OpenQty(layers)), value);
      AddedChangesValues(layers, adds, |adds|);
    }
  }

  lemma SpreadKeepsShape(layers: seq<Layer>, value: int)
    requires HasCut(layers)
    ensures HasCut(Spread(layers, value))
  {
    var c: nat :| Cut(layers, c);
    SpreadChangesValues(layers, value);
    hide Spread;
    assert Cut(Spread(layers, value), c);
  }

  // ----- runs

  /** The quantity that an event issues beyond what the layers hold. */
  function Shortfall(p: Costing, e: Event): int
  {
    match e
    case Issue(qty) => if qty <= 0 || qty <= RemQty(p.layers) then 0 else qty - RemQty(p.layers)
    case _ => 0
  }

  function ShortfallValue(p: Costing, e: Event): int
  {
    ShortValue(p, Shortfall(p, e))
  }

  /** The value of a revaluation when the layers hold nothing. */
  function Orphaned(p: Costing, e: Event): int
  {
    match e
    case Revaluation(value) => if RemQty(p.layers) > 0 then 0 else value
    case _ => 0
  }

  datatype Totals = Totals(shortQty: int, shortValue: int, orphaned: int)

  function TotalsOf(p: Costing, events: seq<Event>): Totals
  {
    if events == [] then Totals(0, 0, 0)
    else
      var before, e := Run(p, events[..|events| - 1]), events[|events| - 1];
      var t := TotalsOf(p, events[..|events| - 1]);
      Totals(t.shortQty + Shortfall(before, e), t.shortValue + ShortfallValue(before, e),
             t.orphaned + Orphaned(before, e))
  }

  ghost predicate Good(p: Costing)
  {
    p.costMethod.Fifo? && HasCut(p.layers)
  }

  /** How far the layers are ahead of the cached quantity and value. */
  function QtyAhead(p: Costing): int
  {
    RemQty(p.layers) - p.quantity
  }

  function ValueAhead(p: Costing): int
  {
    RemValue(p.layers) - p.value
  }

  /** In good layers nothing is negative, so what is open is what remains. */
  lemma RemainsAreOpen(layers: seq<Layer>)
    requires HasCut(layers)
    ensures OpenQty(layers) == RemQty(layers)
  {
    forall i | 0 <= i < |layers| ensures layers[i].remQty >= 0 {
      CutMeans(layers, i);
    }
    OpenIsAll(layers);
  }

  lemma {:induction false} OpenIsAll(layers: seq<Layer>)
    requires forall i :: 0 <= i < |layers| ==> layers[i].remQty >= 0
    ensures OpenQty(layers) == RemQty(layers)
  {
    if layers != [] {
      OpenIsAll(layers[..|layers| - 1]);
    }
  }

  lemma {:induction false} ClosedHoldNothing(layers: seq<Layer>)
    requires forall i :: 0 <= i < |layers| ==> Closed(layers[i])
    ensures RemQty(layers) == 0
  {
    if layers != [] {
      ClosedHoldNothing(layers[..|layers| - 1]);
    }
  }

  /** What consumption leaves uncovered is what the layers did not hold. */
  lemma ShortfallIsLeft(p: Costing, qty: int)
    requires Good(p) && qty > 0
    ensures Drawn(p.layers, |p.layers|, qty).left == Shortfall(p, Issue(qty))
  {
    var c: nat :| Cut(p.layers, c);
    var d := Drawn(p.layers, |p.layers|, qty);
    DrawnKeepsShape(p.layers, c, |p.layers|, qty);
    DrawnConserves(p.layers, |p.layers|, qty);
    hide Drawn, OpenQty, Cut;
    if d.left == 0 {
      RemainsAreOpen(d.layers);
    } else {
      ClosedHoldNothing(d.layers);
    }
  }

  lemma ReceiptStep(p: Costing, qty: int, inputCost: int)
    requires Good(p) && qty > 0
    ensures var r := Received(p, qty, inputCost);
            Good(r) && QtyAhead(r) == QtyAhead(p) && ValueAhead(r) == ValueAhead(p)
  {
    hide MulMicros, HasCut;
    var r := Received(p, qty, inputCost);
    var l := r.layers[|p.layers|];
    assert r.layers == p.layers + [l];
    SumsOfAppend(p.layers, l);
    CutOfAppend(p.layers, l);
  }

  lemma IssueStep(p: Costing, qty: int)
    requires Good(p) && qty > 0
    ensures var r, left := Issued(p, qty), Shortfall(p, Issue(qty));
            && Good(r) && left >= 0
            && QtyAhead(r) == QtyAhead(p) + left && ValueAhead(r) == ValueAhead(p) + ShortValue(p, left)
  {
    var c: nat :| Cut(p.layers, c);
    var d := Drawn(p.layers, |p.layers|, qty);
    DrawnKeepsShape(p.layers, c, |p.layers|, qty);
    DrawnConserves(p.layers, |p.layers|, qty);
    ShortfallIsLeft(p, qty);
    hide Drawn, RemQty, RemValue, DivMicros, MulMicros, Shortfall;
    assert HasCut(d.layers) by {
      if d.left > 0 {
        assert Cut(d.layers, |p.layers|);
      }
    }
    hide HasCut, Cut;
    var l := Issued(p, qty).layers[|p.layers|];
    assert Issued(p, qty).layers == d.layers + [l];
    SumsOfAppend(d.layers, l);
    CutOfAppend(d.layers, l);
  }

  lemma RevaluationStep(p: Costing, value: int)
    requires Good(p)
    ensures var r := Revalued(p, value);
            Good(r) && QtyAhead(r) == QtyAhead(p) && ValueAhead(r) == ValueAhead(p) - Orphaned(p, Revaluation(value))
  {
    hide HasCut, Spread, RemQty, RemValue, OpenQty;
    var l := Layer(0, 0, value, 0, 0);
    var layers := p.layers + [l];
    SumsOfAppend(p.layers, l);
    CutOfAppend(p.layers, l);
    RemainsAreOpen(layers);
    SpreadConserves(layers, value);
    SpreadKeepsShape(layers, value);
  }

  lemma Step(p: Costing, e: Event)
    requires Good(p)
    ensures var r := After(p, e);
            && Good(r) && Shortfall(p, e) >= 0
            && QtyAhead(r) == QtyAhead(p) + Shortfall(p, e)
            && ValueAhead(r) == ValueAhead(p) + ShortfallValue(p, e) - Orphaned(p, e)
  {
    hide Good, QtyAhead, ValueAhead, Received, Issued, Revalued, Drawn, OpenQty;
    match e {
      case Receipt(qty, inputCost) => if qty > 0 { ReceiptStep(p, qty, inputCost); }
      case Issue(qty) => if qty > 0 { IssueStep(p, qty); }
      case Revaluation(value) => if value != 0 { RevaluationStep(p, value); }
    }
  }

  /**
   Over any run the layers keep their shape; they hold more than the cached quantity by exactly the total shortfall,
   and more than the cached value by exactly the value of the shortfalls less the revaluations that found no layer.
   */
  lemma {:induction false} FifoRun(p: Costing, events: seq<Event>)
    requires Good(p)
    ensures var r, t := Run(p, events), TotalsOf(p, events);
            && Good(r)
            && QtyAhead(r) == QtyAhead(p) + t.shortQty
            && ValueAhead(r) == ValueAhead(p) + t.shortValue - t.orphaned
            && t.shortQty >= 0 && (t.shortQty == 0 ==> t.shortValue == 0)
  {
    hide Good, QtyAhead, ValueAhead, After, Shortfall, Orphaned, MulMicros;
    if events != [] {
      FifoRun(p, events[..|events| - 1]);
      Step(Run(p, events[..|events| - 1]), events[|events| - 1]);
    }
  }

  lemma {:induction false} NothingRemains(layers: seq<Layer>)
    requires forall i :: 0 <= i < |layers| ==> layers[i].remQty >= 0 && (layers[i].remQty == 0 ==> layers[i].remValue == 0)
    ensures RemQty(layers) >= 0
    ensures RemQty(layers) == 0 ==> RemValue(layers) == 0
  {
    if layers != [] {
      NothingRemains(layers[..|layers| - 1]);
    }
  }

  predicate Fresh(p: Costing)
  {
    p.costMethod.Fifo? && p.layers == [] && p.quantity == 0 && p.value == 0
  }

  /** Every issue is covered by the cached quantity that it finds. */
  predicate AllCovered(p: Costing, events: seq<Event>)
  {
    events == []
    || var before, e := Run(p, events[..|events| - 1]), events[|events| - 1];
       AllCovered(p, events[..|events| - 1]) && (e.Issue? && e.qty > 0 ==> e.qty <= before.quantity)
  }

  /** The value of the revaluations that find no cached quantity. */
  function RevaluedEmpty(p: Costing, events: seq<Event>): int
  {
    if events == [] then 0
    else
      var before, e := Run(p, events[..|events| - 1]), events[|events| - 1];
      RevaluedEmpty(p, events[..|events| - 1]) + if e.Revaluation? && before.quantity <= 0 then e.value else 0
  }

  /** The layers of a new product never run short exactly when every issue is covered by the cached quantity. */
  lemma {:induction false} NeverShortExactly(p: Costing, events: seq<Event>)
    requires Fresh(p)
    ensures TotalsOf(p, events).shortQty == 0 <==> AllCovered(p, events)
    ensures AllCovered(p, events) ==> TotalsOf(p, events).orphaned == RevaluedEmpty(p, events)
  {
    assert Cut(p.layers, 0);
    hide After, Cut, HasCut, RemQty, RemValue;
    if events != [] {
      var init := events[..|events| - 1];
      NeverShortExactly(p, init);
      FifoRun(p, init);
      FreshIsEven(p);
      assert QtyAhead(Run(p, init)) == TotalsOf(p, init).shortQty;
    }
  }

  lemma FreshIsEven(p: Costing)
    requires Fresh(p)
    ensures QtyAhead(p) == 0 && ValueAhead(p) == 0
  {
  }

  /**
   When every issue was covered and the stock is back at zero, the value is exactly what was revalued at zero quantity:
   nothing at all if and only if those revaluations cancel out.
   */
  lemma EmptyStockIsWorthless(p: Costing, events: seq<Event>)
    requires Fresh(p) && AllCovered(p, events) && Run(p, events).quantity == 0
    ensures Run(p, events).value == RevaluedEmpty(p, events)
  {
    assert Cut(p.layers, 0);
    FifoRun(p, events);
    NeverShortExactly(p, events);
    var r := Run(p, events);
    hide Run, TotalsOf, HasCut, AllCovered, RevaluedEmpty;
    forall i | 0 <= i < |r.layers|
      ensures r.layers[i].remQty >= 0 && (r.layers[i].remQty == 0 ==> r.layers[i].remValue == 0)
    {
      CutMeans(r.layers, i);
    }
    NothingRemains(r.layers);
  }
}
