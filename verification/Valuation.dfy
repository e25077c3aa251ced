/**
 Inventory valuation of one product: its cost layers, its cached quantity and value, and the three ways in which
 the cost of an issue is determined.
 */
module Valuation {
  import opened Integers
  import opened Rounding

  const MICROS: int := 1000000

  datatype CostMethod = Standard | Average | Fifo

  /** A row of the valuation ledger; issues have a negative quantity and revaluations none. */
  datatype Layer = Layer(quantity: int, unitCost: int, value: int, remQty: int, remValue: int)

  /** A product's costing data, and its layers in the order of their ids. */
  datatype Costing = Costing(costMethod: CostMethod, standardPrice: int, quantity: int, value: int, layers: seq<Layer>)

  function MulMicros(qty: int, cost: int): int
  {
    TruncDiv(qty * cost, MICROS)
  }

  function DivMicros(value: int, qty: int): int
  {
    if qty == 0 then 0 else TruncDiv(value * MICROS, qty)
  }

  // ----- receipts

  function Received(p: Costing, qty: int, inputCost: int): Costing
  {
    var unitCost := if inputCost >= 0 then inputCost else p.standardPrice;
    var layerValue := MulMicros(qty, unitCost);
    var quantity, value := p.quantity + qty, p.value + layerValue;
    var layer := if p.costMethod.Fifo? then Layer(qty, unitCost, layerValue, qty, layerValue)
                 else Layer(qty, unitCost, layerValue, 0, 0);
    var price := if p.costMethod.Average? && quantity > 0 then DivMicros(value, quantity) else p.standardPrice;
    p.(standardPrice := price, quantity := quantity, value := value, layers := p.layers + [layer])
  }

  // ----- issues

  /** The layers after consumption, the value taken out of them, and the quantity that is still to be consumed. */
  datatype Draw = Draw(layers: seq<Layer>, value: int, left: int)

  /** Consume qty from the first k layers, the oldest first. */
  function Drawn(layers: seq<Layer>, k: nat, qty: int): (d: Draw)
    requires k <= |layers|
    ensures |d.layers| == |layers|
    ensures forall i :: k <= i < |layers| ==> d.layers[i] == layers[i]
  {
    if k == 0 then Draw(layers, 0, qty)
    else
      var d := Drawn(layers, k - 1, qty);
      if d.left <= 0 || layers[k - 1].remQty <= 0 then d
      else
        var l := layers[k - 1];
        var take := Min(l.remQty, d.left);
        var portion := TruncDiv(l.remValue * take, l.remQty);
        Draw(d.layers[k - 1 := l.(remQty := l.remQty - take, remValue := l.remValue - portion)],
             d.value + portion, d.left - take)
  }

  /** What the layers do not cover is issued at the standard price. */
  function ShortValue(p: Costing, left: int): int
  {
    if left > 0 then MulMicros(left, p.standardPrice) else 0
  }

  function Issued(p: Costing, qty: int): Costing
    requires qty != 0
  {
    var d := if p.costMethod.Fifo? then Drawn(p.layers, |p.layers|, qty) else Draw(p.layers, 0, 0);
    var outValue := if p.costMethod.Fifo? then d.value + ShortValue(p, d.left) else MulMicros(qty, p.standardPrice);
    p.(quantity := p.quantity - qty, value := p.value - outValue,
       layers := d.layers + [Layer(-qty, DivMicros(outValue, qty), -outValue, 0, 0)])
  }

  // ----- revaluations

  function RemQty(layers: seq<Layer>): int
  {
    if layers == [] then 0 else RemQty(layers[..|layers| - 1]) + layers[|layers| - 1].remQty
  }

  function RemValue(layers: seq<Layer>): int
  {
    if layers == [] then 0 else RemValue(layers[..|layers| - 1]) + layers[|layers| - 1].remValue
  }

  /** The sum of remaining_qty over the layers that have some. */
  function OpenQty(layers: seq<Layer>): nat
  {
    if layers == [] then 0
    else OpenQty(layers[..|layers| - 1]) + (if layers[|layers| - 1].remQty > 0 then layers[|layers| - 1].remQty else 0)
  }

  /** The truncated shares of value for the open ones of the first k layers, by layer. */
  function Shares(layers: seq<Layer>, k: nat, value: int, total: int): (adds: seq<(int, int)>)
    requires k <= |layers| && total > 0
    ensures forall j :: 0 <= j < |adds| ==> 0 <= adds[j].0 < k && layers[adds[j].0].remQty > 0
  {
    if k == 0 then []
    else
      var adds := Shares(layers, k - 1, value, total);
      if layers[k - 1].remQty <= 0 then adds
      else adds + [(k - 1, TruncDiv(value * layers[k - 1].remQty, total))]
  }

  function SumOf(adds: seq<(int, int)>): int
  {
    if adds == [] then 0 else SumOf(adds[..|adds| - 1]) + adds[|adds| - 1].1
  }

  /** The last share takes what truncation left over. */
  function WithRemainder(adds: seq<(int, int)>, value: int): (r: seq<(int, int)>)
    ensures |r| == |adds| && forall j :: 0 <= j < |adds| ==> r[j].0 == adds[j].0
  {
    if adds == [] then adds
    else
      var n := |adds| - 1;
      adds[n := (adds[n].0, adds[n].1 + (value - SumOf(adds)))]
  }

  /** The first k additions made to the remaining values. */
  function Added(layers: seq<Layer>, adds: seq<(int, int)>, k: nat): (r: seq<Layer>)
    requires k <= |adds| && forall j :: 0 <= j < |adds| ==> 0 <= adds[j].0 < |layers|
    ensures |r| == |layers|
  {
    if k == 0 then layers
    else
      var r := Added(layers, adds, k - 1);
      var i := adds[k - 1].0;
      r[i := r[i].(remValue := r[i].remValue + adds[k - 1].1)]
  }

  function Spread(layers: seq<Layer>, value: int): (r: seq<Layer>)
    ensures |r| == |layers|
  {
    if OpenQty(layers) == 0 then layers
    else
      var adds := WithRemainder(Shares(layers, |layers|, value, OpenQty(layers)), value);
      Added(layers, adds, |adds|)
  }

  function Revalued(p: Costing, value: int): Costing
  {
    var newValue := p.value + value;
    var price := if p.costMethod.Average? && p.quantity > 0 then DivMicros(newValue, p.quantity) else p.standardPrice;
    var layers := p.layers + [Layer(0, 0, value, 0, 0)];
    p.(standardPrice := price, value := newValue, layers := if p.costMethod.Fifo? then Spread(layers, value) else layers)
  }

  // ----- the loops

  method ConsumeLayers(layers: seq<Layer>, qty: int) returns (d: Draw)
    ensures d == Drawn(layers, |layers|, qty)
  {
    var rows := layers;
    var toConsume, outValue := qty, 0;
    for i := 0 to |layers|
      invariant |rows| == |layers|
      invariant Draw(rows, outValue, toConsume) == Drawn(layers, i, qty)
    {
      if toConsume > 0 && rows[i].remQty > 0 {
        var lq, lv := rows[i].remQty, rows[i].remValue;
        var take := Min(lq, toConsume);
        var portion := TruncDiv(lv * take, lq);
        outValue := outValue + portion;
        rows := rows[i := rows[i].(remQty := lq - take, remValue := lv - portion)];
        toConsume := toConsume - take;
      }
    }
    d := Draw(rows, outValue, toConsume);
  }

  method SpreadValue(layers: seq<Layer>, value: int) returns (r: seq<Layer>)
    ensures r == Spread(layers, value)
  {
    r := layers;
    var total := OpenQty(layers);
    if total > 0 {
      var adds, distributed := CollectShares(layers, value, total);
      if adds != [] {
        var n := |adds| - 1;
        adds := adds[n := (adds[n].0, adds[n].1 + (value - distributed))];
      }
      r := AddShares(layers, adds);
    }
  }

  method CollectShares(layers: seq<Layer>, value: int, total: int) returns (adds: seq<(int, int)>, distributed: int)
    requires total > 0
    ensures adds == Shares(layers, |layers|, value, total) && distributed == SumOf(adds)
  {
    hide TruncDiv;
    adds, distributed := [], 0;
    for i := 0 to |layers|
      invariant adds == Shares(layers, i, value, total) && distributed == SumOf(adds)
    {
      if layers[i].remQty > 0 {
        var share := TruncDiv(value * layers[i].remQty, total);
        adds := adds + [(i, share)];
        assert adds[..|adds| - 1] == Shares(layers, i, value, total);
        distributed := distributed + share;
      }
    }
  }

  method AddShares(layers: seq<Layer>, adds: seq<(int, int)>) returns (r: seq<Layer>)
    requires forall j :: 0 <= j < |adds| ==> 0 <= adds[j].0 < |layers|
    ensures r == Added(layers, adds, |adds|)
  {
    r := layers;
    for k := 0 to |adds|
      invariant r == Added(layers, adds, k)
    {
      var i := adds[k].0;
      r := r[i := r[i].(remValue := r[i].remValue + adds[k].1)];
    }
  }

  // ----- runs

  datatype Event = Receipt(qty: int, inputCost: int) | Issue(qty: int) | Revaluation(value: int)

  /** Nothing is valued when nothing moves, and a revaluation by nothing is ignored. */
  function After(p: Costing, e: Event): Costing
  {
    match e
    case Receipt(qty, inputCost) => if qty <= 0 then p else Received(p, qty, inputCost)
    case Issue(qty) => if qty <= 0 then p else Issued(p, qty)
    case Revaluation(value) => if value == 0 then p else Revalued(p, value)
  }

  function Run(p: Costing, events: seq<Event>): Costing
  {
    if events == [] then p else After(Run(p, events[..|events| - 1]), events[|events| - 1])
  }

  // ----- sums

  lemma {:induction false} SumsOfUpdate(layers: seq<Layer>, i: nat, l: Layer)
    requires i < |layers|
    ensures RemQty(layers[i := l]) == RemQty(layers) - layers[i].remQty + l.remQty
    ensures RemValue(layers[i := l]) == RemValue(layers) - layers[i].remValue + l.remValue
  {
    var n := |layers| - 1;
    var init, updated := layers[..n], layers[i := l];
    if i == n {
      assert updated[..n] == init;
    } else {
      SumsOfUpdate(init, i, l);
      assert updated[..n] == init[i := l];
    }
  }

  lemma SumsOfAppend(layers: seq<Layer>, l: Layer)
    ensures RemQty(layers + [l]) == RemQty(layers) + l.remQty
    ensures RemValue(layers + [l]) == RemValue(layers) + l.remValue
    ensures OpenQty(layers + [l]) == OpenQty(layers) + if l.remQty > 0 then l.remQty else 0
  {
    assert (layers + [l])[..|layers|] == layers;
  }

  /** The ledger: signed quantities and values of all layers. */
  function LedgerQty(layers: seq<Layer>): int
  {
    if layers == [] then 0 else LedgerQty(layers[..|layers| - 1]) + layers[|layers| - 1].quantity
  }

  function LedgerValue(layers: seq<Layer>): int
  {
    if layers == [] then 0 else LedgerValue(layers[..|layers| - 1]) + layers[|layers| - 1].value
  }

  /** Only what remains of a layer may change. */
  predicate SameLedger(a: seq<Layer>, b: seq<Layer>)
  {
    && |a| == |b|
    && forall i :: 0 <= i < |a| ==>
         a[i].quantity == b[i].quantity && a[i].value == b[i].value && a[i].unitCost == b[i].unitCost
  }

  lemma {:induction false} SameLedgerSums(a: seq<Layer>, b: seq<Layer>)
    requires SameLedger(a, b)
    ensures LedgerQty(a) == LedgerQty(b) && LedgerValue(a) == LedgerValue(b)
  {
    if a != [] {
      SameLedgerSums(a[..|a| - 1], b[..|b| - 1]);
    }
  }

  lemma {:induction false} DrawnKeepsLedger(layers: seq<Layer>, k: nat, qty: int)
    requires k <= |layers|
    ensures SameLedger(layers, Drawn(layers, k, qty).layers)
  {
    if k > 0 {
      DrawnKeepsLedger(layers, k - 1, qty);
    }
  }

  lemma {:induction false} AddedKeepsLedger(layers: seq<Layer>, adds: seq<(int, int)>, k: nat)
    requires k <= |adds| && forall j :: 0 <= j < |adds| ==> 0 <= adds[j].0 < |layers|
    ensures SameLedger(layers, Added(layers, adds, k))
  {
    if k > 0 {
      AddedKeepsLedger(layers, adds, k - 1);
    }
  }

  lemma SpreadKeepsLedger(layers: seq<Layer>, value: int)
    ensures SameLedger(layers, Spread(layers, value))
  {
    if OpenQty(layers) != 0 {
      var adds := WithRemainder(Shares(layers, |layers|, value, OpenQty(layers)), value);
      AddedKeepsLedger(layers, adds, |adds|);
    }
  }

  lemma LedgerOfAppend(layers: seq<Layer>, l: Layer)
    ensures LedgerQty(layers + [l]) == LedgerQty(layers) + l.quantity
    ensures LedgerValue(layers + [l]) == LedgerValue(layers) + l.value
  {
    assert (layers + [l])[..|layers|] == layers;
  }

  lemma AfterKeepsLedger(p: Costing, e: Event)
    ensures var r := After(p, e);
            && r.quantity - LedgerQty(r.layers) == p.quantity - LedgerQty(p.layers)
            && r.value - LedgerValue(r.layers) == p.value - LedgerValue(p.layers)
            && r.costMethod == p.costMethod
  {
    hide MulMicros, DivMicros, Spread, Drawn, SameLedger, LedgerQty, LedgerValue;
    var r := After(p, e);
    match e {
      case Receipt(qty, inputCost) =>
        if qty > 0 {
          LedgerOfAppend(p.layers, r.layers[|p.layers|]);
        }
      case Issue(qty) =>
        if qty > 0 {
          DrawnKeepsLedger(p.layers, |p.layers|, qty);
          var drawn := if p.costMethod.Fifo? then Drawn(p.layers, |p.layers|, qty).layers else p.layers;
          var last := r.layers[|r.layers| - 1];
          assert r.layers == drawn + [last];
          LedgerOfAppend(drawn, last);
          SameLedgerSums(p.layers, if p.costMethod.Fifo? then drawn else p.layers) by { SameLedgerItself(p.layers); }
        }
      case Revaluation(value) =>
        if value != 0 {
          var all := p.layers + [Layer(0, 0, value, 0, 0)];
          LedgerOfAppend(p.layers, Layer(0, 0, value, 0, 0));
          SpreadKeepsLedger(all, value);
          SameLedgerSums(all, Spread(all, value));
        }
    }
  }

  lemma SameLedgerItself(layers: seq<Layer>)
    ensures SameLedger(layers, layers)
  {
  }

  /** The cached quantity and value keep pace with the ledger, whatever the cost method. */
  lemma {:induction false} CachesFollowLedger(p: Costing, events: seq<Event>)
    requires p.quantity == LedgerQty(p.layers) && p.value == LedgerValue(p.layers)
    ensures var r := Run(p, events);
            r.quantity == LedgerQty(r.layers) && r.value == LedgerValue(r.layers) && r.costMethod == p.costMethod
  {
    hide After, LedgerQty, LedgerValue;
    if events != [] {
      CachesFollowLedger(p, events[..|events| - 1]);
      AfterKeepsLedger(Run(p, events[..|events| - 1]), events[|events| - 1]);
    }
  }

  /** The layer of an issue records its quantity and value with their signs, and its unit cost to within a unit. */
  lemma IssueLayer(p: Costing, qty: int)
    requires qty > 0
    ensures var r := Issued(p, qty);
            && |r.layers| == |p.layers| + 1
            && var l := r.layers[|p.layers|];
               && l.quantity == -qty && l.value == r.value - p.value && l.remQty == 0 && l.remValue == 0
               && Abs(l.unitCost * qty + l.value * MICROS) < qty
  {
    var r := Issued(p, qty);
    var l := r.layers[|p.layers|];
    hide Drawn, MulMicros;
    TruncDivFacts(-l.value * MICROS, qty);
    assert l.unitCost == TruncDiv(-l.value * MICROS, qty);
    hide TruncDiv;
  }
}
