/** What receipts, issues and revaluations are worth, and what stock is worth over a run of them. */
module CostFlows {
  import opened Integers
  import opened Rounding
  import opened Valuation
  import FifoCosting

  /** The cost of a unit received: the one named, or else the standard price. */
  function CostOf(inputCost: int, standardPrice: int): int
  {
    if inputCost >= 0 then inputCost else standardPrice
  }

  /** A receipt is worth its quantity at its cost, rounded to a micro towards zero, by every cost method. */
  lemma ReceiptWorth(p: Costing, qty: int, inputCost: int)
    requires qty > 0
    ensures var r, cost := After(p, Receipt(qty, inputCost)), CostOf(inputCost, p.standardPrice);
            var gain := r.value - p.value;
            && Abs(qty * cost - gain * MICROS) < MICROS && (cost >= 0 ==> gain * MICROS <= qty * cost)
            && r.quantity == p.quantity + qty && r.costMethod == p.costMethod
            && r.layers == p.layers + [if p.costMethod.Fifo? then Layer(qty, cost, gain, qty, gain)
                                       else Layer(qty, cost, gain, 0, 0)]
  {
    var cost := CostOf(inputCost, p.standardPrice);
    TruncDivFacts(qty * cost, MICROS);
    if cost >= 0 {
      NonNegative(qty, cost);
    }
    hide TruncDiv, DivMicros;
  }

  /** Only an average price follows a receipt: to the value by the quantity, rounded to a unit. */
  lemma ReceiptPrice(p: Costing, qty: int, inputCost: int)
    requires qty > 0
    ensures var r := After(p, Receipt(qty, inputCost));
            if p.costMethod.Average? && r.quantity > 0 then Abs(r.value * MICROS - r.standardPrice * r.quantity) < r.quantity
            else r.standardPrice == p.standardPrice
  {
    var r := After(p, Receipt(qty, inputCost));
    hide MulMicros;
    if p.costMethod.Average? && r.quantity > 0 {
      TruncDivFacts(r.value * MICROS, r.quantity);
      assert r.standardPrice == TruncDiv(r.value * MICROS, r.quantity);
      hide TruncDiv;
    }
  }

  /** An issue of a standard or average product is worth its quantity at the price, and changes no price. */
  lemma IssueWorth(p: Costing, qty: int)
    requires qty > 0 && !p.costMethod.Fifo?
    ensures var r := After(p, Issue(qty));
            && Abs(qty * p.standardPrice - (p.value - r.value) * MICROS) < MICROS
            && r.quantity == p.quantity - qty && r.standardPrice == p.standardPrice && r.costMethod == p.costMethod
  {
    TruncDivFacts(qty * p.standardPrice, MICROS);
    hide TruncDiv, DivMicros;
  }

  /** What an issue finds in the layers of a first-in, first-out product, and what it does not. */
  function Uncovered(p: Costing, qty: int): int
  {
    if qty > RemQty(p.layers) then qty - RemQty(p.layers) else 0
  }

  /** What such an issue costs: the value it takes out of the layers, and the standard price for the units beyond them. */
  function FifoCost(p: Costing, qty: int): int
  {
    (RemValue(p.layers) - RemValue(After(p, Issue(qty)).layers)) * MICROS + Uncovered(p, qty) * p.standardPrice
  }

  lemma FifoIssueWorth(p: Costing, qty: int)
    requires qty > 0 && FifoCosting.Good(p)
    ensures var r := After(p, Issue(qty));
            && Abs(FifoCost(p, qty) - (p.value - r.value) * MICROS) < MICROS
            && r.quantity == p.quantity - qty && RemQty(r.layers) == RemQty(p.layers) - (qty - Uncovered(p, qty))
            && r.standardPrice == p.standardPrice && FifoCosting.Good(r)
  {
    var r, left := After(p, Issue(qty)), FifoCosting.Shortfall(p, Issue(qty));
    FifoCosting.IssueStep(p, qty);
    TruncDivFacts(left * p.standardPrice, MICROS);
    assert left > 0 ==> ShortValue(p, left) == TruncDiv(left * p.standardPrice, MICROS);
    hide TruncDiv, DivMicros, Drawn, RemQty, RemValue, FifoCosting.HasCut;
  }

  // ----- where a revaluation lands

  predicate Ascending(adds: seq<(int, int)>)
  {
    forall a, b :: 0 <= a < b < |adds| ==> adds[a].0 < adds[b].0
  }

  predicate Open(l: Layer)
  {
    l.remQty > 0
  }

  lemma {:induction false} SharesAscend(layers: seq<Layer>, k: nat, value: int, total: int)
    requires k <= |layers| && total > 0
    ensures Ascending(Shares(layers, k, value, total))
  {
    hide TruncDiv;
    if k > 0 {
      SharesAscend(layers, k - 1, value, total);
    }
  }

  /** The place of an open layer's share: the last one only if no open layer follows. */
  lemma {:induction false} ShareOf(layers: seq<Layer>, k: nat, value: int, total: int, i: nat) returns (m: nat)
    requires i < k <= |layers| && total > 0 && Open(layers[i])
    ensures var adds := Shares(layers, k, value, total);
            && m < |adds| && adds[m] == (i, TruncDiv(value * layers[i].remQty, total))
            && (forall j :: i < j < k && Open(layers[j]) ==> m < |adds| - 1)
  {
    hide TruncDiv;
    if i == k - 1 {
      m := |Shares(layers, k, value, total)| - 1;
    } else {
      m := ShareOf(layers, k - 1, value, total, i);
    }
  }

  lemma {:induction false} AddedElsewhere(layers: seq<Layer>, adds: seq<(int, int)>, k: nat, i: nat)
    requires k <= |adds| && i < |layers| && forall j :: 0 <= j < |adds| ==> 0 <= adds[j].0 < |layers|
    requires forall a :: 0 <= a < k ==> adds[a].0 != i
    ensures Added(layers, adds, k)[i] == layers[i]
  {
    if k > 0 {
      AddedElsewhere(layers, adds, k - 1, i);
    }
  }

  lemma {:induction false} AddedAt(layers: seq<Layer>, adds: seq<(int, int)>, k: nat, m: nat)
    requires m < k <= |adds| && Ascending(adds) && forall j :: 0 <= j < |adds| ==> 0 <= adds[j].0 < |layers|
    ensures Added(layers, adds, k)[adds[m].0].remValue == layers[adds[m].0].remValue + adds[m].1
  {
    if m == k - 1 {
      AddedElsewhere(layers, adds, m, adds[m].0);
    } else {
      AddedAt(layers, adds, k - 1, m);
      assert adds[m].0 < adds[k - 1].0;
    }
  }

  /** Of a revaluation every open layer but the last gets its share by remaining quantity, to within a micro. */
  lemma SpreadShare(layers: seq<Layer>, value: int, i: nat, j: nat)
    requires i < j < |layers| && Open(layers[i]) && Open(layers[j]) && OpenQty(layers) > 0
    ensures FifoCosting.NearShare(layers[i], Spread(layers, value)[i].remValue - layers[i].remValue, value, OpenQty(layers))
  {
    hide Shares, WithRemainder, Added, OpenQty, TruncDiv, FifoCosting.NearShare;
    var total := OpenQty(layers);
    var shares := Shares(layers, |layers|, value, total);
    var adds := WithRemainder(shares, value);
    var m := ShareOf(layers, |layers|, value, total, i);
    SharesAscend(layers, |layers|, value, total);
    RemainderIsLast(shares, value, m);
    AddedAt(layers, adds, |adds|, m);
    FifoCosting.ShareIsNear(layers[i], value, total);
  }

  lemma RemainderIsLast(adds: seq<(int, int)>, value: int, m: nat)
    requires m < |adds| - 1 && Ascending(adds)
    ensures WithRemainder(adds, value)[m] == adds[m] && Ascending(WithRemainder(adds, value))
  {
  }

  lemma {:induction false} SomeOpen(layers: seq<Layer>, i: nat)
    requires i < |layers| && Open(layers[i])
    ensures OpenQty(layers) > 0
  {
    if i < |layers| - 1 {
      SomeOpen(layers[..|layers| - 1], i);
    }
  }

  /** Every layer after a revaluation, which records itself as a layer without quantity. */
  lemma RevaluationLayers(p: Costing, value: int, i: nat)
    requires value != 0 && i < |p.layers|
    ensures var r := After(p, Revaluation(value));
            && |r.layers| == |p.layers| + 1 && r.layers[|p.layers|] == Layer(0, 0, value, 0, 0)
            && r.layers[i].(remValue := p.layers[i].remValue) == p.layers[i]
            && (!p.costMethod.Fifo? || !Open(p.layers[i]) ==> r.layers[i] == p.layers[i])
            && (p.costMethod.Fifo? ==> forall j :: i < j < |p.layers| && Open(p.layers[i]) && Open(p.layers[j]) ==>
                  OpenQty(p.layers) > 0
                  && FifoCosting.NearShare(p.layers[i], r.layers[i].remValue - p.layers[i].remValue, value, OpenQty(p.layers)))
  {
    var l := Layer(0, 0, value, 0, 0);
    var layers := p.layers + [l];
    SumsOfAppend(p.layers, l);
    FifoCosting.SpreadChangesValues(layers, value);
    hide Spread, DivMicros, FifoCosting.NearShare, OpenQty;
    assert layers[i] == p.layers[i] && layers[|p.layers|] == l;
    if p.costMethod.Fifo? {
      forall j | i < j < |p.layers| && Open(p.layers[i]) && Open(p.layers[j])
        ensures OpenQty(p.layers) > 0
        ensures FifoCosting.NearShare(layers[i], Spread(layers, value)[i].remValue - layers[i].remValue, value, OpenQty(p.layers))
      {
        SomeOpen(p.layers, i);
        SpreadShare(layers, value, i, j);
      }
    }
  }

  // ----- the value over a run

  /** What was received at cost, issued at its cost, and revalued; and how many moves were valued. */
  datatype Flow = Flow(received: int, issued: int, revalued: int, moves: nat)

  function FlowOf(p: Costing, events: seq<Event>): Flow
  {
    if events == [] then Flow(0, 0, 0, 0)
    else
      var f, before := FlowOf(p, events[..|events| - 1]), Run(p, events[..|events| - 1]);
      match events[|events| - 1]
      case Receipt(qty, cost) =>
        if qty <= 0 then f
        else f.(received := f.received + qty * CostOf(cost, before.standardPrice), moves := f.moves + 1)
      case Issue(qty) =>
        if qty <= 0 then f
        else f.(issued := f.issued + if p.costMethod.Fifo? then FifoCost(before, qty) else qty * before.standardPrice,
                moves := f.moves + 1)
      case Revaluation(value) => f.(revalued := f.revalued + value)
  }

  /** How far a change of value is from what a flow accounts for, in millionths of a micro. */
  function Drift(change: int, f: Flow): int
  {
    change * MICROS - (f.received - f.issued + f.revalued * MICROS)
  }

  ghost predicate Sound(p: Costing)
  {
    p.costMethod.Fifo? ==> FifoCosting.Good(p)
  }

  lemma RevaluationWorth(p: Costing, value: int)
    ensures var r := After(p, Revaluation(value));
            r.value == p.value + value && r.quantity == p.quantity && r.costMethod == p.costMethod
  {
  }

  /**
   By every cost method the value is what was received at cost, less what was issued at its cost, plus what was revalued,
   to within a micro a move.
   */
  lemma {:induction false} ValueIsFlow(p: Costing, events: seq<Event>)
    requires Sound(p)
    ensures var r, f := Run(p, events), FlowOf(p, events);
            && r.costMethod == p.costMethod && Sound(r)
            && Abs(Drift(r.value - p.value, f)) <= f.moves * MICROS
  {
    hide After, FifoCost, FifoCosting.Good;
    if events != [] {
      var init, e := events[..|events| - 1], events[|events| - 1];
      ValueIsFlow(p, init);
      var before := Run(p, init);
      hide Run, CostOf;
      SoundStep(before, e);
      match e {
        case Receipt(qty, cost) => if qty > 0 { ReceiptWorth(before, qty, cost); } else { NothingMoves(before, e); }
        case Issue(qty) =>
          if qty <= 0 {
            NothingMoves(before, e);
          } else if p.costMethod.Fifo? {
            FifoIssueWorth(before, qty);
          } else {
            IssueWorth(before, qty);
          }
        case Revaluation(value) => RevaluationWorth(before, value);
      }
    }
  }

  lemma SoundStep(p: Costing, e: Event)
    requires Sound(p)
    ensures Sound(After(p, e)) && After(p, e).costMethod == p.costMethod
  {
    AfterKeepsLedger(p, e);
    hide FifoCosting.Good, After;
    if p.costMethod.Fifo? {
      FifoCosting.Step(p, e);
    }
  }

  lemma NothingMoves(p: Costing, e: Event)
    requires !e.Revaluation? && e.qty <= 0
    ensures After(p, e) == p
  {
  }

  // ----- first-in, first-out stock is worth what the newest units cost

  /** What remains at its unit cost. */
  function AtCost(layers: seq<Layer>): int
  {
    if layers == [] then 0
    else AtCost(layers[..|layers| - 1]) + layers[|layers| - 1].remQty * layers[|layers| - 1].unitCost
  }

  /** How far the remaining value of a layer is from its cost, in millionths of a micro. */
  function LayerError(l: Layer): nat
  {
    Abs(l.remValue * MICROS - l.remQty * l.unitCost)
  }

  function Error(layers: seq<Layer>): nat
  {
    if layers == [] then 0 else Error(layers[..|layers| - 1]) + LayerError(layers[|layers| - 1])
  }

  lemma {:induction false} ErrorBounds(layers: seq<Layer>)
    ensures Abs(RemValue(layers) * MICROS - AtCost(layers)) <= Error(layers)
  {
    if layers != [] {
      ErrorBounds(layers[..|layers| - 1]);
    }
  }

  lemma {:induction false} ErrorOfUpdate(layers: seq<Layer>, i: nat, l: Layer)
    requires i < |layers|
    ensures Error(layers[i := l]) == Error(layers) - LayerError(layers[i]) + LayerError(l)
  {
    hide LayerError;
    var n := |layers| - 1;
    var init, updated := layers[..n], layers[i := l];
    if i == n {
      assert updated[..n] == init;
    } else {
      ErrorOfUpdate(init, i, l);
      assert updated[..n] == init[i := l];
    }
  }

  lemma ErrorOfAppend(layers: seq<Layer>, l: Layer)
    ensures Error(layers + [l]) == Error(layers) + LayerError(l)
  {
    assert (layers + [l])[..|layers|] == layers;
  }

  /** Taking units out of a layer at its rate adds less than a micro to its error. */
  lemma TakenError(l: Layer, take: int, portion: int)
    requires 0 < take <= l.remQty && Abs(l.remValue * take - portion * l.remQty) < l.remQty
    ensures LayerError(l.(remQty := l.remQty - take, remValue := l.remValue - portion)) < LayerError(l) + MICROS
  {
    var lq, lv, u := l.remQty, l.remValue, l.unitCost;
    var rem := lq - take;
    var delta := lv * take - portion * lq;
    var e, f := lv * MICROS - lq * u, (lv - portion) * MICROS - rem * u;
    Scaling(lq, lv, u, take, portion);
    assert f * lq == rem * e + delta * MICROS;
    SmallerError(f, e, lq, rem, delta);
  }

  lemma Scaling(lq: int, lv: int, u: int, take: int, portion: int)
    ensures ((lv - portion) * MICROS - (lq - take) * u) * lq
         == (lq - take) * (lv * MICROS - lq * u) + (lv * take - portion * lq) * MICROS
  {
  }

  lemma SmallerError(f: int, e: int, lq: int, rem: int, delta: int)
    requires lq > 0 && 0 <= rem <= lq && Abs(delta) < lq && f * lq == rem * e + delta * MICROS
    ensures Abs(f) < Abs(e) + MICROS
  {
    MulMono(rem, lq, Abs(e));
    AbsOfProduct(rem, e);
    AbsOfProduct(lq, f);
    SumIsSmaller(lq * f, rem * e, lq * Abs(e), lq, delta);
    NotLarger(Abs(f), Abs(e), lq);
  }

  lemma SumIsSmaller(fl: int, p: int, el: int, lq: int, delta: int)
    requires fl == p + delta * MICROS && Abs(p) <= el && Abs(delta) < lq
    ensures Abs(fl) < el + lq * MICROS
  {
  }

  lemma NotLarger(f: nat, e: nat, lq: int)
    requires lq > 0 && lq * f < lq * e + lq * MICROS
    ensures f < e + MICROS
  {
    if f >= e + MICROS {
      NonNegative(lq, f - e - MICROS);
    }
  }

  lemma AbsOfProduct(a: nat, b: int)
    ensures Abs(a * b) == a * Abs(b)
  {
    MulSign(b, a);
    NonNegative(a, Abs(b));
  }

  lemma EmptiedError(l: Layer)
    ensures LayerError(l.(remQty := 0, remValue := 0)) == 0
  {
  }

  /** At most one layer is taken from in part, so an issue adds less than a micro to the error. */
  lemma {:induction false} DrawnError(layers: seq<Layer>, k: nat, qty: int)
    requires k <= |layers| && qty > 0
    ensures var d := Drawn(layers, k, qty);
            d.left >= 0 && Error(d.layers) <= Error(layers) + if d.left == 0 then MICROS else 0
  {
    hide TruncDiv, LayerError, Error;
    if k > 0 {
      DrawnError(layers, k - 1, qty);
      var d, l := Drawn(layers, k - 1, qty), layers[k - 1];
      if d.left > 0 && l.remQty > 0 {
        var take := Min(l.remQty, d.left);
        var portion := TruncDiv(l.remValue * take, l.remQty);
        TruncDivFacts(l.remValue * take, l.remQty);
        TakenError(l, take, portion);
        FifoCosting.FullPortion(l.remValue, l.remQty);
        EmptiedError(l);
        ErrorOfUpdate(d.layers, k - 1, l.(remQty := l.remQty - take, remValue := l.remValue - portion));
      }
    }
  }

  lemma ReceivedError(p: Costing, qty: int, inputCost: int)
    requires qty > 0 && p.costMethod.Fifo?
    ensures Error(After(p, Receipt(qty, inputCost)).layers) <= Error(p.layers) + MICROS
  {
    ReceiptWorth(p, qty, inputCost);
    hide After, CostOf, Error;
    var l := After(p, Receipt(qty, inputCost)).layers[|p.layers|];
    ErrorOfAppend(p.layers, l);
  }

  lemma IssuedError(p: Costing, qty: int)
    requires qty > 0 && p.costMethod.Fifo?
    ensures Error(After(p, Issue(qty)).layers) <= Error(p.layers) + MICROS
  {
    DrawnError(p.layers, |p.layers|, qty);
    hide Drawn, Error, MulMicros, DivMicros;
    var d, r := Drawn(p.layers, |p.layers|, qty), After(p, Issue(qty));
    var l := r.layers[|p.layers|];
    assert r.layers == d.layers + [l];
    ErrorOfAppend(d.layers, l);
  }

  // ----- which units those are

  /** The cost of the q units received last. */
  function NewestCost(standardPrice: int, events: seq<Event>, q: int): int
  {
    if events == [] || q <= 0 then 0
    else
      var init := events[..|events| - 1];
      match events[|events| - 1]
      case Receipt(qty, cost) =>
        if qty <= 0 then NewestCost(standardPrice, init, q)
        else Min(qty, q) * CostOf(cost, standardPrice) + NewestCost(standardPrice, init, q - Min(qty, q))
      case _ => NewestCost(standardPrice, init, q)
  }

  /** The same from the layers. */
  function NewestOfLayers(layers: seq<Layer>, q: int): int
  {
    if layers == [] || q <= 0 then 0
    else
      var init, l := layers[..|layers| - 1], layers[|layers| - 1];
      if l.quantity <= 0 then NewestOfLayers(init, q)
      else Min(l.quantity, q) * l.unitCost + NewestOfLayers(init, q - Min(l.quantity, q))
  }

  lemma {:induction false} NewestOfSame(a: seq<Layer>, b: seq<Layer>, q: int)
    requires SameLedger(a, b)
    ensures NewestOfLayers(a, q) == NewestOfLayers(b, q)
  {
    if a != [] && q > 0 {
      var l := a[|a| - 1];
      NewestOfSame(a[..|a| - 1], b[..|b| - 1], if l.quantity <= 0 then q else q - Min(l.quantity, q));
    }
  }

  lemma NewestOfAppend(layers: seq<Layer>, l: Layer, q: int)
    requires l.quantity <= 0
    ensures NewestOfLayers(layers + [l], q) == NewestOfLayers(layers, q)
  {
    assert (layers + [l])[..|layers|] == layers;
  }

  /** The layers of a run name the units received in it, in their order. */
  lemma {:induction false} LayersAreReceipts(p: Costing, events: seq<Event>, q: int)
    requires p.costMethod.Fifo? && p.layers == []
    ensures var r := Run(p, events);
            && r.costMethod.Fifo? && r.standardPrice == p.standardPrice
            && NewestOfLayers(r.layers, q) == NewestCost(p.standardPrice, events, q)
    decreases |events|
  {
    hide After, NewestOfLayers;
    if events != [] {
      var init, e := events[..|events| - 1], events[|events| - 1];
      var before := Run(p, init);
      LayersAreReceipts(p, init, q);
      NewestAfter(before, e, q);
      if e.Receipt? && e.qty > 0 && q > 0 {
        LayersAreReceipts(p, init, q - Min(e.qty, q));
      }
    }
    NoLayers(q);
  }

  lemma NoLayers(q: int)
    ensures NewestOfLayers([], q) == 0
    ensures forall layers: seq<Layer>, k: int :: k <= 0 ==> NewestOfLayers(layers, k) == 0
  {
  }

  lemma NewestAfter(p: Costing, e: Event, q: int)
    requires p.costMethod.Fifo?
    ensures var r := After(p, e);
            && r.costMethod.Fifo? && r.standardPrice == p.standardPrice
            && NewestOfLayers(r.layers, q)
               == if e.Receipt? && e.qty > 0 && q > 0
                  then Min(e.qty, q) * CostOf(e.inputCost, p.standardPrice) + NewestOfLayers(p.layers, q - Min(e.qty, q))
                  else NewestOfLayers(p.layers, q)
  {
    var r := After(p, e);
    match e {
      case Receipt(qty, cost) =>
        if qty > 0 {
          assert r.layers[..|p.layers|] == p.layers;
        }
      case Issue(qty) =>
        if qty > 0 {
          DrawnKeepsLedger(p.layers, |p.layers|, qty);
          var d := Drawn(p.layers, |p.layers|, qty);
          hide Drawn, MulMicros, DivMicros;
          NewestOfSame(p.layers, d.layers, q);
          var l := r.layers[|p.layers|];
          assert r.layers == d.layers + [l];
          NewestOfAppend(d.layers, l, q);
        }
      case Revaluation(value) =>
        if value != 0 {
          var l := Layer(0, 0, value, 0, 0);
          NewestOfAppend(p.layers, l, q);
          SpreadKeepsLedger(p.layers + [l], value);
          NewestOfSame(p.layers + [l], Spread(p.layers + [l], value), q);
        }
    }
  }

  lemma {:induction false} ClosedAtCost(layers: seq<Layer>)
    requires forall i :: 0 <= i < |layers| ==> FifoCosting.Closed(layers[i])
    ensures AtCost(layers) == 0 && RemQty(layers) == 0
  {
    if layers != [] {
      ClosedAtCost(layers[..|layers| - 1]);
    }
  }

  /** With the layers used up from the oldest on, what remains is what came in last. */
  lemma {:induction false} RemainsAreNewest(layers: seq<Layer>, c: nat)
    requires FifoCosting.Cut(layers, c)
    ensures RemQty(layers) >= 0 && AtCost(layers) == NewestOfLayers(layers, RemQty(layers))
  {
    if layers != [] {
      var n := |layers| - 1;
      var init, l := layers[..n], layers[n];
      if c <= n - 1 || (c == n && l.remQty == l.quantity) {
        assert FifoCosting.Cut(init, c);
        RemainsAreNewest(init, c);
      } else {
        ClosedAtCost(init);
      }
    }
  }

  // ----- over a run

  predicate NoRevaluation(events: seq<Event>)
  {
    forall i :: 0 <= i < |events| ==> !events[i].Revaluation?
  }

  lemma {:induction false} RunError(p: Costing, events: seq<Event>)
    requires FifoCosting.Fresh(p) && NoRevaluation(events)
    ensures var r := Run(p, events); r.costMethod.Fifo? && Error(r.layers) <= FlowOf(p, events).moves * MICROS
  {
    hide After, Error, FifoCost, CostOf;
    if events == [] {
      assert Error([]) == 0 by { NoError(); }
    } else {
      var init, e := events[..|events| - 1], events[|events| - 1];
      assert forall i :: 0 <= i < |init| ==> init[i] == events[i];
      RunError(p, init);
      var before := Run(p, init);
      AfterKeepsLedger(before, e);
      match e {
        case Receipt(qty, cost) => if qty > 0 { ReceivedError(before, qty, cost); } else { NothingMoves(before, e); }
        case Issue(qty) => if qty > 0 { IssuedError(before, qty); } else { NothingMoves(before, e); }
        case Revaluation(value) =>
      }
    }
  }

  lemma NoError()
    ensures Error([]) == 0
  {
  }

  /**
   A new first-in, first-out product that is never revalued and whose issues are covered is worth, after any run, what
   its newest units cost, to within a micro for each move.
   */
  lemma FifoValueIsNewestCost(p: Costing, events: seq<Event>)
    requires FifoCosting.Fresh(p) && FifoCosting.AllCovered(p, events) && NoRevaluation(events)
    ensures var r := Run(p, events);
            Abs(r.value * MICROS - NewestCost(p.standardPrice, events, r.quantity)) <= FlowOf(p, events).moves * MICROS
  {
    var r := Run(p, events);
    FreshLayers(p);
    LayersAreReceipts(p, events, r.quantity);
    hide Run, FifoCosting.HasCut, FifoCosting.AllCovered, AtCost, Error, RemQty, RemValue, NewestOfLayers, NewestCost, FlowOf;
    hide FifoCosting.Fresh, NoRevaluation;
    CoveredIsEven(p, events);
    ErrorBounds(r.layers);
    RunError(p, events);
    NewestRemain(r.layers);
  }

  lemma FreshLayers(p: Costing)
    requires FifoCosting.Fresh(p)
    ensures p.costMethod.Fifo? && p.layers == []
  {
  }

  lemma NewestRemain(layers: seq<Layer>)
    requires FifoCosting.HasCut(layers)
    ensures AtCost(layers) == NewestOfLayers(layers, RemQty(layers))
  {
    var c: nat :| FifoCosting.Cut(layers, c);
    RemainsAreNewest(layers, c);
  }

  lemma CoveredIsEven(p: Costing, events: seq<Event>)
    requires FifoCosting.Fresh(p) && FifoCosting.AllCovered(p, events) && NoRevaluation(events)
    ensures var r := Run(p, events);
            r.quantity == RemQty(r.layers) && r.value == RemValue(r.layers) && FifoCosting.HasCut(r.layers)
  {
    assert FifoCosting.Cut(p.layers, 0);
    FifoCosting.FifoRun(p, events);
    FifoCosting.NeverShortExactly(p, events);
    NothingRevalued(p, events);
    FifoCosting.FreshIsEven(p);
    hide Run, FifoCosting.HasCut, FifoCosting.TotalsOf, RemQty, RemValue, FifoCosting.RevaluedEmpty;
  }

  lemma {:induction false} NothingRevalued(p: Costing, events: seq<Event>)
    requires NoRevaluation(events)
    ensures FifoCosting.RevaluedEmpty(p, events) == 0
  {
    if events != [] {
      var init := events[..|events| - 1];
      assert forall i :: 0 <= i < |init| ==> init[i] == events[i];
      NothingRevalued(p, init);
    }
  }
}
