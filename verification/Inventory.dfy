/** The quant engine: stock by product, location and lot, its reservations, and the product rows kept in step with it. */
module Inventory {
  import opened Integers
  import opened Wrappers
  import opened Valuation
  import AverageCosting
  import FifoCosting
  import StandardCosting
  import CostFlows

  datatype Quant = Quant(quantity: int, reserved: int)

  datatype Key = Key(product: int, location: int, lot: int)

  /** A product row; qtyAvailable caches what is on hand in internal locations. */
  datatype Product = Product(costing: Costing, qtyAvailable: int)

  datatype Stock = Stock(locations: map<int, string>, products: map<int, Product>, quants: map<Key, Quant>)

  // ----- totals over the quants

  ghost function Total(quants: map<Key, Quant>, keys: set<Key>): int
    requires keys <= quants.Keys
    decreases |keys|
  {
    if keys == {} then 0
    else
      var k :| k in keys;
      quants[k].quantity + Total(quants, keys - {k})
  }

  function ProductKeys(quants: map<Key, Quant>, product: int): (r: set<Key>)
    ensures r <= quants.Keys
  {
    set k | k in quants && k.product == product
  }

  predicate IsInternal(locations: map<int, string>, location: int)
  {
    location in locations && locations[location] == "internal"
  }

  function InternalKeys(t: Stock, product: int): (r: set<Key>)
    ensures r <= t.quants.Keys
  {
    set k | k in t.quants && k.product == product && IsInternal(t.locations, k.location)
  }

  /** What is on hand: the quantities in internal locations, over all lots. */
  ghost function OnHand(t: Stock, product: int): int
  {
    Total(t.quants, InternalKeys(t, product))
  }

  /** The sum does not depend on the order of summation. */
  lemma {:induction false} TotalWithout(quants: map<Key, Quant>, keys: set<Key>, k: Key)
    requires keys <= quants.Keys && k in keys
    ensures Total(quants, keys) == quants[k].quantity + Total(quants, keys - {k})
    decreases |keys|
  {
    var first :| first in keys && Total(quants, keys) == quants[first].quantity + Total(quants, keys - {first});
    if first != k {
      TotalWithout(quants, keys - {first}, k);
      TotalWithout(quants, keys - {k}, first);
      assert keys - {first} - {k} == keys - {k} - {first};
    }
  }

  lemma {:induction false} TotalOfSame(a: map<Key, Quant>, b: map<Key, Quant>, keys: set<Key>)
    requires keys <= a.Keys && keys <= b.Keys
    requires forall k :: k in keys ==> a[k].quantity == b[k].quantity
    ensures Total(a, keys) == Total(b, keys)
    decreases |keys|
  {
    if keys != {} {
      var k :| k in keys;
      TotalOfSame(a, b, keys - {k});
      TotalWithout(a, keys, k);
      TotalWithout(b, keys, k);
    }
  }

  // ----- moves

  /** The quant changed by delta; a missing one counts as zero. */
  function Upserted(quants: map<Key, Quant>, key: Key, delta: int): map<Key, Quant>
  {
    if key in quants then quants[key := quants[key].(quantity := quants[key].quantity + delta)]
    else quants[key := Quant(delta, 0)]
  }

  /** The valuation event of a move: it has one only when it crosses the boundary of owned stock. */
  function EventOf(locations: map<int, string>, src: int, dest: int, qty: int, inputCost: int): Option<Event>
  {
    if qty <= 0 || IsInternal(locations, src) == IsInternal(locations, dest) then None
    else if IsInternal(locations, dest) then Some(Receipt(qty, inputCost))
    else Some(Issue(qty))
  }

  function Valued(p: Costing, e: Option<Event>): Costing
  {
    match e
    case None => p
    case Some(e) => After(p, e)
  }

  datatype Outcome = Done | UnknownReference

  predicate Ignored(src: int, dest: int, qty: int)
  {
    qty == 0 || src == dest
  }

  /** A quant refers to its product and location: a move of unknown ones is refused by the database. */
  predicate Refers(t: Stock, product: int, src: int, dest: int)
  {
    product in t.products && src in t.locations && dest in t.locations
  }

  ghost function Moved(t: Stock, product: int, src: int, dest: int, qty: int, inputCost: int, lot: int): Stock
  {
    if Ignored(src, dest, qty) || !Refers(t, product, src, dest) then t
    else
      var quants := Upserted(Upserted(t.quants, Key(product, src, lot), -qty), Key(product, dest, lot), qty);
      var costing := Valued(t.products[product].costing, EventOf(t.locations, src, dest, qty, inputCost));
      var onHand := OnHand(t.(quants := quants), product);
      t.(quants := quants, products := t.products[product := Product(costing, onHand)])
  }

  // ----- reservations

  function AvailableAt(t: Stock, key: Key): int
  {
    if key in t.quants then t.quants[key].quantity - t.quants[key].reserved else 0
  }

  /** The part of qty that can be reserved. */
  function Reservable(t: Stock, key: Key, qty: int): (r: int)
  {
    var toReserve := if qty < AvailableAt(t, key) then qty else AvailableAt(t, key);
    if qty <= 0 || toReserve <= 0 then 0 else toReserve
  }

  function Reserved(t: Stock, key: Key, qty: int): Stock
  {
    if Reservable(t, key, qty) == 0 || key !in t.quants then t
    else
      var q := t.quants[key];
      t.(quants := t.quants[key := q.(reserved := q.reserved + Reservable(t, key, qty))])
  }

  function Released(t: Stock, key: Key, qty: int): Stock
  {
    if qty <= 0 || key !in t.quants then t
    else
      var q := t.quants[key];
      t.(quants := t.quants[key := q.(reserved := if q.reserved - qty > 0 then q.reserved - qty else 0)])
  }

  function RevaluedProduct(t: Stock, product: int, value: int): Stock
  {
    if value == 0 || product !in t.products then t
    else
      var p := t.products[product];
      t.(products := t.products[product := p.(costing := Revalued(p.costing, value))])
  }

  // ----- the engine

  class StockQuant {
    var locations: map<int, string>
    var products: map<int, Product>
    var quants: map<Key, Quant>

    function Contents(): Stock
      reads this
    {
      Stock(locations, products, quants)
    }

    method UpsertDelta(key: Key, delta: int)
      modifies `quants
      ensures quants == Upserted(old(quants), key, delta)
    {
      if key in quants {
        quants := quants[key := quants[key].(quantity := quants[key].quantity + delta)];
      } else {
        quants := quants[key := Quant(delta, 0)];
      }
    }

    method OnHandInternal(product: int) returns (total: int)
      ensures total == OnHand(Contents(), product)
    {
      total := 0;
      var rest := InternalKeys(Contents(), product);
      ghost var all := rest;
      while rest != {}
        invariant rest <= all && all <= quants.Keys
        invariant total + Total(quants, rest) == Total(quants, all)
        decreases rest
      {
        var k :| k in rest;
        TotalWithout(quants, rest, k);
        total := total + quants[k].quantity;
        rest := rest - {k};
      }
    }

    method RefreshProductOnHand(product: int)
      modifies `products
      ensures products == if product in old(products)
                          then var p := old(products)[product];
                               old(products)[product := p.(qtyAvailable := OnHand(old(Contents()), product))]
                          else old(products)
    {
      var total := OnHandInternal(product);
      if product in products {
        products := products[product := products[product].(qtyAvailable := total)];
      }
    }

    method ValuateReceipt(product: int, qty: int, inputCost: int)
      requires product in products
      modifies `products
      ensures var p := old(products)[product];
              products == old(products)[product := p.(costing := Received(p.costing, qty, inputCost))]
    {
      var p := products[product].costing;
      var unitCost := if inputCost >= 0 then inputCost else p.standardPrice;
      var layerValue := MulMicros(qty, unitCost);
      var newQ, newV := p.quantity + qty, p.value + layerValue;
      var remQ, remV := 0, 0;
      if p.costMethod == Fifo {
        remQ, remV := qty, layerValue;
      }
      var layers := p.layers + [Layer(qty, unitCost, layerValue, remQ, remV)];
      var price := p.standardPrice;
      if p.costMethod == Average && newQ > 0 {
        price := DivMicros(newV, newQ);
      }
      products := products[product := products[product].(costing := Costing(p.costMethod, price, newQ, newV, layers))];
    }

    method ValuateIssue(product: int, qty: int)
      requires product in products && qty != 0
      modifies `products
      ensures var p := old(products)[product];
              products == old(products)[product := p.(costing := Issued(p.costing, qty))]
    {
      var p := products[product].costing;
      var layers := p.layers;
      var outValue := 0;
      if p.costMethod == Fifo {
        var d := ConsumeLayers(layers, qty);
        layers, outValue := d.layers, d.value;
        if d.left > 0 {
          outValue := outValue + MulMicros(d.left, p.standardPrice);
        }
      } else {
        outValue := MulMicros(qty, p.standardPrice);
      }
      var unitCost := DivMicros(outValue, qty);
      layers := layers + [Layer(-qty, unitCost, -outValue, 0, 0)];
      products := products[product := products[product].(costing :=
        Costing(p.costMethod, p.standardPrice, p.quantity - qty, p.value - outValue, layers))];
    }

    method ValuateMove(product: int, src: int, dest: int, qty: int, inputCost: int)
      modifies `products
      ensures var e := EventOf(locations, src, dest, qty, inputCost);
              products == if product in old(products)
                          then var p := old(products)[product];
                               old(products)[product := p.(costing := Valued(p.costing, e))]
                          else old(products)
    {
      if qty <= 0 {
        return;
      }
      var srcInt, dstInt := IsInternal(locations, src), IsInternal(locations, dest);
      if srcInt == dstInt {
        return;
      }
      if product !in products {
        return;
      }
      if !srcInt && dstInt {
        ValuateReceipt(product, qty, inputCost);
      } else {
        ValuateIssue(product, qty);
      }
    }

    method ApplyMove(product: int, src: int, dest: int, qty: int, inputCost: int, lot: int) returns (r: Outcome)
      modifies `products, `quants
      ensures Contents() == Moved(old(Contents()), product, src, dest, qty, inputCost, lot)
      ensures r.UnknownReference? <==> !Ignored(src, dest, qty) && !Refers(old(Contents()), product, src, dest)
      ensures r.UnknownReference? || qty == 0 || src == dest ==> Contents() == old(Contents())
    {
      hide Valued, EventOf, OnHand, Upserted;
      if Ignored(src, dest, qty) {
        return Done;
      }
      if !Refers(Contents(), product, src, dest) {
        return UnknownReference;
      }
      UpsertDelta(Key(product, src, lot), -qty);
      UpsertDelta(Key(product, dest, lot), qty);
      RefreshProductOnHand(product);
      ValuateMove(product, src, dest, qty, inputCost);
      return Done;
    }

    method Reserve(key: Key, qty: int) returns (r: int)
      modifies `quants
      ensures Contents() == Reserved(old(Contents()), key, qty)
      ensures r == Reservable(old(Contents()), key, qty)
    {
      if qty <= 0 {
        return 0;
      }
      var avail := AvailableAt(Contents(), key);
      var toReserve := if qty < avail then qty else avail;
      if toReserve <= 0 {
        return 0;
      }
      if key in quants {
        quants := quants[key := quants[key].(reserved := quants[key].reserved + toReserve)];
      }
      return toReserve;
    }

    method Release(key: Key, qty: int)
      modifies `quants
      ensures Contents() == Released(old(Contents()), key, qty)
    {
      if qty <= 0 {
        return;
      }
      if key in quants {
        var left := quants[key].reserved - qty;
        quants := quants[key := quants[key].(reserved := if left > 0 then left else 0)];
      }
    }

    method Revalue(product: int, value: int)
      modifies `products
      ensures Contents() == RevaluedProduct(old(Contents()), product, value)
    {
      if value == 0 || product !in products {
        return;
      }
      var p := products[product].costing;
      var newV := p.value + value;
      var layers := p.layers + [Layer(0, 0, value, 0, 0)];
      var price := p.standardPrice;
      if p.costMethod == Average && p.quantity > 0 {
        price := DivMicros(newV, p.quantity);
      }
      if p.costMethod == Fifo {
        layers := SpreadValue(layers, value);
      }
      products := products[product := products[product].(costing := Costing(p.costMethod, price, p.quantity, newV, layers))];
    }
  }

  // ----- what a move does to the totals

  /** The change of a total when one quant changes by delta. */
  lemma TotalOfUpsert(quants: map<Key, Quant>, keys: set<Key>, key: Key, delta: int)
    requires keys <= quants.Keys
    ensures key !in keys ==> Total(Upserted(quants, key, delta), keys) == Total(quants, keys)
    ensures key in keys ==> Total(Upserted(quants, key, delta), keys) == Total(quants, keys) + delta
    ensures key !in quants ==> Total(Upserted(quants, key, delta), keys + {key}) == Total(quants, keys) + delta
  {
    var after := Upserted(quants, key, delta);
    TotalOfSame(quants, after, keys - {key});
    if key in keys {
      TotalWithout(quants, keys, key);
      TotalWithout(after, keys, key);
    } else {
      assert keys - {key} == keys;
      TotalWithout(after, keys + {key}, key);
      assert keys + {key} - {key} == keys;
    }
  }

  lemma OnHandOfUpsert(t: Stock, key: Key, delta: int, product: int)
    ensures OnHand(t.(quants := Upserted(t.quants, key, delta)), product)
         == OnHand(t, product) + if key.product == product && IsInternal(t.locations, key.location) then delta else 0
  {
    var after := t.(quants := Upserted(t.quants, key, delta));
    var keys := InternalKeys(t, product);
    TotalOfUpsert(t.quants, keys, key, delta);
    if key.product == product && IsInternal(t.locations, key.location) {
      assert InternalKeys(after, product) == keys + {key};
      assert key in t.quants ==> keys + {key} == keys;
    } else {
      assert InternalKeys(after, product) == keys;
    }
  }

  /** The quantity of a product over all locations and lots. */
  ghost function Everywhere(t: Stock, product: int): int
  {
    Total(t.quants, ProductKeys(t.quants, product))
  }

  lemma EverywhereOfUpsert(t: Stock, key: Key, delta: int, product: int)
    ensures Everywhere(t.(quants := Upserted(t.quants, key, delta)), product)
         == Everywhere(t, product) + if key.product == product then delta else 0
  {
    var after := t.(quants := Upserted(t.quants, key, delta));
    var keys := ProductKeys(t.quants, product);
    TotalOfUpsert(t.quants, keys, key, delta);
    if key.product == product {
      assert ProductKeys(after.quants, product) == keys + {key};
      assert key in t.quants ==> keys + {key} == keys;
    } else {
      assert ProductKeys(after.quants, product) == keys;
    }
  }

  /** A move creates and destroys nothing: every real move has another end. */
  lemma MoveConserves(t: Stock, product: int, src: int, dest: int, qty: int, inputCost: int, lot: int, other: int)
    ensures Everywhere(Moved(t, product, src, dest, qty, inputCost, lot), other) == Everywhere(t, other)
  {
    if !Ignored(src, dest, qty) && Refers(t, product, src, dest) {
      var mid := t.(quants := Upserted(t.quants, Key(product, src, lot), -qty));
      EverywhereOfUpsert(t, Key(product, src, lot), -qty, other);
      EverywhereOfUpsert(mid, Key(product, dest, lot), qty, other);
      hide Upserted, Total, ProductKeys, Valued, EventOf, OnHand;
      assert Moved(t, product, src, dest, qty, inputCost, lot).quants
          == Upserted(mid.quants, Key(product, dest, lot), qty);
    }
  }

  // ----- runs of the engine

  datatype Step =
    | Move(product: int, src: int, dest: int, qty: int, inputCost: int, lot: int)
    | Reservation(key: Key, qty: int)
    | Release(key: Key, qty: int)
    | Revalue(product: int, value: int)

  ghost function Next(t: Stock, s: Step): Stock
  {
    match s
    case Move(product, src, dest, qty, inputCost, lot) => Moved(t, product, src, dest, qty, inputCost, lot)
    case Reservation(key, qty) => Reserved(t, key, qty)
    case Release(key, qty) => Released(t, key, qty)
    case Revalue(product, value) => RevaluedProduct(t, product, value)
  }

  ghost function Run(t: Stock, steps: seq<Step>): Stock
  {
    if steps == [] then t else Next(Run(t, steps[..|steps| - 1]), steps[|steps| - 1])
  }

  /** The change of what is on hand that a step makes without valuing it: a crossing move of a negative quantity. */
  function Unvalued(t: Stock, s: Step, product: int): int
  {
    if s.Move? && s.product == product && s.qty < 0 && Refers(t, product, s.src, s.dest)
    then (if IsInternal(t.locations, s.dest) then s.qty else 0) - (if IsInternal(t.locations, s.src) then s.qty else 0)
    else 0
  }

  ghost function TotalUnvalued(t: Stock, steps: seq<Step>, product: int): int
  {
    if steps == [] then 0
    else TotalUnvalued(t, steps[..|steps| - 1], product)
         + Unvalued(Run(t, steps[..|steps| - 1]), steps[|steps| - 1], product)
  }

  ghost predicate OnHandAgrees(t: Stock)
  {
    forall p :: p in t.products ==> t.products[p].qtyAvailable == OnHand(t, p)
  }

  lemma OnHandOfMove(t: Stock, product: int, src: int, dest: int, qty: int, inputCost: int, lot: int, other: int)
    ensures OnHand(Moved(t, product, src, dest, qty, inputCost, lot), other)
         == OnHand(t, other) + if Ignored(src, dest, qty) || !Refers(t, product, src, dest) || other != product then 0
                               else (if IsInternal(t.locations, dest) then qty else 0)
                                    - (if IsInternal(t.locations, src) then qty else 0)
  {
    if !Ignored(src, dest, qty) && Refers(t, product, src, dest) {
      var mid := t.(quants := Upserted(t.quants, Key(product, src, lot), -qty));
      OnHandOfUpsert(t, Key(product, src, lot), -qty, other);
      OnHandOfUpsert(mid, Key(product, dest, lot), qty, other);
      var after := Moved(t, product, src, dest, qty, inputCost, lot);
      SameOnHand(mid.(quants := Upserted(mid.quants, Key(product, dest, lot), qty)), after, other);
    }
  }

  lemma SameOnHand(a: Stock, b: Stock, product: int)
    requires a.locations == b.locations && a.quants.Keys == b.quants.Keys
    requires forall k :: k in a.quants ==> a.quants[k].quantity == b.quants[k].quantity
    ensures OnHand(a, product) == OnHand(b, product)
  {
    assert InternalKeys(a, product) == InternalKeys(b, product);
    TotalOfSame(a.quants, b.quants, InternalKeys(a, product));
  }

  /** How far the valued quantity is behind what is on hand. */
  ghost function Behind(t: Stock, product: int): int
    requires product in t.products
  {
    OnHand(t, product) - t.products[product].costing.quantity
  }

  lemma ValuedQuantity(p: Costing, e: Event)
    ensures After(p, e).quantity == p.quantity + if e.Receipt? && e.qty > 0 then e.qty
                                                 else if e.Issue? && e.qty > 0 then -e.qty else 0
  {
  }

  lemma NextOnHand(t: Stock, s: Step, product: int)
    requires product in t.products
    ensures var r := Next(t, s);
            && r.products.Keys == t.products.Keys && r.locations == t.locations
            && Behind(r, product) == Behind(t, product) + Unvalued(t, s, product)
  {
    var r := Next(t, s);
    match s {
      case Move(moved, src, dest, qty, inputCost, lot) =>
        OnHandOfMove(t, moved, src, dest, qty, inputCost, lot, product);
        hide OnHand, Upserted, After;
        var e := EventOf(t.locations, src, dest, qty, inputCost);
        if e.Some? {
          ValuedQuantity(t.products[product].costing, e.value);
        }
      case Reservation(key, qty) => SameOnHand(t, r, product);
      case Release(key, qty) => SameOnHand(t, r, product);
      case Revalue(revalued, value) => SameOnHand(t, r, product);
    }
  }

  lemma NextKeepsOnHand(t: Stock, s: Step)
    requires OnHandAgrees(t)
    ensures OnHandAgrees(Next(t, s))
  {
    var r := Next(t, s);
    forall p | p in r.products ensures r.products[p].qtyAvailable == OnHand(r, p) {
      match s {
        case Move(moved, src, dest, qty, inputCost, lot) =>
          OnHandOfMove(t, moved, src, dest, qty, inputCost, lot, p);
          if r.quants != t.quants && p == moved {
            SameOnHand(t.(quants := r.quants), r, p);
          }
        case Reservation(key, qty) => SameOnHand(t, r, p);
        case Release(key, qty) => SameOnHand(t, r, p);
        case Revalue(revalued, value) => SameOnHand(t, r, p);
      }
    }
  }

  /**
   Over any run the cached quantity is what is on hand, and what is on hand and not valued changes by exactly the
   crossing moves of negative quantities, which are not valued at all.
   */
  lemma {:induction false} RunOnHand(t: Stock, steps: seq<Step>, product: int)
    requires product in t.products && OnHandAgrees(t)
    ensures var r := Run(t, steps);
            && r.products.Keys == t.products.Keys && r.locations == t.locations
            && OnHandAgrees(r)
            && r.products[product].qtyAvailable - r.products[product].costing.quantity
               == Behind(t, product) + TotalUnvalued(t, steps, product)
  {
    hide OnHand, OnHandAgrees, Next, Behind, Unvalued;
    if steps != [] {
      var init := steps[..|steps| - 1];
      RunOnHand(t, init, product);
      NextKeepsOnHand(Run(t, init), steps[|steps| - 1]);
      NextOnHand(Run(t, init), steps[|steps| - 1], product);
      AgreeingBehind(Run(t, init), product);
    }
    AgreeingBehind(Run(t, steps), product);
  }

  lemma AgreeingBehind(t: Stock, product: int)
    requires product in t.products && OnHandAgrees(t)
    ensures t.products[product].qtyAvailable - t.products[product].costing.quantity == Behind(t, product)
  {
  }

  // ----- the costing of one product over a run

  function EventsOf(locations: map<int, string>, known: set<int>, s: Step, product: int): seq<Event>
  {
    match s
    case Move(moved, src, dest, qty, inputCost, lot) =>
      if moved != product || Ignored(src, dest, qty) || src !in locations || dest !in locations || moved !in known then []
      else
        var e := EventOf(locations, src, dest, qty, inputCost);
        if e.Some? then [e.value] else []
    case Revalue(revalued, value) => if revalued == product then [Revaluation(value)] else []
    case _ => []
  }

  /** The receipts, issues and revaluations of one product in a run. */
  function History(t: Stock, steps: seq<Step>, product: int): seq<Event>
  {
    if steps == [] then []
    else History(t, steps[..|steps| - 1], product)
         + EventsOf(t.locations, t.products.Keys, steps[|steps| - 1], product)
  }

  lemma NextCosting(t: Stock, s: Step, product: int)
    requires product in t.products
    ensures var r := Next(t, s);
            && r.products.Keys == t.products.Keys && r.locations == t.locations
            && r.products[product].costing
               == Valuation.Run(t.products[product].costing, EventsOf(t.locations, t.products.Keys, s, product))
  {
    hide OnHand, Upserted, Received, Issued, Revalued, EventOf;
    var events := EventsOf(t.locations, t.products.Keys, s, product);
    if events != [] {
      assert events[..|events| - 1] == [];
      assert Valuation.Run(t.products[product].costing, events) == After(t.products[product].costing, events[0]);
    }
  }

  lemma {:induction false} CostingConcat(p: Costing, a: seq<Event>, b: seq<Event>)
    ensures Valuation.Run(p, a + b) == Valuation.Run(Valuation.Run(p, a), b)
  {
    if b == [] {
      assert a + b == a;
    } else {
      assert (a + b)[..|a + b| - 1] == a + b[..|b| - 1];
      CostingConcat(p, a, b[..|b| - 1]);
    }
  }

  /** What a run of the engine does to a product's costing is what its own history does; other products do not matter. */
  lemma {:induction false} CostingFollowsHistory(t: Stock, steps: seq<Step>, product: int)
    requires product in t.products
    ensures var r := Run(t, steps);
            && r.products.Keys == t.products.Keys && r.locations == t.locations
            && r.products[product].costing == Valuation.Run(t.products[product].costing, History(t, steps, product))
  {
    hide Next, EventsOf;
    if steps != [] {
      var init, last := steps[..|steps| - 1], steps[|steps| - 1];
      CostingFollowsHistory(t, init, product);
      NextCosting(Run(t, init), last, product);
      CostingConcat(t.products[product].costing, History(t, init, product),
                    EventsOf(t.locations, t.products.Keys, last, product));
    }
  }

  /** The layers of a first-in, first-out product over any run of the engine, other products' steps included. */
  lemma FifoProductRun(t: Stock, steps: seq<Step>, product: int)
    requires product in t.products && FifoCosting.Fresh(t.products[product].costing)
    ensures product in Run(t, steps).products
    ensures var totals := FifoCosting.TotalsOf(t.products[product].costing, History(t, steps, product));
            var c := Run(t, steps).products[product].costing;
            && FifoCosting.HasCut(c.layers)
            && RemQty(c.layers) - c.quantity == totals.shortQty
            && RemValue(c.layers) - c.value == totals.shortValue - totals.orphaned
  {
    var p := t.products[product].costing;
    CostingFollowsHistory(t, steps, product);
    assert FifoCosting.Cut(p.layers, 0);
    FifoCosting.FifoRun(p, History(t, steps, product));
  }

  /** The value of an average-cost product over any run of the engine covers its quantity at its price. */
  lemma AverageProductRun(t: Stock, steps: seq<Step>, product: int)
    requires product in t.products && AverageCosting.Good(t.products[product].costing)
    requires AverageCosting.AllAllowed(t.products[product].costing, History(t, steps, product))
    ensures product in Run(t, steps).products
    ensures var c := Run(t, steps).products[product].costing;
            c.value >= 0 && c.standardPrice * c.quantity <= c.value * MICROS
  {
    CostingFollowsHistory(t, steps, product);
    AverageCosting.ValueCoversPrice(t.products[product].costing, History(t, steps, product));
  }

  /** And it exceeds it by no more than the last re-pricing and the issues since account for. */
  lemma AverageProductGap(t: Stock, steps: seq<Step>, product: int)
    requires product in t.products
    requires var p, events := t.products[product].costing, History(t, steps, product);
             && AverageCosting.Good(p) && AverageCosting.AllAllowed(p, events)
             && AverageCosting.NoEmptyRevaluation(p, events)
             && (if p.quantity == 0 then AverageCosting.Gap(p) == 0 else AverageCosting.Gap(p) < p.quantity)
    ensures product in Run(t, steps).products
    ensures var since := AverageCosting.SinceLastPrice(t.products[product].costing, History(t, steps, product));
            var c := Run(t, steps).products[product].costing;
            0 <= c.value * MICROS - c.standardPrice * c.quantity <= since.quantity + since.issues * MICROS
  {
    CostingFollowsHistory(t, steps, product);
    AverageCosting.GapIsBounded(t.products[product].costing, History(t, steps, product));
  }

  /** The value of a standard-cost product over any run of the engine, to within one micro a move. */
  lemma StandardProductRun(t: Stock, steps: seq<Step>, product: int)
    requires product in t.products && StandardCosting.Good(t.products[product].costing)
    ensures product in Run(t, steps).products
    ensures var p, c := t.products[product].costing, Run(t, steps).products[product].costing;
            var tally := StandardCosting.Tallied(p, History(t, steps, product));
            && c.standardPrice == p.standardPrice
            && AverageCosting.Gap(p) - tally.receipts * MICROS <= StandardCosting.Unexplained(c, tally)
            && StandardCosting.Unexplained(c, tally) <= AverageCosting.Gap(p) + tally.issues * MICROS
  {
    CostingFollowsHistory(t, steps, product);
    StandardCosting.ValueIsExplained(t.products[product].costing, History(t, steps, product));
  }

  /**
   A new product costed first-in, first-out whose issues were all covered by the cached quantity and which is valued at
   zero quantity again is worth exactly what was revalued at zero quantity.
   */
  lemma FifoProductEmpties(t: Stock, steps: seq<Step>, product: int)
    requires product in t.products && FifoCosting.Fresh(t.products[product].costing)
    requires FifoCosting.AllCovered(t.products[product].costing, History(t, steps, product))
    ensures product in Run(t, steps).products
    ensures var c := Run(t, steps).products[product].costing;
            c.quantity == 0 ==> c.value == FifoCosting.RevaluedEmpty(t.products[product].costing, History(t, steps, product))
  {
    CostingFollowsHistory(t, steps, product);
    if Run(t, steps).products[product].costing.quantity == 0 {
      FifoCosting.EmptyStockIsWorthless(t.products[product].costing, History(t, steps, product));
    }
  }

  /** The value of a product over any run of the engine is what its moves and revaluations brought and took. */
  lemma ProductValueIsFlow(t: Stock, steps: seq<Step>, product: int)
    requires product in t.products && CostFlows.Sound(t.products[product].costing)
    ensures product in Run(t, steps).products
    ensures var p, c := t.products[product].costing, Run(t, steps).products[product].costing;
            var flow := CostFlows.FlowOf(p, History(t, steps, product));
            Abs(CostFlows.Drift(c.value - p.value, flow)) <= flow.moves * MICROS
  {
    CostingFollowsHistory(t, steps, product);
    hide CostFlows.FlowOf, CostFlows.Drift, CostFlows.Sound;
    CostFlows.ValueIsFlow(t.products[product].costing, History(t, steps, product));
  }

  /** Stock of a new first-in, first-out product that is covered and never revalued is worth what its newest units cost. */
  lemma FifoProductIsNewestCost(t: Stock, steps: seq<Step>, product: int)
    requires product in t.products && FifoCosting.Fresh(t.products[product].costing)
    requires var p, events := t.products[product].costing, History(t, steps, product);
             FifoCosting.AllCovered(p, events) && CostFlows.NoRevaluation(events)
    ensures product in Run(t, steps).products
    ensures var p, c := t.products[product].costing, Run(t, steps).products[product].costing;
            var events := History(t, steps, product);
            Abs(c.value * MICROS - CostFlows.NewestCost(p.standardPrice, events, c.quantity))
            <= CostFlows.FlowOf(p, events).moves * MICROS
  {
    CostingFollowsHistory(t, steps, product);
    hide CostFlows.FlowOf, CostFlows.NewestCost, FifoCosting.Fresh, FifoCosting.AllCovered, CostFlows.NoRevaluation;
    CostFlows.FifoValueIsNewestCost(t.products[product].costing, History(t, steps, product));
  }

  // ----- what one move does

  /** The quantity at a place; a place without a quant holds nothing. */
  function QuantityAt(t: Stock, key: Key): int
  {
    if key in t.quants then t.quants[key].quantity else 0
  }

  function ReservedAt(t: Stock, key: Key): int
  {
    if key in t.quants then t.quants[key].reserved else 0
  }

  /** The quantity leaves one place and arrives at the other, of the same lot; no other quant changes, and no reservation. */
  lemma MoveShifts(t: Stock, product: int, src: int, dest: int, qty: int, inputCost: int, lot: int, key: Key)
    requires qty != 0 && src != dest && product in t.products && src in t.locations && dest in t.locations
    ensures var r := Moved(t, product, src, dest, qty, inputCost, lot);
            var change := if key == Key(product, src, lot) then -qty else if key == Key(product, dest, lot) then qty else 0;
            && QuantityAt(r, key) == QuantityAt(t, key) + change
            && ReservedAt(r, key) == ReservedAt(t, key)
            && r.quants.Keys == t.quants.Keys + {Key(product, src, lot), Key(product, dest, lot)}
            && r.locations == t.locations
  {
    hide OnHand, Valued, EventOf;
  }

  /** A positive move into owned stock is a receipt at the cost given, one out of it an issue; all others change no value. */
  lemma MoveIsValued(t: Stock, product: int, src: int, dest: int, qty: int, inputCost: int, lot: int)
    requires qty != 0 && src != dest && product in t.products && src in t.locations && dest in t.locations
    ensures var r, c := Moved(t, product, src, dest, qty, inputCost, lot), t.products[product].costing;
            var leaves, enters := t.locations[src] == "internal", t.locations[dest] == "internal";
            && r.products.Keys == t.products.Keys
            && (forall p :: p in t.products && p != product ==> r.products[p] == t.products[p])
            && r.products[product].costing == if qty > 0 && enters && !leaves then After(c, Receipt(qty, inputCost))
                                              else if qty > 0 && leaves && !enters then After(c, Issue(qty))
                                              else c
  {
    hide OnHand, Upserted, After;
  }

  // ----- reservations

  /** No more is reserved than is available, and at least one of the two limits is reached. */
  lemma ReserveLimits(t: Stock, key: Key, qty: int)
    ensures var r, after := Reservable(t, key, qty), Reserved(t, key, qty);
            && AvailableAt(after, key) == AvailableAt(t, key) - r
            && 0 <= r && (r > 0 ==> r <= qty && AvailableAt(after, key) >= 0)
            && (qty > 0 && r != qty ==> AvailableAt(after, key) <= 0)
            && (forall k :: k in t.quants && k != key ==> k in after.quants && after.quants[k] == t.quants[k])
  {
  }

  /** Releasing what was reserved undoes the reservation, exactly when the row had no negative reservation before. */
  lemma ReleaseUndoesReserve(t: Stock, key: Key, qty: int)
    requires Reservable(t, key, qty) > 0
    ensures key in t.quants
    ensures Released(Reserved(t, key, qty), key, Reservable(t, key, qty)) == t <==> t.quants[key].reserved >= 0
  {
    var r := Reservable(t, key, qty);
    var after := Released(Reserved(t, key, qty), key, r);
    assert after.quants[key].quantity == t.quants[key].quantity;
    if t.quants[key].reserved >= 0 {
      assert after.quants[key] == t.quants[key];
      assert after.quants == t.quants;
    }
  }

  ghost predicate ReservationsSane(t: Stock)
  {
    forall k :: k in t.quants ==> t.quants[k].reserved >= 0
  }

  /** Reservations are never negative, over any run. */
  lemma {:induction false} RunKeepsReservations(t: Stock, steps: seq<Step>)
    requires ReservationsSane(t)
    ensures ReservationsSane(Run(t, steps))
  {
    hide Valued, EventOf, OnHand;
    if steps != [] {
      RunKeepsReservations(t, steps[..|steps| - 1]);
    }
  }

  /** Every reservation is covered by the quantity at its place. */
  ghost predicate Covered(t: Stock)
  {
    forall k :: k in t.quants ==> t.quants[k].reserved <= t.quants[k].quantity
  }

  /** A step that moves no more than is available where the quantity leaves. */
  predicate TakesAvailable(t: Stock, s: Step)
  {
    match s
    case Move(product, src, dest, qty, _, lot) =>
      Ignored(src, dest, qty) || !Refers(t, product, src, dest)
      || (qty <= AvailableAt(t, Key(product, src, lot)) && -qty <= AvailableAt(t, Key(product, dest, lot)))
    case _ => true
  }

  /** Moves do not look at reservations: these stay covered exactly when the step takes only what is available. */
  lemma StepKeepsCovered(t: Stock, s: Step)
    requires Covered(t) && ReservationsSane(t)
    ensures Covered(Next(t, s)) <==> TakesAvailable(t, s)
  {
    hide Valued, EventOf, OnHand, Revalued;
    if s.Move? && !Ignored(s.src, s.dest, s.qty) && Refers(t, s.product, s.src, s.dest) {
      var from, to, after := Key(s.product, s.src, s.lot), Key(s.product, s.dest, s.lot), Next(t, s);
      MovedQuants(t, from, to, s.qty);
      assert after.quants == Upserted(Upserted(t.quants, from, -s.qty), to, s.qty);
      hide Next, Moved, Upserted;
      assert from in after.quants && to in after.quants;
    }
  }

  lemma MovedQuants(t: Stock, from: Key, to: Key, qty: int)
    requires from != to
    ensures var after := Upserted(Upserted(t.quants, from, -qty), to, qty);
            && after.Keys == t.quants.Keys + {from, to}
            && after[from].quantity - after[from].reserved == AvailableAt(t, from) - qty
            && after[to].quantity - after[to].reserved == AvailableAt(t, to) + qty
            && forall k :: k in t.quants && k != from && k != to ==> after[k] == t.quants[k]
  {
  }

  ghost predicate AlwaysCovered(t: Stock, steps: seq<Step>)
  {
    Covered(Run(t, steps)) && (steps != [] ==> AlwaysCovered(t, steps[..|steps| - 1]))
  }

  ghost predicate AllTakeAvailable(t: Stock, steps: seq<Step>)
  {
    steps == []
    || (AllTakeAvailable(t, steps[..|steps| - 1]) && TakesAvailable(Run(t, steps[..|steps| - 1]), steps[|steps| - 1]))
  }

  /** Reservations are covered throughout a run exactly when every move of the run takes only what is available. */
  lemma {:induction false} ReservationsStayCovered(t: Stock, steps: seq<Step>)
    requires Covered(t) && ReservationsSane(t)
    ensures AlwaysCovered(t, steps) <==> AllTakeAvailable(t, steps)
  {
    hide Covered, Next, TakesAvailable, ReservationsSane;
    if steps != [] {
      var init := steps[..|steps| - 1];
      ReservationsStayCovered(t, init);
      RunKeepsReservations(t, init);
      if AlwaysCovered(t, init) {
        StepKeepsCovered(Run(t, init), steps[|steps| - 1]);
      }
    }
  }
}
