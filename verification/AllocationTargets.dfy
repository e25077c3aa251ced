/** Which invoices an allocation may settle, which it leaves nothing owing on, and what it records of each. */
module AllocationTargets {
  import opened Integers
  import opened Wrappers
  import opened Rounding
  import opened Moneys
  import opened Sets
  import opened PaymentAllocation

  /** A posted document of the payment's partner, of the kind that it settles, and one of those named, if any are. */
  predicate MaySettle(t: Tables, p: Payment, moveIds: seq<int>, id: int)
  {
    && id in t.moves
    && t.moves[id].partner == p.partner && t.moves[id].posted
    && t.moves[id].family == (if p.outbound then Vendor else Customer)
    && (moveIds == [] || id in moveIds)
  }

  lemma {:induction false} SlicesAreSelected(t: Tables, ids: seq<int>, k: nat, pay: Money, rate: Int64)
    requires k <= |ids| && (forall i :: 0 <= i < |ids| ==> ids[i] in t.moves) && ApplyAll(t, ids, k, pay, rate).Ok?
    ensures forall s :: s in ApplyAll(t, ids, k, pay, rate).value.slices ==> s.move in ids
  {
    hide ApplyTo;
    if k > 0 {
      SlicesAreSelected(t, ids, k - 1, pay, rate);
      var before := ApplyAll(t, ids, k - 1, pay, rate).value;
      if before.remaining.u != 0 {
        ApplyToAdds(t, before, ids[k - 1], rate);
        var next := ApplyTo(t, before, ids[k - 1], rate).value;
        forall s | s in next.slices ensures s.move in ids {
          if s !in before.slices {
            assert next.slices == before.slices + [next.slices[|before.slices|]];
          }
        }
      }
    }
  }

  /** An allocation applies to documents that the payment may settle, and to no others. */
  lemma SettlesOwnDocuments(t: Tables, payment: int, received: Money, moveIds: seq<int>, s: Slice)
    requires AllocationOf(t, payment, received, moveIds).Ok? && s in AllocationOf(t, payment, received, moveIds).value.slices
    ensures payment in t.payments && t.payments[payment].posted && t.payments[payment].partner.Some?
    ensures MaySettle(t, t.payments[payment], moveIds, s.move)
  {
    var p := t.payments[payment];
    var ids := OldestFirst(t.moves, OpenMoves(t, p, moveIds));
    SlicesAreSelected(t, ids, |ids|, Money(p.amount, 0), SettlementRate(p, received).value);
    hide OldestFirst, ApplyAll;
    assert s.move in OpenMoves(t, p, moveIds);
  }

  /** What is applied to an invoice afterwards. */
  lemma AppliedAfter(t: Tables, payment: int, ids: seq<int>, pay: int, pr: Progress, i: nat)
    requires Greedy(t, ids, pay, pr) && Distinct(ids) && i < |ids| && ids[i] in t.moves
    ensures Applied(Recorded(t, payment, pr.slices).rows, ids[i])
         == Applied(t.rows, ids[i]) + if i < |pr.slices| then pr.slices[i].amount.u else 0
  {
    GreedyNamesDistinct(t, ids, pay, pr);
    AppliedConcat(t.rows, RowsOf(payment, pr.slices), ids[i]);
    AppliedOfRows(payment, pr.slices, ids[i]);
    if i >= |pr.slices| {
      forall k | 0 <= k < |pr.slices| ensures pr.slices[k].move != ids[i] {
        assert pr.slices[k].move == ids[k];
      }
    }
    hide Applied, RowsOf, Greedy, Distinct;
  }

  lemma NotApplied(t: Tables, payment: int, slices: seq<Slice>, id: int)
    requires forall s :: s in slices ==> s.move != id
    ensures Applied(Recorded(t, payment, slices).rows, id) == Applied(t.rows, id)
  {
    AppliedConcat(t.rows, RowsOf(payment, slices), id);
    NoRowsFor(payment, slices, id);
  }

  lemma {:induction false} NoRowsFor(payment: int, slices: seq<Slice>, id: int)
    requires forall s :: s in slices ==> s.move != id
    ensures Applied(RowsOf(payment, slices), id) == 0
  {
    if slices != [] {
      var rows, init := RowsOf(payment, slices), slices[..|slices| - 1];
      assert rows[..|rows| - 1] == RowsOf(payment, init);
      assert forall s :: s in init ==> s in slices;
      assert slices[|slices| - 1] in slices;
      NoRowsFor(payment, init, id);
    }
  }

  /** While anything of the payment is left over, nothing is owed on any document that it may settle. */
  lemma LeftOverMeansSettled(t: Tables, payment: int, received: Money, moveIds: seq<int>, id: int)
    requires Bounded(t) && AllocationOf(t, payment, received, moveIds).Ok? && t.payments[payment].amount >= 0
    requires AllocationOf(t, payment, received, moveIds).value.remaining.u != 0
    requires MaySettle(t, t.payments[payment], moveIds, id)
    ensures var after := Allocated(t, payment, received, moveIds);
            id in after.moves && after.moves[id].total == Applied(after.rows, id)
  {
    var p, pr, ids := t.payments[payment], AllocationOf(t, payment, received, moveIds).value, Selected(t, payment, moveIds);
    AllocationIsGreedy(t, payment, received, moveIds);
    GreedyRemaining(t, ids, p.amount, pr);
    SameTotals(t, payment, pr.slices, id);
    hide Greedy, Open, Distinct, Bounded, ApplyAll;
    if id in OpenMoves(t, p, moveIds) {
      assert id in ids by { hide AllocationOf; }
      hide OldestFirst, OpenMoves, AllocationOf, Recorded, Applied, MaySettle;
      var i :| 0 <= i < |ids| && ids[i] == id;
      AppliedAfter(t, payment, ids, p.amount, pr, i);
      FullyApplied(t, ids, p.amount, pr, i);
    } else {
      forall s | s in pr.slices ensures s.move != id {
        SlicesAreSelected(t, ids, |ids|, Money(p.amount, 0), SettlementRate(p, received).value);
      }
      NotApplied(t, payment, pr.slices, id);
    }
  }

  lemma SameTotals(t: Tables, payment: int, slices: seq<Slice>, id: int)
    requires id in t.moves
    ensures id in Recorded(t, payment, slices).moves && Recorded(t, payment, slices).moves[id].total == t.moves[id].total
  {
  }

  lemma FullyApplied(t: Tables, ids: seq<int>, pay: int, pr: Progress, i: nat)
    requires Greedy(t, ids, pay, pr) && pr.remaining.u > 0 && |pr.slices| == |ids| && i < |ids|
    ensures ids[i] in t.moves && pr.slices[i].amount.u == t.moves[ids[i]].total - Applied(t.rows, ids[i])
  {
    assert i < |pr.slices| - 1 || i == |pr.slices| - 1;
  }

  // ----- what is recorded

  /** One row for each slice, after the rows that were there; only the invoices named by the slices are refreshed. */
  lemma RowsAreSlices(t: Tables, payment: int, received: Money, moveIds: seq<int>)
    requires AllocationOf(t, payment, received, moveIds).Ok?
    ensures var slices, after := AllocationOf(t, payment, received, moveIds).value.slices,
                                 Allocated(t, payment, received, moveIds);
            && |after.rows| == |t.rows| + |slices| && after.rows[..|t.rows|] == t.rows
            && (forall i :: 0 <= i < |slices| ==>
                  var s := slices[i];
                  after.rows[|t.rows| + i] == Row(payment, s.move, s.amount.u, s.base.u, s.fxDiff.u))
            && after.payments == t.payments && after.moves.Keys == t.moves.Keys
            && (forall id :: id in t.moves ==>
                  after.moves[id].(residual := t.moves[id].residual, state := t.moves[id].state) == t.moves[id])
            && (forall id :: id in t.moves && (forall s :: s in slices ==> s.move != id) ==> after.moves[id] == t.moves[id])
  {
    hide AllocationOf, Applied;
    RecordedRows(t, payment, AllocationOf(t, payment, received, moveIds).value.slices);
  }

  lemma RecordedRows(t: Tables, payment: int, slices: seq<Slice>)
    ensures var after := Recorded(t, payment, slices);
            && |after.rows| == |t.rows| + |slices| && after.rows[..|t.rows|] == t.rows
            && (forall i :: 0 <= i < |slices| ==>
                  var s := slices[i];
                  after.rows[|t.rows| + i] == Row(payment, s.move, s.amount.u, s.base.u, s.fxDiff.u))
            && after.payments == t.payments && after.moves.Keys == t.moves.Keys
            && (forall id :: id in t.moves ==>
                  after.moves[id].(residual := t.moves[id].residual, state := t.moves[id].state) == t.moves[id])
            && (forall id :: id in t.moves && (forall s :: s in slices ==> s.move != id) ==> after.moves[id] == t.moves[id])
  {
    hide Applied;
    forall id | id in t.moves && (forall s :: s in slices ==> s.move != id)
      ensures Recorded(t, payment, slices).moves[id] == t.moves[id]
    {
      assert id !in MovesOf(slices);
    }
  }

  // ----- at which rate

  /** A slice's base amount is its amount at the rate, to within half a micro. */
  predicate AtRate(s: Slice, rate: int)
  {
    2 * Abs(s.base.u * ONE - s.amount.u * rate) <= ONE
  }

  lemma {:induction false} AllAtRate(t: Tables, ids: seq<int>, k: nat, pay: Money, rate: Int64)
    requires k <= |ids| && (forall i :: 0 <= i < |ids| ==> ids[i] in t.moves) && ApplyAll(t, ids, k, pay, rate).Ok?
    ensures forall s :: s in ApplyAll(t, ids, k, pay, rate).value.slices ==> AtRate(s, rate)
  {
    hide ApplyTo;
    if k > 0 {
      AllAtRate(t, ids, k - 1, pay, rate);
      var before := ApplyAll(t, ids, k - 1, pay, rate).value;
      if before.remaining.u != 0 {
        var next := ApplyTo(t, before, ids[k - 1], rate).value;
        if next.slices != before.slices {
          SliceNearRate(t, before, ids[k - 1], rate);
          assert next.slices == before.slices + [next.slices[|before.slices|]];
        }
      }
    }
  }

  /**
   The rate of an allocation is the payment's own, or, when an amount received is given, that amount by the payment's to
   within half a unit; each slice is converted at it, and its difference taken against the rate the invoice was booked at.
   */
  lemma ConvertedAtRate(t: Tables, payment: int, received: Money, moveIds: seq<int>) returns (rate: int)
    requires AllocationOf(t, payment, received, moveIds).Ok?
    ensures var p := t.payments[payment];
            if received.u == 0 || p.amount == 0 then rate == p.rate
            else 2 * Abs(received.u * ONE - rate * p.amount) <= Abs(p.amount)
    ensures forall s :: s in AllocationOf(t, payment, received, moveIds).value.slices ==> AtRate(s, rate) && FxFits(t, s, rate)
  {
    var p := t.payments[payment];
    rate := SettlementRate(p, received).value;
    var ids := OldestFirst(t.moves, OpenMoves(t, p, moveIds));
    AllAtRate(t, ids, |ids|, Money(p.amount, 0), rate);
    RealisedFx(t, payment, received, moveIds);
    if received.u != 0 && p.amount != 0 {
      RateIsNearest(p, received);
    }
    hide OldestFirst, ApplyAll, OpenMoves, FxFits, AtRate;
  }
}
