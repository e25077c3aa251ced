/**
 Open-item payment allocation: a payment is applied to open invoices, oldest first, and an invoice's residual
 is derived from the reconcile rows.
 */
module PaymentAllocation {
  import opened Integers
  import opened Wrappers
  import opened Rounding
  import opened Moneys
  import opened Sets

  datatype PaymentState = NotPaid | Partial | Paid

  datatype Payment = Payment(posted: bool, partner: Option<int>, amount: Int64, rate: Int64, outbound: bool)

  datatype Family = Customer | Vendor | Other

  datatype Move = Move(partner: Option<int>, posted: bool, family: Family, date: int, total: Int64, bookedRate: Int64,
                       residual: int, state: PaymentState)

  datatype Row = Row(payment: int, move: int, amount: Int64, amountBase: Int64, fxDiff: Int64)

  /** The three tables that allocation reads and writes. */
  datatype Tables = Tables(payments: map<int, Payment>, moves: map<int, Move>, rows: seq<Row>)

  datatype AllocationError = NotFoundOrNotPosted | NoPartner | BadMoney(error: MoneyError)

  // ----- residuals

  /** Everything applied to a move. */
  function Applied(rows: seq<Row>, move: int): int
  {
    if rows == [] then 0
    else Applied(rows[..|rows| - 1], move) + (if rows[|rows| - 1].move == move then rows[|rows| - 1].amount else 0)
  }

  /** Everything a payment has applied. */
  function Spent(rows: seq<Row>, payment: int): int
  {
    if rows == [] then 0
    else Spent(rows[..|rows| - 1], payment) + (if rows[|rows| - 1].payment == payment then rows[|rows| - 1].amount else 0)
  }

  function StateOf(residual: int, total: int): PaymentState
  {
    if residual == 0 then Paid else if residual == total then NotPaid else Partial
  }

  function Refreshed(m: Move, rows: seq<Row>, id: int): Move
  {
    var residual := m.total - Applied(rows, id);
    m.(residual := residual, state := StateOf(residual, m.total))
  }

  /** Recompute the residuals of the moves in ids. */
  function RefreshAll(moves: map<int, Move>, rows: seq<Row>, ids: set<int>): (r: map<int, Move>)
    ensures r.Keys == moves.Keys
  {
    map id | id in moves :: if id in ids then Refreshed(moves[id], rows, id) else moves[id]
  }

  // ----- the open invoices, oldest first

  predicate OlderOrSame(moves: map<int, Move>, a: int, b: int)
    requires a in moves && b in moves
  {
    moves[a].date < moves[b].date || (moves[a].date == moves[b].date && a <= b)
  }

  predicate IsOldest(moves: map<int, Move>, ids: set<int>, m: int)
    requires ids <= moves.Keys
  {
    m in ids && forall k :: k in ids ==> OlderOrSame(moves, m, k)
  }

  lemma {:induction false} OldestExists(moves: map<int, Move>, ids: set<int>) returns (m: int)
    requires ids != {} && ids <= moves.Keys
    ensures IsOldest(moves, ids, m)
  {
    var x := Pick(ids);
    m := x;
    if ids != {x} {
      var n := OldestExists(moves, ids - {x});
      if OlderOrSame(moves, n, x) {
        m := n;
      }
      forall k | k in ids ensures OlderOrSame(moves, m, k) {
        assert k == x || k in ids - {x};
      }
    } else {
      forall k | k in ids ensures k == x {
        assert k in {x};
      }
    }
  }

  lemma SomeOldest(moves: map<int, Move>, ids: set<int>)
    requires ids != {} && ids <= moves.Keys
    ensures exists m :: m in ids && IsOldest(moves, ids, m)
  {
    var m := OldestExists(moves, ids);
  }

  ghost function Oldest(moves: map<int, Move>, ids: set<int>): (m: int)
    requires ids != {} && ids <= moves.Keys
    ensures IsOldest(moves, ids, m)
  {
    SomeOldest(moves, ids);
    var m :| m in ids && IsOldest(moves, ids, m);
    m
  }

  /** ORDER BY date, id. */
  ghost function OldestFirst(moves: map<int, Move>, ids: set<int>): (s: seq<int>)
    requires ids <= moves.Keys
    ensures |s| == |ids| && forall x :: x in s <==> x in ids
    ensures Distinct(s)
    decreases |ids|
  {
    if ids == {} then []
    else
      var m := Oldest(moves, ids);
      [m] + OldestFirst(moves, ids - {m})
  }

  lemma OldestComesFirst(moves: map<int, Move>, ids: set<int>, m: int)
    requires ids <= moves.Keys && IsOldest(moves, ids, m)
    ensures OldestFirst(moves, ids) == [m] + OldestFirst(moves, ids - {m})
  {
    assert OlderOrSame(moves, m, Oldest(moves, ids));
  }

  lemma {:induction false} OldestFirstOrdered(moves: map<int, Move>, ids: set<int>, i: nat, j: nat)
    requires ids <= moves.Keys && i < j < |ids|
    ensures var s := OldestFirst(moves, ids); OlderOrSame(moves, s[i], s[j])
    decreases |ids|
  {
    hide OlderOrSame, Oldest, Distinct;
    var m := Oldest(moves, ids);
    var rest := OldestFirst(moves, ids - {m});
    assert OldestFirst(moves, ids) == [m] + rest;
    hide OldestFirst;
    if i > 0 {
      OldestFirstOrdered(moves, ids - {m}, i - 1, j - 1);
    } else {
      assert rest[j - 1] in rest;
      assert rest[j - 1] in ids - {m};
    }
  }

  method SortOldestFirst(moves: map<int, Move>, all: set<int>) returns (ids: seq<int>)
    requires all <= moves.Keys
    ensures ids == OldestFirst(moves, all)
  {
    hide OlderOrSame, IsOldest, Distinct;
    ids := [];
    var rest := all;
    while rest != {}
      invariant rest <= moves.Keys
      invariant ids + OldestFirst(moves, rest) == OldestFirst(moves, all)
      decreases rest
    {
      hide OldestFirst;
      SomeOldest(moves, rest);
      var m :| m in rest && IsOldest(moves, rest, m);
      OldestComesFirst(moves, rest, m);
      MoveOver(ids, m, OldestFirst(moves, rest - {m}));
      ids := ids + [m];
      rest := rest - {m};
    }
  }

  lemma MoveOver(a: seq<int>, m: int, b: seq<int>)
    ensures a + ([m] + b) == (a + [m]) + b
  {
  }

  predicate Matches(t: Tables, p: Payment, moveIds: seq<int>, id: int)
    requires id in t.moves
  {
    var m := t.moves[id];
    && p.partner.Some? && m.partner == p.partner && m.posted
    && m.family == (if p.outbound then Vendor else Customer)
    && (moveIds == [] || id in moveIds)
    && m.total - Applied(t.rows, id) != 0
  }

  function OpenMoves(t: Tables, p: Payment, moveIds: seq<int>): (ids: set<int>)
    ensures ids <= t.moves.Keys
  {
    set id | id in t.moves && Matches(t, p, moveIds, id)
  }

  // ----- applying a payment to one invoice after another

  datatype Slice = Slice(move: int, amount: Money, base: Money, fxDiff: Money)

  datatype Progress = Progress(remaining: Money, slices: seq<Slice>, totalApplied: Money, totalFxDiff: Money)

  function SettlementRate(p: Payment, received: Money): Result<Int64, MoneyError>
  {
    if received.u != 0 && p.amount != 0 then ImpliedRate(Money(p.amount, 0), received) else Ok(p.rate)
  }

  function Lesser(a: Money, b: Money): Money
  {
    if a.u < b.u then a else b
  }

  /** One round of the loop: the lesser of what is left of the payment and what is open on the invoice. */
  function ApplyTo(t: Tables, pr: Progress, id: int, rate: Int64): Result<Progress, MoneyError>
    requires id in t.moves
  {
    var m := t.moves[id];
    var applied :- Clamp(Applied(t.rows, id));
    var residual :- Sub(Money(m.total, 0), Money(applied, 0));
    if residual.u == 0 then Ok(pr)
    else
      var amount := Lesser(pr.remaining, residual);
      var atSettlement :- ConvertTo(amount, 0, rate);
      var atBooked :- ConvertTo(amount, 0, m.bookedRate);
      var fxDiff :- Sub(atSettlement, atBooked);
      var refreshed :- Clamp(residual.u - amount.u);
      var totalApplied :- Add(pr.totalApplied, amount);
      var totalFxDiff :- Add(pr.totalFxDiff, fxDiff);
      var remaining :- Sub(pr.remaining, amount);
      Ok(Progress(remaining, pr.slices + [Slice(id, amount, atSettlement, fxDiff)], totalApplied, totalFxDiff))
  }

  /** The first k rounds over the invoices; the loop ends when nothing remains. */
  function ApplyAll(t: Tables, ids: seq<int>, k: nat, pay: Money, rate: Int64): Result<Progress, MoneyError>
    requires k <= |ids| && forall i :: 0 <= i < |ids| ==> ids[i] in t.moves
  {
    if k == 0 then Ok(Progress(pay, [], Money(0, 0), Money(0, 0)))
    else
      var pr :- ApplyAll(t, ids, k - 1, pay, rate);
      if pr.remaining.u == 0 then Ok(pr) else ApplyTo(t, pr, ids[k - 1], rate)
  }

  function RowsOf(payment: int, slices: seq<Slice>): (r: seq<Row>)
    ensures |r| == |slices|
  {
    seq(|slices|, i requires 0 <= i < |slices| =>
      Row(payment, slices[i].move, slices[i].amount.u, slices[i].base.u, slices[i].fxDiff.u))
  }

  function MovesOf(slices: seq<Slice>): set<int>
  {
    set i | 0 <= i < |slices| :: slices[i].move
  }

  /** The tables once the slices of a payment are recorded. */
  function Recorded(t: Tables, payment: int, slices: seq<Slice>): Tables
  {
    var rows := t.rows + RowsOf(payment, slices);
    t.(rows := rows, moves := RefreshAll(t.moves, rows, MovesOf(slices)))
  }

  /** What an allocation computes, or why it is refused. */
  ghost function AllocationOf(t: Tables, payment: int, received: Money, moveIds: seq<int>): Result<Progress, AllocationError>
  {
    if payment !in t.payments || !t.payments[payment].posted then Err(NotFoundOrNotPosted)
    else if t.payments[payment].partner.None? then Err(NoPartner)
    else
      var p := t.payments[payment];
      match SettlementRate(p, received)
      case Err(e) => Err(BadMoney(e))
      case Ok(rate) =>
        var ids := OldestFirst(t.moves, OpenMoves(t, p, moveIds));
        match ApplyAll(t, ids, |ids|, Money(p.amount, 0), rate)
        case Err(e) => Err(BadMoney(e))
        case Ok(pr) => Ok(pr)
  }

  /** The tables after an allocation; a refused one is rolled back. */
  ghost function Allocated(t: Tables, payment: int, received: Money, moveIds: seq<int>): Tables
  {
    var a := AllocationOf(t, payment, received, moveIds);
    if a.Ok? then Recorded(t, payment, a.value.slices) else t
  }

  function Without(rows: seq<Row>, payment: int): seq<Row>
  {
    if rows == [] then []
    else Without(rows[..|rows| - 1], payment) + (if rows[|rows| - 1].payment == payment then [] else [rows[|rows| - 1]])
  }

  function TouchedBy(rows: seq<Row>, payment: int): set<int>
  {
    set i | 0 <= i < |rows| && rows[i].payment == payment :: rows[i].move
  }

  function Unallocated(t: Tables, payment: int): Tables
  {
    var rows := Without(t.rows, payment);
    t.(rows := rows, moves := RefreshAll(t.moves, rows, TouchedBy(t.rows, payment)))
  }

  // ----- the operations

  class Ledger {
    var payments: map<int, Payment>
    var moves: map<int, Move>
    var rows: seq<Row>

    function Contents(): Tables
      reads this
    {
      Tables(payments, moves, rows)
    }

    method RefreshResidual(id: int)
      modifies `moves
      ensures moves == RefreshAll(old(moves), rows, {id})
    {
      if id !in moves {
        return;
      }
      var total := moves[id].total;
      var residual := total - Applied(rows, id);
      var state := Partial;
      if residual == 0 {
        state := Paid;
      } else if residual == total {
        state := NotPaid;
      }
      moves := moves[id := moves[id].(residual := residual, state := state)];
    }

    method QueryOpen(p: Payment, moveIds: seq<int>) returns (ids: seq<int>)
      ensures ids == OldestFirst(moves, OpenMoves(Contents(), p, moveIds))
    {
      ids := SortOldestFirst(moves, OpenMoves(Contents(), p, moveIds));
    }

    method Allocate(payment: int, received: Money, moveIds: seq<int>) returns (r: Result<Progress, AllocationError>)
      modifies `moves, `rows
      ensures r == AllocationOf(old(Contents()), payment, received, moveIds)
      ensures Contents() == Allocated(old(Contents()), payment, received, moveIds)
    {
      if payment !in payments || !payments[payment].posted {
        return Err(NotFoundOrNotPosted);
      }
      var p := payments[payment];
      if p.partner.None? {
        return Err(NoPartner);
      }
      var rate := SettlementRate(p, received);
      if rate.Err? {
        return Err(BadMoney(rate.error));
      }
      var ids := QueryOpen(p, moveIds);
      r := ApplyPayment(payment, Money(p.amount, 0), rate.value, ids);
    }

    method ApplyPayment(payment: int, pay: Money, rate: Int64, ids: seq<int>) returns (r: Result<Progress, AllocationError>)
      requires Distinct(ids) && forall i :: 0 <= i < |ids| ==> ids[i] in moves
      modifies `moves, `rows
      ensures payments == old(payments)
      ensures var a := ApplyAll(old(Contents()), ids, |ids|, pay, rate);
              && r == (if a.Ok? then Ok(a.value) else Err(BadMoney(a.error)))
              && Contents() == if a.Ok? then Recorded(old(Contents()), payment, a.value.slices) else old(Contents())
    {
      hide ApplyTo, Distinct, RefreshAll, Applied;
      ghost var t := Contents();
      var invoices := Contents();  // the rows that the query returned
      var out := Progress(pay, [], Money(0, 0), Money(0, 0));
      RecordedNothing(t, payment);
      var k := 0;
      while k < |ids| && out.remaining.u != 0
        invariant k <= |ids| && payments == t.payments
        invariant ApplyAll(t, ids, k, pay, rate) == Ok(out)
        invariant Contents() == Recorded(t, payment, out.slices)
        invariant forall i :: k <= i < |ids| ==> ids[i] !in MovesOf(out.slices)
      {
        var next := ApplyTo(invoices, out, ids[k], rate);
        if next.Err? {
          ApplyAllFails(t, ids, k + 1, pay, rate);
          moves, rows := invoices.moves, invoices.rows;  // the transaction is rolled back
          return Err(BadMoney(next.error));
        }
        ApplyToAdds(t, out, ids[k], rate);
        if |next.value.slices| > |out.slices| {
          var s := next.value.slices[|out.slices|];
          assert next.value.slices == out.slices + [s];
          RecordedOneMore(t, payment, out.slices, s);
          MovesOfOneMore(out.slices, s);
          rows := rows + [Row(payment, s.move, s.amount.u, s.base.u, s.fxDiff.u)];
          RefreshResidual(s.move);
          DistinctFrom(ids, k);
        }
        out := next.value;
        k := k + 1;
      }
      ApplyAllStops(t, ids, k, pay, rate);
      r := Ok(out);
    }

    method Unallocate(payment: int)
      modifies `moves, `rows
      ensures Contents() == Unallocated(old(Contents()), payment)
    {
      var affected := TouchedBy(rows, payment);
      rows := Without(rows, payment);
      ghost var before := moves;
      var rest := affected;
      while rest != {}
        invariant rest <= affected && rows == Without(old(rows), payment)
        invariant moves == RefreshAll(before, rows, affected - rest)
        decreases rest
      {
        var id :| id in rest;
        RefreshResidual(id);
        rest := rest - {id};
      }
      assert affected - rest == affected;
    }
  }

  // ----- the loop, step by step

  lemma {:induction false} ApplyAllFails(t: Tables, ids: seq<int>, k: nat, pay: Money, rate: Int64)
    requires k <= |ids| && (forall i :: 0 <= i < |ids| ==> ids[i] in t.moves) && ApplyAll(t, ids, k, pay, rate).Err?
    ensures ApplyAll(t, ids, |ids|, pay, rate) == ApplyAll(t, ids, k, pay, rate)
    decreases |ids| - k
  {
    if k < |ids| {
      ApplyAllFails(t, ids, k + 1, pay, rate);
    }
  }

  lemma {:induction false} ApplyAllStops(t: Tables, ids: seq<int>, k: nat, pay: Money, rate: Int64)
    requires k <= |ids| && (forall i :: 0 <= i < |ids| ==> ids[i] in t.moves) && ApplyAll(t, ids, k, pay, rate).Ok?
    requires k == |ids| || ApplyAll(t, ids, k, pay, rate).value.remaining.u == 0
    ensures ApplyAll(t, ids, |ids|, pay, rate) == ApplyAll(t, ids, k, pay, rate)
    decreases |ids| - k
  {
    if k < |ids| {
      ApplyAllStops(t, ids, k + 1, pay, rate);
    }
  }

  lemma ApplyToAdds(t: Tables, pr: Progress, id: int, rate: Int64)
    requires id in t.moves && ApplyTo(t, pr, id, rate).Ok?
    ensures var next := ApplyTo(t, pr, id, rate).value;
            next.slices == pr.slices || (|next.slices| == |pr.slices| + 1 && next.slices[..|pr.slices|] == pr.slices
                                         && next.slices[|pr.slices|].move == id)
  {
  }

  lemma DistinctFrom(ids: seq<int>, k: nat)
    requires Distinct(ids) && k < |ids|
    ensures forall i :: k < i < |ids| ==> ids[i] != ids[k]
  {
  }

  lemma {:induction false} AppliedConcat(a: seq<Row>, b: seq<Row>, move: int)
    ensures Applied(a + b, move) == Applied(a, move) + Applied(b, move)
  {
    if b == [] {
      assert a + b == a;
    } else {
      assert (a + b)[..|a + b| - 1] == a + b[..|b| - 1];
      AppliedConcat(a, b[..|b| - 1], move);
    }
  }

  lemma RecordedNothing(t: Tables, payment: int)
    ensures Recorded(t, payment, []) == t
  {
    assert t.rows + RowsOf(payment, []) == t.rows;
    assert RefreshAll(t.moves, t.rows, {}) == t.moves;
  }

  lemma MovesOfOneMore(slices: seq<Slice>, s: Slice)
    ensures MovesOf(slices + [s]) == MovesOf(slices) + {s.move}
  {
    var all := slices + [s];
    forall id | id in MovesOf(slices) ensures id in MovesOf(all) {
      var i :| 0 <= i < |slices| && slices[i].move == id;
      assert all[i].move == id;
    }
    assert all[|slices|].move == s.move;
  }

  /** Recording a slice on a further invoice refreshes that invoice and leaves the others as they are. */
  lemma RecordedOneMore(t: Tables, payment: int, slices: seq<Slice>, s: Slice)
    requires s.move !in MovesOf(slices)
    ensures var before, after := Recorded(t, payment, slices), Recorded(t, payment, slices + [s]);
            && after.rows == before.rows + [Row(payment, s.move, s.amount.u, s.base.u, s.fxDiff.u)]
            && after.moves == RefreshAll(before.moves, after.rows, {s.move})
  {
    var before, after := Recorded(t, payment, slices), Recorded(t, payment, slices + [s]);
    var row := Row(payment, s.move, s.amount.u, s.base.u, s.fxDiff.u);
    assert RowsOf(payment, slices + [s]) == RowsOf(payment, slices) + [row];
    assert after.rows == before.rows + [row];
    MovesOfOneMore(slices, s);
    forall id | id in t.moves ensures after.moves[id] == RefreshAll(before.moves, after.rows, {s.move})[id] {
      AppliedConcat(before.rows, [row], id);
      assert [row][..0] == [];
    }
  }

  // ----- invariants over runs

  /** Stored residuals and states are what the rows say. */
  ghost predicate Agrees(t: Tables)
  {
    forall id :: id in t.moves ==> t.moves[id] == Refreshed(t.moves[id], t.rows, id)
  }

  /** Every row applies something positive, and no invoice is over-applied. */
  ghost predicate Bounded(t: Tables)
  {
    && (forall i :: 0 <= i < |t.rows| ==> t.rows[i].amount > 0 && t.rows[i].move in t.moves)
    && (forall id :: id in t.moves ==> 0 <= Applied(t.rows, id) <= t.moves[id].total)
  }

  ghost predicate Invariant(t: Tables)
  {
    Agrees(t) && Bounded(t)
  }

  /** What is stored on an invoice agrees with its rows. */
  predicate AgreesWithRows(t: Tables, id: int)
    requires id in t.moves
  {
    var m := t.moves[id];
    && m.residual == m.total - Applied(t.rows, id)
    && 0 <= m.residual <= m.total
    && (m.state == Paid <==> m.residual == 0)
    && (m.state == NotPaid <==> m.residual == m.total != 0)
  }

  lemma InvariantMeans(t: Tables, id: int)
    requires Invariant(t) && id in t.moves
    ensures AgreesWithRows(t, id)
  {
    assert t.moves[id] == Refreshed(t.moves[id], t.rows, id);
  }

  function Owed(t: Tables, id: int): int
    requires id in t.moves
  {
    t.moves[id].total - Applied(t.rows, id)
  }

  function SumOf(slices: seq<Slice>): int
  {
    if slices == [] then 0 else SumOf(slices[..|slices| - 1]) + slices[|slices| - 1].amount.u
  }

  /**
   The payment went to the invoices in order: every invoice it reached but the last was settled in full, and the
   last one too unless the payment is used up.
   */
  ghost predicate Greedy(t: Tables, ids: seq<int>, pay: int, pr: Progress)
  {
    var n := |pr.slices|;
    && n <= |ids|
    && (forall i :: 0 <= i < n ==> ids[i] in t.moves && pr.slices[i].move == ids[i])
    && (forall i :: 0 <= i < n ==> 0 < pr.slices[i].amount.u <= Owed(t, ids[i]))
    && (forall i :: 0 <= i < n - 1 ==> pr.slices[i].amount.u == Owed(t, ids[i]))
    && (pr.remaining.u > 0 && n > 0 ==> pr.slices[n - 1].amount.u == Owed(t, ids[n - 1]))
    && 0 <= pr.remaining.u
    && SumOf(pr.slices) + pr.remaining.u == pay
    && pr.totalApplied.u == SumOf(pr.slices)
  }

  /** All invoices that a query returns owe something. */
  ghost predicate Open(t: Tables, ids: seq<int>)
  {
    forall i :: 0 <= i < |ids| ==> ids[i] in t.moves && Owed(t, ids[i]) > 0
  }

  /** What one round gives when the invoice owes something. */
  lemma ApplyToFacts(t: Tables, pr: Progress, id: int, rate: Int64)
    requires id in t.moves && Owed(t, id) > 0 && 0 <= Applied(t.rows, id) <= t.moves[id].total
    requires pr.remaining.u > 0 && ApplyTo(t, pr, id, rate).Ok?
    ensures var next := ApplyTo(t, pr, id, rate).value;
            && |next.slices| == |pr.slices| + 1 && next.slices[..|pr.slices|] == pr.slices
            && var s := next.slices[|pr.slices|];
               && s.move == id && s.amount.u == (if pr.remaining.u < Owed(t, id) then pr.remaining.u else Owed(t, id))
               && next.remaining.u == pr.remaining.u - s.amount.u
               && next.totalApplied.u == pr.totalApplied.u + s.amount.u
  {
  }

  lemma GreedyStep(t: Tables, ids: seq<int>, pay: int, pr: Progress, next: Progress)
    requires Greedy(t, ids, pay, pr) && pr.remaining.u > 0 && |pr.slices| < |ids|
    requires var k := |pr.slices|;
             && ids[k] in t.moves && Owed(t, ids[k]) > 0
             && |next.slices| == k + 1 && next.slices[..k] == pr.slices
             && var s := next.slices[k];
                && s.move == ids[k]
                && s.amount.u == (if pr.remaining.u < Owed(t, ids[k]) then pr.remaining.u else Owed(t, ids[k]))
                && next.remaining.u == pr.remaining.u - s.amount.u
                && next.totalApplied.u == pr.totalApplied.u + s.amount.u
    ensures Greedy(t, ids, pay, next)
  {
    hide Owed;
    var k := |pr.slices|;
    forall i | 0 <= i < k ensures next.slices[i] == pr.slices[i] {
      assert next.slices[..k][i] == next.slices[i];
    }
  }

  lemma {:induction false} ApplyAllIsGreedy(t: Tables, ids: seq<int>, k: nat, pay: Money, rate: Int64)
    requires Bounded(t) && Open(t, ids) && pay.u >= 0 && k <= |ids|
    requires ApplyAll(t, ids, k, pay, rate).Ok?
    ensures var pr := ApplyAll(t, ids, k, pay, rate).value;
            Greedy(t, ids, pay.u, pr) && (pr.remaining.u > 0 ==> |pr.slices| == k) && |pr.slices| <= k
  {
    hide ApplyTo;
    if k > 0 {
      ApplyAllIsGreedy(t, ids, k - 1, pay, rate);
      var before := ApplyAll(t, ids, k - 1, pay, rate).value;
      if before.remaining.u != 0 {
        assert 0 <= Applied(t.rows, ids[k - 1]) <= t.moves[ids[k - 1]].total;
        hide Owed, Applied, Greedy;
        assert 0 < before.remaining.u by {
          GreedyRemaining(t, ids, pay.u, before);
        }
        ApplyToFacts(t, before, ids[k - 1], rate);
        GreedyStep(t, ids, pay.u, before, ApplyTo(t, before, ids[k - 1], rate).value);
      }
    }
  }

  lemma GreedyRemaining(t: Tables, ids: seq<int>, pay: int, pr: Progress)
    requires Greedy(t, ids, pay, pr)
    ensures 0 <= pr.remaining.u
  {
  }

  /** Recording slices adds exactly their amounts to the invoices they name. */
  lemma {:induction false} AppliedOfRows(payment: int, slices: seq<Slice>, move: int)
    requires Distinct(seq(|slices|, i requires 0 <= i < |slices| => slices[i].move))
    ensures move !in MovesOf(slices) ==> Applied(RowsOf(payment, slices), move) == 0
    ensures forall i :: 0 <= i < |slices| && slices[i].move == move ==>
              Applied(RowsOf(payment, slices), move) == slices[i].amount.u
  {
    var rows := RowsOf(payment, slices);
    if slices != [] {
      var init, last := slices[..|slices| - 1], slices[|slices| - 1];
      var names := seq(|slices|, i requires 0 <= i < |slices| => slices[i].move);
      assert seq(|init|, i requires 0 <= i < |init| => init[i].move) == names[..|init|];
      assert rows[..|rows| - 1] == RowsOf(payment, init);
      AppliedOfRows(payment, init, move);
      assert slices == init + [last];
      MovesOfOneMore(init, last);
      if last.move == move {
        forall i | 0 <= i < |init| ensures init[i].move != move {
          assert names[i] != names[|init|];
        }
        assert move !in MovesOf(init);
      }
    }
  }

  lemma GreedyNamesDistinct(t: Tables, ids: seq<int>, pay: int, pr: Progress)
    requires Greedy(t, ids, pay, pr) && Distinct(ids)
    ensures Distinct(seq(|pr.slices|, i requires 0 <= i < |pr.slices| => pr.slices[i].move))
  {
  }

  /** Recording a greedy allocation keeps the invariant. */
  lemma RecordedKeepsInvariant(t: Tables, payment: int, ids: seq<int>, pay: int, pr: Progress)
    requires Invariant(t) && Open(t, ids) && Distinct(ids) && Greedy(t, ids, pay, pr)
    ensures Invariant(Recorded(t, payment, pr.slices))
  {
    var r := Recorded(t, payment, pr.slices);
    forall id | id in r.moves
      ensures r.moves[id] == Refreshed(r.moves[id], r.rows, id)
      ensures 0 <= Applied(r.rows, id) <= r.moves[id].total
    {
      RecordedMove(t, payment, ids, pay, pr, id);
    }
    NewRowsAreGood(t, payment, ids, pay, pr);
  }

  lemma NewRowsAreGood(t: Tables, payment: int, ids: seq<int>, pay: int, pr: Progress)
    requires Greedy(t, ids, pay, pr)
    ensures var rows := RowsOf(payment, pr.slices);
            forall i :: 0 <= i < |rows| ==> rows[i].amount > 0 && rows[i].move in t.moves
  {
  }

  lemma RecordedMove(t: Tables, payment: int, ids: seq<int>, pay: int, pr: Progress, id: int)
    requires Invariant(t) && Distinct(ids) && Greedy(t, ids, pay, pr) && id in t.moves
    ensures var r := Recorded(t, payment, pr.slices);
            r.moves[id] == Refreshed(r.moves[id], r.rows, id) && 0 <= Applied(r.rows, id) <= r.moves[id].total
  {
    assert t.moves[id] == Refreshed(t.moves[id], t.rows, id) && 0 <= Applied(t.rows, id) <= t.moves[id].total;
    RecordedApplied(t, payment, ids, pay, pr, id);
    hide Distinct, Applied, RowsOf, Greedy, Invariant, MovesOf;
  }

  lemma RecordedApplied(t: Tables, payment: int, ids: seq<int>, pay: int, pr: Progress, id: int)
    requires Distinct(ids) && Greedy(t, ids, pay, pr) && id in t.moves
    ensures var now := Applied(Recorded(t, payment, pr.slices).rows, id);
            if id in MovesOf(pr.slices) then Applied(t.rows, id) <= now <= t.moves[id].total else now == Applied(t.rows, id)
  {
    GreedyNamesDistinct(t, ids, pay, pr);
    if id in MovesOf(pr.slices) {
      GreedyAmount(t, ids, pay, pr, id);
    }
    hide Greedy, Applied, Distinct;
    AppliedConcat(t.rows, RowsOf(payment, pr.slices), id);
    AppliedOfRows(payment, pr.slices, id);
  }

  lemma GreedyAmount(t: Tables, ids: seq<int>, pay: int, pr: Progress, id: int)
    requires Greedy(t, ids, pay, pr) && id in MovesOf(pr.slices) && id in t.moves
    ensures exists i :: 0 <= i < |pr.slices| && pr.slices[i].move == id && 0 < pr.slices[i].amount.u <= Owed(t, id)
  {
    var i :| 0 <= i < |pr.slices| && pr.slices[i].move == id;
    assert ids[i] == id;
  }

  lemma {:induction false} AppliedWithout(rows: seq<Row>, payment: int, move: int)
    requires forall i :: 0 <= i < |rows| ==> rows[i].amount > 0
    ensures 0 <= Applied(Without(rows, payment), move) <= Applied(rows, move)
    ensures move !in TouchedBy(rows, payment) ==> Applied(Without(rows, payment), move) == Applied(rows, move)
    ensures forall i :: 0 <= i < |Without(rows, payment)| ==> Without(rows, payment)[i] in rows
  {
    if rows != [] {
      var init, last := rows[..|rows| - 1], rows[|rows| - 1];
      AppliedWithout(init, payment, move);
      assert rows == init + [last];
      AppliedConcat(Without(init, payment), [last], move);
      assert [last][..0] == [];
      hide TouchedBy;
      assert Without(init, payment) + [] == Without(init, payment);
      TouchedEarlier(rows, payment);
    }
  }

  lemma TouchedEarlier(rows: seq<Row>, payment: int)
    requires rows != []
    ensures TouchedBy(rows[..|rows| - 1], payment) <= TouchedBy(rows, payment)
    ensures rows[|rows| - 1].payment == payment ==> rows[|rows| - 1].move in TouchedBy(rows, payment)
  {
    var init := rows[..|rows| - 1];
    forall id | id in TouchedBy(init, payment) ensures id in TouchedBy(rows, payment) {
      var i :| 0 <= i < |init| && init[i].payment == payment && init[i].move == id;
      assert rows[i].payment == payment && rows[i].move == id;
    }
  }

  lemma UnallocatedKeepsInvariant(t: Tables, payment: int)
    requires Invariant(t)
    ensures Invariant(Unallocated(t, payment))
  {
    var u := Unallocated(t, payment);
    AppliedWithout(t.rows, payment, 0);
    forall id | id in u.moves
      ensures u.moves[id] == Refreshed(u.moves[id], u.rows, id)
      ensures 0 <= Applied(u.rows, id) <= u.moves[id].total
    {
      AppliedWithout(t.rows, payment, id);
      assert t.moves[id] == Refreshed(t.moves[id], t.rows, id);
    }
  }

  // ----- what one allocation guarantees

  ghost function Selected(t: Tables, payment: int, moveIds: seq<int>): (ids: seq<int>)
    requires payment in t.payments
  {
    OldestFirst(t.moves, OpenMoves(t, t.payments[payment], moveIds))
  }

  lemma SelectedIsOpen(t: Tables, payment: int, moveIds: seq<int>)
    requires Bounded(t) && payment in t.payments
    ensures Open(t, Selected(t, payment, moveIds)) && Distinct(Selected(t, payment, moveIds))
  {
    var ids := Selected(t, payment, moveIds);
    hide OldestFirst;
    forall i | 0 <= i < |ids| ensures ids[i] in t.moves && Owed(t, ids[i]) > 0 {
      assert ids[i] in ids;
      assert 0 <= Applied(t.rows, ids[i]) <= t.moves[ids[i]].total;
    }
  }

  /** Oldest first, nothing lost: what was applied and what is left over add up to the payment. */
  lemma AllocationIsGreedy(t: Tables, payment: int, received: Money, moveIds: seq<int>)
    requires Bounded(t) && AllocationOf(t, payment, received, moveIds).Ok? && t.payments[payment].amount >= 0
    ensures var ids, pr := Selected(t, payment, moveIds), AllocationOf(t, payment, received, moveIds).value;
            && Open(t, ids) && Distinct(ids)
            && Greedy(t, ids, t.payments[payment].amount, pr)
            && (pr.remaining.u > 0 ==> |pr.slices| == |ids|)
  {
    SelectedIsOpen(t, payment, moveIds);
    var ids := Selected(t, payment, moveIds);
    var rate := SettlementRate(t.payments[payment], received).value;
    hide OldestFirst, Greedy, Open, Distinct, Bounded, ApplyAll;
    ApplyAllIsGreedy(t, ids, |ids|, Money(t.payments[payment].amount, 0), rate);
  }

  lemma AllocatedKeepsInvariant(t: Tables, payment: int, received: Money, moveIds: seq<int>)
    requires Invariant(t) && (payment in t.payments ==> t.payments[payment].amount >= 0)
    ensures Invariant(Allocated(t, payment, received, moveIds))
  {
    hide Invariant, Greedy, Open, Distinct, AllocationOf, Recorded, Selected;
    if AllocationOf(t, payment, received, moveIds).Ok? {
      InvariantBounds(t);
      assert payment in t.payments by { AcceptedPayment(t, payment, received, moveIds); }
      AllocationIsGreedy(t, payment, received, moveIds);
      RecordedKeepsInvariant(t, payment, Selected(t, payment, moveIds), t.payments[payment].amount,
                             AllocationOf(t, payment, received, moveIds).value);
    }
  }

  lemma InvariantBounds(t: Tables)
    requires Invariant(t)
    ensures Bounded(t)
  {
  }

  lemma AcceptedPayment(t: Tables, payment: int, received: Money, moveIds: seq<int>)
    requires AllocationOf(t, payment, received, moveIds).Ok?
    ensures payment in t.payments && t.payments[payment].posted && t.payments[payment].partner.Some?
  {
  }

  lemma SettledInFull(t: Tables, payment: int, ids: seq<int>, pay: int, pr: Progress, i: nat)
    requires Greedy(t, ids, pay, pr) && Distinct(ids) && i < |pr.slices| - 1
    ensures var m := Recorded(t, payment, pr.slices).moves[ids[i]]; m.residual == 0 && m.state == Paid
  {
    GreedyNamesDistinct(t, ids, pay, pr);
    AppliedConcat(t.rows, RowsOf(payment, pr.slices), ids[i]);
    AppliedOfRows(payment, pr.slices, ids[i]);
    assert pr.slices[i].move == ids[i];
    assert ids[i] in MovesOf(pr.slices);
  }

  /** An invoice is touched only when every older one that was selected has been settled in full. */
  lemma OlderInvoicesArePaid(t: Tables, payment: int, received: Money, moveIds: seq<int>, i: nat, j: nat)
    requires Bounded(t) && AllocationOf(t, payment, received, moveIds).Ok? && t.payments[payment].amount >= 0
    requires i < j < |AllocationOf(t, payment, received, moveIds).value.slices|
    ensures var ids, after := Selected(t, payment, moveIds), Allocated(t, payment, received, moveIds);
            && j < |ids| && ids[i] in t.moves && ids[j] in t.moves
            && AllocationOf(t, payment, received, moveIds).value.slices[j].move == ids[j]
            && OlderOrSame(t.moves, ids[i], ids[j])
            && after.moves[ids[i]].residual == 0 && after.moves[ids[i]].state == Paid
  {
    AllocationIsGreedy(t, payment, received, moveIds);
    var ids, pr := Selected(t, payment, moveIds), AllocationOf(t, payment, received, moveIds).value;
    assert j < |ids| && ids[i] in t.moves && ids[j] in t.moves && pr.slices[j].move == ids[j];
    OldestFirstOrdered(t.moves, OpenMoves(t, t.payments[payment], moveIds), i, j);
    hide OldestFirst, OlderOrSame, AllocationOf, Recorded, Greedy;
    SettledInFull(t, payment, ids, t.payments[payment].amount, pr, i);
  }

  // ----- runs

  datatype Step = Allocate(payment: int, received: Money, moveIds: seq<int>) | Unallocate(payment: int)

  ghost function Run(t: Tables, steps: seq<Step>): Tables
  {
    if steps == [] then t
    else
      var before := Run(t, steps[..|steps| - 1]);
      match steps[|steps| - 1]
      case Allocate(p, received, moveIds) => Allocated(before, p, received, moveIds)
      case Unallocate(p) => Unallocated(before, p)
  }

  /**
   After any run of allocations and reversals of payments that are not negative, every invoice's stored residual is its
   total less what its rows apply, lies between zero and the total, and decides the stored state.
   */
  lemma {:induction false} RunKeepsInvariant(t: Tables, steps: seq<Step>)
    requires Invariant(t) && forall p :: p in t.payments ==> t.payments[p].amount >= 0
    ensures Invariant(Run(t, steps)) && Run(t, steps).payments == t.payments
    ensures Run(t, steps).moves.Keys == t.moves.Keys
    ensures forall id :: id in t.moves ==> AgreesWithRows(Run(t, steps), id)
  {
    hide Invariant, AllocationOf, AgreesWithRows;
    if steps != [] {
      var before := Run(t, steps[..|steps| - 1]);
      RunKeepsInvariant(t, steps[..|steps| - 1]);
      match steps[|steps| - 1] {
        case Allocate(p, received, moveIds) => AllocatedKeepsInvariant(before, p, received, moveIds);
        case Unallocate(p) => UnallocatedKeepsInvariant(before, p);
      }
    }
    forall id | id in t.moves ensures AgreesWithRows(Run(t, steps), id) {
      InvariantMeans(Run(t, steps), id);
    }
  }

  // ----- reversal

  predicate HasRows(rows: seq<Row>, payment: int)
  {
    exists i :: 0 <= i < |rows| && rows[i].payment == payment
  }

  lemma {:induction false} WithoutSame(rows: seq<Row>, payment: int)
    ensures |Without(rows, payment)| <= |rows|
    ensures Without(rows, payment) == rows <==> !HasRows(rows, payment)
  {
    if rows != [] {
      var init, last := rows[..|rows| - 1], rows[|rows| - 1];
      WithoutSame(init, payment);
      assert rows == init + [last];
      if HasRows(init, payment) {
        var i :| 0 <= i < |init| && init[i].payment == payment;
        assert rows[i].payment == payment;
      } else if last.payment == payment {
        assert rows[|rows| - 1].payment == payment;
      }
    }
  }

  lemma {:induction false} WithoutConcat(a: seq<Row>, b: seq<Row>, payment: int)
    ensures Without(a + b, payment) == Without(a, payment) + Without(b, payment)
  {
    if b == [] {
      assert a + b == a;
    } else {
      assert (a + b)[..|a + b| - 1] == a + b[..|b| - 1];
      WithoutConcat(a, b[..|b| - 1], payment);
    }
  }

  lemma {:induction false} WithoutOwn(payment: int, slices: seq<Slice>)
    ensures Without(RowsOf(payment, slices), payment) == []
  {
    if slices != [] {
      var rows := RowsOf(payment, slices);
      assert rows[..|rows| - 1] == RowsOf(payment, slices[..|slices| - 1]);
      WithoutOwn(payment, slices[..|slices| - 1]);
    }
  }

  /** Unallocating restores the tables exactly when the payment had no rows before. */
  lemma UnallocateUndoes(t: Tables, payment: int, received: Money, moveIds: seq<int>)
    requires Agrees(t)
    ensures Unallocated(Allocated(t, payment, received, moveIds), payment) == t <==> !HasRows(t.rows, payment)
  {
    var a := AllocationOf(t, payment, received, moveIds);
    hide AllocationOf;
    UndoRecorded(t, payment, if a.Ok? then a.value.slices else []);
    RecordedNothing(t, payment);
  }

  lemma UndoRecorded(t: Tables, payment: int, slices: seq<Slice>)
    requires Agrees(t)
    ensures Unallocated(Recorded(t, payment, slices), payment) == t <==> !HasRows(t.rows, payment)
  {
    var r := Recorded(t, payment, slices);
    var u := Unallocated(r, payment);
    WithoutConcat(t.rows, RowsOf(payment, slices), payment);
    WithoutOwn(payment, slices);
    WithoutSame(t.rows, payment);
    assert u.rows == Without(t.rows, payment);
    if !HasRows(t.rows, payment) {
      hide Without, HasRows;
      forall id | id in t.moves ensures u.moves[id] == t.moves[id] {
        assert t.moves[id] == Refreshed(t.moves[id], t.rows, id);
        if id in MovesOf(slices) {
          TouchedOwn(t.rows, payment, slices, id);
        }
      }
      assert u.moves == t.moves;
    }
  }

  lemma TouchedOwn(rows: seq<Row>, payment: int, slices: seq<Slice>, id: int)
    requires id in MovesOf(slices)
    ensures id in TouchedBy(rows + RowsOf(payment, slices), payment)
  {
    var all := rows + RowsOf(payment, slices);
    var i :| 0 <= i < |slices| && slices[i].move == id;
    assert all[|rows| + i].payment == payment && all[|rows| + i].move == id;
  }

  // ----- the unallocated credit

  lemma {:induction false} SpentConcat(a: seq<Row>, b: seq<Row>, payment: int)
    ensures Spent(a + b, payment) == Spent(a, payment) + Spent(b, payment)
  {
    if b == [] {
      assert a + b == a;
    } else {
      assert (a + b)[..|a + b| - 1] == a + b[..|b| - 1];
      SpentConcat(a, b[..|b| - 1], payment);
    }
  }

  lemma {:induction false} SpentOwn(payment: int, slices: seq<Slice>)
    ensures Spent(RowsOf(payment, slices), payment) == SumOf(slices)
  {
    if slices != [] {
      var rows := RowsOf(payment, slices);
      assert rows[..|rows| - 1] == RowsOf(payment, slices[..|slices| - 1]);
      SpentOwn(payment, slices[..|slices| - 1]);
    }
  }

  lemma {:induction false} SpentNone(rows: seq<Row>, payment: int)
    requires forall i :: 0 <= i < |rows| ==> rows[i].amount > 0
    ensures Spent(rows, payment) >= 0
    ensures Spent(rows, payment) == 0 <==> !HasRows(rows, payment)
  {
    if rows != [] {
      var init, last := rows[..|rows| - 1], rows[|rows| - 1];
      SpentNone(init, payment);
      if HasRows(init, payment) {
        var i :| 0 <= i < |init| && init[i].payment == payment;
        assert rows[i].payment == payment;
      } else if last.payment == payment {
        assert rows[|rows| - 1].payment == payment;
      }
      assert rows == init + [last];
    }
  }

  /**
   The credit that allocate reports is the one the unallocated view derives, amount minus all the payment's rows,
   exactly when the payment had no rows before; otherwise the view is lower by what had been applied already.
   */
  lemma ReportedCredit(t: Tables, payment: int, received: Money, moveIds: seq<int>)
    requires Bounded(t) && AllocationOf(t, payment, received, moveIds).Ok? && t.payments[payment].amount >= 0
    ensures var pr, after := AllocationOf(t, payment, received, moveIds).value, Allocated(t, payment, received, moveIds);
            var view := t.payments[payment].amount - Spent(after.rows, payment);
            && view == pr.remaining.u - Spent(t.rows, payment)
            && (view == pr.remaining.u <==> !HasRows(t.rows, payment))
  {
    AllocationIsGreedy(t, payment, received, moveIds);
    var pr := AllocationOf(t, payment, received, moveIds).value;
    hide AllocationOf, Spent, HasRows;
    SpentConcat(t.rows, RowsOf(payment, pr.slices), payment);
    SpentOwn(payment, pr.slices);
    SpentNone(t.rows, payment);
  }

  /** No payment has applied more than its amount: the view never shows a negative credit. */
  ghost predicate Covered(t: Tables)
  {
    forall p :: p in t.payments ==> 0 <= Spent(t.rows, p) <= t.payments[p].amount
  }

  lemma {:induction false} SpentByOther(slices: seq<Slice>, payment: int, other: int)
    requires other != payment
    ensures Spent(RowsOf(payment, slices), other) == 0
  {
    if slices != [] {
      var rows := RowsOf(payment, slices);
      assert rows[..|rows| - 1] == RowsOf(payment, slices[..|slices| - 1]);
      SpentByOther(slices[..|slices| - 1], payment, other);
    }
  }

  lemma {:induction false} SpentWithout(rows: seq<Row>, payment: int, p: int)
    ensures Spent(Without(rows, payment), p) == if p == payment then 0 else Spent(rows, p)
  {
    if rows != [] {
      var init, last := rows[..|rows| - 1], rows[|rows| - 1];
      SpentWithout(init, payment, p);
      SpentConcat(Without(init, payment), [last], p);
      assert [last][..0] == [];
      assert Without(init, payment) + [] == Without(init, payment);
    }
  }

  /** What the invoices of a list owe together. */
  function TotalOwed(t: Tables, ids: seq<int>): int
    requires forall i :: 0 <= i < |ids| ==> ids[i] in t.moves
  {
    if ids == [] then 0 else TotalOwed(t, ids[..|ids| - 1]) + Owed(t, ids[|ids| - 1])
  }

  /** Slices that are at most what is owed, and whether they are exactly that. */
  lemma {:induction false} SlicesAndOwed(t: Tables, ids: seq<int>, slices: seq<Slice>, n: nat)
    requires Open(t, ids) && n <= |slices| && n <= |ids|
    requires forall i :: 0 <= i < n ==> slices[i].amount.u <= Owed(t, ids[i])
    ensures SumOf(slices[..n]) <= TotalOwed(t, ids[..n])
    ensures (forall i :: 0 <= i < n ==> slices[i].amount.u == Owed(t, ids[i])) ==> SumOf(slices[..n]) == TotalOwed(t, ids[..n])
  {
    if n > 0 {
      SlicesAndOwed(t, ids, slices, n - 1);
      assert slices[..n][..n - 1] == slices[..n - 1] && ids[..n][..n - 1] == ids[..n - 1];
      hide Owed;
    }
  }

  lemma {:induction false} OwedGrows(t: Tables, ids: seq<int>, n: nat)
    requires Open(t, ids) && n <= |ids|
    ensures TotalOwed(t, ids[..n]) <= TotalOwed(t, ids)
    decreases |ids| - n
  {
    if n == |ids| {
      assert ids[..n] == ids;
    } else {
      assert ids[..n + 1][..n] == ids[..n];
      assert Owed(t, ids[n]) > 0;
      OwedGrows(t, ids, n + 1);
    }
  }

  /** What a payment leaves over is what it has beyond everything that the selected invoices owe. */
  lemma LeftOver(t: Tables, ids: seq<int>, pay: int, pr: Progress)
    requires Open(t, ids) && Greedy(t, ids, pay, pr) && (pr.remaining.u > 0 ==> |pr.slices| == |ids|)
    ensures pr.remaining.u == if pay > TotalOwed(t, ids) then pay - TotalOwed(t, ids) else 0
  {
    var n := |pr.slices|;
    SlicesAndOwed(t, ids, pr.slices, n);
    OwedGrows(t, ids, n);
    assert pr.slices[..n] == pr.slices;
    if pr.remaining.u > 0 {
      assert ids[..n] == ids;
      forall i | 0 <= i < n ensures pr.slices[i].amount.u == Owed(t, ids[i]) {
        assert i < n - 1 || i == n - 1;
      }
    }
  }

  lemma RemainingIsLeftOver(t: Tables, payment: int, received: Money, moveIds: seq<int>)
    requires Bounded(t) && AllocationOf(t, payment, received, moveIds).Ok? && t.payments[payment].amount >= 0
    ensures var ids, pay := Selected(t, payment, moveIds), t.payments[payment].amount;
            && Open(t, ids)
            && AllocationOf(t, payment, received, moveIds).value.remaining.u
               == if pay > TotalOwed(t, ids) then pay - TotalOwed(t, ids) else 0
  {
    AllocationIsGreedy(t, payment, received, moveIds);
    hide AllocationOf, Selected, Greedy, Open, Distinct;
    LeftOver(t, Selected(t, payment, moveIds), t.payments[payment].amount,
             AllocationOf(t, payment, received, moveIds).value);
  }

  /**
   An allocation keeps every payment covered by its amount, exactly when the payment has no rows yet or its rows and
   everything that the selected invoices owe are within its amount.
   */
  lemma AllocatedKeepsCovered(t: Tables, payment: int, received: Money, moveIds: seq<int>)
    requires Bounded(t) && Covered(t) && AllocationOf(t, payment, received, moveIds).Ok?
    ensures Open(t, Selected(t, payment, moveIds))
    ensures Covered(Allocated(t, payment, received, moveIds))
       <==> !HasRows(t.rows, payment)
            || Spent(t.rows, payment) + TotalOwed(t, Selected(t, payment, moveIds)) <= t.payments[payment].amount
  {
    AcceptedPayment(t, payment, received, moveIds);
    assert t.payments[payment].amount >= Spent(t.rows, payment) >= 0;
    RemainingIsLeftOver(t, payment, received, moveIds);
    SpentNone(t.rows, payment);
    hide AllocationOf, Spent, Greedy, Bounded, Open, SumOf, RowsOf, Recorded, Selected, Distinct, Covered, Allocated, HasRows;
    CoveredByRest(t, payment, received, moveIds);
  }

  lemma CoveredByRest(t: Tables, payment: int, received: Money, moveIds: seq<int>)
    requires Bounded(t) && Covered(t) && AllocationOf(t, payment, received, moveIds).Ok?
    ensures Covered(Allocated(t, payment, received, moveIds))
       <==> AllocationOf(t, payment, received, moveIds).value.remaining.u >= Spent(t.rows, payment)
  {
    AcceptedPayment(t, payment, received, moveIds);
    assert t.payments[payment].amount >= Spent(t.rows, payment) >= 0;
    AllocationIsGreedy(t, payment, received, moveIds);
    var pr := AllocationOf(t, payment, received, moveIds).value;
    hide AllocationOf, Spent, Greedy, Bounded, Open, SumOf, Recorded, Selected, Distinct, Covered;
    PositiveSum(t, Selected(t, payment, moveIds), t.payments[payment].amount, pr);
    CoveredAfter(t, payment, pr.slices);
  }

  lemma CoveredAfter(t: Tables, payment: int, slices: seq<Slice>)
    requires Covered(t) && payment in t.payments && SumOf(slices) >= 0
    ensures Covered(Recorded(t, payment, slices))
       <==> Spent(t.rows, payment) + SumOf(slices) <= t.payments[payment].amount
  {
    hide Spent, SumOf, Recorded;
    SamePayments(t, payment, slices);
    forall p | p in t.payments
      ensures Spent(Recorded(t, payment, slices).rows, p) == Spent(t.rows, p) + if p == payment then SumOf(slices) else 0
    {
      SpentAfter(t, payment, slices, p);
    }
  }

  lemma SamePayments(t: Tables, payment: int, slices: seq<Slice>)
    ensures Recorded(t, payment, slices).payments == t.payments
  {
  }

  lemma SpentAfter(t: Tables, payment: int, slices: seq<Slice>, p: int)
    ensures Spent(Recorded(t, payment, slices).rows, p) == Spent(t.rows, p) + if p == payment then SumOf(slices) else 0
  {
    hide Spent, SumOf;
    SpentConcat(t.rows, RowsOf(payment, slices), p);
    if p == payment { SpentOwn(payment, slices); } else { SpentByOther(slices, payment, p); }
  }

  lemma PositiveSum(t: Tables, ids: seq<int>, pay: int, pr: Progress)
    requires Greedy(t, ids, pay, pr)
    ensures SumOf(pr.slices) >= 0 && SumOf(pr.slices) + pr.remaining.u == pay
  {
    SumOfPositive(pr.slices);
  }

  lemma {:induction false} SumOfPositive(slices: seq<Slice>)
    requires forall i :: 0 <= i < |slices| ==> slices[i].amount.u > 0
    ensures SumOf(slices) >= 0
  {
    if slices != [] {
      SumOfPositive(slices[..|slices| - 1]);
    }
  }

  /** Payments are allocated only while they have no rows. */
  ghost predicate NoDoubleAllocation(t: Tables, steps: seq<Step>)
  {
    steps == []
    || var before, s := Run(t, steps[..|steps| - 1]), steps[|steps| - 1];
       NoDoubleAllocation(t, steps[..|steps| - 1]) && (s.Allocate? ==> !HasRows(before.rows, s.payment))
  }

  lemma StepKeepsCovered(t: Tables, s: Step)
    requires Invariant(t) && Covered(t) && (s.Allocate? ==> !HasRows(t.rows, s.payment))
    ensures match s
            case Allocate(p, received, moveIds) => Covered(Allocated(t, p, received, moveIds))
            case Unallocate(p) => Covered(Unallocated(t, p))
  {
    match s {
      case Allocate(p, received, moveIds) =>
        if AllocationOf(t, p, received, moveIds).Ok? {
          hide AllocationOf, Spent, Greedy, Covered, Allocated, HasRows, Open, Distinct;
          AllocatedKeepsCovered(t, p, received, moveIds);
        }
      case Unallocate(p) =>
        forall q | q in t.payments ensures 0 <= Spent(Unallocated(t, p).rows, q) <= t.payments[q].amount {
          SpentWithout(t.rows, p, q);
        }
    }
  }

  /** Over any run in which payments are allocated only while they have no rows, every payment stays covered. */
  lemma {:induction false} RunKeepsCovered(t: Tables, steps: seq<Step>)
    requires Invariant(t) && Covered(t) && NoDoubleAllocation(t, steps)
    ensures Covered(Run(t, steps))
  {
    hide Invariant, Allocated, Unallocated, HasRows;
    if steps != [] {
      var init := steps[..|steps| - 1];
      RunKeepsCovered(t, init);
      forall p | p in t.payments ensures t.payments[p].amount >= 0 {
      }
      RunKeepsInvariant(t, init);
      hide Covered;
      StepKeepsCovered(Run(t, init), steps[|steps| - 1]);
    }
  }

  /** A concrete payment of 100, already applied in full, that applies another 100: the view goes to -100. */
  lemma SecondAllocationOverspends()
    ensures exists t, payment, received, moveIds ::
              && Invariant(t) && payment in t.payments && t.payments[payment].amount == 100
              && AllocationOf(t, payment, received, moveIds).Ok?
              && Spent(Allocated(t, payment, received, moveIds).rows, payment) == 200
  {
    var invoice := Move(Some(7), true, Customer, 0, 100, ONE, 100, NotPaid);
    var settled := Move(Some(7), true, Customer, 0, 100, ONE, 0, Paid);
    var row := Row(1, 1, 100, 100, 0);
    var t := Tables(map[1 := Payment(true, Some(7), 100, ONE, false)], map[1 := settled, 2 := invoice], [row]);
    assert t.rows[..0] == [];
    assert Applied(t.rows, 1) == 100;
    assert Applied(t.rows, 2) == 0;
    assert Invariant(t);
    var ids := Selected(t, 1, []);
    assert OpenMoves(t, t.payments[1], []) == {2};
    assert |ids| == 1 && ids[0] == 2 by {
      assert ids[0] in ids;
    }
    hide OldestFirst, OpenMoves, Invariant;
    FirstRound(t, ids);
    var pr := AllocationOf(t, 1, Money(0, 0), []).value;
    assert pr.slices == [Slice(2, Money(100, 0), Money(100, 0), Money(0, 0))];
    SpentConcat(t.rows, RowsOf(1, pr.slices), 1);
    SpentOwn(1, pr.slices);
    assert pr.slices[..0] == [];
  }

  lemma FirstRound(t: Tables, ids: seq<int>)
    requires |ids| == 1 && ids[0] in t.moves
    requires var m := t.moves[ids[0]]; m.total == 100 && m.bookedRate == ONE && Applied(t.rows, ids[0]) == 0
    ensures ApplyAll(t, ids, 1, Money(100, 0), ONE)
         == Ok(Progress(Money(0, 0), [Slice(ids[0], Money(100, 0), Money(100, 0), Money(0, 0))], Money(100, 0), Money(0, 0)))
  {
    RoundOfMultiple(100, ONE);
    hide Applied, DivRoundHalfAway;
    var start := Progress(Money(100, 0), [], Money(0, 0), Money(0, 0));
    assert ApplyAll(t, ids, 0, Money(100, 0), ONE) == Ok(start);
    assert ApplyAll(t, ids, 1, Money(100, 0), ONE) == ApplyTo(t, start, ids[0], ONE);
    assert Lesser(Money(100, 0), Money(100, 0)) == Money(100, 0);
    assert ConvertTo(Money(100, 0), 0, ONE) == Ok(Money(100, 0));
    var slice := Slice(ids[0], Money(100, 0), Money(100, 0), Money(0, 0));
    assert start.slices + [slice] == [slice];
  }

  // ----- settlement

  function BaseOf(slices: seq<Slice>): int
  {
    if slices == [] then 0 else BaseOf(slices[..|slices| - 1]) + slices[|slices| - 1].base.u
  }

  /** Each conversion is off by at most half a micro. */
  lemma {:induction false} SlicesNearRate(t: Tables, ids: seq<int>, k: nat, pay: Money, rate: Int64)
    requires k <= |ids| && (forall i :: 0 <= i < |ids| ==> ids[i] in t.moves) && ApplyAll(t, ids, k, pay, rate).Ok?
    ensures NearRate(ApplyAll(t, ids, k, pay, rate).value, pay.u, rate)
  {
    hide ApplyTo, NearRate;
    if k == 0 {
      NothingNearRate(pay, rate);
    } else {
      SlicesNearRate(t, ids, k - 1, pay, rate);
      var before := ApplyAll(t, ids, k - 1, pay, rate).value;
      if before.remaining.u != 0 {
        OneMoreNearRate(t, before, ids[k - 1], pay.u, rate);
      }
    }
  }

  ghost predicate NearRate(pr: Progress, pay: int, rate: int)
  {
    && SumOf(pr.slices) + pr.remaining.u == pay
    && 2 * Abs(BaseOf(pr.slices) * ONE - SumOf(pr.slices) * rate) <= ONE * |pr.slices|
  }

  lemma NothingNearRate(pay: Money, rate: int)
    ensures NearRate(Progress(pay, [], Money(0, 0), Money(0, 0)), pay.u, rate)
  {
  }

  lemma OneMoreNearRate(t: Tables, pr: Progress, id: int, pay: int, rate: Int64)
    requires id in t.moves && ApplyTo(t, pr, id, rate).Ok? && NearRate(pr, pay, rate)
    ensures NearRate(ApplyTo(t, pr, id, rate).value, pay, rate)
  {
    var next := ApplyTo(t, pr, id, rate).value;
    if next.slices == pr.slices {
      SameProgress(t, pr, id, rate);
    } else {
      SliceNearRate(t, pr, id, rate);
      hide ApplyTo;
      var s := next.slices[|pr.slices|];
      assert SumOf(next.slices) == SumOf(pr.slices) + s.amount.u && BaseOf(next.slices) == BaseOf(pr.slices) + s.base.u;
      hide SumOf, BaseOf;
      AddSlice(SumOf(pr.slices), s.amount.u, rate);
    }
  }

  lemma AddSlice(sum: int, amount: int, rate: int)
    ensures (sum + amount) * rate == sum * rate + amount * rate
  {
  }

  lemma SameProgress(t: Tables, pr: Progress, id: int, rate: Int64)
    requires id in t.moves && ApplyTo(t, pr, id, rate).Ok? && ApplyTo(t, pr, id, rate).value.slices == pr.slices
    ensures ApplyTo(t, pr, id, rate).value == pr
  {
    var next := ApplyTo(t, pr, id, rate).value;
    assert next != pr ==> |next.slices| == |pr.slices| + 1;
  }

  lemma SliceNearRate(t: Tables, pr: Progress, id: int, rate: Int64)
    requires id in t.moves && ApplyTo(t, pr, id, rate).Ok? && ApplyTo(t, pr, id, rate).value.slices != pr.slices
    ensures var next := ApplyTo(t, pr, id, rate).value;
            && |next.slices| == |pr.slices| + 1 && next.slices[..|pr.slices|] == pr.slices
            && var s := next.slices[|pr.slices|];
               && next.remaining.u == pr.remaining.u - s.amount.u
               && 2 * Abs(s.base.u * ONE - s.amount.u * rate) <= ONE
  {
    var residual := Money(t.moves[id].total - Applied(t.rows, id), 0);
    RoundsToNearest(Lesser(pr.remaining, residual).u * rate, ONE);
    hide DivRoundHalfAway;
  }

  /**
   When a payment is used up in n slices at the rate derived from what was received, the base amounts of the slices
   add up to what was received, to within half a micro a slice and half of the payment's micros in millionths.
   */
  lemma SettlementBound(t: Tables, payment: int, received: Money, moveIds: seq<int>)
    requires AllocationOf(t, payment, received, moveIds).Ok?
    requires received.u != 0 && t.payments[payment].amount != 0
    requires AllocationOf(t, payment, received, moveIds).value.remaining.u == 0
    ensures var pr := AllocationOf(t, payment, received, moveIds).value;
            2 * ONE * Abs(BaseOf(pr.slices) - received.u) <= ONE * |pr.slices| + Abs(t.payments[payment].amount)
  {
    var p := t.payments[payment];
    var rate := SettlementRate(p, received).value;
    var ids := OldestFirst(t.moves, OpenMoves(t, p, moveIds));
    var pr := AllocationOf(t, payment, received, moveIds).value;
    RateIsNearest(p, received);
    hide OldestFirst, ApplyAll, OpenMoves, SettlementRate, NearRate;
    SlicesNearRate(t, ids, |ids|, Money(p.amount, 0), rate);
    BoundAt(pr, p.amount, received.u, rate);
  }

  lemma RateIsNearest(p: Payment, received: Money)
    requires SettlementRate(p, received).Ok? && received.u != 0 && p.amount != 0
    ensures 2 * Abs(received.u * ONE - SettlementRate(p, received).value * p.amount) <= Abs(p.amount)
  {
    RoundsToNearest(received.u * ONE, p.amount);
    hide DivRoundHalfAway;
  }

  lemma BoundAt(pr: Progress, pay: int, received: int, rate: int)
    requires NearRate(pr, pay, rate) && pr.remaining.u == 0
    requires 2 * Abs(received * ONE - rate * pay) <= Abs(pay)
    ensures 2 * ONE * Abs(BaseOf(pr.slices) - received) <= ONE * |pr.slices| + Abs(pay)
  {
    hide SumOf, BaseOf;
    var base := BaseOf(pr.slices);
    assert pay * rate == rate * pay;
    NearBoth(base, received, rate * pay, |pr.slices|, pay);
  }

  lemma NearBoth(base: int, received: int, product: int, n: nat, pay: int)
    requires 2 * Abs(base * ONE - product) <= ONE * n && 2 * Abs(received * ONE - product) <= Abs(pay)
    ensures 2 * ONE * Abs(base - received) <= ONE * n + Abs(pay)
  {
  }

  // ----- realised exchange differences

  function FxOf(slices: seq<Slice>): int
  {
    if slices == [] then 0 else FxOf(slices[..|slices| - 1]) + slices[|slices| - 1].fxDiff.u
  }

  /** A slice's difference is its amount at the settlement rate less its amount at the booked rate. */
  ghost predicate FxFits(t: Tables, s: Slice, rate: int)
  {
    && s.move in t.moves
    && Abs(s.fxDiff.u * ONE - (s.amount.u * rate - s.amount.u * t.moves[s.move].bookedRate)) <= ONE
    && (t.moves[s.move].bookedRate == rate ==> s.fxDiff.u == 0)
  }

  lemma SliceFx(t: Tables, pr: Progress, id: int, rate: Int64)
    requires id in t.moves && ApplyTo(t, pr, id, rate).Ok? && ApplyTo(t, pr, id, rate).value.slices != pr.slices
    ensures var next := ApplyTo(t, pr, id, rate).value;
            && |next.slices| == |pr.slices| + 1 && next.slices[..|pr.slices|] == pr.slices
            && FxFits(t, next.slices[|pr.slices|], rate)
            && next.totalFxDiff.u == pr.totalFxDiff.u + next.slices[|pr.slices|].fxDiff.u
  {
    var amount := Lesser(pr.remaining, Money(t.moves[id].total - Applied(t.rows, id), 0));
    RoundsToNearest(amount.u * rate, ONE);
    RoundsToNearest(amount.u * t.moves[id].bookedRate, ONE);
    hide DivRoundHalfAway, Applied;
  }

  lemma {:induction false} ApplyAllFx(t: Tables, ids: seq<int>, k: nat, pay: Money, rate: Int64)
    requires k <= |ids| && (forall i :: 0 <= i < |ids| ==> ids[i] in t.moves) && ApplyAll(t, ids, k, pay, rate).Ok?
    ensures var pr := ApplyAll(t, ids, k, pay, rate).value;
            && pr.totalFxDiff.u == FxOf(pr.slices)
            && forall i :: 0 <= i < |pr.slices| ==> FxFits(t, pr.slices[i], rate)
  {
    hide ApplyTo, FxFits;
    if k > 0 {
      ApplyAllFx(t, ids, k - 1, pay, rate);
      var before := ApplyAll(t, ids, k - 1, pay, rate).value;
      if before.remaining.u != 0 {
        var next := ApplyTo(t, before, ids[k - 1], rate).value;
        if next.slices == before.slices {
          SameProgress(t, before, ids[k - 1], rate);
        } else {
          SliceFx(t, before, ids[k - 1], rate);
          forall i | 0 <= i < |before.slices| ensures next.slices[i] == before.slices[i] {
            assert next.slices[..|before.slices|][i] == next.slices[i];
          }
        }
      }
    }
  }

  /**
   The realised difference of an allocation is the sum over its slices of amount times the difference of the two
   rates, to within one micro each, and exactly zero for an invoice booked at the settlement rate.
   */
  lemma RealisedFx(t: Tables, payment: int, received: Money, moveIds: seq<int>)
    requires AllocationOf(t, payment, received, moveIds).Ok?
    ensures var pr := AllocationOf(t, payment, received, moveIds).value;
            && SettlementRate(t.payments[payment], received).Ok?
            && pr.totalFxDiff.u == FxOf(pr.slices)
            && forall i :: 0 <= i < |pr.slices| ==> FxFits(t, pr.slices[i], SettlementRate(t.payments[payment], received).value)
  {
    var p := t.payments[payment];
    var rate := SettlementRate(p, received).value;
    var ids := OldestFirst(t.moves, OpenMoves(t, p, moveIds));
    hide OldestFirst, ApplyAll, OpenMoves, FxFits;
    ApplyAllFx(t, ids, |ids|, Money(p.amount, 0), rate);
  }
}
