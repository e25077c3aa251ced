/**
 Document numbering: sequence rows, locked from the first allocation until the transaction ends, under any
 interleaving of transactions.
 */
module DocumentSequence {
  import opened Wrappers
  import opened Decimals

  /** The unique key of a sequence row; a row without a company serves all of them. */
  datatype Key = Key(code: string, company: Option<int>)

  datatype Policy = Never | Yearly | Monthly

  datatype Row = Row(prefix: string, suffix: string, padding: nat, next: nat, step: nat, policy: Policy,
                     lastPeriod: string, active: bool)

  /** The current year and month as period keys. */
  datatype Clock = Clock(year: string, month: string)

  /** A number taken from a row in a period. */
  datatype Entry = Entry(key: Key, period: string, number: nat)

  /** An open transaction: its own versions of the rows it changed, and the numbers it took. */
  datatype Session = Session(rows: map<Key, Row>, taken: seq<Entry>)

  /** The committed rows, who holds which row lock, the open transactions, and the numbers committed so far. */
  datatype Db = Db(rows: map<Key, Row>, locks: map<Key, int>, sessions: map<int, Session>, log: seq<Entry>)

  datatype Answer = Allocated(text: string) | NoSequence | Wait

  // ----- one row

  function PeriodKey(policy: Policy, clock: Clock): string
  {
    match policy
    case Never => ""
    case Yearly => clock.year
    case Monthly => clock.month
  }

  /** The number a row gives next: it restarts at 1 when the period has changed. */
  function NumberOf(row: Row, period: string): nat
  {
    if period != "" && period != row.lastPeriod then 1 else row.next
  }

  function Bumped(row: Row, period: string): Row
  {
    row.(next := NumberOf(row, period) + row.step, lastPeriod := period)
  }

  function Format(row: Row, number: nat): string
  {
    row.prefix + Padded(Decimal(number), row.padding) + row.suffix
  }

  /** Different numbers read differently. */
  lemma FormatTellsApart(row: Row, a: nat, b: nat)
    requires Format(row, a) == Format(row, b)
    ensures a == b
  {
    var x, y := Padded(Decimal(a), row.padding), Padded(Decimal(b), row.padding);
    ValueOfPadded(a, row.padding);
    ValueOfPadded(b, row.padding);
    hide Padded, Decimal;
    var n := |row.prefix|;
    assert Format(row, a)[n..] == x + row.suffix && Format(row, b)[n..] == y + row.suffix;
    assert |x| == |y|;
    assert (x + row.suffix)[..|x|] == x && (y + row.suffix)[..|x|] == y;
  }

  // ----- transactions

  /** The company's own active row, or else the active row for all companies. */
  function Find(rows: map<Key, Row>, code: string, company: int): (k: Option<Key>)
    ensures k.Some? ==> k.value in rows
  {
    var own, shared := Key(code, Some(company)), Key(code, None);
    if company > 0 && own in rows && rows[own].active then Some(own)
    else if shared in rows && rows[shared].active then Some(shared)
    else None
  }

  function SessionOf(db: Db, tid: int): Session
  {
    if tid in db.sessions then db.sessions[tid] else Session(map[], [])
  }

  /** The version of a row that a transaction sees. */
  function Seen(db: Db, tid: int, key: Key): Row
    requires key in db.rows
  {
    var s := SessionOf(db, tid);
    if key in s.rows then s.rows[key] else db.rows[key]
  }

  predicate LockedByOther(db: Db, tid: int, key: Key)
  {
    key in db.locks && db.locks[key] != tid
  }

  function NextAnswer(db: Db, tid: int, code: string, company: int, clock: Clock): Answer
  {
    match Find(db.rows, code, company)
    case None => NoSequence
    case Some(key) =>
      if LockedByOther(db, tid, key) then Wait
      else
        var row := Seen(db, tid, key);
        Allocated(Format(row, NumberOf(row, PeriodKey(row.policy, clock))))
  }

  function AfterNext(db: Db, tid: int, code: string, company: int, clock: Clock): Db
  {
    match Find(db.rows, code, company)
    case None => db
    case Some(key) => if LockedByOther(db, tid, key) then db else Take(db, tid, key, clock)
  }

  function Take(db: Db, tid: int, key: Key, clock: Clock): Db
    requires key in db.rows
  {
    var row, s := Seen(db, tid, key), SessionOf(db, tid);
    var period := PeriodKey(row.policy, clock);
    var next := Session(s.rows[key := Bumped(row, period)], s.taken + [Entry(key, period, NumberOf(row, period))]);
    db.(locks := db.locks[key := tid], sessions := db.sessions[tid := next])
  }

  function Unlocked(locks: map<Key, int>, tid: int): map<Key, int>
  {
    map k | k in locks && locks[k] != tid :: locks[k]
  }

  function AfterCommit(db: Db, tid: int): Db
  {
    var s := SessionOf(db, tid);
    Db(db.rows + s.rows, Unlocked(db.locks, tid), db.sessions - {tid}, db.log + s.taken)
  }

  function AfterAbort(db: Db, tid: int): Db
  {
    Db(db.rows, Unlocked(db.locks, tid), db.sessions - {tid}, db.log)
  }

  /** A preview in a transaction of its own, which ends at once. */
  function PeekAnswer(db: Db, code: string, company: int, clock: Clock): Answer
  {
    match Find(db.rows, code, company)
    case None => NoSequence
    case Some(key) =>
      if key in db.locks then Wait
      else
        var row := db.rows[key];
        Allocated(Format(row, NumberOf(row, PeriodKey(row.policy, clock))))
  }

  class Sequences {
    var rows: map<Key, Row>
    var locks: map<Key, int>
    var sessions: map<int, Session>
    var log: seq<Entry>

    function Contents(): Db
      reads this
    {
      Db(rows, locks, sessions, log)
    }

    /** Lock the row and compute its next number; only when consuming is anything written back. */
    method Next(tid: int, code: string, company: int, clock: Clock, consume: bool) returns (r: Answer)
      modifies `locks, `sessions
      ensures r == NextAnswer(old(Contents()), tid, code, company, clock)
      ensures consume ==> Contents() == AfterNext(old(Contents()), tid, code, company, clock)
      ensures !consume ==> sessions == old(sessions)
      ensures !consume ==> locks == match Find(rows, code, company)
                                    case None => old(locks)
                                    case Some(key) => if r.Wait? then old(locks) else old(locks)[key := tid]
    {
      var own, shared := Key(code, Some(company)), Key(code, None);
      var key := shared;
      if company > 0 && own in rows && rows[own].active {
        key := own;
      } else if shared !in rows || !rows[shared].active {
        return NoSequence;
      }
      if key in locks && locks[key] != tid {
        return Wait;
      }
      ghost var before := Contents();
      assert Find(rows, code, company) == Some(key);
      hide Find, Format, PeriodKey, Bumped, NumberOf;
      locks := locks[key := tid];
      var row, nextNum, period := ReadNext(tid, key, clock);
      r := Allocated(Format(row, nextNum));
      if consume {
        WriteBack(tid, key, row, nextNum, period);
        assert Contents() == Take(before, tid, key, clock);
      }
    }

    method WriteBack(tid: int, key: Key, row: Row, nextNum: nat, period: string)
      requires nextNum == NumberOf(row, period)
      modifies `sessions
      ensures var s := SessionOf(old(Contents()), tid);
              sessions == old(sessions)[tid := Session(s.rows[key := Bumped(row, period)],
                                                       s.taken + [Entry(key, period, nextNum)])]
    {
      var s := if tid in sessions then sessions[tid] else Session(map[], []);
      var bumped := row.(next := nextNum + row.step, lastPeriod := period);
      sessions := sessions[tid := Session(s.rows[key := bumped], s.taken + [Entry(key, period, nextNum)])];
    }

    /** The row as the transaction sees it, its next number, and the period that this number belongs to. */
    method ReadNext(tid: int, key: Key, clock: Clock) returns (row: Row, nextNum: nat, period: string)
      requires key in rows
      ensures row == Seen(Contents(), tid, key) && period == PeriodKey(row.policy, clock)
      ensures nextNum == NumberOf(row, period)
    {
      row := if tid in sessions && key in sessions[tid].rows then sessions[tid].rows[key] else rows[key];
      nextNum := row.next;
      period := PeriodKey(row.policy, clock);
      var rolled := period != "" && period != row.lastPeriod;
      if rolled {
        nextNum := 1;
      }
    }

    method NextByCode(tid: int, code: string, company: int, clock: Clock) returns (r: Answer)
      modifies `locks, `sessions
      ensures r == NextAnswer(old(Contents()), tid, code, company, clock)
      ensures Contents() == AfterNext(old(Contents()), tid, code, company, clock)
    {
      r := Next(tid, code, company, clock, true);
    }

    /** The form with a transaction of its own, which commits at once; tid is a new transaction. */
    method NextByCodeAlone(tid: int, code: string, company: int, clock: Clock) returns (r: Answer)
      requires tid !in sessions && tid !in locks.Values
      modifies this
      ensures r == NextAnswer(old(Contents()), tid, code, company, clock)
      ensures Contents() == AfterCommit(AfterNext(old(Contents()), tid, code, company, clock), tid)
    {
      r := Next(tid, code, company, clock, true);
      Commit(tid);
    }

    method Commit(tid: int)
      modifies this
      ensures Contents() == AfterCommit(old(Contents()), tid)
    {
      var s := if tid in sessions then sessions[tid] else Session(map[], []);
      rows := rows + s.rows;
      log := log + s.taken;
      sessions := sessions - {tid};
      locks := map k | k in locks && locks[k] != tid :: locks[k];
    }

    method Abort(tid: int)
      modifies this
      ensures Contents() == AfterAbort(old(Contents()), tid)
    {
      sessions := sessions - {tid};
      locks := map k | k in locks && locks[k] != tid :: locks[k];
    }

    /** Peeking leaves everything as it was, locks included. */
    method Peek(tid: int, code: string, company: int, clock: Clock) returns (r: Answer)
      requires tid !in sessions && tid !in locks.Values
      modifies this
      ensures r == PeekAnswer(old(Contents()), code, company, clock)
      ensures Contents() == old(Contents())
    {
      assert forall k :: k in locks ==> locks[k] in locks.Values;
      r := Next(tid, code, company, clock, false);
      Commit(tid);
      assert rows == old(rows) && log == old(log) && sessions == old(sessions) && locks == old(locks);
    }
  }

  /** What a preview shows is what the next allocation gives, as long as nothing happens in between. */
  lemma PeekPredicts(db: Db, tid: int, code: string, company: int, clock: Clock)
    requires tid !in db.sessions && PeekAnswer(db, code, company, clock).Allocated?
    ensures NextAnswer(db, tid, code, company, clock) == PeekAnswer(db, code, company, clock)
  {
  }

  // ----- replaying the numbers in the order of the log

  function Replay(rows: map<Key, Row>, log: seq<Entry>): (r: map<Key, Row>)
    ensures r.Keys == rows.Keys
  {
    if log == [] then rows
    else
      var r, e := Replay(rows, log[..|log| - 1]), log[|log| - 1];
      if e.key in r then r[e.key := Bumped(r[e.key], e.period)] else r
  }

  /** Each number is the one its row gives at that point: one transaction after the other, none in between. */
  predicate Follows(rows: map<Key, Row>, log: seq<Entry>)
  {
    log == []
    || var before, e := Replay(rows, log[..|log| - 1]), log[|log| - 1];
       && Follows(rows, log[..|log| - 1])
       && e.key in before && e.number == NumberOf(before[e.key], e.period)
  }

  function KeysOf(log: seq<Entry>): set<Key>
  {
    set i | 0 <= i < |log| :: log[i].key
  }

  lemma {:induction false} ReplayConcat(rows: map<Key, Row>, a: seq<Entry>, b: seq<Entry>)
    ensures Replay(rows, a + b) == Replay(Replay(rows, a), b)
    ensures Follows(rows, a + b) <==> Follows(rows, a) && Follows(Replay(rows, a), b)
  {
    if b == [] {
      assert a + b == a;
    } else {
      assert (a + b)[..|a + b| - 1] == a + b[..|b| - 1];
      ReplayConcat(rows, a, b[..|b| - 1]);
    }
  }

  lemma KeysOfInit(log: seq<Entry>)
    requires log != []
    ensures KeysOf(log) == KeysOf(log[..|log| - 1]) + {log[|log| - 1].key}
  {
    var init := log[..|log| - 1];
    forall k | k in KeysOf(init) ensures k in KeysOf(log) {
      var i :| 0 <= i < |init| && init[i].key == k;
      assert log[i].key == k;
    }
    assert log[|log| - 1].key in KeysOf(log);
  }

  /** A replay depends only on the rows it names, and changes no others. */
  lemma {:induction false} ReplayFrame(a: map<Key, Row>, b: map<Key, Row>, log: seq<Entry>)
    requires a.Keys == b.Keys && forall k :: k in KeysOf(log) && k in a ==> a[k] == b[k]
    ensures Follows(a, log) <==> Follows(b, log)
    ensures forall k :: k in KeysOf(log) && k in a ==> Replay(a, log)[k] == Replay(b, log)[k]
    ensures forall k :: k in a && k !in KeysOf(log) ==> Replay(a, log)[k] == a[k]
  {
    if log != [] {
      var init := log[..|log| - 1];
      KeysOfInit(log);
      ReplayFrame(a, b, init);
      hide KeysOf, Bumped;
      var key := log[|log| - 1].key;
      assert key !in KeysOf(init) && key in a ==> Replay(b, init)[key] == b[key] by {
        ReplayLeaves(b, init);
      }
    }
  }

  lemma {:induction false} ReplayLeaves(rows: map<Key, Row>, log: seq<Entry>)
    ensures forall k :: k in rows && k !in KeysOf(log) ==> Replay(rows, log)[k] == rows[k]
  {
    if log != [] {
      KeysOfInit(log);
      ReplayLeaves(rows, log[..|log| - 1]);
    }
  }

  // ----- every reachable state

  /** What a transaction has done is a replay on the committed rows, and it holds the locks of all rows it named. */
  ghost predicate SessionGood(rows: map<Key, Row>, locks: map<Key, int>, tid: int, s: Session)
  {
    && s.rows.Keys == KeysOf(s.taken) && s.rows.Keys <= rows.Keys
    && Follows(rows, s.taken)
    && (forall k :: k in s.rows ==> Replay(rows, s.taken)[k] == s.rows[k])
    && (forall k :: k in s.rows ==> k in locks && locks[k] == tid)
  }

  ghost predicate Good(db: Db, start: map<Key, Row>)
  {
    && Follows(start, db.log) && Replay(start, db.log) == db.rows
    && forall tid :: tid in db.sessions ==> SessionGood(db.rows, db.locks, tid, db.sessions[tid])
  }

  lemma SessionOfGood(db: Db, start: map<Key, Row>, tid: int)
    requires Good(db, start)
    ensures SessionGood(db.rows, db.locks, tid, SessionOf(db, tid))
  {
  }

  lemma TakeGood(db: Db, start: map<Key, Row>, tid: int, key: Key, clock: Clock)
    requires Good(db, start) && key in db.rows && !LockedByOther(db, tid, key)
    ensures Good(Take(db, tid, key, clock), start)
  {
    var after := Take(db, tid, key, clock);
    var s, row := SessionOf(db, tid), Seen(db, tid, key);
    var period := PeriodKey(row.policy, clock);
    SessionOfGood(db, start, tid);
    hide Follows, Replay, KeysOf, NumberOf, Bumped, PeriodKey;
    SeenIsReplayed(db.rows, db.locks, tid, s, key);
    TakenGood(db.rows, db.locks, tid, s, row, Entry(key, period, NumberOf(row, period)));
    hide SessionGood;
    forall t | t in after.sessions ensures SessionGood(after.rows, after.locks, t, after.sessions[t]) {
      if t != tid {
        LockKeepsOthers(db.rows, db.locks, key, tid, t, db.sessions[t]);
      }
    }
  }

  lemma SeenIsReplayed(rows: map<Key, Row>, locks: map<Key, int>, tid: int, s: Session, key: Key)
    requires SessionGood(rows, locks, tid, s) && key in rows
    ensures Replay(rows, s.taken)[key] == if key in s.rows then s.rows[key] else rows[key]
  {
    ReplayLeaves(rows, s.taken);
  }

  lemma LockKeepsOthers(rows: map<Key, Row>, locks: map<Key, int>, key: Key, tid: int, other: int, s: Session)
    requires SessionGood(rows, locks, other, s) && other != tid && (key in locks ==> locks[key] == tid)
    ensures SessionGood(rows, locks[key := tid], other, s)
  {
    hide Follows, Replay, KeysOf;
  }

  lemma TakenGood(rows: map<Key, Row>, locks: map<Key, int>, tid: int, s: Session, row: Row, e: Entry)
    requires SessionGood(rows, locks, tid, s)
    requires e.key in rows && Replay(rows, s.taken)[e.key] == row && e.number == NumberOf(row, e.period)
    ensures SessionGood(rows, locks[e.key := tid], tid, Session(s.rows[e.key := Bumped(row, e.period)], s.taken + [e]))
  {
    hide KeysOf, Follows, Replay, NumberOf, Bumped;
    OneMore(rows, s.taken, e);
    var next := Session(s.rows[e.key := Bumped(row, e.period)], s.taken + [e]);
    assert next.rows.Keys == s.rows.Keys + {e.key};
    forall k | k in next.rows ensures Replay(rows, next.taken)[k] == next.rows[k] {
      assert k == e.key || k in s.rows;
    }
  }

  lemma OneMore(rows: map<Key, Row>, taken: seq<Entry>, e: Entry)
    requires Follows(rows, taken) && e.key in rows && e.number == NumberOf(Replay(rows, taken)[e.key], e.period)
    ensures Follows(rows, taken + [e])
    ensures Replay(rows, taken + [e]) == Replay(rows, taken)[e.key := Bumped(Replay(rows, taken)[e.key], e.period)]
    ensures KeysOf(taken + [e]) == KeysOf(taken) + {e.key}
  {
    assert (taken + [e])[..|taken|] == taken;
    KeysOfInit(taken + [e]);
  }

  lemma CommitGood(db: Db, start: map<Key, Row>, tid: int)
    requires Good(db, start)
    ensures Good(AfterCommit(db, tid), start)
  {
    var s, after := SessionOf(db, tid), AfterCommit(db, tid);
    SessionOfGood(db, start, tid);
    ReplayConcat(start, db.log, s.taken);
    CommittedRows(db.rows, db.locks, tid, s);
    hide Follows, Replay, KeysOf, SessionGood;
    forall t | t in after.sessions ensures SessionGood(after.rows, after.locks, t, after.sessions[t]) {
      OthersUnaffected(db.rows, db.locks, tid, s, t, db.sessions[t]);
    }
  }

  lemma CommittedRows(rows: map<Key, Row>, locks: map<Key, int>, tid: int, s: Session)
    requires SessionGood(rows, locks, tid, s)
    ensures Replay(rows, s.taken) == rows + s.rows
  {
    ReplayLeaves(rows, s.taken);
    hide Follows, Replay, KeysOf;
  }

  /** A commit changes only rows that no other transaction has locked. */
  lemma OthersUnaffected(rows: map<Key, Row>, locks: map<Key, int>, tid: int, s: Session, other: int, o: Session)
    requires SessionGood(rows, locks, tid, s) && SessionGood(rows, locks, other, o) && other != tid
    ensures SessionGood(rows + s.rows, Unlocked(locks, tid), other, o)
  {
    forall k | k in KeysOf(o.taken) && k in rows ensures rows[k] == (rows + s.rows)[k] {
      assert k in o.rows;
    }
    ReplayFrame(rows, rows + s.rows, o.taken);
    hide Follows, Replay, KeysOf;
  }

  lemma AbortGood(db: Db, start: map<Key, Row>, tid: int)
    requires Good(db, start)
    ensures Good(AfterAbort(db, tid), start)
  {
    var after := AfterAbort(db, tid);
    hide Follows, Replay, KeysOf;
    forall t | t in after.sessions ensures SessionGood(after.rows, after.locks, t, after.sessions[t]) {
      assert SessionGood(db.rows, db.locks, t, db.sessions[t]);
    }
  }

  // ----- runs

  datatype Event = Next(tid: int, code: string, company: int, clock: Clock) | Commit(tid: int) | Abort(tid: int)

  function After(db: Db, e: Event): Db
  {
    match e
    case Next(tid, code, company, clock) => AfterNext(db, tid, code, company, clock)
    case Commit(tid) => AfterCommit(db, tid)
    case Abort(tid) => AfterAbort(db, tid)
  }

  function Run(db: Db, events: seq<Event>): Db
  {
    if events == [] then db else After(Run(db, events[..|events| - 1]), events[|events| - 1])
  }

  /** No transaction is open and nothing has been committed yet. */
  predicate Idle(db: Db)
  {
    db.locks == map[] && db.sessions == map[] && db.log == []
  }

  lemma {:induction false} RunIsGood(db: Db, events: seq<Event>)
    requires Idle(db)
    ensures Good(Run(db, events), db.rows)
  {
    hide Good, Take, AfterCommit, AfterAbort;
    if events == [] {
      IdleIsGood(db);
    } else {
      RunIsGood(db, events[..|events| - 1]);
      var before := Run(db, events[..|events| - 1]);
      match events[|events| - 1] {
        case Next(tid, code, company, clock) =>
          var key := Find(before.rows, code, company);
          if key.Some? && !LockedByOther(before, tid, key.value) {
            TakeGood(before, db.rows, tid, key.value, clock);
          }
        case Commit(tid) => CommitGood(before, db.rows, tid);
        case Abort(tid) => AbortGood(before, db.rows, tid);
      }
    }
  }

  lemma IdleIsGood(db: Db)
    requires Idle(db)
    ensures Good(db, db.rows)
  {
  }

  // ----- the series of one row

  /** The committed numbers of one row, in the order of the commits. */
  function Series(log: seq<Entry>, key: Key): seq<Entry>
  {
    if log == [] then []
    else Series(log[..|log| - 1], key) + (if log[|log| - 1].key == key then [log[|log| - 1]] else [])
  }

  function RowAfter(row: Row, series: seq<Entry>): Row
  {
    if series == [] then row else Bumped(RowAfter(row, series[..|series| - 1]), series[|series| - 1].period)
  }

  predicate RowGives(row: Row, series: seq<Entry>)
  {
    series == []
    || (RowGives(row, series[..|series| - 1])
        && series[|series| - 1].number == NumberOf(RowAfter(row, series[..|series| - 1]), series[|series| - 1].period))
  }

  lemma {:induction false} SeriesOfLog(rows: map<Key, Row>, log: seq<Entry>, key: Key)
    requires Follows(rows, log) && key in rows
    ensures RowGives(rows[key], Series(log, key)) && Replay(rows, log)[key] == RowAfter(rows[key], Series(log, key))
  {
    hide Bumped, NumberOf;
    if log != [] {
      var init, e := log[..|log| - 1], log[|log| - 1];
      SeriesOfLog(rows, init, key);
      if e.key == key {
        assert (Series(init, key) + [e])[..|Series(init, key)|] == Series(init, key);
      } else {
        assert Series(init, key) + [] == Series(init, key);
      }
    }
  }

  /**
   In any interleaving the committed numbers of a row are those that the row gives one after the other, and the
   committed row is where they lead: what aborted transactions took leaves no gap, and nothing is given twice.
   */
  lemma CommittedSeries(db: Db, events: seq<Event>, key: Key)
    requires Idle(db) && key in db.rows
    ensures var after := Run(db, events);
            && key in after.rows
            && RowGives(db.rows[key], Series(after.log, key))
            && after.rows[key] == RowAfter(db.rows[key], Series(after.log, key))
  {
    RunIsGood(db, events);
    hide Run, Follows, Replay;
    SeriesOfLog(db.rows, Run(db, events).log, key);
  }

  lemma {:induction false} RowAfterKeeps(row: Row, series: seq<Entry>)
    ensures RowAfter(row, series).step == row.step
  {
    if series != [] {
      RowAfterKeeps(row, series[..|series| - 1]);
    }
  }

  lemma {:induction false} RowGivesPrefix(row: Row, series: seq<Entry>, n: nat)
    requires RowGives(row, series) && n <= |series|
    ensures RowGives(row, series[..n])
  {
    if n == |series| {
      assert series[..n] == series;
    } else {
      RowGivesPrefix(row, series[..|series| - 1], n);
      assert series[..|series| - 1][..n] == series[..n];
    }
  }

  /** Each number is the one before plus the increment, unless a new period has begun, which starts at 1. */
  lemma NextInSeries(row: Row, series: seq<Entry>, i: nat)
    requires RowGives(row, series) && 0 < i < |series|
    ensures series[i].number == if series[i].period != "" && series[i].period != series[i - 1].period then 1
                                else series[i - 1].number + row.step
  {
    RowGivesPrefix(row, series, i + 1);
    RowGivesPrefix(row, series, i);
    assert series[..i + 1][..i] == series[..i] && series[..i][..i - 1] == series[..i - 1];
    RowAfterKeeps(row, series[..i - 1]);
  }

  /** The entries from i to j are all in one period. */
  predicate Stretch(series: seq<Entry>, i: nat, j: nat)
  {
    i <= j < |series| && forall k :: i <= k <= j ==> series[k].period == series[i].period
  }

  /** Within a stretch of one period the numbers go up by the increment, with no gap. */
  lemma {:induction false} StretchIsGapless(row: Row, series: seq<Entry>, i: nat, j: nat)
    requires RowGives(row, series) && Stretch(series, i, j)
    ensures series[j].number == series[i].number + (j - i) * row.step
    decreases j
  {
    if i < j {
      StretchIsGapless(row, series, i, j - 1);
      assert series[j].period == series[i].period && series[j - 1].period == series[i].period;
      NextInSeries(row, series, j);
      OneFurther(j - i, row.step);
    }
  }

  lemma OneFurther(n: nat, step: nat)
    requires n > 0
    ensures n * step == (n - 1) * step + step
    ensures step > 0 ==> n * step > 0
  {
    if step > 0 {
      assert (n - 1) * step >= 0;
    }
  }

  lemma FirstInSeries(row: Row, series: seq<Entry>)
    requires RowGives(row, series) && series != []
    ensures series[0].number == NumberOf(row, series[0].period)
  {
    RowGivesPrefix(row, series, 1);
    assert series[..1][..0] == [];
  }

  /**
   The documents that transactions commit in any stretch of one period are numbered gapless, and no two read the same;
   the first stretch starts where the row stood, and every later one of a dated period at 1.
   */
  lemma GaplessWithinPeriod(db: Db, events: seq<Event>, key: Key, i: nat, j: nat)
    requires Idle(db) && key in db.rows && db.rows[key].step > 0
    requires Stretch(Series(Run(db, events).log, key), i, j)
    ensures var series, row := Series(Run(db, events).log, key), db.rows[key];
            && series[j].number == series[i].number + (j - i) * row.step
            && (i < j ==> Format(row, series[i].number) != Format(row, series[j].number))
            && (i == 0 ==> series[i].number == NumberOf(row, series[i].period))
            && (i > 0 && series[i].period != "" && series[i - 1].period != series[i].period ==> series[i].number == 1)
  {
    CommittedSeries(db, events, key);
    hide Run, Series, NumberOf, Format, RowGives, RowAfter, Idle, Stretch;
    StretchNumbers(db.rows[key], Series(Run(db, events).log, key), i, j);
  }

  lemma StretchNumbers(row: Row, series: seq<Entry>, i: nat, j: nat)
    requires RowGives(row, series) && row.step > 0 && Stretch(series, i, j)
    ensures series[j].number == series[i].number + (j - i) * row.step
    ensures i < j ==> Format(row, series[i].number) != Format(row, series[j].number)
    ensures i == 0 ==> series[i].number == NumberOf(row, series[i].period)
    ensures i > 0 && series[i].period != "" && series[i - 1].period != series[i].period ==> series[i].number == 1
  {
    StretchIsGapless(row, series, i, j);
    if i == 0 {
      FirstInSeries(row, series);
    } else {
      NextInSeries(row, series, i);
    }
    hide NumberOf, Format, RowGives, Stretch;
    if i < j && Format(row, series[i].number) == Format(row, series[j].number) {
      OneFurther(j - i, row.step);
      FormatTellsApart(row, series[i].number, series[j].number);
    }
  }

  // ----- when a number is given twice in a period

  function Periods(series: seq<Entry>): (r: seq<string>)
    ensures |r| == |series| && forall i :: 0 <= i < |r| ==> r[i] == series[i].period
  {
    seq(|series|, i requires 0 <= i < |series| => series[i].period)
  }

  /** No period is left and entered again. */
  predicate NoneReentered(periods: seq<string>)
  {
    forall i, j, k :: 0 <= i < j < k < |periods| && periods[i] == periods[k] ==> periods[j] == periods[i]
  }

  /** No number is given twice in a period. */
  predicate AllDiffer(series: seq<Entry>)
  {
    forall i, j :: 0 <= i < j < |series| && series[i].period == series[j].period ==> series[i].number != series[j].number
  }

  lemma DifferWithoutReentry(row: Row, series: seq<Entry>)
    requires RowGives(row, series) && row.step > 0 && NoneReentered(Periods(series))
    ensures AllDiffer(series)
  {
    var periods := Periods(series);
    forall i, j | 0 <= i < j < |series| && series[i].period == series[j].period
      ensures series[i].number != series[j].number
    {
      forall k | i <= k <= j ensures series[k].period == series[i].period {
        assert periods[i] == periods[j] && (i < k < j ==> periods[k] == periods[i]);
      }
      StretchIsGapless(row, series, i, j);
      OneFurther(j - i, row.step);
    }
  }

  /** Every stretch of a dated period starts at 1, given that the first one does. */
  lemma {:induction false} StretchStart(row: Row, series: seq<Entry>, i: nat) returns (s: nat)
    requires RowGives(row, series) && i < |series| && series[i].period != ""
    requires NumberOf(row, series[0].period) == 1
    ensures s <= i && Stretch(series, s, i) && series[s].number == 1
  {
    if i == 0 {
      s := 0;
      FirstInSeries(row, series);
    } else if series[i - 1].period == series[i].period {
      s := StretchStart(row, series, i - 1);
    } else {
      s := i;
      NextInSeries(row, series, i);
    }
  }

  /** All periods are dated, or, for a row that never starts over, none is. */
  predicate Uniform(series: seq<Entry>)
  {
    (forall i :: 0 <= i < |series| ==> series[i].period != "") || (forall i :: 0 <= i < |series| ==> series[i].period == "")
  }

  lemma DifferExactly(row: Row, series: seq<Entry>)
    requires RowGives(row, series) && row.step > 0 && Uniform(series)
    ensures NoneReentered(Periods(series)) ==> AllDiffer(series)
    ensures (series == [] || series[0].period == "" || NumberOf(row, series[0].period) == 1)
            ==> (AllDiffer(series) ==> NoneReentered(Periods(series)))
  {
    var periods := Periods(series);
    if NoneReentered(periods) {
      DifferWithoutReentry(row, series);
    } else {
      var i, j, k :| 0 <= i < j < k < |periods| && periods[i] == periods[k] && periods[j] != periods[i];
      if series[0].period != "" && NumberOf(row, series[0].period) == 1 {
        var s := StretchStart(row, series, i);
        var t := StretchStart(row, series, k);
        assert t > j;
        assert series[s].period == series[t].period && series[s].number == series[t].number && s < t;
      }
    }
  }

  /** The clock always shows a year and a month. */
  predicate Dated(events: seq<Event>)
  {
    forall i :: 0 <= i < |events| && events[i].Next? ==> events[i].clock.year != "" && events[i].clock.month != ""
  }

  /** The periods of these entries are dated exactly for the rows that start over. */
  predicate EntriesFit(start: map<Key, Row>, entries: seq<Entry>)
  {
    forall i :: 0 <= i < |entries| ==>
      entries[i].key in start && (entries[i].period == "" <==> start[entries[i].key].policy.Never?)
  }

  predicate PoliciesFit(start: map<Key, Row>, rows: map<Key, Row>)
  {
    forall k :: k in rows ==> k in start && rows[k].policy == start[k].policy
  }

  ghost predicate PeriodsFit(start: map<Key, Row>, db: Db)
  {
    && PoliciesFit(start, db.rows) && EntriesFit(start, db.log)
    && forall tid :: tid in db.sessions ==>
         PoliciesFit(start, db.sessions[tid].rows) && EntriesFit(start, db.sessions[tid].taken)
  }

  lemma TakeFits(start: map<Key, Row>, db: Db, tid: int, key: Key, clock: Clock)
    requires PeriodsFit(start, db) && key in db.rows && clock.year != "" && clock.month != ""
    ensures PeriodsFit(start, Take(db, tid, key, clock))
  {
    hide NumberOf;
  }

  lemma {:induction false} RunFits(db: Db, events: seq<Event>)
    requires Idle(db) && Dated(events)
    ensures PeriodsFit(db.rows, Run(db, events))
  {
    if events == [] {
      assert PeriodsFit(db.rows, db);
    } else {
      var init := events[..|events| - 1];
      assert forall i :: 0 <= i < |init| ==> init[i] == events[i];
      RunFits(db, init);
      var before := Run(db, init);
      hide Run, Take, PeriodsFit, AfterCommit, AfterAbort;
      match events[|events| - 1] {
        case Next(tid, code, company, clock) =>
          var key := Find(before.rows, code, company);
          if key.Some? && !LockedByOther(before, tid, key.value) {
            TakeFits(db.rows, before, tid, key.value, clock);
          }
        case Commit(tid) => EndFits(db.rows, before, tid);
        case Abort(tid) => EndFits(db.rows, before, tid);
      }
    }
  }

  lemma EndFits(start: map<Key, Row>, db: Db, tid: int)
    requires PeriodsFit(start, db)
    ensures PeriodsFit(start, AfterCommit(db, tid)) && PeriodsFit(start, AfterAbort(db, tid))
  {
  }

  predicate AllUndated(series: seq<Entry>, undated: bool)
  {
    forall i :: 0 <= i < |series| ==> (series[i].period == "") == undated
  }

  lemma {:induction false} SeriesFits(start: map<Key, Row>, log: seq<Entry>, key: Key)
    requires EntriesFit(start, log) && key in start
    ensures AllUndated(Series(log, key), start[key].policy.Never?)
  {
    if log != [] {
      var init, e := log[..|log| - 1], log[|log| - 1];
      forall i | 0 <= i < |init|
        ensures init[i].key in start && (init[i].period == "" <==> start[init[i].key].policy.Never?)
      {
        assert init[i] == log[i];
      }
      SeriesFits(start, init, key);
      assert e.period == "" <==> start[e.key].policy.Never?;
      assert Series(log, key) == Series(init, key) + if e.key == key then [e] else [];
    }
  }

  /**
   Over any interleaving no number is committed twice in a period if no period is left and entered again; and only if,
   when the row is new in its first period or never starts over.
   */
  lemma RepeatsExactly(db: Db, events: seq<Event>, key: Key)
    requires Idle(db) && Dated(events) && key in db.rows && db.rows[key].step > 0
    ensures var series, row := Series(Run(db, events).log, key), db.rows[key];
            && (NoneReentered(Periods(series)) ==> AllDiffer(series))
            && (series == [] || row.policy.Never? || NumberOf(row, series[0].period) == 1
                ==> (AllDiffer(series) ==> NoneReentered(Periods(series))))
  {
    var series := Series(Run(db, events).log, key);
    CommittedSeries(db, events, key);
    RunFits(db, events);
    SeriesFits(db.rows, Run(db, events).log, key);
    hide Run, Series, NumberOf, NoneReentered, AllDiffer;
    DifferExactly(db.rows[key], series);
  }

  /** A transaction that takes one number and commits, while no other is open. */
  lemma OneDocument(db: Db, tid: int, code: string, company: int, clock: Clock)
    requires db.locks == map[] && db.sessions == map[] && Find(db.rows, code, company).Some?
    ensures var key := Find(db.rows, code, company).value;
            var period := PeriodKey(db.rows[key].policy, clock);
            AfterCommit(AfterNext(db, tid, code, company, clock), tid)
            == Db(db.rows[key := Bumped(db.rows[key], period)], map[], map[],
                  db.log + [Entry(key, period, NumberOf(db.rows[key], period))])
  {
    var key := Find(db.rows, code, company).value;
    hide Bumped, NumberOf, PeriodKey, Find;
    var taken := Take(db, tid, key, clock);
    assert taken.locks == map[key := tid];
    assert Unlocked(taken.locks, tid) == map[];
    assert taken.sessions - {tid} == map[];
  }

  /** The same at the end of a run, for a row that serves all companies and the only one there is. */
  lemma OneMoreDocument(db: Db, events: seq<Event>, tid: int, code: string, clock: Clock, row: Row, log: seq<Entry>)
    requires row.active && Run(db, events) == Db(map[Key(code, None) := row], map[], map[], log)
    ensures var key, period := Key(code, None), PeriodKey(row.policy, clock);
            Run(db, events + [Next(tid, code, 0, clock), Commit(tid)])
            == Db(map[key := Bumped(row, period)], map[], map[], log + [Entry(key, period, NumberOf(row, period))])
  {
    var key := Key(code, None);
    var next, commit := Next(tid, code, 0, clock), Commit(tid);
    var one, two := events + [next], events + [next, commit];
    assert two[..|two| - 1] == one && one[..|one| - 1] == events;
    var before := Run(db, events);
    assert Run(db, two) == After(After(before, next), commit);
    hide Run;
    assert Find(before.rows, code, 0) == Some(key);
    OneDocument(before, tid, code, 0, clock);
    assert before.rows[key := Bumped(row, PeriodKey(row.policy, clock))] == map[key := Bumped(row, PeriodKey(row.policy, clock))];
  }

  /**
   A run whose clock goes back: three transactions, one in year a, one in year b, and one in year a again. The first
   number of year a is committed twice.
   */
  lemma ClockGoingBackRepeats(row: Row, code: string, a: string, b: string)
    requires row.active && row.policy.Yearly? && a != "" && b != "" && a != b && row.lastPeriod != a
    ensures var key := Key(code, None);
            var db := Db(map[key := row], map[], map[], []);
            var events := [Next(1, code, 0, Clock(a, a)), Commit(1)] + [Next(2, code, 0, Clock(b, b)), Commit(2)]
                          + [Next(3, code, 0, Clock(a, a)), Commit(3)];
            var series := Series(Run(db, events).log, key);
            Idle(db) && series == [Entry(key, a, 1), Entry(key, b, 1), Entry(key, a, 1)] && !AllDiffer(series)
  {
    var key := Key(code, None);
    var db := Db(map[key := row], map[], map[], []);
    var e1 := [Next(1, code, 0, Clock(a, a)), Commit(1)];
    var e2 := e1 + [Next(2, code, 0, Clock(b, b)), Commit(2)];
    var e3 := e2 + [Next(3, code, 0, Clock(a, a)), Commit(3)];
    assert Run(db, []) == db && [] + e1 == e1;
    var r1 := Bumped(row, a);
    var r2 := Bumped(r1, b);
    assert NumberOf(row, a) == 1 && NumberOf(r1, b) == 1 && NumberOf(r2, a) == 1;
    assert r1.active && r2.active && r1.policy.Yearly? && r2.policy.Yearly?;
    hide Run, Series, Bumped, NumberOf;
    var x, y := Entry(key, a, 1), Entry(key, b, 1);
    OneMoreDocument(db, [], 1, code, Clock(a, a), row, []);
    OneMoreDocument(db, e1, 2, code, Clock(b, b), r1, [] + [x]);
    OneMoreDocument(db, e2, 3, code, Clock(a, a), r2, [] + [x] + [y]);
    SeriesOfThree(key, x, y, x);
    assert [x, y, x][0] == [x, y, x][2];
  }

  lemma SeriesOfThree(key: Key, x: Entry, y: Entry, z: Entry)
    requires x.key == key && y.key == key && z.key == key
    ensures Series([] + [x] + [y] + [z], key) == [x, y, z]
  {
    var log := [] + [x] + [y] + [z];
    assert log[..2] == [x, y] && [x, y][..1] == [x] && [x][..0] == [];
    assert Series([x], key) == [x];
    assert Series([x, y], key) == [x] + [y];
  }
}
