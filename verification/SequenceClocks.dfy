/**
 The clock and the numbers: what the periods in which numbers are asked for say about the numbers committed.
 */
module SequenceClocks {
  import opened Wrappers
  import opened DocumentSequence

  /** The periods in which this row was asked for a number, by the clocks of the requests, granted or not. */
  function Asked(rows: map<Key, Row>, events: seq<Event>, key: Key): seq<string>
    requires key in rows
  {
    if events == [] then []
    else Asked(rows, events[..|events| - 1], key) + AskedBy(rows, events[|events| - 1], key)
  }

  function AskedBy(rows: map<Key, Row>, e: Event, key: Key): seq<string>
    requires key in rows
  {
    if e.Next? && Find(rows, e.code, e.company) == Some(key) then [PeriodKey(rows[key].policy, e.clock)] else []
  }

  // ----- parts of a sequence, in order

  /** The elements of a, in their order, with others of b between them. */
  predicate Within(a: seq<string>, b: seq<string>)
  {
    a == []
    || (b != []
        && ((a[|a| - 1] == b[|b| - 1] && Within(a[..|a| - 1], b[..|b| - 1])) || Within(a, b[..|b| - 1])))
  }

  lemma WithinExtended(a: seq<string>, b: seq<string>, x: string)
    requires Within(a, b)
    ensures Within(a, b + [x]) && Within(a + [x], b + [x])
  {
    assert (a + [x])[..|a|] == a && (b + [x])[..|b|] == b;
  }

  lemma {:induction false} WithinPrefix(a: seq<string>, c: seq<string>, b: seq<string>)
    requires Within(a + c, b)
    ensures Within(a, b)
    decreases |c| + |b|
  {
    if c == [] {
      assert a + c == a;
    } else if Within(a + c, b[..|b| - 1]) {
      WithinPrefix(a, c, b[..|b| - 1]);
    } else {
      assert (a + c)[..|a + c| - 1] == a + c[..|c| - 1];
      WithinPrefix(a, c[..|c| - 1], b[..|b| - 1]);
    }
  }

  predicate Increasing(places: seq<nat>, bound: nat)
  {
    && (forall i :: 0 <= i < |places| ==> places[i] < bound)
    && (forall i, j :: 0 <= i < j < |places| ==> places[i] < places[j])
  }

  /** Where the elements of a are in b. */
  lemma {:induction false} Places(a: seq<string>, b: seq<string>) returns (places: seq<nat>)
    requires Within(a, b)
    ensures |places| == |a| && Increasing(places, |b|)
    ensures forall i :: 0 <= i < |a| ==> places[i] < |b| && b[places[i]] == a[i]
    decreases |b|
  {
    if a == [] {
      places := [];
    } else if Within(a, b[..|b| - 1]) {
      places := Places(a, b[..|b| - 1]);
    } else {
      var init := Places(a[..|a| - 1], b[..|b| - 1]);
      places := init + [|b| - 1];
    }
  }

  lemma PartNotReentered(a: seq<string>, b: seq<string>)
    requires Within(a, b) && NoneReentered(b)
    ensures NoneReentered(a)
  {
    var places := Places(a, b);
    forall i, j, k | 0 <= i < j < k < |a| && a[i] == a[k] ensures a[j] == a[i] {
      assert places[i] < places[j] < places[k];
      assert b[places[j]] == b[places[i]];
    }
  }

  // ----- rows keep their policy

  predicate SameKind(start: map<Key, Row>, rows: map<Key, Row>)
  {
    rows.Keys == start.Keys
    && forall k :: k in rows ==> rows[k].policy == start[k].policy && rows[k].active == start[k].active
  }

  lemma {:induction false} ReplayKeeps(rows: map<Key, Row>, log: seq<Entry>)
    ensures SameKind(rows, Replay(rows, log))
  {
    if log != [] {
      ReplayKeeps(rows, log[..|log| - 1]);
    }
  }

  lemma SameFound(start: map<Key, Row>, rows: map<Key, Row>, code: string, company: int)
    requires SameKind(start, rows)
    ensures Find(rows, code, company) == Find(start, code, company)
  {
  }

  /** A transaction sees rows of the kind they had at the start. */
  lemma SeenKind(db: Db, start: map<Key, Row>, tid: int, key: Key)
    requires Good(db, start) && key in db.rows
    ensures SameKind(start, db.rows) && Seen(db, tid, key).policy == start[key].policy
  {
    ReplayKeeps(start, db.log);
    SessionOfGood(db, start, tid);
    var s := SessionOf(db, tid);
    SeenIsReplayed(db.rows, db.locks, tid, s, key);
    ReplayKeeps(db.rows, s.taken);
  }

  // ----- the numbers of a row, committed and pending

  /** What the transaction that holds the row has taken from it. */
  function Pending(db: Db, key: Key): seq<Entry>
  {
    if key in db.locks then Series(SessionOf(db, db.locks[key]).taken, key) else []
  }

  function Granted(db: Db, key: Key): seq<Entry>
  {
    Series(db.log, key) + Pending(db, key)
  }

  lemma {:induction false} SeriesConcat(a: seq<Entry>, b: seq<Entry>, key: Key)
    ensures Series(a + b, key) == Series(a, key) + Series(b, key)
  {
    if b == [] {
      assert a + b == a;
    } else {
      assert (a + b)[..|a + b| - 1] == a + b[..|b| - 1];
      SeriesConcat(a, b[..|b| - 1], key);
    }
  }

  lemma {:induction false} NoneOfKey(log: seq<Entry>, key: Key)
    requires key !in KeysOf(log)
    ensures Series(log, key) == []
  {
    if log != [] {
      KeysOfInit(log);
      NoneOfKey(log[..|log| - 1], key);
    }
  }

  /** A transaction that does not hold the row has taken nothing from it. */
  lemma OnlyTheHolder(db: Db, start: map<Key, Row>, tid: int, key: Key)
    requires Good(db, start) && !(key in db.locks && db.locks[key] == tid)
    ensures Series(SessionOf(db, tid).taken, key) == []
  {
    SessionOfGood(db, start, tid);
    hide Follows, Replay, KeysOf;
    NoneOfKey(SessionOf(db, tid).taken, key);
  }

  /** The number that a request takes. */
  function Taken(db: Db, tid: int, key: Key, clock: Clock): Entry
    requires key in db.rows
  {
    var row := Seen(db, tid, key);
    var period := PeriodKey(row.policy, clock);
    Entry(key, period, NumberOf(row, period))
  }

  lemma TakeAppends(db: Db, tid: int, key: Key, clock: Clock)
    requires key in db.rows
    ensures var after, e := Take(db, tid, key, clock), Taken(db, tid, key, clock);
            && after.log == db.log && after.locks == db.locks[key := tid]
            && SessionOf(after, tid).taken == SessionOf(db, tid).taken + [e]
            && forall t :: t != tid ==> SessionOf(after, t) == SessionOf(db, t)
  {
    hide NumberOf, PeriodKey, Bumped, Seen;
  }

  lemma SeriesOfMore(log: seq<Entry>, e: Entry, key: Key)
    ensures Series(log + [e], key) == Series(log, key) + if e.key == key then [e] else []
  {
    assert (log + [e])[..|log|] == log;
  }

  /** What each step does to the numbers granted: a request adds one, a commit none, and an abort drops the pending ones. */
  lemma TakeGrants(db: Db, start: map<Key, Row>, tid: int, key: Key, clock: Clock, own: Key)
    requires Good(db, start) && key in db.rows && !LockedByOther(db, tid, key)
    ensures Granted(Take(db, tid, key, clock), own)
            == Granted(db, own) + if key == own then [Taken(db, tid, key, clock)] else []
  {
    TakeAppends(db, tid, key, clock);
    TakePends(db, start, tid, key, clock, own);
    hide Series, Pending, Take, Taken, Good;
    var log, more := Series(db.log, own), if key == own then [Taken(db, tid, key, clock)] else [];
    assert log + (Pending(db, own) + more) == log + Pending(db, own) + more;
  }

  lemma TakePends(db: Db, start: map<Key, Row>, tid: int, key: Key, clock: Clock, own: Key)
    requires Good(db, start) && key in db.rows && !LockedByOther(db, tid, key)
    ensures Pending(Take(db, tid, key, clock), own)
            == Pending(db, own) + if key == own then [Taken(db, tid, key, clock)] else []
  {
    var e, after := Taken(db, tid, key, clock), Take(db, tid, key, clock);
    TakeAppends(db, tid, key, clock);
    SeriesOfMore(SessionOf(db, tid).taken, e, own);
    if key !in db.locks {
      OnlyTheHolder(db, start, tid, key);
    }
    assert e.key == key;
    hide Series, Good, Taken, Take, SessionOf;
    if !(own in after.locks && after.locks[own] == tid) {
      assert own != key && Pending(after, own) == Pending(db, own);
      assert Pending(db, own) + [] == Pending(db, own);
    }
  }

  lemma OthersStay(db: Db, tid: int, key: Key)
    ensures !(key in db.locks && db.locks[key] == tid) ==>
              Pending(AfterCommit(db, tid), key) == Pending(db, key) && Pending(AfterAbort(db, tid), key) == Pending(db, key)
    ensures key in db.locks && db.locks[key] == tid ==>
              Pending(AfterCommit(db, tid), key) == [] && Pending(AfterAbort(db, tid), key) == []
  {
    hide Series;
    assert forall t :: t != tid ==> SessionOf(AfterCommit(db, tid), t) == SessionOf(db, t);
    assert forall t :: t != tid ==> SessionOf(AfterAbort(db, tid), t) == SessionOf(db, t);
  }

  lemma CommitGrants(db: Db, start: map<Key, Row>, tid: int, key: Key)
    requires Good(db, start)
    ensures Granted(AfterCommit(db, tid), key) == Granted(db, key)
  {
    OthersStay(db, tid, key);
    SeriesConcat(db.log, SessionOf(db, tid).taken, key);
    var log := Series(db.log, key);
    if key in db.locks && db.locks[key] == tid {
      hide Series, Good, SessionOf;
      assert log + Pending(db, key) + [] == log + Pending(db, key);
    } else {
      OnlyTheHolder(db, start, tid, key);
      hide Series, Good, SessionOf, Pending;
      assert log + [] == log;
    }
  }

  lemma AbortGrants(db: Db, tid: int, key: Key)
    ensures Granted(AfterAbort(db, tid), key) == Granted(db, key)
            || Granted(AfterAbort(db, tid), key) == Series(db.log, key)
  {
    OthersStay(db, tid, key);
    hide Series, SessionOf, Pending;
    assert Series(db.log, key) + [] == Series(db.log, key);
  }

  // ----- from the clocks to the numbers

  lemma PeriodsOfMore(series: seq<Entry>, e: Entry)
    ensures Periods(series + [e]) == Periods(series) + [e.period]
  {
  }

  /** The periods of the numbers granted are among those asked for, in their order. */
  lemma {:induction false} GrantedWithinAsked(db: Db, events: seq<Event>, key: Key)
    requires Idle(db) && key in db.rows
    ensures Within(Periods(Granted(Run(db, events), key)), Asked(db.rows, events, key))
  {
    if events != [] {
      var init, e := events[..|events| - 1], events[|events| - 1];
      var before := Run(db, init);
      GrantedWithinAsked(db, init, key);
      RunIsGood(db, init);
      StepWithinAsked(before, db.rows, e, key, Asked(db.rows, init, key));
    }
  }

  lemma StepWithinAsked(db: Db, start: map<Key, Row>, e: Event, key: Key, asked: seq<string>)
    requires Good(db, start) && key in start && Within(Periods(Granted(db, key)), asked)
    ensures Within(Periods(Granted(After(db, e), key)), asked + AskedBy(start, e, key))
  {
    hide Good, Granted, Take, AfterCommit, AfterAbort, Within, Periods;
    assert asked + [] == asked;
    match e {
      case Next(tid, code, company, clock) => NextWithinAsked(db, start, tid, code, company, clock, key, asked);
      case Commit(tid) => CommitGrants(db, start, tid, key);
      case Abort(tid) =>
        AbortGrants(db, tid, key);
        DropPending(db, key, asked);
    }
  }

  lemma DropPending(db: Db, key: Key, asked: seq<string>)
    requires Within(Periods(Granted(db, key)), asked)
    ensures Within(Periods(Series(db.log, key)), asked)
  {
    var log, pending := Series(db.log, key), Pending(db, key);
    assert Periods(log + pending) == Periods(log) + Periods(pending);
    WithinPrefix(Periods(log), Periods(pending), asked);
  }

  lemma NextWithinAsked(db: Db, start: map<Key, Row>, tid: int, code: string, company: int, clock: Clock, key: Key,
                        asked: seq<string>)
    requires Good(db, start) && key in start && Within(Periods(Granted(db, key)), asked)
    ensures Within(Periods(Granted(AfterNext(db, tid, code, company, clock), key)),
                   asked + AskedBy(start, Next(tid, code, company, clock), key))
  {
    NextGrants(db, start, tid, code, company, clock, key);
    assert asked + [] == asked;
    WithinExtended(Periods(Granted(db, key)), asked, PeriodKey(start[key].policy, clock));
    hide Good, Granted, AfterNext, Within, Periods, PeriodKey, Find;
  }

  /** A request either changes nothing for the row, or it asked for the row and adds one number in the period asked for. */
  lemma NextGrants(db: Db, start: map<Key, Row>, tid: int, code: string, company: int, clock: Clock, key: Key)
    requires Good(db, start) && key in start
    ensures var before, after := Periods(Granted(db, key)), Periods(Granted(AfterNext(db, tid, code, company, clock), key));
            after == before
            || (Find(start, code, company) == Some(key) && after == before + [PeriodKey(start[key].policy, clock)])
  {
    ReplayKeeps(start, db.log);
    SameFound(start, db.rows, code, company);
    var found := Find(db.rows, code, company);
    if found.Some? && !LockedByOther(db, tid, found.value) {
      SeenKind(db, start, tid, found.value);
      var e := Taken(db, tid, found.value, clock);
      assert found.value == key ==> e.period == PeriodKey(start[key].policy, clock);
      TakeGrants(db, start, tid, found.value, clock, key);
      hide Good, Granted, Periods, PeriodKey, Find, Replay, Taken, Take;
      PeriodsOfMore(Granted(db, key), e);
      assert Granted(db, key) + [] == Granted(db, key);
    }
  }

  /**
   If the periods in which a row is asked for numbers, in the order of the requests, never leave a period and enter it
   again, no number is committed twice in a period: whatever the row has given before, in any interleaving, and whether
   requests wait or are aborted or not.
   */
  lemma OrderedClocksNeverRepeat(db: Db, events: seq<Event>, key: Key)
    requires Idle(db) && key in db.rows && db.rows[key].step > 0
    requires NoneReentered(Asked(db.rows, events, key))
    ensures AllDiffer(Series(Run(db, events).log, key))
  {
    var after := Run(db, events);
    var asked := Asked(db.rows, events, key);
    GrantedWithinAsked(db, events, key);
    CommittedSeries(db, events, key);
    hide Run, Asked, Series;
    DropPending(after, key, asked);
    hide Within, NoneReentered, AllDiffer, Periods, RowGives;
    PartNotReentered(Periods(Series(after.log, key)), asked);
    DifferWithoutReentry(db.rows[key], Series(after.log, key));
  }

  // ----- one transaction after the other

  datatype Call = Call(tid: int, code: string, company: int, clock: Clock)

  /** Each call in a transaction of its own, which commits before the next one begins. */
  function OneByOne(calls: seq<Call>): seq<Event>
  {
    if calls == [] then []
    else
      var c := calls[|calls| - 1];
      OneByOne(calls[..|calls| - 1]) + [Next(c.tid, c.code, c.company, c.clock), Commit(c.tid)]
  }

  lemma RunTwoMore(db: Db, events: seq<Event>, x: Event, y: Event)
    ensures Run(db, events + [x, y]) == After(After(Run(db, events), x), y)
    ensures forall rows: map<Key, Row>, key :: key in rows ==>
              Asked(rows, events + [x, y], key) == Asked(rows, events, key) + AskedBy(rows, x, key) + AskedBy(rows, y, key)
  {
    var one, two := events + [x], events + [x, y];
    assert two[..|two| - 1] == one && one[..|one| - 1] == events;
  }

  /** Then every period asked for is one of a committed number. */
  lemma {:induction false} AllAreCommitted(db: Db, calls: seq<Call>, key: Key)
    requires Idle(db) && key in db.rows
    ensures var after := Run(db, OneByOne(calls));
            && after.locks == map[] && after.sessions == map[]
            && Periods(Series(after.log, key)) == Asked(db.rows, OneByOne(calls), key)
  {
    if calls != [] {
      var init, c := calls[..|calls| - 1], calls[|calls| - 1];
      var events := OneByOne(init);
      var before := Run(db, events);
      AllAreCommitted(db, init, key);
      RunTwoMore(db, events, Next(c.tid, c.code, c.company, c.clock), Commit(c.tid));
      RunIsGood(db, events);
      hide Run, Asked;
      CallIsCommitted(before, db.rows, c, key, Asked(db.rows, events, key));
    }
  }

  lemma CallIsCommitted(db: Db, start: map<Key, Row>, c: Call, key: Key, asked: seq<string>)
    requires Good(db, start) && key in start && db.locks == map[] && db.sessions == map[]
    requires Periods(Series(db.log, key)) == asked
    ensures var after := AfterCommit(AfterNext(db, c.tid, c.code, c.company, c.clock), c.tid);
            && after.locks == map[] && after.sessions == map[]
            && Periods(Series(after.log, key))
               == asked + AskedBy(start, Next(c.tid, c.code, c.company, c.clock), key) + []
  {
    ReplayKeeps(start, db.log);
    SameFound(start, db.rows, c.code, c.company);
    hide Good, Find, Series, Periods, PeriodKey, After, AfterCommit, AfterNext;
    if Find(db.rows, c.code, c.company).Some? {
      CallAppends(db, c, key);
    } else {
      NothingFound(db, c);
    }
    assert forall p: seq<string> :: asked + p + [] == asked + p;
    assert asked + [] == asked;
  }

  lemma CallAppends(db: Db, c: Call, key: Key)
    requires Find(db.rows, c.code, c.company).Some? && db.locks == map[] && db.sessions == map[] && key in db.rows
    ensures var after := AfterCommit(AfterNext(db, c.tid, c.code, c.company, c.clock), c.tid);
            && after.locks == map[] && after.sessions == map[]
            && Periods(Series(after.log, key))
               == Periods(Series(db.log, key)) + AskedBy(db.rows, Next(c.tid, c.code, c.company, c.clock), key)
  {
    OneDocument(db, c.tid, c.code, c.company, c.clock);
    var found := Find(db.rows, c.code, c.company).value;
    var period := PeriodKey(db.rows[found].policy, c.clock);
    var e := Entry(found, period, NumberOf(db.rows[found], period));
    SeriesOfMore(db.log, e, key);
    PeriodsOfMore(Series(db.log, key), e);
    hide Find, Series, Periods, NumberOf, PeriodKey, Bumped, AfterCommit, AfterNext;
    assert Series(db.log, key) + [] == Series(db.log, key);
    assert Periods(Series(db.log, key)) + [] == Periods(Series(db.log, key));
  }

  lemma NothingFound(db: Db, c: Call)
    requires Find(db.rows, c.code, c.company).None? && db.locks == map[] && db.sessions == map[]
    ensures AfterCommit(AfterNext(db, c.tid, c.code, c.company, c.clock), c.tid) == db
  {
    hide Find;
    assert Unlocked(db.locks, c.tid) == map[] && db.rows + map[] == db.rows && db.log + [] == db.log;
    assert db.sessions - {c.tid} == map[];
  }

  /**
   For a row that is new in the first period asked for, or never starts over, and documents that commit one after the
   other: no number repeats in a period exactly when no period is asked for, left, and asked for again.
   */
  lemma ClocksDecide(db: Db, calls: seq<Call>, key: Key)
    requires Idle(db) && key in db.rows && db.rows[key].step > 0 && Dated(OneByOne(calls))
    requires var asked := Asked(db.rows, OneByOne(calls), key);
             asked == [] || db.rows[key].policy.Never? || NumberOf(db.rows[key], asked[0]) == 1
    ensures AllDiffer(Series(Run(db, OneByOne(calls)).log, key)) <==> NoneReentered(Asked(db.rows, OneByOne(calls), key))
  {
    AllAreCommitted(db, calls, key);
    RepeatsExactly(db, OneByOne(calls), key);
  }
}
