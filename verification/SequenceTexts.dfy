/** The texts that callers receive: how they read, and that those of committed transactions are the numbers recorded. */
module SequenceTexts {
  import opened Wrappers
  import opened Decimals
  import opened DocumentSequence
  import opened SequenceClocks

  // ----- one text

  /** A text is the prefix, a number of at least the padded width and without needless zeros, and the suffix. */
  lemma FormatReads(row: Row, n: nat) returns (digits: string)
    ensures Format(row, n) == row.prefix + digits + row.suffix
    ensures AllDigits(digits) && Value(digits) == n
    ensures |digits| >= row.padding && (|digits| > row.padding && |digits| > 1 ==> digits[0] != '0')
  {
    digits := Padded(Decimal(n), row.padding);
    ValueOfPadded(n, row.padding);
    NoLeadingZero(n);
    hide Decimal, Value;
  }

  // ----- one request

  /** The row that serves a request: the company's own, or else the one for all companies, if it is active. */
  lemma RowThatServes(db: Db, tid: int, code: string, company: int, clock: Clock)
    ensures var own, shared := Key(code, Some(company)), Key(code, None);
            var hasOwn := company > 0 && own in db.rows && db.rows[own].active;
            var hasShared := shared in db.rows && db.rows[shared].active;
            && (NextAnswer(db, tid, code, company, clock).NoSequence? <==> !hasOwn && !hasShared)
            && (NextAnswer(db, tid, code, company, clock).Wait?
                <==> (hasOwn && LockedByOther(db, tid, own)) || (!hasOwn && hasShared && LockedByOther(db, tid, shared)))
            && Find(db.rows, code, company) == if hasOwn then Some(own) else if hasShared then Some(shared) else None
  {
    hide Format;
  }

  /** The period of a number: none, the year, or the month that the clock shows. */
  function PeriodOf(policy: Policy, clock: Clock): string
  {
    if policy == Never then "" else if policy == Yearly then clock.year else clock.month
  }

  /**
   What is answered is what is recorded: the text shows the number that the transaction takes, which is the one that the
   row stands at, or 1 in a period that it has not been in last; the row then stands one increment further. Any other
   answer leaves everything as it was.
   */
  lemma AnswerIsRecorded(db: Db, tid: int, code: string, company: int, clock: Clock)
    ensures var answer, after := NextAnswer(db, tid, code, company, clock), AfterNext(db, tid, code, company, clock);
            if !answer.Allocated? then after == db
            else
              var found := Find(db.rows, code, company);
              && found.Some?
              && var key, row := found.value, Seen(db, tid, found.value);
                 var period := PeriodOf(row.policy, clock);
                 var n := if period == "" || period == row.lastPeriod then row.next else 1;
                 && answer.text == Format(row, n)
                 && SessionOf(after, tid).taken == SessionOf(db, tid).taken + [Entry(key, period, n)]
                 && Seen(after, tid, key) == row.(next := n + row.step, lastPeriod := period)
                 && after.locks == db.locks[key := tid] && after.rows == db.rows && after.log == db.log
  {
    hide Format;
  }

  /** A request that waits for a transaction is answered once that one has committed or aborted. */
  lemma WaitEnds(db: Db, tid: int, code: string, company: int, clock: Clock)
    requires NextAnswer(db, tid, code, company, clock).Wait?
    ensures var found := Find(db.rows, code, company);
            && found.Some? && found.value in db.locks && db.locks[found.value] != tid
            && NextAnswer(AfterAbort(db, db.locks[found.value]), tid, code, company, clock).Allocated?
            && LockedByOther(db, tid, found.value) && !LockedByOther(AfterCommit(db, db.locks[found.value]), tid, found.value)
  {
    hide Format;
  }

  // ----- the texts of a run

  /** A text given to a caller, and the row it came from. */
  datatype Ticket = Ticket(key: Key, text: string)

  /** The texts that open transactions have been given, and those of the committed ones in the order of the commits. */
  datatype Book = Book(open: map<int, seq<Ticket>>, committed: seq<Ticket>)

  function Kept(b: Book, tid: int): seq<Ticket>
  {
    if tid in b.open then b.open[tid] else []
  }

  /** Kept by noting each answer when it is given. */
  function BookOf(db: Db, events: seq<Event>): Book
  {
    if events == [] then Book(map[], [])
    else
      var init := events[..|events| - 1];
      Noted(Run(db, init), BookOf(db, init), events[|events| - 1])
  }

  function Noted(db: Db, b: Book, e: Event): Book
  {
    match e
    case Next(tid, code, company, clock) =>
      var found, answer := Find(db.rows, code, company), NextAnswer(db, tid, code, company, clock);
      if found.None? || !answer.Allocated? then b
      else b.(open := b.open[tid := Kept(b, tid) + [Ticket(found.value, answer.text)]])
    case Commit(tid) => Book(b.open - {tid}, b.committed + Kept(b, tid))
    case Abort(tid) => b.(open := b.open - {tid})
  }

  /** The texts of one row among them. */
  function TextsOf(tickets: seq<Ticket>, key: Key): seq<string>
  {
    if tickets == [] then []
    else
      var last := tickets[|tickets| - 1];
      TextsOf(tickets[..|tickets| - 1], key) + (if last.key == key then [last.text] else [])
  }

  // ----- the book agrees with the numbers

  predicate SameLook(a: Row, b: Row)
  {
    a.prefix == b.prefix && a.suffix == b.suffix && a.padding == b.padding
  }

  lemma {:induction false} ReplayKeepsLook(rows: map<Key, Row>, log: seq<Entry>, key: Key)
    requires key in rows
    ensures SameLook(Replay(rows, log)[key], rows[key])
  {
    if log != [] {
      ReplayKeepsLook(rows, log[..|log| - 1], key);
    }
  }

  lemma SeenLook(db: Db, start: map<Key, Row>, tid: int, key: Key)
    requires Good(db, start) && key in db.rows
    ensures key in start && SameLook(Seen(db, tid, key), start[key])
  {
    var s := SessionOf(db, tid);
    ReplayKeepsLook(start, db.log, key);
    SessionOfGood(db, start, tid);
    SeenIsReplayed(db.rows, db.locks, tid, s, key);
    ReplayKeepsLook(db.rows, s.taken, key);
    hide Replay, Follows, KeysOf;
  }

  /** The tickets that show these numbers. */
  predicate Shows(start: map<Key, Row>, tickets: seq<Ticket>, entries: seq<Entry>)
  {
    |tickets| == |entries|
    && forall i :: 0 <= i < |tickets| ==>
         entries[i].key in start && tickets[i] == Ticket(entries[i].key, Format(start[entries[i].key], entries[i].number))
  }

  lemma ShowsConcat(start: map<Key, Row>, a: seq<Ticket>, b: seq<Ticket>, x: seq<Entry>, y: seq<Entry>)
    requires Shows(start, a, x) && Shows(start, b, y)
    ensures Shows(start, a + b, x + y)
  {
    hide Format;
  }

  ghost predicate Agree(start: map<Key, Row>, db: Db, b: Book)
  {
    Shows(start, b.committed, db.log) && forall tid :: Shows(start, Kept(b, tid), SessionOf(db, tid).taken)
  }

  lemma {:induction false} BookAgrees(db: Db, events: seq<Event>)
    requires Idle(db)
    ensures Agree(db.rows, Run(db, events), BookOf(db, events))
  {
    hide Format;
    if events == [] {
      assert forall tid :: SessionOf(db, tid).taken == [];
    } else {
      var init, e := events[..|events| - 1], events[|events| - 1];
      BookAgrees(db, init);
      RunIsGood(db, init);
      hide Agree, Good, Run, After, Noted;
      StepAgrees(Run(db, init), db.rows, BookOf(db, init), e);
      assert Run(db, events) == After(Run(db, init), e) by { RunStep(db, events); }
    }
  }

  lemma RunStep(db: Db, events: seq<Event>)
    requires events != []
    ensures Run(db, events) == After(Run(db, events[..|events| - 1]), events[|events| - 1])
  {
  }

  lemma StepAgrees(db: Db, start: map<Key, Row>, b: Book, e: Event)
    requires Good(db, start) && Agree(start, db, b)
    ensures Agree(start, After(db, e), Noted(db, b, e))
  {
    hide Shows, Good, Format;
    match e {
      case Next(tid, code, company, clock) => NextAgrees(db, start, b, tid, code, company, clock);
      case Commit(tid) =>
        ShowsConcat(start, b.committed, Kept(b, tid), db.log, SessionOf(db, tid).taken);
        assert forall t :: t != tid ==> SessionOf(AfterCommit(db, tid), t) == SessionOf(db, t);
        ShowsNothing(start);
      case Abort(tid) =>
        assert forall t :: t != tid ==> SessionOf(AfterAbort(db, tid), t) == SessionOf(db, t);
        ShowsNothing(start);
    }
  }

  lemma ShowsNothing(start: map<Key, Row>)
    ensures Shows(start, [], [])
  {
  }

  lemma NextAgrees(db: Db, start: map<Key, Row>, b: Book, tid: int, code: string, company: int, clock: Clock)
    requires Good(db, start) && Agree(start, db, b)
    ensures var e := Next(tid, code, company, clock); Agree(start, After(db, e), Noted(db, b, e))
  {
    var answer, found := NextAnswer(db, tid, code, company, clock), Find(db.rows, code, company);
    AnswerIsRecorded(db, tid, code, company, clock);
    if answer.Allocated? {
      var key, row := found.value, Seen(db, tid, found.value);
      SeenLook(db, start, tid, key);
      TakeAppends(db, tid, key, clock);
      var e := Taken(db, tid, key, clock);
      SameText(row, start[key], e.number);
      ShowsOne(start, e, answer.text);
      ShowsConcat(start, Kept(b, tid), [Ticket(key, answer.text)], SessionOf(db, tid).taken, [e]);
    }
    hide Shows, Good, Format, Taken;
  }

  lemma SameText(a: Row, b: Row, n: nat)
    requires SameLook(a, b)
    ensures Format(a, n) == Format(b, n)
  {
  }

  lemma ShowsOne(start: map<Key, Row>, e: Entry, text: string)
    requires e.key in start && text == Format(start[e.key], e.number)
    ensures Shows(start, [Ticket(e.key, text)], [e])
  {
  }

  // ----- the texts of committed transactions

  predicate Formats(row: Row, texts: seq<string>, series: seq<Entry>)
  {
    |texts| == |series| && forall i :: 0 <= i < |texts| ==> texts[i] == Format(row, series[i].number)
  }

  lemma {:induction false} TextsAreSeries(start: map<Key, Row>, tickets: seq<Ticket>, entries: seq<Entry>, key: Key)
    requires key in start && Shows(start, tickets, entries)
    ensures Formats(start[key], TextsOf(tickets, key), Series(entries, key))
  {
    hide Format;
    if tickets != [] {
      TextsAreSeries(start, tickets[..|tickets| - 1], entries[..|entries| - 1], key);
    }
  }

  /** The texts of a row that committed transactions were given show the committed series of the row, number by number. */
  lemma CommittedTexts(db: Db, events: seq<Event>, key: Key)
    requires Idle(db) && key in db.rows
    ensures Formats(db.rows[key], TextsOf(BookOf(db, events).committed, key), Series(Run(db, events).log, key))
  {
    BookAgrees(db, events);
    hide Run, BookOf, Formats, Shows;
    TextsAreSeries(db.rows, BookOf(db, events).committed, Run(db, events).log, key);
  }

  /**
   In any stretch of one period the texts given are numbered gapless: the numbers in any two of them differ by as many
   increments as the texts are apart, and no two texts are the same.
   */
  lemma TextsAreGapless(db: Db, events: seq<Event>, key: Key, i: nat, j: nat) returns (a: string, b: string)
    requires Idle(db) && key in db.rows && db.rows[key].step > 0
    requires Stretch(Series(Run(db, events).log, key), i, j)
    ensures var texts, row := TextsOf(BookOf(db, events).committed, key), db.rows[key];
            && j < |texts|
            && AllDigits(a) && AllDigits(b) && |a| >= row.padding && |b| >= row.padding
            && texts[i] == row.prefix + a + row.suffix && texts[j] == row.prefix + b + row.suffix
            && Value(b) == Value(a) + (j - i) * row.step
            && (i < j ==> texts[i] != texts[j])
  {
    var series, row := Series(Run(db, events).log, key), db.rows[key];
    CommittedTexts(db, events, key);
    GaplessWithinPeriod(db, events, key, i, j);
    assert i <= j < |series|;
    hide Run, BookOf, Series, TextsOf, Format, NumberOf;
    a := FormatReads(row, series[i].number);
    b := FormatReads(row, series[j].number);
  }

  /** With clocks that never enter a period again, no text is given twice in a period. */
  lemma TextsNeverRepeat(db: Db, events: seq<Event>, key: Key, i: nat, j: nat)
    requires Idle(db) && key in db.rows && db.rows[key].step > 0 && NoneReentered(Asked(db.rows, events, key))
    requires var series := Series(Run(db, events).log, key); i < j < |series| && series[i].period == series[j].period
    ensures var texts := TextsOf(BookOf(db, events).committed, key); j < |texts| && texts[i] != texts[j]
  {
    CommittedTexts(db, events, key);
    OrderedClocksNeverRepeat(db, events, key);
    hide Run, BookOf, Series, TextsOf, Format, Asked, NoneReentered;
    var series, row := Series(Run(db, events).log, key), db.rows[key];
    if Format(row, series[i].number) == Format(row, series[j].number) {
      FormatTellsApart(row, series[i].number, series[j].number);
    }
  }
}
