/** Replaying the log at start-up, and what a crash leaves. */
module Recovery {
  import opened Wrappers
  import opened Values
  import opened History
  import opened TableStatements
  import opened TableRuns
  import opened TableStore
  import opened TableEffects
  import opened Databases
  import opened TextLines
  import opened WriteAheadLog
  import opened Transactions

  const RECOVERY_KEY := "__wal_recovery__"

  /** The fixed texts that the engine itself runs. */
  predicate Speaks(parse: Parser) {
    parse("BEGIN;") == Ok(Begin) && parse("COMMIT;") == Ok(Commit) && parse("ROLLBACK;") == Ok(Rollback)
  }

  function EntrySqls(e: Entry): seq<string> {
    match e
    case Sql(statement) => [statement]
    case Transaction(statements) => ["BEGIN;"] + statements + ["COMMIT;"]
  }

  function ReplaySqls(entries: seq<Entry>): seq<string> {
    if entries == [] then [] else ReplaySqls(entries[..|entries| - 1]) + EntrySqls(entries[|entries| - 1])
  }

  predicate NoError(answers: seq<Answer>) {
    forall k :: 0 <= k < |answers| ==> answers[k].error.None?
  }

  /** The recovery session's database after these answers. */
  function CurrentAfter(answers: seq<Answer>): string {
    if answers == [] then "" else answers[|answers| - 1].current
  }

  predicate IsReplayInput(i: Input, sql: string, before: seq<Answer>) {
    i.session == Session(RECOVERY_KEY, CurrentAfter(before)) && i.sql == sql && !i.writeWal
  }

  /** The recovery session runs the texts in order, without logging them, and stops at the first error. */
  ghost predicate IsReplay(parse: Parser, r: Run, sqls: seq<string>) {
    && r.Valid(parse) && |r.inputs| <= |sqls|
    && (forall k :: 0 <= k < |r.inputs| ==> IsReplayInput(r.inputs[k], sqls[k], r.answers[..k]))
    && (r.answers != [] ==> NoError(r.answers[..|r.answers| - 1]))
  }

  lemma ReplayMore(parse: Parser, r: Run, sqls: seq<string>, i: Input, a: Answer)
    requires IsReplay(parse, r, sqls) && NoError(r.answers) && |r.inputs| < |sqls|
    requires Answers(parse, r.Last(), i, a) && IsReplayInput(i, sqls[|r.inputs|], r.answers)
    ensures IsReplay(parse, r.More(i, a), sqls) && r.More(i, a).First() == r.First() && r.More(i, a).Last() == a.state
    ensures CurrentAfter(r.More(i, a).answers) == a.current
    ensures a.error.None? ==> NoError(r.More(i, a).answers)
  {
    hide Answers;
    RunMore(parse, r, i, a);
    var more := r.More(i, a);
    forall k | 0 <= k < |more.inputs| ensures IsReplayInput(more.inputs[k], sqls[k], more.answers[..k]) {
      if k < |r.inputs| { assert more.answers[..k] == r.answers[..k]; } else { assert more.answers[..k] == r.answers; }
    }
    assert more.answers[..|more.answers| - 1] == r.answers;
  }

  /** The texts of an entry stand at position `n`. */
  predicate StandsAt(texts: seq<string>, sqls: seq<string>, n: nat) {
    n + |texts| <= |sqls| && forall k :: 0 <= k < |texts| ==> sqls[n + k] == texts[k]
  }

  lemma {:induction false} EntriesStand(entries: seq<Entry>, i: nat)
    requires i < |entries|
    ensures StandsAt(EntrySqls(entries[i]), ReplaySqls(entries), |ReplaySqls(entries[..i])|)
    ensures |ReplaySqls(entries[..i + 1])| == |ReplaySqls(entries[..i])| + |EntrySqls(entries[i])|
  {
    hide EntrySqls;
    assert entries[..i + 1][..i] == entries[..i];
    if i + 1 == |entries| {
      assert entries[..i + 1] == entries;
    } else {
      var n := |entries| - 1;
      assert entries[..n][..i] == entries[..i] && entries[..n][..i + 1] == entries[..i + 1];
      EntriesStand(entries[..n], i);
    }
  }

  /** Every text of the log is covered by the model. */
  predicate AllCovered(parse: Parser, sqls: seq<string>) {
    forall k :: 0 <= k < |sqls| ==> Covered(parse, sqls[k], false)
  }

  function WithEmptyLog(s: EngineState): EngineState {
    s.(disk := Disk(s.disk.saved, EMPTY_LOG))
  }

  /** `t` is what replaying the log makes of `s`; `r` is the replay. */
  ghost predicate Replays(parse: Parser, s: EngineState, ok: bool, r: Run, t: EngineState) {
    match Loaded(s.disk.wal)
    case None => !ok && t == s
    case Some(entries) =>
      && IsReplay(parse, r, ReplaySqls(entries)) && r.states != [] && r.First() == s && (ok <==> NoError(r.answers))
      && (ok ==> |r.inputs| == |ReplaySqls(entries)| && t == WithEmptyLog(r.Last()))
      && (!ok ==> Without(t, RECOVERY_KEY) == Without(r.Last(), RECOVERY_KEY))
  }

  /** `t` is the engine that starts up from `s`: a malformed log, or one with a statement that fails, is set aside. */
  ghost predicate Starts(parse: Parser, s: EngineState, r: Run, t: EngineState) {
    exists ok, u :: Replays(parse, s, ok, r, u) && t == WithEmptyLog(u)
  }

  lemma ReplayNothing(parse: Parser, s: EngineState, sqls: seq<string>)
    ensures IsReplay(parse, Run([s], [], []), sqls)
  {
    RunNothing(parse, s);
  }

  // ---------- crashes ----------

  /** The data file holds the shared state and the log holds nothing. */
  ghost predicate Synced(s: EngineState) {
    s.disk.saved == s.shared && Holds(s.disk.wal, [])
  }

  /** A modification outside a transaction that fails and has something to record before it does. */
  ghost predicate FailsHalfway(parse: Parser, s: EngineState, i: Input) {
    && Key(i.session) !in s.open
    && match parse(i.sql)
       case Ok(Modify(target, command)) =>
         Failing(s.shared, i.session.current, target, command)
           && !Traceless(s.shared, i.session.current, target, command)
       case _ => false
  }

  /** A request keeps the data file in step with memory if and only if it is no such modification: it changes the state
      in memory, and nothing is written then. */
  lemma SavedStep(parse: Parser, s: EngineState, i: Input, a: Answer)
    requires s.disk.saved == s.shared && Answers(parse, s, i, a)
    ensures a.state.disk.saved == a.state.shared <==> !FailsHalfway(parse, s, i)
    ensures a.state.disk.wal == s.disk.wal || a.state.disk.wal == EMPTY_LOG
  {
    hide Effect, OnlyTable, Traceless, Failing;
    match parse(i.sql)
    case Ok(Modify(target, command)) =>
      if Key(i.session) !in s.open {
        FailingExactly(s.shared, i.session.current, target, command, i.clock, a.state.shared, a.error, a.current);
        if a.error.Some? {
          FailedModification(s.shared, i.session.current, target, command, i.clock, a.state.shared, a.error, a.current);
        }
      }
    case _ =>
  }

  /** A request leaves memory, data file and log in step under the same condition. */
  lemma SyncedStep(parse: Parser, s: EngineState, i: Input, a: Answer)
    requires Synced(s) && Answers(parse, s, i, a)
    ensures Synced(a.state) <==> !FailsHalfway(parse, s, i)
  {
    hide Holds, Answers, FailsHalfway;
    HeaderHolds();
    SavedStep(parse, s, i, a);
  }

  /** For instance: outside a transaction, `INSERT` of the row 1 twice into an empty table fails at the second one.  The
      first one is in memory then, and in no file. */
  lemma FailedInsertIsNotSaved(parse: Parser, sql: string, clock: Clock) returns (s: EngineState, i: Input, a: Answer)
    requires parse(sql) == Ok(Modify(Target(Some("d"), "t"), TWICE_ONE))
    ensures Synced(s) && AllIntact(s.shared) && Answers(parse, s, i, a) && i.sql == sql
    ensures a.error == Some(ConstraintViolation) && a.state.disk == s.disk
    ensures TableName("d", "t") in s.shared.tables && s.shared.tables[TableName("d", "t")].rows == []
    ensures TableName("d", "t") in a.state.shared.tables
      && a.state.shared.tables[TableName("d", "t")].rows == [FirstRow(Int(1))]
    ensures !Synced(a.state)
  {
    hide Inserted, Added, Indexable, Recorded, PastConforms;
    var name := TableName("d", "t");
    FirstThenRejected(clock);
    NoRowsIntact();
    var after := Added(NO_ROWS, ONE_COLUMN, FirstRow(Int(1)), clock);
    AddedOne(IntType, Int(1), clock);
    var x := Snapshot({"d"}, map[name := TableImage(ONE_COLUMN, [], 0, map["k" := map[]])], []);
    var y := Snapshot({"d"}, map[name := TableImage(ONE_COLUMN, after.rows, after.next, after.indexes)],
      Tagged("d", "t", after.history));
    s := EngineState(x, map[], Disk(x, None));
    i := Input(Session("", ""), sql, true, clock);
    a := Answer(EngineState(y, map[], s.disk), "", Some(ConstraintViolation));
    assert StateOf(x, name) == NO_ROWS;
    TaggedHistory("d", "t", after.history);
    assert StateOf(y, name) == after;
    assert Performs(x, "", Modify(Target(Some("d"), "t"), TWICE_ONE), clock, y, Some(ConstraintViolation), "");
  }

  lemma TaggedHistory(database: string, table: string, h: seq<Event>)
    requires |h| == 1
    ensures HistoryOf(Tagged(database, table, h), database, table) == h
  {
    var records := Tagged(database, table, h);
    assert records[..0] == [] && [] + [h[0]] == h;
  }

  /** Start-up from these files. */
  function FromDisk(disk: Disk): EngineState {
    EngineState(disk.saved, map[], disk)
  }

  /** A modification of a named database's table that does not go back in time, in one line. */
  predicate Dml(parse: Parser, sql: string) {
    && Plain(sql)
    && match parse(sql)
       case Ok(Modify(target, command)) => target.database.Some? && !command.RevertTable?
       case _ => false
  }

  /** After its BEGIN the transaction consists of modifications, all of them logged and successful. */
  ghost predicate AllDml(parse: Parser, r: Run) {
    |r.answers| == |r.inputs|
    && forall k :: 1 <= k < |r.inputs| ==>
      Dml(parse, r.inputs[k].sql) && r.inputs[k].writeWal && r.answers[k].error.None?
  }

  function Texts(inputs: seq<Input>): seq<string> {
    seq(|inputs|, k requires 0 <= k < |inputs| => inputs[k].sql)
  }

  /** The log of the transaction is its statements. */
  lemma {:induction false} LogIsTexts(parse: Parser, r: Run, key: string, k: nat)
    requires Inside(parse, r, key) && AllDml(parse, r) && 1 <= k <= |r.inputs|
    ensures key in r.states[k].open && r.states[k].open[key].log == Texts(r.inputs[1..k])
  {
    hide Performs;
    InsideStays(parse, r, key, k);
    if k > 1 {
      LogIsTexts(parse, r, key, k - 1);
      InsideStays(parse, r, key, k - 1);
      assert r.Step(parse, k - 1);
      assert r.inputs[1..k] == r.inputs[1..k - 1] + [r.inputs[k - 1]];
    }
  }

  lemma SameAsItself(x: Snapshot)
    ensures SameButTimes(x, x)
  {
  }

  /** One statement inside the transaction and inside its replay. */
  lemma StatementFollows(parse: Parser, s: EngineState, i: Input, a: Answer, t: EngineState, j: Input, b: Answer)
    requires Answers(parse, s, i, a) && Answers(parse, t, j, b) && i.sql == j.sql && Dml(parse, i.sql) && a.error.None?
    requires Key(i.session) in s.open && Key(j.session) in t.open
    requires SameButTimes(s.open[Key(i.session)].working, t.open[Key(j.session)].working)
    ensures Key(i.session) in a.state.open && Key(j.session) in b.state.open && b.error.None?
    ensures SameButTimes(a.state.open[Key(i.session)].working, b.state.open[Key(j.session)].working)
    ensures b.state.shared == t.shared && b.state.disk == t.disk
  {
    hide Performs, SameButTimes;
    var x, y := s.open[Key(i.session)].working, t.open[Key(j.session)].working;
    var x', y' := a.state.open[Key(i.session)].working, b.state.open[Key(j.session)].working;
    PerformsTimeless(x, y, i.session.current, j.session.current, parse(i.sql).value, i.clock, j.clock, x', y', a.error,
      b.error,
                     a.current, b.current);
  }

  /** The k-th step of a replay. */
  lemma ReplayStep(parse: Parser, q: Run, sqls: seq<string>, k: nat)
    requires IsReplay(parse, q, sqls) && k < |q.inputs|
    ensures |q.states| == |q.inputs| + 1 && |q.answers| == |q.inputs| <= |sqls|
    ensures Answers(parse, q.states[k], q.inputs[k], q.answers[k]) && q.states[k + 1] == q.answers[k].state
    ensures q.inputs[k].sql == sqls[k] && Key(q.inputs[k].session) == RECOVERY_KEY && !q.inputs[k].writeWal
    ensures NoError(q.answers[..|q.answers| - 1])
  {
    hide Answers;
    assert q.Step(parse, k) && IsReplayInput(q.inputs[k], sqls[k], q.answers[..k]);
  }

  lemma CommitStep(parse: Parser, s: EngineState, i: Input, b: Answer)
    requires Answers(parse, s, i, b) && parse(i.sql) == Ok(Commit) && Key(i.session) in s.open
    ensures b.error.None? && b.state.shared == s.open[Key(i.session)].working && b.state.disk.saved == b.state.shared
  {
  }

  lemma BeginStep(parse: Parser, s: EngineState, i: Input, b: Answer)
    requires Answers(parse, s, i, b) && parse(i.sql) == Ok(Begin) && Key(i.session) !in s.open
    ensures b.error.None? && b.state == s.(open := s.open[Key(i.session) := OpenTx(s.shared, [])])
  {
  }

  /** The replay of a logged transaction follows the transaction, step by step and without errors. */
  lemma {:induction false} ReplayFollows(parse: Parser, r: Run, key: string, q: Run, k: nat)
    requires Inside(parse, r, key) && AllDml(parse, r) && Speaks(parse)
    requires IsReplay(parse, q, EntrySqls(Transaction(Texts(r.inputs[1..])))) && q.First().open == map[]
    requires q.First().shared == r.First().shared && 1 <= k <= |q.inputs| && k <= |r.inputs|
    ensures RECOVERY_KEY in q.states[k].open && key in r.states[k].open && q.answers[k - 1].error.None?
    ensures SameButTimes(r.states[k].open[key].working, q.states[k].open[RECOVERY_KEY].working)
    ensures q.states[k].disk == q.First().disk
  {
    hide Answers, SameButTimes, Dml, IsReplay, Ordinary;
    var sqls := EntrySqls(Transaction(Texts(r.inputs[1..])));
    ReplayStep(parse, q, sqls, k - 1);
    InsideStays(parse, r, key, k);
    if k == 1 {
      BeginStep(parse, q.states[0], q.inputs[0], q.answers[0]);
      SameAsItself(r.First().shared);
    } else {
      ReplayFollows(parse, r, key, q, k - 1);
      assert r.Step(parse, k - 1) && sqls[k - 1] == r.inputs[k - 1].sql;
      StatementFollows(parse, r.states[k - 1], r.inputs[k - 1], r.answers[k - 1], q.states[k - 1], q.inputs[k - 1],
        q.answers[k - 1]);
    }
  }

  lemma NoErrorMore(answers: seq<Answer>)
    requires answers != [] && NoError(answers[..|answers| - 1]) && answers[|answers| - 1].error.None?
    ensures NoError(answers)
  {
  }

  /** The replay of a logged transaction commits it. */
  lemma ReplayCommits(parse: Parser, r: Run, key: string, q: Run)
    requires Inside(parse, r, key) && AllDml(parse, r) && Speaks(parse) && r.states != [] && q.states != []
    requires q.First().open == map[] && q.First().shared == r.First().shared
    requires IsReplay(parse, q, EntrySqls(Transaction(Texts(r.inputs[1..]))))
    requires NoError(q.answers) ==> |q.inputs| == |r.inputs| + 1
    ensures NoError(q.answers) && key in r.Last().open && q.Last().disk.saved == q.Last().shared
    ensures SameButTimes(r.Last().open[key].working, q.Last().shared)
  {
    hide Answers, SameButTimes, Inside, AllDml, Dml, IsReplay, NoError, EntrySqls;
    NotEmpty(parse, r, key);
    var sqls, n, m := EntrySqls(Transaction(Texts(r.inputs[1..]))), |r.inputs|, |q.inputs|;
    LastSql(Texts(r.inputs[1..]));
    NoErrorAtAll();
    ReplayLengths(parse, q, sqls);
    if m <= n {
      ReplayFollows(parse, r, key, q, m);
      ReplayStep(parse, q, sqls, m - 1);
      NoErrorMore(q.answers);
    }
    ReplayFollows(parse, r, key, q, n);
    ReplayStep(parse, q, sqls, n);
    CommitStep(parse, q.states[n], q.inputs[n], q.answers[n]);
    NoErrorMore(q.answers);
  }

  lemma ReplayLengths(parse: Parser, q: Run, sqls: seq<string>)
    requires IsReplay(parse, q, sqls)
    ensures |q.states| == |q.inputs| + 1 && |q.answers| == |q.inputs| <= |sqls|
  {
  }

  lemma NoErrorAtAll()
    ensures NoError([])
  {
  }

  lemma LastSql(statements: seq<string>)
    ensures var sqls := EntrySqls(Transaction(statements)); |sqls| == |statements| + 2 && sqls[|sqls| - 1] == "COMMIT;"
  {
  }

  lemma NotEmpty(parse: Parser, r: Run, key: string)
    requires Inside(parse, r, key)
    ensures |r.inputs| >= 1 && |r.states| == |r.inputs| + 1
  {
  }

  lemma TransactionSqls(statements: seq<string>)
    ensures ReplaySqls([Transaction(statements)]) == EntrySqls(Transaction(statements)) && ReplaySqls([]) == []
    ensures |EntrySqls(Transaction(statements))| == |statements| + 2
  {
    assert [Transaction(statements)][..0] == [];
  }

  /** A crash at any moment while COMMIT appends to the log, and before it saves the state: the engine that starts up
      afterwards has the committed rows, ids, counters, indexes and changes if no more than the last newline of the
      appended block is missing, and otherwise exactly the state before the transaction.  The files are in step
      again. */
  lemma CommitIsAtomic(parse: Parser, r: Run, key: string, c: nat, q: Run, t: EngineState)
    requires Inside(parse, r, key) && AllDml(parse, r) && Speaks(parse) && r.states != [] && Synced(r.First())
    requires key in r.Last().open
    requires var disk, text := r.Last().disk, WithTransaction(r.Last().disk.wal, r.Last().open[key].log);
      && (if disk.wal.Some? then |disk.wal.value| else 0) <= c <= |text|
      && Starts(parse, FromDisk(Disk(disk.saved, Some(text[..c]))), q, t)
    ensures if c + 1 >= |WithTransaction(r.Last().disk.wal, r.Last().open[key].log)|
      then SameButTimes(r.Last().open[key].working, t.shared) else t.shared == r.First().shared
    ensures Synced(t)
  {
    hide Performs, SameButTimes, Inside, AllDml, Holds, Loaded, WithTransaction, ReplaySqls, EntrySqls, IsReplay;
    var s := r.Last();
    var log, text := s.open[key].log, WithTransaction(s.disk.wal, s.open[key].log);
    Preparation(parse, r, key);
    TornTransaction(s.disk.wal, [], log, c);
    TransactionSqls(log);
    HeaderHolds();
    var e := FromDisk(Disk(s.disk.saved, Some(text[..c])));
    var ok, u :| Replays(parse, e, ok, q, u) && t == WithEmptyLog(u);
    if c + 1 >= |text| {
      assert [] + [Transaction(log)] == [Transaction(log)];
      ReplayCommits(parse, r, key, q);
    } else if Loaded(e.disk.wal) == Some([]) {
      ReplayOfNothing(parse, q);
    }
  }

  /** What the transaction has left untouched, and what it has noted for the log. */
  lemma Preparation(parse: Parser, r: Run, key: string)
    requires Inside(parse, r, key) && AllDml(parse, r) && Synced(r.First())
    ensures |r.inputs| >= 1 && |r.states| == |r.inputs| + 1 && key in r.Last().open
    ensures r.Last().disk == r.First().disk && r.First().disk.saved == r.First().shared && Holds(r.First().disk.wal, [])
    ensures r.Last().open[key].log == Texts(r.inputs[1..]) && AllPlain(r.Last().open[key].log)
  {
    hide Performs, Holds;
    var n := |r.inputs|;
    InsideStays(parse, r, key, n);
    LogIsTexts(parse, r, key, n);
    assert r.inputs[1..n] == r.inputs[1..];
  }

  lemma ReplayOfNothing(parse: Parser, q: Run)
    requires IsReplay(parse, q, []) && q.states != []
    ensures NoError(q.answers) && q.Last() == q.First()
  {
  }

  /** The one text in the log has been replayed. */
  ghost predicate Replayed(parse: Parser, e: EngineState, sql: string, q: Run, t: EngineState) {
    && |q.inputs| == 1 && |q.answers| == 1 && IsReplayInput(q.inputs[0], sql, [])
    && Answers(parse, e, q.inputs[0], q.answers[0]) && t.shared == q.answers[0].state.shared
  }

  /** Start-up with a log that holds one statement. */
  lemma StartsWithOne(parse: Parser, e: EngineState, sql: string, q: Run, t: EngineState)
    requires Loaded(e.disk.wal) == Some([Sql(sql)]) && e.disk.saved == e.shared && Starts(parse, e, q, t)
    ensures Replayed(parse, e, sql, q, t)
    ensures Synced(t) <==> !FailsHalfway(parse, e, q.inputs[0])
  {
    hide Performs, Holds, Loaded, Answers, NoError, IsReplay, ReplaySqls, FailsHalfway;
    var sqls := ReplaySqls([Sql(sql)]);
    StatementSqls(sql);
    NoErrorAtAll();
    var ok, u :| Replays(parse, e, ok, q, u) && t == WithEmptyLog(u);
    ReplayLengths(parse, q, sqls);
    ReplayStep(parse, q, sqls, 0);
    ReplayInput(parse, q, sqls);
    SavedStep(parse, e, q.inputs[0], q.answers[0]);
    HeaderHolds();
  }

  lemma ReplayInput(parse: Parser, q: Run, sqls: seq<string>)
    requires IsReplay(parse, q, sqls) && q.inputs != []
    ensures IsReplayInput(q.inputs[0], sqls[0], [])
  {
    hide Answers;
    assert IsReplayInput(q.inputs[0], sqls[0], q.answers[..0]) && q.answers[..0] == [];
  }

  /** A crash at any moment while the statement of a successful modification outside a transaction is appended, or after
      it and before the save.  The engine that starts up afterwards has the state after the statement, if no more than
      the last newline is missing; the state before it, if not even the tag was written; and otherwise whatever running
      a proper beginning of the statement makes of the state before. */
  lemma StatementRecovers(parse: Parser, s: EngineState, i: Input, a: Answer, c: nat, q: Run, t: EngineState)
    requires Answers(parse, s, i, a) && Dml(parse, i.sql) && a.error.None? && Key(i.session) !in s.open && Synced(s)
    requires (if s.disk.wal.Some? then |s.disk.wal.value| else 0) <= c <= |WithSql(s.disk.wal, i.sql)|
    requires Starts(parse, FromDisk(Disk(s.disk.saved, Some(WithSql(s.disk.wal, i.sql)[..c]))), q, t)
    ensures |WithSql(s.disk.wal, i.sql)| == |Opened(s.disk.wal)| + 4 + |Escaped(i.sql)| + 1
    ensures var e := FromDisk(Disk(s.disk.saved, Some(WithSql(s.disk.wal, i.sql)[..c])));
      if c + 1 >= |WithSql(s.disk.wal, i.sql)| then SameButTimes(a.state.shared, t.shared) && Synced(t)
      else if c < |Opened(s.disk.wal)| + 4 then t.shared == s.shared && Synced(t)
      else
        var part := PartLeft(s.disk.wal, i.sql, c);
        && part < i.sql && Replayed(parse, e, part, q, t)
        && (Synced(t) <==> !FailsHalfway(parse, e, q.inputs[0]))
  {
    hide Performs, SameButTimes, Holds, Loaded, WithSql, Answers, NoError, IsReplay, ReplaySqls, Escaped, PartLeft,
      Opened, FailsHalfway;
    TornStatement(s.disk.wal, [], i.sql, c);
    var e := FromDisk(Disk(s.disk.saved, Some(WithSql(s.disk.wal, i.sql)[..c])));
    HeaderHolds();
    if c + 1 >= |WithSql(s.disk.wal, i.sql)| {
      assert [] + [Sql(i.sql)] == [Sql(i.sql)];
      StartsWithOne(parse, e, i.sql, q, t);
      StatementAgain(parse, s, i, a, e, q.inputs[0], q.answers[0]);
      SavedStep(parse, e, q.inputs[0], q.answers[0]);
    } else if c < |Opened(s.disk.wal)| + 4 {
      StartsWithNone(parse, e, q, t);
    } else {
      var part := PartLeft(s.disk.wal, i.sql, c);
      assert [] + [Sql(part)] == [Sql(part)];
      StartsWithOne(parse, e, part, q, t);
    }
  }

  /** Start-up with a log that is malformed or holds nothing. */
  lemma StartsWithNone(parse: Parser, e: EngineState, q: Run, t: EngineState)
    requires Loaded(e.disk.wal) in {None, Some([])} && e.disk.saved == e.shared && Starts(parse, e, q, t)
    ensures t.shared == e.shared && Synced(t)
  {
    hide Performs, Holds, Loaded, Answers, NoError, IsReplay;
    HeaderHolds();
    var ok, u :| Replays(parse, e, ok, q, u) && t == WithEmptyLog(u);
    if Loaded(e.disk.wal) == Some([]) { ReplayOfNothing(parse, q); }
  }

  /** A successful modification outside a transaction survives a crash between its append to the log and the save. */
  lemma StatementIsDurable(parse: Parser, s: EngineState, i: Input, a: Answer, q: Run, t: EngineState)
    requires Answers(parse, s, i, a) && Dml(parse, i.sql) && a.error.None? && Key(i.session) !in s.open && Synced(s)
    requires Starts(parse, FromDisk(Disk(s.disk.saved, Some(WithSql(s.disk.wal, i.sql)))), q, t)
    ensures SameButTimes(a.state.shared, t.shared) && Synced(t)
  {
    hide Performs, SameButTimes, Holds, WithSql, Answers, Starts, Escaped, Dml;
    var text := WithSql(s.disk.wal, i.sql);
    assert text[..|text|] == text;
    WithSqlGrows(s.disk.wal, i.sql);
    StatementRecovers(parse, s, i, a, |text|, q, t);
  }

  // ---------- a crash between two writes ----------

  /** The logged statements are run on a state that has seen them already. */
  ghost predicate RunsAgain(parse: Parser, state: Snapshot, sqls: seq<string>, q: Run) {
    IsReplay(parse, q, sqls) && q.states != [] && q.First().shared == state
  }

  /** COMMIT writes three times: its block to the log, the state, and an empty log.  A crash after the first or the
      third leaves the committed state; after the second one, start-up begins with the committed state and runs the
      block again. */
  lemma CommitWrites(parse: Parser, r: Run, key: string, i: Input, a: Answer, n: nat, q: Run, t: EngineState)
    requires Inside(parse, r, key) && AllDml(parse, r) && Speaks(parse) && r.states != [] && Synced(r.First())
    requires Answers(parse, r.Last(), i, a) && Key(i.session) == key && parse(i.sql) == Ok(Commit) && i.writeWal
    requires key in r.Last().open && r.Last().open[key].log != []
    requires n < |Steps(parse, r.Last(), i, a)| && Starts(parse, FromDisk(Steps(parse, r.Last(), i, a)[n]), q, t)
    ensures |Steps(parse, r.Last(), i, a)| == 3
    ensures n == 0 ==> SameButTimes(a.state.shared, t.shared) && Synced(t)
    ensures n == 1 ==> RunsAgain(parse, a.state.shared, EntrySqls(Transaction(Texts(r.inputs[1..]))), q)
    ensures n == 2 ==> t.shared == a.state.shared && Synced(t)
  {
    hide Performs, SameButTimes, Inside, AllDml, Holds, Loaded, WithTransaction, ReplaySqls, EntrySqls, IsReplay,
      Starts, Synced;
    var s := r.Last();
    var log, text := s.open[key].log, WithTransaction(s.disk.wal, s.open[key].log);
    TransactionGrows(s.disk.wal, log);
    assert text[..|text|] == text;
    if n == 0 {
      CommitIsAtomic(parse, r, key, |text|, q, t);
    } else if n == 1 {
      BlockAgain(parse, r, key, q, t);
    } else {
      EmptyLogStarts(parse, a.state.shared, q, t);
    }
  }

  lemma TransactionGrows(content: Option<string>, log: seq<string>)
    ensures (if content.Some? then |content.value| else 0) <= |WithTransaction(content, log)|
  {
  }

  lemma BlockAgain(parse: Parser, r: Run, key: string, q: Run, t: EngineState)
    requires Inside(parse, r, key) && AllDml(parse, r) && r.states != [] && Synced(r.First()) && key in r.Last().open
    requires var tx := r.Last().open[key];
      Starts(parse, FromDisk(Disk(tx.working, Some(WithTransaction(r.Last().disk.wal, tx.log)))), q, t)
    ensures RunsAgain(parse, r.Last().open[key].working, EntrySqls(Transaction(Texts(r.inputs[1..]))), q)
  {
    hide Performs, Inside, AllDml, Holds, Loaded, WithTransaction, ReplaySqls, EntrySqls, IsReplay;
    var s := r.Last();
    var log, text := s.open[key].log, WithTransaction(s.disk.wal, s.open[key].log);
    Preparation(parse, r, key);
    TransactionGrows(s.disk.wal, log);
    TornTransaction(s.disk.wal, [], log, |text|);
    assert text[..|text|] == text && [] + [Transaction(log)] == [Transaction(log)];
    TransactionSqls(log);
  }

  lemma EmptyLogStarts(parse: Parser, x: Snapshot, q: Run, t: EngineState)
    requires Starts(parse, FromDisk(Disk(x, EMPTY_LOG)), q, t)
    ensures t.shared == x && Synced(t)
  {
    hide Holds, Loaded;
    HeaderHolds();
    HoldsLoads(EMPTY_LOG, []);
    StartsWithNone(parse, FromDisk(Disk(x, EMPTY_LOG)), q, t);
  }

  /** A modification outside a transaction writes three times as well. */
  lemma StatementWrites(parse: Parser, s: EngineState, i: Input, a: Answer, n: nat, q: Run, t: EngineState)
    requires Answers(parse, s, i, a) && Dml(parse, i.sql) && a.error.None? && Key(i.session) !in s.open && Synced(s)
    requires i.writeWal && n < |Steps(parse, s, i, a)| && Starts(parse, FromDisk(Steps(parse, s, i, a)[n]), q, t)
    ensures |Steps(parse, s, i, a)| == 3
    ensures n == 0 ==> SameButTimes(a.state.shared, t.shared) && Synced(t)
    ensures Steps(parse, s, i, a)[1].saved == a.state.shared
    ensures n == 1 ==> Replayed(parse, FromDisk(Steps(parse, s, i, a)[1]), i.sql, q, t)
    ensures n == 2 ==> t.shared == a.state.shared && Synced(t)
  {
    hide Performs, SameButTimes, Holds, Loaded, WithSql, IsReplay, Starts, Synced, Replayed;
    if n == 0 {
      StatementIsDurable(parse, s, i, a, q, t);
    } else if n == 1 {
      SqlAgain(parse, s, i.sql, a.state.shared, q, t);
    } else {
      EmptyLogStarts(parse, a.state.shared, q, t);
    }
  }

  lemma SqlAgain(parse: Parser, s: EngineState, sql: string, x: Snapshot, q: Run, t: EngineState)
    requires Synced(s) && Plain(sql) && Starts(parse, FromDisk(Disk(x, Some(WithSql(s.disk.wal, sql)))), q, t)
    ensures Replayed(parse, FromDisk(Disk(x, Some(WithSql(s.disk.wal, sql)))), sql, q, t)
  {
    hide Performs, Holds, Loaded, WithSql, Starts, Escaped, Opened;
    var text := WithSql(s.disk.wal, sql);
    assert text[..|text|] == text && [] + [Sql(sql)] == [Sql(sql)];
    WithSqlGrows(s.disk.wal, sql);
    TornStatement(s.disk.wal, [], sql, |text|);
    StartsWithOne(parse, FromDisk(Disk(x, Some(text))), sql, q, t);
  }

  lemma WithSqlGrows(content: Option<string>, sql: string)
    ensures (if content.Some? then |content.value| else 0) <= |WithSql(content, sql)|
  {
  }

  lemma StatementSqls(sql: string)
    ensures ReplaySqls([Sql(sql)]) == [sql]
  {
    assert [Sql(sql)][..0] == [];
  }

  lemma StatementAgain(parse: Parser, s: EngineState, i: Input, a: Answer, t: EngineState, j: Input, b: Answer)
    requires Answers(parse, s, i, a) && Answers(parse, t, j, b) && i.sql == j.sql && Dml(parse, i.sql) && a.error.None?
    requires Key(i.session) !in s.open && Key(j.session) !in t.open && s.shared == t.shared
    ensures b.error.None? && SameButTimes(a.state.shared, b.state.shared) && b.state.disk.saved == b.state.shared
  {
    hide Performs, SameButTimes;
    SameAsItself(s.shared);
    PerformsTimeless(s.shared, t.shared, i.session.current, j.session.current, parse(i.sql).value, i.clock, j.clock,
                     a.state.shared, b.state.shared, a.error, b.error, a.current, b.current);
  }
}
