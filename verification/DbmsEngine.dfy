/** The engine: shared state, one private clone per open transaction, the log and the data file. */
module DbmsEngine {
  import opened Wrappers
  import opened TableStatements
  import opened TableEffects
  import opened Databases
  import opened WriteAheadLog
  import opened Transactions
  import opened Recovery
  import Workspace

  type Work = Workspace.Workspace

  datatype TransactionContext = TransactionContext(working: Work, walStatements: seq<string>)

  ghost function ObjectsOf(transactions: map<string, TransactionContext>): set<object> {
    set key, o | key in transactions && o in transactions[key].working.Objects() :: o
  }

  /** No transaction shares anything with the shared state or with another transaction. */
  ghost predicate Private(shared: Work, transactions: map<string, TransactionContext>) {
    && (forall key :: key in transactions ==> transactions[key].working.Objects() !! shared.Objects())
    && (forall key, other :: key in transactions && other in transactions && key != other ==>
          transactions[key].working.Objects() !! transactions[other].working.Objects())
  }

  lemma PrivateMore(shared: Work, transactions: map<string, TransactionContext>, key: string,
                    context: TransactionContext)
    requires Private(shared, transactions) && context.working.Objects() !! shared.Objects() + ObjectsOf(transactions)
    ensures Private(shared, transactions[key := context])
    ensures ObjectsOf(transactions[key := context]) <= ObjectsOf(transactions) + context.working.Objects()
  {
    hide Workspace.Workspace.Objects;
    forall other | other in transactions ensures context.working.Objects() !! transactions[other].working.Objects() {
      forall o | o in transactions[other].working.Objects() ensures o !in context.working.Objects() {
        assert o in ObjectsOf(transactions);
      }
    }
  }

  lemma PrivateFewer(shared: Work, transactions: map<string, TransactionContext>, key: string)
    requires Private(shared, transactions)
    ensures Private(shared, transactions - {key}) && ObjectsOf(transactions - {key}) <= ObjectsOf(transactions)
  {
    hide Workspace.Workspace.Objects;
  }

  /** The committed transaction's state becomes the shared one. */
  lemma PrivateInstalled(shared: Work, transactions: map<string, TransactionContext>, key: string)
    requires Private(shared, transactions) && key in transactions
    ensures Private(transactions[key].working, transactions - {key})
    ensures transactions[key].working.Objects() + ObjectsOf(transactions - {key}) <= ObjectsOf(transactions)
  {
    hide Workspace.Workspace.Objects;
  }

  lemma PrivateFrom(shared: Work, transactions: map<string, TransactionContext>, key: string)
    requires Private(shared, transactions) && key in transactions
    ensures transactions[key].working.Objects() !! shared.Objects()
    ensures forall other :: other in transactions && other != key ==>
      transactions[other].working.Objects() !! transactions[key].working.Objects()
    ensures transactions[key].working.Objects() <= ObjectsOf(transactions)
  {
    hide Workspace.Workspace.Objects;
  }

  lemma PrivateSame(shared: Work, transactions: map<string, TransactionContext>, key: string,
                    context: TransactionContext)
    requires Private(shared, transactions) && key in transactions && context.working == transactions[key].working
    ensures Private(shared, transactions[key := context])
      && ObjectsOf(transactions[key := context]) == ObjectsOf(transactions)
  {
    hide Workspace.Workspace.Objects;
    var txs := transactions[key := context];
    assert forall k :: k in txs ==> k in transactions && txs[k].working == transactions[k].working;
    forall o ensures o in ObjectsOf(txs) <==> o in ObjectsOf(transactions) {
      if o in ObjectsOf(txs) {
        var k :| k in txs && o in txs[k].working.Objects();
        assert o in transactions[k].working.Objects();
      }
      if o in ObjectsOf(transactions) {
        var k :| k in transactions && o in transactions[k].working.Objects();
        assert o in txs[k].working.Objects();
      }
    }
  }

  class DbmsEngine {
    const parse: Parser
    const wal: WalManager
    var shared: Work
    var transactions: map<string, TransactionContext>
    var saved: Snapshot // what the data file holds
    ghost var images: seq<Disk> // every state the files have gone through

    /** Everything but the engine itself and its log. */
    ghost function Objects(): set<object>
      reads `shared, `transactions
    {
      shared.Objects() + ObjectsOf(transactions)
    }

    ghost predicate Valid()
      reads `shared, `transactions, Objects()
    {
      && shared.Valid() && (forall key :: key in transactions ==> transactions[key].working.Valid())
      && Private(shared, transactions) && this !in Objects() && wal !in Objects()
    }

    ghost function View(): EngineState
      reads this, wal, Objects()
    {
      EngineState(shared.View(),
                  map key | key in transactions ::
                    OpenTx(transactions[key].working.View(), transactions[key].walStatements),
                  Disk(saved, wal.content))
    }

    constructor (parse: Parser, shared: Work, wal: WalManager)
      requires shared.Valid() && wal !in shared.Objects()
      ensures this.parse == parse && this.wal == wal && this.shared == shared
      ensures Valid() && View() == EngineState(shared.View(), map[], Disk(shared.View(), wal.content)) && images == []
    {
      hide AllIntact, Workspace.Workspace.Valid, Workspace.Workspace.View, Workspace.Workspace.Objects;
      shared.ObjectsAllocated();
      this.parse, this.shared, this.wal, this.transactions := parse, shared, wal, map[];
      this.saved, this.images := shared.View(), [];
    }

    // ---------- transactions ----------

    method Begin(key: string) returns (error: Option<Error>)
      requires Valid()
      modifies this
      ensures Valid() && shared == old(shared) && fresh(Objects() - old(Objects())) && images == old(images)
      ensures key in old(transactions) ==> error == Some(ValidationError) && View() == old(View())
      ensures key !in old(transactions) ==>
        error == None && View() == old(View()).(open := old(View()).open[key := OpenTx(old(View()).shared, [])])
    {
      hide AllIntact, Valid, Objects, Workspace.Workspace.Valid, Workspace.Workspace.View, Workspace.Workspace.Objects;
      if key in transactions { return Some(ValidationError); }
      var working := CloneShared();
      ghost var before := Objects();
      Open(key, working);
      ObjectsAllocated();
      assert Objects() - before <= working.Objects();
      return None;
    }

    method Open(key: string, working: Work)
      requires Valid() && working.Valid() && key !in transactions
      requires this !in working.Objects() && wal !in working.Objects() && working.Objects() !! Objects()
      modifies `transactions
      ensures Valid() && Objects() <= old(Objects()) + working.Objects()
      ensures View() == old(View()).(open := old(View()).open[key := OpenTx(old(working.View()), [])])
    {
      hide AllIntact, Private, Workspace.Workspace.Valid, Workspace.Workspace.View, Workspace.Workspace.Objects;
      PrivateMore(shared, transactions, key, TransactionContext(working, []));
      transactions := transactions[key := TransactionContext(working, [])];
    }

    method CloneShared() returns (working: Work)
      requires Valid()
      ensures Valid() && View() == old(View())
      ensures working.Valid() && fresh(working) && fresh(working.Objects()) && working.View() == View().shared
      ensures Objects() == old(Objects())
      ensures this !in working.Objects() && wal !in working.Objects() && working.Objects() !! Objects()
    {
      hide AllIntact, Private, Workspace.Workspace.Valid, Workspace.Workspace.View, Workspace.Workspace.Objects;
      Allocated();
      working := shared.Clone();
    }

    lemma Allocated()
      ensures forall o :: o in shared.Objects() ==> allocated(o)
      ensures forall key, o :: key in transactions && o in transactions[key].working.Objects() ==> allocated(o)
    {
      hide Workspace.Workspace.Objects;
      shared.ObjectsAllocated();
      forall key | key in transactions ensures forall o :: o in transactions[key].working.Objects() ==> allocated(o) {
        transactions[key].working.ObjectsAllocated();
      }
    }

    method Rollback(key: string) returns (error: Option<Error>)
      requires Valid()
      modifies this
      ensures Valid() && Objects() <= old(Objects()) && images == old(images)
      ensures key !in old(transactions) ==> error == Some(ValidationError) && View() == old(View())
      ensures key in old(transactions) ==> error == None && View() == old(View()).(open := old(View()).open - {key})
    {
      hide AllIntact, Private, Workspace.Workspace.Valid, Workspace.Workspace.View, Workspace.Workspace.Objects;
      if key !in transactions { return Some(ValidationError); }
      PrivateFewer(shared, transactions, key);
      transactions := transactions - {key};
      return None;
    }

    // ---------- the files ----------

    /** Writes the state to the data file. */
    method Save()
      requires Valid()
      modifies `saved, `images
      ensures Valid() && View() == old(View()).(disk := Disk(old(View()).shared, wal.content))
      ensures images == old(images) + [View().disk]
    {
      hide AllIntact, Private, Workspace.Workspace.Valid, Workspace.Workspace.View, Workspace.Workspace.Objects;
      saved := shared.View();
      images := images + [Disk(saved, wal.content)];
    }

    method AppendToLog(statements: seq<string>)
      requires Valid()
      modifies wal, `images
      ensures Valid()
      ensures View() == old(View()).(disk := Disk(saved, Some(WithTransaction(old(wal.content), statements))))
      ensures images == old(images) + [View().disk]
    {
      hide AllIntact, Private, WithTransaction, Workspace.Workspace.Valid, Workspace.Workspace.View,
        Workspace.Workspace.Objects;
      Allocated();
      wal.AppendTransaction(statements);
      images := images + [Disk(saved, wal.content)];
    }

    method ResetLog()
      requires Valid()
      modifies wal, `images
      ensures Valid() && View() == WithEmptyLog(old(View()))
      ensures images == old(images) + [View().disk]
    {
      hide AllIntact, Private, Workspace.Workspace.Valid, Workspace.Workspace.View, Workspace.Workspace.Objects;
      Allocated();
      wal.Reset();
      images := images + [Disk(saved, wal.content)];
    }

    /** The transaction's state replaces the shared one. */
    method Install(key: string)
      requires Valid() && key in transactions
      modifies `shared, `transactions
      ensures Valid() && Objects() <= old(Objects())
      ensures View() == EngineState(old(View()).open[key].working, old(View()).open - {key}, old(View()).disk)
    {
      hide AllIntact, Private, Workspace.Workspace.Valid, Workspace.Workspace.View, Workspace.Workspace.Objects;
      PrivateInstalled(shared, transactions, key);
      shared, transactions := transactions[key].working, transactions - {key};
    }

    method SetLogAside()
      requires Valid()
      modifies wal
      ensures Valid() && View() == WithEmptyLog(old(View()))
    {
      hide AllIntact, Private, Workspace.Workspace.Valid, Workspace.Workspace.View, Workspace.Workspace.Objects;
      Allocated();
      wal.QuarantineCorrupted();
    }

    method Commit(key: string, writeWal: bool) returns (error: Option<Error>)
      requires Valid()
      modifies this, wal
      ensures Valid() && Objects() <= old(Objects())
      ensures key !in old(transactions) ==>
        error == Some(ValidationError) && View() == old(View()) && images == old(images)
      ensures key in old(transactions) ==>
        && error == None && View() == Committed(old(View()), key, writeWal)
        && images == old(images)
             + CommitSteps(old(View()).disk, old(View()).open[key].log, old(View()).open[key].working, writeWal)
    {
      hide AllIntact, Valid, WithTransaction, Objects, Workspace.Workspace.View;
      if key !in transactions { return Some(ValidationError); }
      var statements := transactions[key].walStatements;
      Install(key);
      if writeWal && |statements| != 0 { AppendToLog(statements); }
      Save();
      if writeWal { ResetLog(); }
      return None;
    }

    // ---------- statements ----------

    /** Runs a statement on the transaction's own objects; nothing else changes. */
    method RunInside(key: string, current: string, c: Command, clock: Clock)
      returns (error: Option<Error>, current': string)
      requires Valid() && key in transactions && transactions[key].working.Runnable(c)
      modifies transactions[key].working.Objects()
      ensures Valid() && key in View().open
      ensures View()
        == old(View()).(open := old(View()).open[key := OpenTx(View().open[key].working, old(View()).open[key].log)])
      ensures Performs(old(View()).open[key].working, current, c, clock, View().open[key].working, error, current')
    {
      hide AllIntact, Private, Performs, Workspace.Workspace.Valid, Workspace.Workspace.View,
        Workspace.Workspace.Objects, Workspace.Workspace.Runnable;
      Allocated();
      PrivateFrom(shared, transactions, key);
      error, current' := transactions[key].working.Execute(current, c, clock);
    }

    /** Notes a statement for the log. */
    method NoteStatement(key: string, sql: string)
      requires Valid() && key in transactions
      modifies `transactions
      ensures Valid() && Objects() == old(Objects())
      ensures View() == old(View()).(open := old(View()).open[key :=
        OpenTx(old(View()).open[key].working, old(View()).open[key].log + [sql])])
    {
      hide AllIntact, Private, Workspace.Workspace.Valid, Workspace.Workspace.View, Workspace.Workspace.Objects;
      var context := transactions[key];
      var noted := context.(walStatements := context.walStatements + [sql]);
      PrivateSame(shared, transactions, key, noted);
      transactions := transactions[key := noted];
    }

    /** A statement of a session with an open transaction. */
    method ExecuteInside(session: Session, c: Command, sql: string, writeWal: bool, clock: Clock)
      returns (error: Option<Error>, current: string)
      requires Valid() && Key(session) in transactions && !IsControl(c) && (c.Modify? ==> WellFormed(c.command))
      modifies `transactions, transactions[Key(session)].working.Objects()
      ensures Valid() && Objects() == old(Objects())
      ensures AnswersInside(old(View()), Key(session), c, Input(session, sql, writeWal, clock),
        Answer(View(), current, error))
    {
      hide AllIntact, Private, Performs, Valid, Objects, Workspace.Workspace.Valid, Workspace.Workspace.View;
      var key := Key(session);
      if c.CheckIndex? || c.RebuildIndex? { return Some(ValidationError), session.current; }
      if c.Ddl? { return Some(ValidationError), session.current; }
      error, current := RunInside(key, session.current, c, clock);
      if error.None? && writeWal && IsMutating(c) { NoteStatement(key, sql); }
    }

    method AppendSqlToLog(sql: string)
      requires Valid()
      modifies wal, `images
      ensures Valid() && View() == old(View()).(disk := Disk(saved, Some(WithSql(old(wal.content), sql))))
      ensures images == old(images) + [View().disk]
    {
      hide AllIntact, Private, WithSql, Workspace.Workspace.Valid, Workspace.Workspace.View,
        Workspace.Workspace.Objects;
      Allocated();
      wal.AppendSql(sql);
      images := images + [Disk(saved, wal.content)];
    }

    /** Runs a statement on the shared objects; nothing else changes. */
    method RunShared(current: string, c: Command, clock: Clock) returns (error: Option<Error>, current': string)
      requires Valid() && shared.Runnable(c)
      modifies shared.Objects()
      ensures Valid() && View() == old(View()).(shared := View().shared)
      ensures Performs(old(View()).shared, current, c, clock, View().shared, error, current')
    {
      hide AllIntact, Performs, Workspace.Workspace.Valid, Workspace.Workspace.View, Workspace.Workspace.Objects,
        Workspace.Workspace.Runnable;
      Allocated();
      error, current' := shared.Execute(current, c, clock);
    }

    /** A statement outside a transaction: logged, saved and struck from the log again if it may have changed
        something. */
    method ExecuteDirectly(session: Session, c: Command, sql: string, writeWal: bool, clock: Clock)
      returns (error: Option<Error>, current: string)
      requires Valid() && shared.Runnable(c)
      modifies this, wal, shared.Objects()
      ensures Valid() && Objects() == old(Objects())
      ensures AnswersDirectly(old(View()), c, Input(session, sql, writeWal, clock), Answer(View(), current, error))
      ensures images == old(images)
        + if IsMutating(c) && error.None? then DirectSteps(old(View()).disk, sql, View().shared, writeWal) else []
    {
      hide AllIntact, Private, Performs, Valid, Objects, WithSql, Workspace.Workspace.Valid, Workspace.Workspace.View,
        Workspace.Workspace.Runnable;
      error, current := RunShared(session.current, c, clock);
      if error.Some? { return; }
      if IsMutating(c) {
        if writeWal { AppendSqlToLog(sql); }
        Save();
        if writeWal { ResetLog(); }
      }
    }

    // ---------- requests ----------

    /** What a session's statements can change. */
    ghost function Reach(key: string): set<object>
      reads `shared, `transactions
    {
      if key in transactions then transactions[key].working.Objects() else shared.Objects()
    }

    method ExecuteSqlImpl(session: Session, sql: string, writeWal: bool, clock: Clock)
      returns (error: Option<Error>, current: string)
      requires Valid() && Covered(parse, sql, Key(session) in transactions)
      modifies this, wal, Reach(Key(session))
      ensures Valid() && fresh(Objects() - old(Objects()))
      ensures Answers(parse, old(View()), Input(session, sql, writeWal, clock), Answer(View(), current, error))
      ensures images
        == old(images) + Steps(parse, old(View()), Input(session, sql, writeWal, clock), Answer(View(), current, error))
    {
      hide AllIntact, Private, Valid, Objects, AnswersInside, AnswersDirectly, CommitSteps, DirectSteps, Committed,
        Workspace.Workspace.Valid, Workspace.Workspace.View;
      var parsed := parse(sql);
      if parsed.Err? { return Some(parsed.error), session.current; }
      var key := Key(session);
      current := session.current;
      var c := parsed.value;
      if c.Begin? {
        error := Begin(key);
      } else if c.Commit? {
        error := Commit(key, writeWal);
      } else if c.Rollback? {
        error := Rollback(key);
      } else if key in transactions {
        error, current := ExecuteInside(session, c, sql, writeWal, clock);
      } else {
        error, current := ExecuteDirectly(session, c, sql, writeWal, clock);
      }
    }

    method ExecuteSql(session: Session, sql: string, clock: Clock) returns (error: Option<Error>, current: string)
      requires Valid() && Covered(parse, sql, Key(session) in transactions)
      modifies this, wal, Reach(Key(session))
      ensures Valid() && fresh(Objects() - old(Objects()))
      ensures Answers(parse, old(View()), Input(session, sql, true, clock), Answer(View(), current, error))
      ensures images
        == old(images) + Steps(parse, old(View()), Input(session, sql, true, clock), Answer(View(), current, error))
    {
      error, current := ExecuteSqlImpl(session, sql, true, clock);
    }

    // ---------- recovery ----------

    /** The recovery session runs one text. */
    method ReplayStatement(sql: string, current: string, clock: Clock, ghost sqls: seq<string>, ghost r: Run)
      returns (error: Option<Error>, current': string, ghost r': Run)
      requires Valid() && Covered(parse, sql, false)
      requires IsReplay(parse, r, sqls) && NoError(r.answers) && |r.inputs| < |sqls| && sql == sqls[|r.inputs|]
      requires r.states != [] && r.Last() == View() && current == CurrentAfter(r.answers)
      modifies this, wal, Reach(RECOVERY_KEY)
      ensures Valid() && fresh(Objects() - old(Objects()))
      ensures IsReplay(parse, r', sqls) && |r'.inputs| == |r.inputs| + 1 && r'.states != [] && r'.First() == r.First()
      ensures r'.Last() == View() && current' == CurrentAfter(r'.answers)
      ensures error.None? <==> NoError(r'.answers)
    {
      hide AllIntact, Private, Valid, View, Objects, Answers, IsReplay, Workspace.Workspace.Valid,
        Workspace.Workspace.View;
      ghost var i := Input(Session(RECOVERY_KEY, current), sql, false, clock);
      CoveredInside(sql);
      error, current' := ExecuteSqlImpl(Session(RECOVERY_KEY, current), sql, false, clock);
      ghost var a := Answer(View(), current', error);
      ReplayMore(parse, r, sqls, i, a);
      ReplayLength(parse, r, sqls);
      r' := r.More(i, a);
      assert r'.answers[|r.answers|] == a;
    }

    lemma CoveredInside(sql: string)
      requires Covered(parse, sql, false)
      ensures Covered(parse, sql, true)
    {
    }

    lemma ReplayLength(parse: Parser, r: Run, sqls: seq<string>)
      requires IsReplay(parse, r, sqls)
      ensures |r.answers| == |r.inputs| && |r.states| == |r.inputs| + 1
    {
    }

    /** The statements of a logged transaction. */
    method ReplayStatements(statements: seq<string>, current: string, clocks: nat -> Clock, n: nat,
                            ghost sqls: seq<string>, ghost r: Run)
      returns (ok: bool, current': string, ghost r': Run)
      requires Valid() && AllCovered(parse, sqls) && StandsAt(statements, sqls, n)
      requires IsReplay(parse, r, sqls) && NoError(r.answers) && n == |r.inputs|
      requires r.states != [] && r.Last() == View() && current == CurrentAfter(r.answers)
      modifies this, wal, Objects()
      ensures Valid() && fresh(Objects() - old(Objects()))
      ensures IsReplay(parse, r', sqls) && r'.states != [] && r'.First() == r.First() && r'.Last() == View()
      ensures current' == CurrentAfter(r'.answers) && (ok <==> NoError(r'.answers))
      ensures ok ==> |r'.inputs| == n + |statements|
    {
      hide AllIntact, Private, Valid, View, Objects, IsReplay, Covered, StandsAt, AllCovered, NoError, CurrentAfter,
        Workspace.Workspace.Valid, Workspace.Workspace.View;
      current', r' := current, r;
      var i := 0;
      while i < |statements|
        invariant i <= |statements| && Valid() && fresh(Objects() - old(Objects()))
        invariant IsReplay(parse, r', sqls) && NoError(r'.answers) && |r'.inputs| == n + i
        invariant r'.states != [] && r'.First() == r.First() && r'.Last() == View()
          && current' == CurrentAfter(r'.answers)
      {
        var error;
        ghost var before := Objects();
        TextAt(statements, sqls, n, i);
        ReachWithin();
        error, current', r' := ReplayStatement(statements[i], current', clocks(n + i), sqls, r');
        ObjectsAllocated();
        assert Objects() - old(Objects()) <= (Objects() - before) + (before - old(Objects()));
        if error.Some? { return false, current', r'; }
        i := i + 1;
      }
      return true, current', r';
    }

    /** A logged transaction; if a statement fails it is rolled back. */
    method ReplayTransaction(statements: seq<string>, current: string, clocks: nat -> Clock, n: nat,
                             ghost sqls: seq<string>, ghost r: Run)
      returns (ok: bool, current': string, ghost r': Run)
      requires Valid() && Speaks(parse) && AllCovered(parse, sqls)
        && StandsAt(EntrySqls(Transaction(statements)), sqls, n)
      requires IsReplay(parse, r, sqls) && NoError(r.answers) && n == |r.inputs|
      requires r.states != [] && r.Last() == View() && current == CurrentAfter(r.answers)
      modifies this, wal, Objects()
      ensures Valid() && fresh(Objects() - old(Objects()))
      ensures IsReplay(parse, r', sqls) && r'.states != [] && r'.First() == r.First() && (ok <==> NoError(r'.answers))
      ensures ok ==> |r'.inputs| == n + |statements| + 2 && r'.Last() == View() && current' == CurrentAfter(r'.answers)
      ensures !ok ==> Without(View(), RECOVERY_KEY) == Without(r'.Last(), RECOVERY_KEY)
    {
      hide AllIntact, Private, Valid, View, Objects, IsReplay, Without, Covered, StandsAt, AllCovered, NoError,
        CurrentAfter, Workspace.Workspace.Valid, Workspace.Workspace.View;
      var error;
      TransactionTexts(statements, sqls, n);
      ReachWithin();
      error, current', r' := ReplayStatement("BEGIN;", current, clocks(n), sqls, r);
      if error.Some? { return false, current', r'; }
      ghost var begun := Objects();
      ok, current', r' := ReplayBody(statements, current', clocks, n + 1, sqls, r');
      ObjectsAllocated();
      assert Objects() - old(Objects()) <= (Objects() - begun) + (begun - old(Objects()));
    }

    /** What follows the BEGIN. */
    method ReplayBody(statements: seq<string>, current: string, clocks: nat -> Clock, n: nat, ghost sqls: seq<string>,
                      ghost r: Run)
      returns (ok: bool, current': string, ghost r': Run)
      requires Valid() && Speaks(parse) && AllCovered(parse, sqls) && StandsAt(statements, sqls, n)
      requires n + |statements| < |sqls| && sqls[n + |statements|] == "COMMIT;" && Covered(parse, "COMMIT;", false)
      requires IsReplay(parse, r, sqls) && NoError(r.answers) && n == |r.inputs|
      requires r.states != [] && r.Last() == View() && current == CurrentAfter(r.answers)
      modifies this, wal, Objects()
      ensures Valid() && fresh(Objects() - old(Objects()))
      ensures IsReplay(parse, r', sqls) && r'.states != [] && r'.First() == r.First() && (ok <==> NoError(r'.answers))
      ensures ok ==> |r'.inputs| == n + |statements| + 1 && r'.Last() == View() && current' == CurrentAfter(r'.answers)
      ensures !ok ==> Without(View(), RECOVERY_KEY) == Without(r'.Last(), RECOVERY_KEY)
    {
      hide AllIntact, Private, Valid, View, Objects, IsReplay, Without, Covered, StandsAt, AllCovered, NoError,
        CurrentAfter, Workspace.Workspace.Valid, Workspace.Workspace.View;
      ok, current', r' := ReplayStatements(statements, current, clocks, n, sqls, r);
      ghost var replayed := Objects();
      if ok {
        var error;
        ReachWithin();
        error, current', r' := ReplayStatement("COMMIT;", current', clocks(n + |statements|), sqls, r');
        ok := error.None?;
      } else {
        RollBackReplay(current', clocks(n + |statements|));
      }
      ObjectsAllocated();
      assert Objects() - old(Objects()) <= (Objects() - replayed) + (replayed - old(Objects()));
    }

    lemma TransactionTexts(statements: seq<string>, sqls: seq<string>, n: nat)
      requires StandsAt(EntrySqls(Transaction(statements)), sqls, n) && AllCovered(parse, sqls)
      ensures n + |statements| + 1 < |sqls| && sqls[n] == "BEGIN;" && sqls[n + 1 + |statements|] == "COMMIT;"
      ensures Covered(parse, "BEGIN;", false) && Covered(parse, "COMMIT;", false)
      ensures StandsAt(statements, sqls, n + 1)
    {
      hide Covered;
      TextAt(EntrySqls(Transaction(statements)), sqls, n, 0);
      TextAt(EntrySqls(Transaction(statements)), sqls, n, 1 + |statements|);
      StatementsStand(statements, sqls, n);
    }

    /** One entry of the log. */
    method ReplayEntry(entry: Entry, current: string, clocks: nat -> Clock, n: nat, ghost sqls: seq<string>,
                       ghost r: Run)
      returns (ok: bool, current': string, ghost r': Run)
      requires Valid() && Speaks(parse) && AllCovered(parse, sqls) && StandsAt(EntrySqls(entry), sqls, n)
      requires IsReplay(parse, r, sqls) && NoError(r.answers) && n == |r.inputs|
      requires r.states != [] && r.Last() == View() && current == CurrentAfter(r.answers)
      modifies this, wal, Objects()
      ensures Valid() && fresh(Objects() - old(Objects()))
      ensures IsReplay(parse, r', sqls) && r'.states != [] && r'.First() == r.First() && (ok <==> NoError(r'.answers))
      ensures ok ==>
        |r'.inputs| == n + |EntrySqls(entry)| && r'.Last() == View() && current' == CurrentAfter(r'.answers)
      ensures !ok ==> Without(View(), RECOVERY_KEY) == Without(r'.Last(), RECOVERY_KEY)
    {
      hide AllIntact, Private, Valid, View, Objects, IsReplay, Without, Covered, StandsAt, AllCovered, NoError,
        CurrentAfter, Workspace.Workspace.Valid, Workspace.Workspace.View;
      match entry {
        case Sql(statement) =>
          var error;
          ReachWithin();
          TextAt(EntrySqls(entry), sqls, n, 0);
          error, current', r' := ReplayStatement(statement, current, clocks(n), sqls, r);
          ok := error.None?;
        case Transaction(statements) =>
          ok, current', r' := ReplayTransaction(statements, current, clocks, n, sqls, r);
      }
    }

    lemma StatementsStand(statements: seq<string>, sqls: seq<string>, n: nat)
      requires StandsAt(EntrySqls(Transaction(statements)), sqls, n)
      ensures StandsAt(statements, sqls, n + 1)
    {
      var texts := EntrySqls(Transaction(statements));
      forall k | 0 <= k < |statements| ensures sqls[n + 1 + k] == statements[k] {
        assert sqls[n + (1 + k)] == texts[1 + k];
      }
    }

    lemma ObjectsAllocated()
      ensures forall o :: o in Objects() ==> allocated(o)
    {
      hide Workspace.Workspace.Objects;
      Allocated();
      forall o | o in ObjectsOf(transactions) ensures allocated(o) {
        var key :| key in transactions && o in transactions[key].working.Objects();
      }
    }

    lemma ReachWithin()
      ensures Reach(RECOVERY_KEY) <= Objects()
    {
      hide Workspace.Workspace.Objects;
      if RECOVERY_KEY in transactions {
        forall o | o in transactions[RECOVERY_KEY].working.Objects() ensures o in ObjectsOf(transactions) {
        }
      }
    }

    lemma TextAt(texts: seq<string>, sqls: seq<string>, n: nat, k: nat)
      requires StandsAt(texts, sqls, n) && k < |texts| && AllCovered(parse, sqls)
      ensures n + k < |sqls| && sqls[n + k] == texts[k] && Covered(parse, texts[k], false)
    {
      hide Covered;
    }

    method RollBackReplay(current: string, clock: Clock)
      requires Valid() && Speaks(parse)
      modifies this, wal, Objects()
      ensures Valid() && fresh(Objects() - old(Objects()))
      ensures Without(View(), RECOVERY_KEY) == Without(old(View()), RECOVERY_KEY)
    {
      hide AllIntact, Private, Valid, Objects, Workspace.Workspace.Valid, Workspace.Workspace.View, Performs, Without;
      ghost var s := View();
      ReachWithin();
      var error, current' := ExecuteSqlImpl(Session(RECOVERY_KEY, current), "ROLLBACK;", false, clock);
      TentativeStep(parse, s, Input(Session(RECOVERY_KEY, current), "ROLLBACK;", false, clock),
        Answer(View(), current', error));
    }

    /** Replays the log, entry by entry; false if it is malformed or a statement fails. */
    method ReplayWal(clocks: nat -> Clock) returns (ok: bool, ghost r: Run)
      requires Valid() && Speaks(parse)
      requires Loaded(wal.content).Some? ==> AllCovered(parse, ReplaySqls(Loaded(wal.content).value))
      modifies this, wal, Objects()
      ensures Valid() && Replays(parse, old(View()), ok, r, View())
    {
      hide AllIntact, Private, Valid, View, Objects, IsReplay, Without, AllCovered, NoError, Loaded, StandsAt,
        EntrySqls, ReplaySqls, Workspace.Workspace.Valid, Workspace.Workspace.View;
      ghost var s := View();
      r := Run([s], [], []);
      var entries;
      ok, entries := LoadLog();
      if !ok { return; }
      if |entries| == 0 {
        assert entries == [];
        NothingToReplay(s);
        ResetLog();
        return;
      }
      ok, r := ReplayEntries(entries, clocks);
      if ok { ResetLog(); }
    }

    method LoadLog() returns (ok: bool, entries: seq<Entry>)
      requires Valid()
      ensures Valid() && View() == old(View()) && View().disk.wal == wal.content
      ensures ok <==> Loaded(View().disk.wal).Some?
      ensures ok ==> entries == Loaded(View().disk.wal).value
    {
      hide AllIntact, Private, Loaded, Workspace.Workspace.Valid, Workspace.Workspace.View, Workspace.Workspace.Objects;
      Allocated();
      ok, entries := wal.LoadAll();
    }

    lemma NothingToReplay(s: EngineState)
      ensures ReplaySqls([]) == [] && IsReplay(parse, Run([s], [], []), []) && NoError([])
    {
      ReplayNothing(parse, s, []);
    }

    method ReplayEntries(entries: seq<Entry>, clocks: nat -> Clock) returns (ok: bool, ghost r: Run)
      requires Valid() && Speaks(parse) && AllCovered(parse, ReplaySqls(entries))
      modifies this, wal, Objects()
      ensures Valid() && IsReplay(parse, r, ReplaySqls(entries)) && r.states != [] && r.First() == old(View())
      ensures ok <==> NoError(r.answers)
      ensures ok ==> |r.inputs| == |ReplaySqls(entries)| && View() == r.Last()
      ensures !ok ==> Without(View(), RECOVERY_KEY) == Without(r.Last(), RECOVERY_KEY)
    {
      hide AllIntact, Private, Valid, View, Objects, IsReplay, Without, AllCovered, NoError, StandsAt, EntrySqls,
        ReplaySqls, CurrentAfter, Workspace.Workspace.Valid, Workspace.Workspace.View;
      ghost var sqls := ReplaySqls(entries);
      r := Run([View()], [], []);
      ReplayNothing(parse, View(), sqls);
      NothingToReplay(View());
      var current, n, i := "", 0, 0;
      NoAnswers();
      while i < |entries|
        invariant i <= |entries| && Valid() && fresh(Objects() - old(Objects()))
        invariant IsReplay(parse, r, sqls) && NoError(r.answers) && n == |r.inputs| == |ReplaySqls(entries[..i])|
        invariant r.states != [] && r.First() == old(View()) && r.Last() == View() && current == CurrentAfter(r.answers)
      {
        ghost var before := Objects();
        EntriesStand(entries, i);
        ok, current, r := ReplayEntry(entries[i], current, clocks, n, sqls, r);
        ObjectsAllocated();
        assert Objects() - old(Objects()) <= (Objects() - before) + (before - old(Objects()));
        if !ok { return; }
        n := n + TextCount(entries[i]);
        i := i + 1;
      }
      assert entries[..|entries|] == entries;
      ok := true;
    }

    lemma NoAnswers()
      ensures CurrentAfter([]) == ""
    {
    }

    function TextCount(entry: Entry): (n: nat)
      ensures n == |EntrySqls(entry)|
    {
      match entry
      case Sql(_) => 1
      case Transaction(statements) => |statements| + 2
    }

    lemma ReplaysEmpty(s: EngineState, r: Run, u: EngineState)
      requires Replays(parse, s, true, r, u)
      ensures WithEmptyLog(u) == u
    {
    }

    /** What the constructor does once the data file is loaded. */
    method Start(clocks: nat -> Clock) returns (ghost r: Run)
      requires Valid() && Speaks(parse)
      requires Loaded(wal.content).Some? ==> AllCovered(parse, ReplaySqls(Loaded(wal.content).value))
      modifies this, wal, Objects()
      ensures Valid() && Starts(parse, old(View()), r, View())
    {
      hide AllIntact, Private, Valid, View, Objects, Replays, AllCovered, ReplaySqls, Loaded,
        Workspace.Workspace.Valid, Workspace.Workspace.View;
      var ok;
      ok, r := ReplayWal(clocks);
      ghost var u, start := View(), old(View());
      if !ok {
        SetLogAside();
      } else {
        ReplaysEmpty(start, r, u);
      }
      assert Replays(parse, start, ok, r, u) && View() == WithEmptyLog(u);
    }
  }
}
