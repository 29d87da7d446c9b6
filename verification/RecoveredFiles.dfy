/** Start-up from the text of the files: what a crash leaves in them is loaded and replayed. */
module RecoveredFiles {
  import opened Wrappers
  import opened History
  import opened TableStore
  import opened TableEffects
  import opened Databases
  import opened TextLines
  import opened WriteAheadLog
  import opened Transactions
  import opened Recovery
  import opened StateFile
  import HistoryFile
  import opened Persistence = RuntimePersistence
  import opened NullDefaults

  /** How the time of a change is read from its text. */
  type TimeReader = string -> Time

  /** The written records tell these events, whatever else they mention. */
  predicate Tells(written: seq<ChangeRecord>, records: seq<TableStore.Record>, time: TimeReader) {
    && |written| == |records|
    && forall i :: 0 <= i < |records| ==>
         && written[i].database == records[i].database && written[i].table == records[i].table
         && Event(Change(written[i].kind, written[i].before, written[i].after), time(written[i].timestamp))
           == records[i].event
  }

  function ContentsOf(x: Snapshot): Contents {
    Contents(x.databases, x.tables)
  }

  /** The texts of the two files load, pass the index check, and mean this state. */
  predicate Means(state: string, history: string, time: TimeReader, x: Snapshot) {
    && LoadedContents(state) == Some(ContentsOf(x)) && IndexesPass(ContentsOf(x))
    && LoadedRecords(history).Some? && Tells(LoadedRecords(history).value, x.records, time)
  }

  lemma MeansOne(state: string, history: string, time: TimeReader, x: Snapshot, y: Snapshot)
    requires Means(state, history, time, x) && Means(state, history, time, y)
    ensures x == y
  {
    hide LoadedContents, LoadedRecords, IndexesPass;
    assert ContentsOf(x) == ContentsOf(y);
    forall i | 0 <= i < |x.records| ensures x.records[i] == y.records[i] {}
  }

  /** The lines of the two files, tables in any order, for a state in which no string contains a newline. */
  ghost predicate Written(x: Snapshot, order: seq<Listing>, written: seq<ChangeRecord>, time: TimeReader) {
    && (forall db :: db in x.databases ==> Plain(db))
    && (forall name :: name in x.tables ==> Plain(name.table) && PlainImage(x.tables[name]))
    && Complete(order, ContentsOf(x)) && HistoryFile.AllPlainRecords(written) && Tells(written, x.records, time)
  }

  function StateText(x: Snapshot, order: seq<Listing>): string
    requires Names(order, ContentsOf(x))
  {
    Joined(StateLines(ContentsOf(x), order))
  }

  function HistoryText(written: seq<ChangeRecord>): string {
    Joined(HistoryFile.HistoryLines(written))
  }

  lemma NormalTells(written: seq<ChangeRecord>, records: seq<TableStore.Record>, time: TimeReader)
    requires Tells(written, records, time)
    ensures Tells(HistoryFile.NormalRecords(written), records, time)
  {
  }

  /** The files of an intact state mean that state, but for its defaults of NULL. */
  lemma WrittenMeans(x: Snapshot, order: seq<Listing>, written: seq<ChangeRecord>, time: TimeReader)
    requires AllIntact(x) && Written(x, order, written, time)
    ensures Means(StateText(x, order), HistoryText(written), time, Forgetful(x))
  {
    hide LoadedContents, LoadedRecords, IndexesPass, PlainImage, Plain, Complete, StateLines, Joined,
      HistoryFile.HistoryLines, HistoryFile.AllPlainRecords, HistoryFile.NormalRecords, AllIntact, Storable,
      NormalImage, Tells;
    IntactIsStorable(x);
    Persistence.LoadInvertsSave(ContentsOf(x), order, written);
    NormalTells(written, x.records, time);
    assert NormalContents(ContentsOf(x)) == ContentsOf(Forgetful(x));
  }

  lemma LoadedIsForgetful(x: Snapshot, order: seq<Listing>, written: seq<ChangeRecord>, time: TimeReader, y: Snapshot)
    requires AllIntact(x) && Written(x, order, written, time)
      && Means(StateText(x, order), HistoryText(written), time, y)
    ensures y == Forgetful(x)
  {
    hide Means, Plain, PlainImage, Forgetful, AllIntact, StateText, HistoryText;
    WrittenMeans(x, order, written, time);
    MeansOne(StateText(x, order), HistoryText(written), time, y, Forgetful(x));
  }

  // ---------- crashes ----------

  lemma InsideForgetfulRun(parse: Parser, r: Run, key: string)
    requires Inside(parse, r, key) && AllDml(parse, r)
    ensures Inside(parse, ForgetfulRun(r), key) && AllDml(parse, ForgetfulRun(r))
  {
    hide Answers, Forgetful, Dml;
    RunForgetful(parse, r);
  }

  /** CommitIsAtomic, with the data files as text: a crash at any moment while COMMIT appends to the log leaves files
      from which the next start makes the committed state, if no more than the last newline of the block is missing, and
      otherwise exactly the state before the transaction; only defaults of NULL, which have no effect, and times of
      changes are not kept. */
  lemma CommitIsAtomicInFiles(parse: Parser, r: Run, key: string, c: nat, order: seq<Listing>,
                              written: seq<ChangeRecord>,
                              time: TimeReader, x: Snapshot, q: Run, t: EngineState)
    requires Inside(parse, r, key) && AllDml(parse, r) && Speaks(parse) && r.states != [] && Synced(r.First())
    requires key in r.Last().open && AllIntact(r.First().shared) && Written(r.First().shared, order, written, time)
    requires Means(StateText(r.First().shared, order), HistoryText(written), time, x)
    requires var wal, text := r.Last().disk.wal, WithTransaction(r.Last().disk.wal, r.Last().open[key].log);
      && (if wal.Some? then |wal.value| else 0) <= c <= |text|
      && Starts(parse, FromDisk(Disk(x, Some(text[..c]))), q, t)
    ensures if c + 1 >= |WithTransaction(r.Last().disk.wal, r.Last().open[key].log)|
      then SameButTimes(Forgetful(r.Last().open[key].working), t.shared) else t.shared == Forgetful(r.First().shared)
    ensures Synced(t)
  {
    hide Performs, SameButTimes, Inside, AllDml, WithTransaction, Starts, Means, Written, Holds, Answers, Forgetful,
      AllIntact, StateText, HistoryText, Complete;
    LoadedIsForgetful(r.First().shared, order, written, time, x);
    InsideForgetfulRun(parse, r, key);
    Preparation(parse, r, key);
    CommitIsAtomic(parse, ForgetfulRun(r), key, c, q, t);
  }

  /** StatementRecovers, with the data files as text. */
  lemma StatementRecoversInFiles(parse: Parser, s: EngineState, i: Input, a: Answer, c: nat, order: seq<Listing>,
                                 written: seq<ChangeRecord>, time: TimeReader, x: Snapshot, q: Run, t: EngineState)
    requires Answers(parse, s, i, a) && Dml(parse, i.sql) && a.error.None? && Key(i.session) !in s.open && Synced(s)
    requires AllIntact(s.shared) && Written(s.shared, order, written, time)
    requires Means(StateText(s.shared, order), HistoryText(written), time, x)
    requires (if s.disk.wal.Some? then |s.disk.wal.value| else 0) <= c <= |WithSql(s.disk.wal, i.sql)|
    requires Starts(parse, FromDisk(Disk(x, Some(WithSql(s.disk.wal, i.sql)[..c]))), q, t)
    ensures |WithSql(s.disk.wal, i.sql)| == |Opened(s.disk.wal)| + 4 + |Escaped(i.sql)| + 1
    ensures var e := FromDisk(Disk(x, Some(WithSql(s.disk.wal, i.sql)[..c])));
      if c + 1 >= |WithSql(s.disk.wal, i.sql)| then SameButTimes(Forgetful(a.state.shared), t.shared) && Synced(t)
      else if c < |Opened(s.disk.wal)| + 4 then t.shared == Forgetful(s.shared) && Synced(t)
      else
        var part := PartLeft(s.disk.wal, i.sql, c);
        && part < i.sql && Replayed(parse, e, part, q, t)
        && (Synced(t) <==> !FailsHalfway(parse, e, q.inputs[0]))
  {
    hide Performs, SameButTimes, Starts, Means, Written, Holds, Answers, Forgetful, AllIntact, WithSql, Dml, StateText,
      HistoryText, Complete, Escaped, Opened, PartLeft, Replayed, FailsHalfway;
    LoadedIsForgetful(s.shared, order, written, time, x);
    AnswersForgetful(parse, s, i, a);
    StatementRecovers(parse, ForgetfulState(s), i, ForgetfulAnswer(a), c, q, t);
  }
}
