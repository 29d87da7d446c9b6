/** All tables with the change log: what a statement does to the whole state. */
module Databases {
  import opened Wrappers
  import opened History
  import opened TableStatements
  import opened TableStore
  import opened TableEffects

  datatype TableName = TableName(database: string, table: string)

  /** The runtime state and the version store, as values. */
  datatype Snapshot = Snapshot(databases: set<string>, tables: map<TableName, TableImage>, records: seq<Record>)

  /** A table name as a statement gives it. */
  datatype Target = Target(database: Option<string>, table: string)

  datatype Command =
    | Begin
    | Commit
    | Rollback
    | Ddl // CREATE or DROP, of a database or a table
    | Use(name: string)
    | Select(source: Target)
    | CheckIndex
    | RebuildIndex
    | Modify(target: Target, command: TableCommand)

  predicate IsControl(c: Command) {
    c.Begin? || c.Commit? || c.Rollback?
  }

  predicate IsMutating(c: Command) {
    !(c.Select? || c.Use? || c.CheckIndex?)
  }

  predicate IsService(c: Command) {
    c.CheckIndex? || c.RebuildIndex?
  }

  function StateOf(x: Snapshot, name: TableName): TableState
    requires name in x.tables
  {
    var image := x.tables[name];
    TableState(image.rows, image.next, image.indexes, HistoryOf(x.records, name.database, name.table))
  }

  /** A database that is not given is the session's current one. */
  function Resolve(databases: set<string>, tables: set<TableName>, current: string,
                   target: Target): (r: Result<TableName>)
    ensures r.Ok? ==> r.value in tables && r.value.database in databases
  {
    if target.database.None? && current == "" then Err(ValidationError)
    else
      var name := TableName(if target.database.Some? then target.database.value else current, target.table);
      if name.database !in databases || name !in tables then Err(NotFound) else Ok(name)
  }

  function Find(x: Snapshot, current: string, target: Target): Result<TableName> {
    Resolve(x.databases, x.tables.Keys, current, target)
  }

  /** A name stands for the table of that name in the database that is given, or else in the current one. */
  lemma ResolveMeans(databases: set<string>, tables: set<TableName>, current: string, target: Target, name: TableName)
    ensures Resolve(databases, tables, current, target) == Ok(name) <==>
      && name in tables && name.database in databases && name.table == target.table
      && (target.database == Some(name.database)
          || (target.database.None? && name.database == current && current != ""))
    ensures Resolve(databases, tables, current, target) == Err(ValidationError) <==>
      target.database.None? && current == ""
    ensures Resolve(databases, tables, current, target).Err? ==>
      Resolve(databases, tables, current, target).error in {ValidationError, NotFound}
  {
  }

  /** From `x` to `y` nothing changed but one table, and only its events were recorded. */
  ghost predicate OnlyTable(x: Snapshot, y: Snapshot, name: TableName) {
    && name in x.tables && y.databases == x.databases && y.tables.Keys == x.tables.Keys
    && y.tables[name].schema == x.tables[name].schema
    && (forall other :: other in x.tables && other != name ==> y.tables[other] == x.tables[other])
    && Logs(x.records, y.records, name.database, name.table)
  }

  /** `y` and `error` are what a statement makes of `x`, and `current'` is the session's database afterwards. */
  ghost predicate Performs(x: Snapshot, current: string, c: Command, clock: Clock,
                           y: Snapshot, error: Option<Error>, current': string) {
    match c
    case Use(name) =>
      y == x && if name in x.databases then error == None && current' == name
        else error == Some(NotFound) && current' == current
    case Select(source) => y == x && current' == current && (Find(x, current, source).Err? ==> error.Some?)
    case CheckIndex => y == x && current' == current && error == None
    case RebuildIndex => y == x && current' == current && error == None
    case Modify(target, command) =>
      && current' == current
      && (match Find(x, current, target)
          case Err(e) => y == x && error == Some(e)
          case Ok(name) =>
            OnlyTable(x, y, name)
            && Effect(StateOf(x, name), x.tables[name].schema, command, clock, Outcome(StateOf(y, name), error)))
    case _ => false
  }

  /** A modification of a table that there is not, or that cannot be named, changes nothing. */
  lemma UnknownTable(x: Snapshot, current: string, target: Target, command: TableCommand, clock: Clock, y: Snapshot,
                     error: Option<Error>, current': string)
    requires Performs(x, current, Modify(target, command), clock, y, error, current') && Find(x, current, target).Err?
    ensures y == x && current' == current
    ensures error == Some(if target.database.None? && current == "" then ValidationError else NotFound)
  {
  }

  /** After USE, a name without a database stands for the table in the database that was named; USE of an unknown
      database changes nothing. */
  lemma UseMeans(x: Snapshot, current: string, name: string, clock: Clock, y: Snapshot, error: Option<Error>,
                 current': string, table: string)
    requires Performs(x, current, Use(name), clock, y, error, current') && name != ""
    ensures error == if name in x.databases then None else Some(NotFound)
    ensures Find(y, current', Target(None, table))
      == Find(x, current, Target(if error.None? then Some(name) else None, table))
  {
  }

  /** Every table is intact. */
  ghost predicate AllIntact(x: Snapshot) {
    forall name :: name in x.tables ==> name.database in x.databases && Intact(StateOf(x, name), x.tables[name].schema)
  }

  lemma OtherState(x: Snapshot, y: Snapshot, name: TableName, other: TableName)
    requires OnlyTable(x, y, name) && other in x.tables && other != name
    ensures StateOf(y, other) == StateOf(x, other)
  {
    LogsOnlyHere(x.records, y.records, name.database, name.table);
  }

  /** Every statement, successful or not, keeps every table intact and only adds to the log. */
  lemma PerformsIntact(x: Snapshot, current: string, c: Command, clock: Clock, y: Snapshot, error: Option<Error>,
                       current': string)
    requires AllIntact(x) && Performs(x, current, c, clock, y, error, current')
    ensures AllIntact(y) && x.records <= y.records
  {
    hide Effect, Intact;
    if c.Modify? && Find(x, current, c.target).Ok? {
      var name := Find(x, current, c.target).value;
      EffectIntact(StateOf(x, name), x.tables[name].schema, c.command, clock, Outcome(StateOf(y, name), error));
      forall other | other in y.tables
        ensures other.database in y.databases && Intact(StateOf(y, other), y.tables[other].schema)
      {
        if other != name { OtherState(x, y, name, other); }
      }
    }
  }

  // ---------- failures ----------

  /** The modification names no table, or one that it has nothing to record for. */
  ghost predicate Traceless(x: Snapshot, current: string, target: Target, command: TableCommand) {
    match Find(x, current, target)
    case Err(_) => true
    case Ok(name) => NothingToRecord(StateOf(x, name), x.tables[name].schema, command)
  }

  /** The modification names no table, or one on which it fails. */
  ghost predicate Failing(x: Snapshot, current: string, target: Target, command: TableCommand) {
    match Find(x, current, target)
    case Err(_) => true
    case Ok(name) => Fails(StateOf(x, name), x.tables[name].schema, command)
  }

  /** Whether a modification fails is decided by the state before it. */
  lemma FailingExactly(x: Snapshot, current: string, target: Target, command: TableCommand, clock: Clock,
                       y: Snapshot, error: Option<Error>, current': string)
    requires Performs(x, current, Modify(target, command), clock, y, error, current')
    ensures error.Some? <==> Failing(x, current, target, command)
  {
    hide Effect, Find, Fails;
    if Find(x, current, target).Ok? {
      var name := Find(x, current, target).value;
      FailsExactly(StateOf(x, name), x.tables[name].schema, command, clock, Outcome(StateOf(y, name), error));
    }
  }

  lemma SameIfStateIsSame(x: Snapshot, y: Snapshot, name: TableName)
    requires OnlyTable(x, y, name) && StateOf(y, name) == StateOf(x, name)
    ensures y == x
  {
    LogsOnlyHere(x.records, y.records, name.database, name.table);
    assert Tagged(name.database, name.table, []) == [] && x.records + [] == x.records;
    forall other | other in x.tables ensures y.tables[other] == x.tables[other] {
      if other == name { assert y.tables[name].schema == x.tables[name].schema; }
    }
    assert y.tables == x.tables;
  }

  /** A modification that fails changes nothing if and only if it names no table or had nothing to record. */
  lemma FailedModification(x: Snapshot, current: string, target: Target, command: TableCommand, clock: Clock,
                           y: Snapshot, error: Option<Error>, current': string)
    requires Performs(x, current, Modify(target, command), clock, y, error, current') && error.Some?
    ensures y == x <==> Traceless(x, current, target, command)
  {
    hide Effect, Find, NothingToRecord;
    if Find(x, current, target).Ok? {
      var name := Find(x, current, target).value;
      FailedWithoutTrace(StateOf(x, name), x.tables[name].schema, command, clock, Outcome(StateOf(y, name), error));
      if StateOf(y, name) == StateOf(x, name) { SameIfStateIsSame(x, y, name); }
    }
  }

  // ---------- timestamps aside ----------

  ghost predicate SameRecords(a: seq<Record>, b: seq<Record>) {
    && |a| == |b|
    && forall i :: 0 <= i < |a| ==>
         a[i].database == b[i].database && a[i].table == b[i].table && a[i].event.change == b[i].event.change
  }

  /** The same databases, rows, ids, counters, indexes and changes; only the times of the changes may differ. */
  ghost predicate SameButTimes(x: Snapshot, y: Snapshot) {
    x.databases == y.databases && x.tables == y.tables && SameRecords(x.records, y.records)
  }

  lemma TaggedAlike(database: string, table: string, a: seq<Event>, b: seq<Event>)
    requires Changes(a) == Changes(b)
    ensures SameRecords(Tagged(database, table, a), Tagged(database, table, b))
  {
    forall i | 0 <= i < |a| ensures i < |b| && a[i].change == b[i].change {
      assert Changes(a)[i] == Changes(b)[i];
    }
  }

  lemma SameRecordsConcat(a: seq<Record>, a': seq<Record>, b: seq<Record>, b': seq<Record>)
    requires SameRecords(a, b) && SameRecords(a', b')
    ensures SameRecords(a + a', b + b')
  {
  }

  /** A modification that does not go back in time does the same to states that differ in times only. */
  lemma PerformsTimeless(x: Snapshot, y: Snapshot, current: string, d: string, c: Command, clock: Clock, clock': Clock,
                         x': Snapshot, y': Snapshot, e: Option<Error>, e': Option<Error>, cx: string, cy: string)
    requires SameButTimes(x, y) && c.Modify? && !c.command.RevertTable? && (c.target.database.Some? || current == d)
    requires Performs(x, current, c, clock, x', e, cx) && Performs(y, d, c, clock', y', e', cy)
    ensures SameButTimes(x', y') && e == e'
  {
    hide Effect, Find;
    SameFind(x, y, current, d, c.target);
    if Find(x, current, c.target).Ok? {
      var name := Find(x, current, c.target).value;
      var s, t, o, p :=
        StateOf(x, name), StateOf(y, name), Outcome(StateOf(x', name), e), Outcome(StateOf(y', name), e');
      EffectAlike(s, t, x.tables[name].schema, c.command, clock, clock', o, p);
      LogsOnlyHere(x.records, x'.records, name.database, name.table);
      LogsOnlyHere(y.records, y'.records, name.database, name.table);
      var more, more' := o.state.history[|s.history|..], p.state.history[|t.history|..];
      TaggedAlike(name.database, name.table, more, more');
      SameRecordsConcat(x.records, Tagged(name.database, name.table, more), y.records,
        Tagged(name.database, name.table, more'));
      SameTables(x, y, x', y', name);
    }
  }

  lemma SameFind(x: Snapshot, y: Snapshot, current: string, d: string, target: Target)
    requires x.databases == y.databases && x.tables == y.tables && (target.database.Some? || current == d)
    ensures Find(x, current, target) == Find(y, d, target)
  {
  }

  lemma SameTables(x: Snapshot, y: Snapshot, x': Snapshot, y': Snapshot, name: TableName)
    requires x.tables == y.tables && OnlyTable(x, x', name) && OnlyTable(y, y', name)
    requires Alike(StateOf(x', name), StateOf(y', name))
    ensures x'.tables == y'.tables
  {
    forall other | other in x'.tables ensures x'.tables[other] == y'.tables[other] {
      if other == name {
        assert x'.tables[name].schema == y'.tables[name].schema;
      }
    }
  }
}
