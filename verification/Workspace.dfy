/** The runtime state with its version store: one object per table and the log they share. */
module Workspace {
  import opened Wrappers
  import opened Predicates
  import opened TableStatements
  import opened TableChanges
  import opened TableRevert
  import opened TableRuns
  import opened TableStore
  import opened TableEffects
  import opened Databases
  import TableRuntime

  type Table = TableRuntime.TableRuntime

  /** Different tables, different heaps. */
  ghost predicate Apart(tables: map<TableName, Table>) {
    forall name, other :: name in tables && other in tables && name != other ==>
      tables[name] != tables[other] && tables[name].heap != tables[other].heap
  }

  lemma NoneApart()
    ensures Apart(map[])
  {
  }

  lemma ApartMore(tables: map<TableName, Table>, name: TableName, table: Table)
    requires Apart(tables) && forall other :: other in tables ==>
      tables[other] != table && tables[other].heap != table.heap
    ensures Apart(tables[name := table])
  {
  }

  lemma ApartFrom(tables: map<TableName, Table>, name: TableName)
    requires Apart(tables) && name in tables
    ensures forall other :: other in tables && other != name ==>
      tables[other] != tables[name] && tables[other].heap != tables[name].heap
  {
  }

  class Workspace {
    const databases: set<string>
    const tables: map<TableName, Table>
    const store: VersionStore

    constructor (databases: set<string>, tables: map<TableName, Table>, store: VersionStore)
      ensures this.databases == databases && this.tables == tables && this.store == store
    {
      this.databases, this.tables, this.store := databases, tables, store;
    }

    /** Everything a statement may change. */
    ghost function Objects(): set<object> {
      {store} + (set name | name in tables :: tables[name] as object)
        + (set name | name in tables :: tables[name].heap as object)
    }

    lemma ObjectsAllocated()
      ensures forall o :: o in Objects() ==> allocated(o)
    {
    }

    function View(): Snapshot
      reads Objects()
    {
      Snapshot(databases, map name | name in tables :: tables[name].Image(), store.records)
    }

    /** Tables share the log and nothing else. */
    ghost predicate Separate() {
      && (forall name :: name in tables ==>
            && tables[name].store == store
            && tables[name].database == name.database && tables[name].table == name.table)
      && Apart(tables)
    }

    ghost predicate Valid()
      reads Objects()
    {
      Separate() && AllIntact(View())
    }

    lemma TableView(name: TableName)
      requires Separate() && name in tables
      ensures StateOf(View(), name) == tables[name].State() && View().tables[name].schema == tables[name].schema
    {
    }

    lemma TableIntact(name: TableName)
      requires Valid() && name in tables
      ensures Intact(tables[name].State(), tables[name].schema)
    {
      TableView(name);
    }

    // ---------- statements ----------

    /** INSERT, UPDATE, DELETE or REVERT on one table. */
    method ModifyTable(name: TableName, command: TableCommand, clock: Clock) returns (error: Option<Error>)
      requires Valid() && name in tables && WellFormed(command)
      modifies tables[name], tables[name].heap, store
      ensures tables[name].State().indexes.Keys == Indexes(tables[name].schema)
      ensures Effect(old(tables[name].State()), tables[name].schema, command, clock,
        Outcome(tables[name].State(), error))
      ensures Logs(old(store.records), store.records, name.database, name.table)
    {
      hide InsertRows, Update, Delete, Reverts, Logs, Conforms, IndexesAgree, Positions;
      TableIntact(name);
      var table := tables[name];
      ghost var s := table.State();
      IntactMeansReady(s, table.schema);
      match command {
        case InsertValues(columns, inputs) =>
          error := table.Insert(columns, inputs, clock);
        case UpdateRows(where, assignments) =>
          error := table.Update(where, assignments, clock);
        case DeleteRows(where) =>
          error := table.Delete(where, clock);
        case RevertTable(mode) =>
          ghost var rows, cs;
          error, rows, cs := table.Revert(mode, clock);
      }
      EffectIntact(s, table.schema, command, clock, Outcome(table.State(), error));
      IntactMeansReady(table.State(), table.schema);
    }

    lemma IntactMeansReady(s: TableState, schema: Schema)
      requires Intact(s, schema)
      ensures s.indexes.Keys == Indexes(schema) && AllConform(s.rows, schema) && Shaped(s.rows, schema)
        && Ascending(s.rows)
      ensures PastConforms(s.history, schema)
    {
      ConformShaped(s.rows, schema);
    }

    /** CHECK INDEX over every table. */
    method ValidateRuntimeIndexConsistency() returns (ok: bool)
      requires Valid()
      ensures ok
    {
      var names := tables.Keys;
      while names != {}
        invariant names <= tables.Keys
        decreases names
      {
        var name :| name in names;
        TableIntact(name);
        IntactIsExact(tables[name]);
        var fine := tables[name].ValidateIndexConsistency();
        if !fine { return false; }
        names := names - {name};
      }
      return true;
    }

    /** REBUILD INDEX over every table. */
    method RebuildRuntimeIndexes() returns (ok: bool)
      requires Valid()
      modifies Objects()
      ensures ok && View() == old(View())
    {
      hide AllIntact;
      var names := tables.Keys;
      while names != {}
        invariant names <= tables.Keys && View() == old(View())
        decreases names
      {
        var name :| name in names;
        RebuildTable(name);
        names := names - {name};
      }
      ok := ValidateRuntimeIndexConsistency();
    }

    method RebuildTable(name: TableName)
      requires Valid() && name in tables
      modifies tables[name]
      ensures View() == old(View())
    {
      hide AllIntact, AllIndexable, Rebuilt;
      TableIntact(name);
      IntactIsExact(tables[name]);
      var fine := tables[name].RebuildAndCheck();
      assert tables[name].Image() == old(tables[name].Image());
    }

    /** On an intact table clones and rebuilt indexes are exact, and every check passes. */
    lemma IntactIsExact(table: Table)
      requires Intact(table.State(), table.schema)
      ensures table.Ready() && AllIndexable(table.heap.rows, table.schema)
      ensures NextId(table.heap.rows) == table.heap.nextRowId && Rebuilt(table.heap.rows, table.schema) == table.indexes
      ensures forall name :: name in Indexes(table.schema) ==>
        table.FindsEveryRow(table.indexes[name], table.heap.rows, name)
    {
      RetoldConsistent(table.State(), table.schema);
      table.ConsistentMeansExact(Rewritten(table.heap.rows));
    }

    predicate Runnable(c: Command) {
      !IsControl(c) && !c.Ddl? && (c.Modify? ==> WellFormed(c.command))
    }

    /** The table is looked up and changed; the others stay as they are. */
    method ModifyTarget(current: string, target: Target, command: TableCommand, clock: Clock)
      returns (error: Option<Error>)
      requires Valid() && WellFormed(command)
      modifies Objects()
      ensures Valid()
      ensures Performs(old(View()), current, Modify(target, command), clock, View(), error, current)
    {
      hide AllIntact, Effect, Logs, Resolve, Apart;
      ghost var x := View();
      assert x.tables.Keys == tables.Keys;
      var found := Resolve(databases, tables.Keys, current, target);
      if found.Err? { return Some(found.error); }
      var name := found.value;
      TableView(name);
      ApartFrom(tables, name);
      error := ModifyTable(name, command, clock);
      TableView(name);
      PerformsIntact(x, current, Modify(target, command), clock, View(), error, current);
    }

    /** One statement, for a session whose current database is `current`. */
    method Execute(current: string, c: Command, clock: Clock) returns (error: Option<Error>, current': string)
      requires Valid() && Runnable(c)
      modifies Objects()
      ensures Valid()
      ensures Performs(old(View()), current, c, clock, View(), error, current')
    {
      hide AllIntact, Effect, OnlyTable;
      error, current' := None, current;
      match c {
        case Use(name) =>
          if name !in databases { return Some(NotFound), current; }
          current' := name;
        case Select(source) =>
          var found := Resolve(databases, tables.Keys, current, source);
          if found.Err? { error := Some(found.error); }
        case CheckIndex =>
          var ok := ValidateRuntimeIndexConsistency();
        case RebuildIndex =>
          var ok := RebuildRuntimeIndexes();
        case Modify(target, command) =>
          error := ModifyTarget(current, target, command, clock);
      }
    }

    // ---------- cloning ----------

    /** A private copy of every table, with a private copy of the log. */
    method Clone() returns (copy: Workspace)
      requires Valid()
      ensures fresh(copy) && fresh(copy.Objects())
      ensures copy.Valid() && copy.View() == View()
    {
      hide AllIntact, IsCopy, Apart, View;
      ObjectsAllocated();
      var log := new VersionStore();
      log.records := store.records;
      var copies := CopyTables(log);
      CopiesStand(copies, log);
      copy := new Workspace(databases, copies, log);
      SameView(copy);
    }

    method CopyTables(log: VersionStore) returns (copies: map<TableName, Table>)
      requires Valid()
      ensures copies.Keys == tables.Keys && Apart(copies)
      ensures forall name :: name in copies ==> fresh(copies[name]) && fresh(copies[name].heap)
      ensures forall name :: name in copies ==> IsCopy(copies[name], name, log)
    {
      hide AllIntact, IsCopy, Apart, View, Valid;
      NoneApart();
      ObjectsAllocated();
      copies := map[];
      var names := tables.Keys;
      while names != {}
        invariant names <= tables.Keys && copies.Keys == tables.Keys - names && Valid()
        invariant forall name :: name in copies ==> IsCopy(copies[name], name, log)
        invariant forall name :: name in copies ==> fresh(copies[name]) && fresh(copies[name].heap)
        invariant Apart(copies)
        decreases names
      {
        var name :| name in names;
        var table := CloneTable(name, log);
        ApartMore(copies, name, table);
        copies := copies[name := table];
        names := names - {name};
      }
    }

    method CloneTable(name: TableName, log: VersionStore) returns (table: Table)
      requires Valid() && name in tables
      ensures fresh(table) && fresh(table.heap) && IsCopy(table, name, log)
    {
      hide AllIntact, AllIndexable, Rebuilt;
      TableIntact(name);
      IntactIsExact(tables[name]);
      table := tables[name].Clone(log);
    }

    ghost predicate IsCopy(copy: Table, name: TableName, log: VersionStore)
      requires name in tables
      reads copy, copy.heap, tables[name], tables[name].heap
    {
      copy.store == log && copy.database == name.database && copy.table == name.table
        && copy.Image() == tables[name].Image()
    }

    lemma CopiesStand(copies: map<TableName, Table>, log: VersionStore)
      requires copies.Keys == tables.Keys && forall name :: name in copies ==> IsCopy(copies[name], name, log)
      ensures forall name :: name in copies ==>
        copies[name].store == log && copies[name].database == name.database && copies[name].table == name.table
    {
    }

    lemma SameView(copy: Workspace)
      requires copy.databases == databases && copy.tables.Keys == tables.Keys && copy.store.records == store.records
      requires forall name :: name in tables ==> IsCopy(copy.tables[name], name, copy.store)
      ensures copy.View() == View()
    {
      assert copy.View().tables == View().tables;
    }
  }
}
