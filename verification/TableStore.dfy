/** Where a table's rows and its change records are kept. */
module TableStore {
  import opened Wrappers
  import opened Values
  import opened Predicates
  import opened History
  import opened TableStatements

  /** Rows in the order they were added, and the counter that gives new rows their ids. */
  class TableHeap {
    var rows: seq<Row>
    var nextRowId: RowId

    constructor ()
      ensures rows == [] && nextRowId == 0
    {
      rows, nextRowId := [], 0;
    }

    /** A row without an id gets the next one; an id that is given moves the counter beyond it. */
    method Insert(id: Option<RowId>, values: seq<Value>) returns (rowId: RowId)
      modifies this
      ensures rowId == if id.Some? then id.value else old(nextRowId)
      ensures rows == old(rows) + [Row(rowId, values)]
      ensures nextRowId == if rowId >= old(nextRowId) then rowId + 1 else old(nextRowId)
    {
      rowId := nextRowId;
      if id.None? {
        nextRowId := nextRowId + 1;
      } else {
        rowId := id.value;
        if rowId >= nextRowId { nextRowId := rowId + 1; }
      }
      rows := rows + [Row(rowId, values)];
    }

    method ScanAll() returns (all: seq<Row>)
      ensures all == rows
    {
      all := rows;
    }

    /** The first row with this id. */
    method FindByRowId(id: RowId) returns (found: Option<Row>)
      ensures found.Some? ==> found.value in rows && found.value.id == id
      ensures found.None? <==> forall i :: 0 <= i < |rows| ==> rows[i].id != id
    {
      var i := 0;
      while i < |rows|
        invariant i <= |rows| && forall j :: 0 <= j < i ==> rows[j].id != id
      {
        if rows[i].id == id { return Some(rows[i]); }
        i := i + 1;
      }
      return None;
    }

    /** The counter starts over: one more than the greatest id that is left. */
    method ReplaceAll(newRows: seq<Row>)
      modifies this
      ensures rows == newRows && nextRowId == NextId(newRows)
    {
      rows, nextRowId := newRows, 0;
      var i := 0;
      while i < |rows|
        invariant rows == newRows && i <= |rows| && nextRowId == NextId(rows[..i])
      {
        assert rows[..i + 1][..i] == rows[..i];
        if rows[i].id >= nextRowId { nextRowId := rows[i].id + 1; }
        i := i + 1;
      }
      assert rows[..|rows|] == rows;
    }
  }

  datatype Record = Record(database: string, table: string, event: Event)

  /** The events of one table among all records. */
  function HistoryOf(records: seq<Record>, database: string, table: string): seq<Event> {
    if records == [] then []
    else
      var rest, last := HistoryOf(records[..|records| - 1], database, table), records[|records| - 1];
      if last.database == database && last.table == table then rest + [last.event] else rest
  }

  lemma HistoryMore(records: seq<Record>, record: Record, database: string, table: string)
    ensures HistoryOf(records + [record], database, table)
         == HistoryOf(records, database, table)
            + if record.database == database && record.table == table then [record.event] else []
  {
    assert (records + [record])[..|records|] == records;
  }

  /** Records were added, all of them for one table. */
  ghost predicate Logs(before: seq<Record>, after: seq<Record>, database: string, table: string) {
    && before <= after
    && forall i :: |before| <= i < |after| ==> after[i].database == database && after[i].table == table
  }

  function Tagged(database: string, table: string, events: seq<Event>): seq<Record> {
    seq(|events|, i requires 0 <= i < |events| => Record(database, table, events[i]))
  }

  /** The added records are the table's new events, in order, and other tables have no new events. */
  lemma {:induction false} LogsOnlyHere(before: seq<Record>, after: seq<Record>, database: string, table: string)
    requires Logs(before, after, database, table)
    ensures HistoryOf(before, database, table) <= HistoryOf(after, database, table)
    ensures after
      == before + Tagged(database, table, HistoryOf(after, database, table)[|HistoryOf(before, database, table)|..])
    ensures forall d, t :: d != database || t != table ==> HistoryOf(after, d, t) == HistoryOf(before, d, t)
    decreases |after|
  {
    hide HistoryOf;
    if |after| > |before| {
      var n := |after| - 1;
      LogsOnlyHere(before, after[..n], database, table);
      assert after == after[..n] + [after[n]];
      HistoryMore(after[..n], after[n], database, table);
      forall d, t | d != database || t != table ensures HistoryOf(after, d, t) == HistoryOf(before, d, t) {
        HistoryMore(after[..n], after[n], d, t);
      }
    } else {
      assert after == before;
    }
  }

  /** The append-only change log of all tables. */
  class VersionStore {
    var records: seq<Record>

    constructor ()
      ensures records == []
    {
      records := [];
    }

    /** Appends a record stamped `now`; the histories of other tables do not change. */
    method Append(database: string, table: string, change: Change, now: Time)
      modifies this
      ensures records == old(records) + [Record(database, table, Event(change, now))]
      ensures forall db, t :: HistoryOf(records, db, t) == HistoryOf(old(records), db, t)
                                + (if db == database && t == table then [Event(change, now)] else [])
    {
      var record := Record(database, table, Event(change, now));
      forall db, t
        ensures HistoryOf(records + [record], db, t)
             == HistoryOf(records, db, t) + if db == database && t == table then [Event(change, now)] else []
      {
        HistoryMore(records, record, db, t);
      }
      records := records + [record];
    }

    method HistoryForTable(database: string, table: string) returns (history: seq<Event>)
      ensures history == HistoryOf(records, database, table)
    {
      history := [];
      var i := 0;
      while i < |records|
        invariant i <= |records| && history == HistoryOf(records[..i], database, table)
      {
        assert records[..i + 1][..i] == records[..i];
        if records[i].database == database && records[i].table == table { history := history + [records[i].event]; }
        i := i + 1;
      }
      assert records[..|records|] == records;
    }

    method LatestTimestampForTable(database: string, table: string) returns (latest: Option<Time>)
      ensures latest == Latest(HistoryOf(records, database, table))
    {
      latest := None;
      var i := 0;
      while i < |records|
        invariant i <= |records| && latest == Latest(HistoryOf(records[..i], database, table))
      {
        assert records[..i + 1] == records[..i] + [records[i]];
        HistoryMore(records[..i], records[i], database, table);
        if records[i].database == database && records[i].table == table {
          LatestMore(HistoryOf(records[..i], database, table), records[i].event);
          if latest.None? || latest.value < records[i].event.time { latest := Some(records[i].event.time); }
        }
        i := i + 1;
      }
      assert records[..|records|] == records;
    }

    lemma LatestMore(h: seq<Event>, e: Event)
      ensures Latest(h + [e]) == if Latest(h).None? || Latest(h).value < e.time then Some(e.time) else Latest(h)
    {
      assert (h + [e])[..|h|] == h;
    }

    method LatestTimestampAtOrBefore(database: string, table: string, timestamp: Time) returns (best: Option<Time>)
      ensures best == LatestAtOrBefore(HistoryOf(records, database, table), timestamp)
    {
      best := None;
      var i := 0;
      while i < |records|
        invariant i <= |records| && best == LatestAtOrBefore(HistoryOf(records[..i], database, table), timestamp)
      {
        assert records[..i + 1] == records[..i] + [records[i]];
        HistoryMore(records[..i], records[i], database, table);
        if !(records[i].database != database || records[i].table != table || records[i].event.time > timestamp) {
          BestMore(HistoryOf(records[..i], database, table), records[i].event, timestamp);
          if best.None? || best.value < records[i].event.time { best := Some(records[i].event.time); }
        } else if records[i].database == database && records[i].table == table {
          BestMore(HistoryOf(records[..i], database, table), records[i].event, timestamp);
        }
        i := i + 1;
      }
      assert records[..|records|] == records;
    }

    lemma BestMore(h: seq<Event>, e: Event, t: Time)
      ensures LatestAtOrBefore(h + [e], t)
           == if e.time <= t && (LatestAtOrBefore(h, t).None? || LatestAtOrBefore(h, t).value < e.time)
              then Some(e.time) else LatestAtOrBefore(h, t)
    {
      assert (h + [e])[..|h|] == h;
    }

    method HasExactTimestampForTable(database: string, table: string, timestamp: Time) returns (has: bool)
      ensures has <==> HasTime(HistoryOf(records, database, table), timestamp)
    {
      var i := 0;
      while i < |records|
        invariant i <= |records|
        invariant forall j :: 0 <= j < |HistoryOf(records[..i], database, table)| ==>
          HistoryOf(records[..i], database, table)[j].time != timestamp
      {
        var before := HistoryOf(records[..i], database, table);
        assert records[..i + 1] == records[..i] + [records[i]];
        HistoryMore(records[..i], records[i], database, table);
        if records[i].database == database && records[i].table == table && records[i].event.time == timestamp {
          Keeps(records, i + 1, database, table, |before|);
          return true;
        }
        i := i + 1;
      }
      assert records[..|records|] == records;
      return false;
    }

    /** An event of the table stays where it is when records are added. */
    lemma {:induction false} Keeps(all: seq<Record>, n: nat, database: string, table: string, j: nat)
      requires n <= |all| && j < |HistoryOf(all[..n], database, table)|
      ensures j < |HistoryOf(all, database, table)|
      ensures HistoryOf(all, database, table)[j] == HistoryOf(all[..n], database, table)[j]
    {
      if n < |all| {
        var m := |all| - 1;
        assert all[..m][..n] == all[..n];
        Keeps(all[..m], n, database, table, j);
      } else {
        assert all[..n] == all;
      }
    }
  }
}
