/** REVERT: the table goes back to a replay of its history, and records how. */
module TableRevert {
  import opened Wrappers
  import opened Predicates
  import opened TableIndex
  import opened History
  import opened TableStatements
  import opened TableChanges

  datatype Mode = AtOrBefore(t: Time) | Exact(t: Time) | ToLatest | Malformed

  /** The recorded time to go back to. */
  function TargetTime(h: seq<Event>, mode: Mode): Option<Time> {
    match mode
    case AtOrBefore(t) => LatestAtOrBefore(h, t)
    case Exact(t) => if HasTime(h, t) then Some(t) else None
    case ToLatest => Latest(h)
    case Malformed => None
  }

  /** REVERT goes back to the greatest recorded time up to the given one, to the given one itself if something was
      recorded exactly then, or to the greatest one of all; otherwise there is nothing to go back to. */
  lemma TargetMeans(h: seq<Event>, mode: Mode, t: Time)
    ensures TargetTime(h, mode) == Some(t) <==>
      HasTime(h, t)
      && match mode
         case AtOrBefore(bound) => t <= bound && forall i :: 0 <= i < |h| && h[i].time <= bound ==> h[i].time <= t
         case Exact(only) => t == only
         case ToLatest => forall i :: 0 <= i < |h| ==> h[i].time <= t
         case Malformed => false
    ensures TargetTime(h, mode).None? <==>
      match mode
      case AtOrBefore(bound) => forall i :: 0 <= i < |h| ==> h[i].time > bound
      case Exact(only) => !HasTime(h, only)
      case ToLatest => h == []
      case Malformed => true
  {
    match mode
    case AtOrBefore(bound) => LatestIsGreatest(h, bound);
    case ToLatest => LatestCoversAll(h);
    case _ =>
  }

  /** The rows of `m` in ascending order of id. */
  ghost predicate Lists(rows: seq<Row>, m: RowsById) {
    Ascending(rows) && RowMap(rows) == m
  }

  function IdOf(c: Change): RowId {
    if c.after.Some? then c.after.value.id else if c.before.Some? then c.before.value.id else 0
  }

  /** One change that takes a row from what it is to what it should be. */
  predicate Moves(c: Change, current: RowsById, target: RowsById) {
    match c.kind
    case DeleteRow =>
      c.before.Some? && c.after.None? && IdOf(c) in current && IdOf(c) !in target && c.before.value == current[IdOf(c)]
    case UpdateRow =>
      c.before.Some? && c.after.Some? && IdOf(c) in current && IdOf(c) in target
      && c.before.value == current[IdOf(c)] && c.after.value == target[IdOf(c)]
        && c.before.value.values != c.after.value.values
    case InsertRow =>
      c.before.None? && c.after.Some? && IdOf(c) !in current && IdOf(c) in target && c.after.value == target[IdOf(c)]
    case _ => false
  }

  /** The rows with id `id` differ. */
  predicate Differ(current: RowsById, target: RowsById, id: RowId) {
    (id in current) != (id in target) || (id in current && id in target && current[id].values != target[id].values)
  }

  predicate Touches(cs: seq<Change>, id: RowId) {
    exists i :: 0 <= i < |cs| && IdOf(cs[i]) == id
  }

  /** One change for every row that differs, in any order. */
  ghost predicate IsDelta(cs: seq<Change>, current: RowsById, target: RowsById) {
    && (forall i :: 0 <= i < |cs| ==> Moves(cs[i], current, target))
    && (forall i, j :: 0 <= i < j < |cs| ==> IdOf(cs[i]) != IdOf(cs[j]))
    && (forall id :: id in current || id in target ==>
          Differ(current, target, id) ==> Touches(cs, id))
  }

  ghost predicate WellKeyed(m: RowsById) {
    forall id :: id in m ==> m[id].id == id
  }

  /** `o` is what REVERT makes of `s`: `rows` is the past it goes back to, `cs` how it gets there. */
  ghost predicate Reverts(s: TableState, schema: Schema, mode: Mode, clock: Clock, rows: seq<Row>, cs: seq<Change>,
                          o: Outcome) {
    if mode.Malformed? then o == Outcome(s, Some(ValidationError))
    else match TargetTime(s.history, mode)
      case None => o == Outcome(s, Some(NotFound))
      case Some(t) =>
        Lists(rows, Replay(s.history, t))
        && if !Shaped(rows, schema) then o == Outcome(s, Some(ValidationError))
           else IsDelta(cs, RowMap(s.rows), RowMap(rows)) && o == Settled(s, schema, Sweep(rows, cs, None), clock)
  }

  // ---------- the recorded changes lead to the target ----------

  /** The target's row where `ids` says so, the current one elsewhere. */
  ghost predicate Between(m: RowsById, current: RowsById, target: RowsById, cs: seq<Change>) {
    forall id ::
      && (id in m <==> if Touches(cs, id) then id in target else id in current)
      && (id in m ==> m[id] == if Touches(cs, id) then target[id] else current[id])
  }

  lemma {:induction false} DeltaMoves(cs: seq<Change>, current: RowsById, target: RowsById)
    requires forall i :: 0 <= i < |cs| ==> Moves(cs[i], current, target)
    requires forall i, j :: 0 <= i < j < |cs| ==> IdOf(cs[i]) != IdOf(cs[j])
    requires WellKeyed(target) && WellKeyed(current)
    ensures Between(ApplyAll(current, cs), current, target, cs)
  {
    if cs != [] {
      var n := |cs| - 1;
      DeltaMoves(cs[..n], current, target);
      OneMove(ApplyAll(current, cs[..n]), cs, current, target);
    }
  }

  lemma TouchesMore(cs: seq<Change>, id: RowId)
    requires cs != []
    ensures Touches(cs, id) <==> Touches(cs[..|cs| - 1], id) || id == IdOf(cs[|cs| - 1])
  {
    var n := |cs| - 1;
    if i :| 0 <= i < |cs| && IdOf(cs[i]) == id {
      if i < n { assert cs[..n][i] == cs[i]; }
    }
    if i :| 0 <= i < n && IdOf(cs[..n][i]) == id { assert cs[i] == cs[..n][i]; }
  }

  lemma OneMove(m: RowsById, cs: seq<Change>, current: RowsById, target: RowsById)
    requires cs != [] && Between(m, current, target, cs[..|cs| - 1]) && Moves(cs[|cs| - 1], current, target)
    requires WellKeyed(target) && WellKeyed(current)
    ensures Between(Apply(m, cs[|cs| - 1]), current, target, cs)
  {
    var n, m' := |cs| - 1, Apply(m, cs[|cs| - 1]);
    forall id ensures Touches(cs, id) <==> Touches(cs[..n], id) || id == IdOf(cs[n]) {
      TouchesMore(cs, id);
    }
    assert m' == if cs[n].kind == DeleteRow then m - {IdOf(cs[n])} else m[IdOf(cs[n]) := target[IdOf(cs[n])]];
  }

  lemma DeltaReachesTarget(cs: seq<Change>, current: RowsById, target: RowsById)
    requires IsDelta(cs, current, target) && WellKeyed(target) && WellKeyed(current)
    ensures ApplyAll(current, cs) == target
  {
    DeltaMoves(cs, current, target);
    var m := ApplyAll(current, cs);
    forall id | id in m || id in target ensures id in m && id in target && m[id] == target[id] {
      SameOrMoved(m, cs, current, target, id);
    }
  }

  lemma SameOrMoved(m: RowsById, cs: seq<Change>, current: RowsById, target: RowsById, id: RowId)
    requires IsDelta(cs, current, target) && WellKeyed(target) && WellKeyed(current) && Between(m, current, target, cs)
    ensures id in m <==> id in target
    ensures id in m ==> m[id] == target[id]
  {
    if id in current && id in target && !Differ(current, target, id) {
      assert current[id] == target[id];
    }
  }

  lemma RowMapWellKeyed(rows: seq<Row>)
    ensures WellKeyed(RowMap(rows))
  {
    forall id | id in RowMap(rows) ensures RowMap(rows)[id].id == id { RowMapHas(rows, id); }
  }

  // ---------- REVERT is time travel ----------

  /** Ascending rows are determined by the rows they are. */
  lemma {:induction false} ListsUnique(a: seq<Row>, b: seq<Row>)
    requires Ascending(a) && Ascending(b) && RowMap(a) == RowMap(b)
    ensures a == b
  {
    if a == [] || b == [] {
      if a != [] { RowMapAt(a, 0); }
      if b != [] { RowMapAt(b, 0); }
    } else {
      var x, y := a[|a| - 1], b[|b| - 1];
      RowMapAt(a, |a| - 1);
      RowMapAt(b, |b| - 1);
      RowMapHas(a, y.id);
      RowMapHas(b, x.id);
      assert x == y;
      LastDropped(a);
      LastDropped(b);
      ListsUnique(a[..|a| - 1], b[..|b| - 1]);
      assert a == a[..|a| - 1] + [x] && b == b[..|b| - 1] + [y];
    }
  }

  lemma LastDropped(a: seq<Row>)
    requires Ascending(a) && a != []
    ensures RowMap(a[..|a| - 1]) == RowMap(a) - {a[|a| - 1].id}
  {
    hide RowMap;
    var n := |a| - 1;
    LastIdIsNew(a, n);
    RowMapMore(a[..n], a[n]);
    assert a == a[..n] + [a[n]];
    AddedThenDropped(RowMap(a[..n]), a[n]);
  }

  lemma AddedThenDropped(m: RowsById, row: Row)
    requires row.id !in m
    ensures m[row.id := row] - {row.id} == m
  {
  }

  /** After a successful REVERT heap, indexes and history are in step again. */
  lemma RevertKeeps(s: TableState, schema: Schema, mode: Mode, clock: Clock, rows: seq<Row>, cs: seq<Change>,
                    o: Outcome)
    requires Consistent(s, schema) && Reverts(s, schema, mode, clock, rows, cs, o) && o.error.None?
    requires AllConform(rows, schema)
    ensures Consistent(o.state, schema)
  {
    hide RowMap, ApplyAll, KeyOf, Agrees, BuildIndex, Recorded, Conforms, ReplayAll, IsDelta, CanRebuild;
    RebuiltAgrees(o.state, schema);
    RecordedReplay(s.history, cs, clock);
    RowMapWellKeyed(rows);
    RowMapWellKeyed(s.rows);
    DeltaReachesTarget(cs, RowMap(s.rows), RowMap(rows));
  }

  /** A successful REVERT to `t` makes the heap the replay of what was recorded at or before `t`; the full replay agrees
      again; and the replay as of any time before the REVERT's own events is what it was. */
  lemma RevertIsTimeTravel(s: TableState, schema: Schema, t: Time, clock: Clock, rows: seq<Row>, cs: seq<Change>,
                           o: Outcome)
    requires Consistent(s, schema) && Monotone(clock)
    requires Reverts(s, schema, AtOrBefore(t), clock, rows, cs, o) && o.error.None?
    ensures RowMap(o.state.rows) == Replay(s.history, t) && Ascending(o.state.rows)
    ensures ReplayAll(o.state.history) == RowMap(o.state.rows)
    ensures forall t': Time :: t' < clock(|s.history|) ==> Replay(o.state.history, t') == Replay(s.history, t')
  {
    hide RowMap, ApplyAll, KeyOf, Agrees, BuildIndex, Conforms, ReplayAll, IsDelta, CanRebuild, Replay, Recorded,
      Rebuilt;
    LatestReplaysAlike(s.history, t);
    RecordedReplay(s.history, cs, clock);
    RowMapWellKeyed(rows);
    RowMapWellKeyed(s.rows);
    DeltaReachesTarget(cs, RowMap(s.rows), RowMap(rows));
    forall t': Time | t' < clock(|s.history|) ensures Replay(o.state.history, t') == Replay(s.history, t') {
      RecordedLater(s.history, cs, clock, t');
    }
  }

  lemma RecordedLater(h: seq<Event>, cs: seq<Change>, clock: Clock, t: Time)
    requires Monotone(clock) && t < clock(|h|)
    ensures Replay(Recorded(h, cs, clock), t) == Replay(h, t)
  {
    var more := seq(|cs|, i requires 0 <= i < |cs| => Event(cs[i], clock(|h| + i)));
    PastIsFixed(h, more, t);
  }

  /** REVERT LATEST finds nothing to do: rows, counter, indexes and history stay exactly as they are. */
  lemma RevertLatestIsIdle(s: TableState, schema: Schema, clock: Clock, rows: seq<Row>, cs: seq<Change>, o: Outcome)
    requires Consistent(s, schema) && s.history != []
    requires Reverts(s, schema, ToLatest, clock, rows, cs, o)
    ensures o == Outcome(s, None) && cs == []
  {
    hide RowMap, ApplyAll, KeyOf, Agrees, BuildIndex, Conforms, ReplayAll, Replay, Rebuilt;
    LatestReplaysAll(s.history);
    ListsUnique(rows, s.rows);
    ConformShaped(s.rows, schema);
    NothingToMove(cs, RowMap(s.rows));
    SelfRebuild(s, schema);
    assert Recorded(s.history, [], clock) == s.history;
  }

  lemma NoMove(c: Change, m: RowsById)
    ensures !Moves(c, m, m)
  {
  }

  lemma NothingToMove(cs: seq<Change>, m: RowsById)
    requires IsDelta(cs, m, m)
    ensures cs == []
  {
    if cs != [] { NoMove(cs[0], m); }
  }

  /** Rebuilding the indexes of a consistent table changes nothing. */
  lemma SelfRebuild(s: TableState, schema: Schema)
    requires Consistent(s, schema)
    ensures CanRebuild(s.rows, schema) && Rebuilt(s.rows, schema) == s.indexes
  {
    hide RowMap, ReplayAll, KeyOf, BuildIndex, Agrees, Conforms;
    SubrowsRebuild(s, schema, s.rows);
    var indexes := Rebuilt(s.rows, schema);
    RebuiltAgrees(s.(indexes := indexes), schema);
    forall name | name in Indexes(schema) ensures indexes[name] == s.indexes[name] {
      AgreesUnique(indexes[name], s.indexes[name], s.rows, ColumnOf(schema, name), TypeAt(schema, name));
    }
  }

  /** `t` is a time after the last event of `before` and before the next one that `s` has. */
  ghost predicate Boundary(before: TableState, s: TableState, t: Time, clock: Clock) {
    && before.history <= s.history && Stamped(s.history, clock)
    && before.history != [] && clock(|before.history| - 1) <= t
    && (|before.history| < |s.history| ==> t < clock(|before.history|))
  }

  lemma BoundaryReplay(before: TableState, s: TableState, t: Time, clock: Clock)
    requires Boundary(before, s, t, clock) && Monotone(clock)
    ensures Replay(s.history, t) == ReplayAll(before.history)
    ensures TargetTime(s.history, AtOrBefore(t)).Some?
  {
    hide Replay, ReplayAll;
    var h, more := before.history, s.history[|before.history|..];
    assert h + more == s.history;
    PastIsFixed(h, more, t);
    forall i | 0 <= i < |h| ensures h[i].time <= t {
      assert h[i] == s.history[i];
      assert clock(i) <= clock(|h| - 1);
    }
    EverythingBy(h, t);
    LatestIsGreatest(s.history, t);
    assert s.history[0] == h[0];
  }

  lemma EverythingBy(h: seq<Event>, t: Time)
    requires forall i :: 0 <= i < |h| ==> h[i].time <= t
    ensures Replay(h, t) == ReplayAll(h)
  {
    UpToEverything(h, t);
  }

  /** REVERT to a statement boundary succeeds: it restores the rows and the indexes of that boundary exactly, whatever
      has happened since, including other REVERTs. */
  lemma RevertToBoundary(before: TableState, s: TableState, schema: Schema, t: Time, clock: Clock,
                         rows: seq<Row>, cs: seq<Change>, o: Outcome)
    requires Consistent(before, schema) && Consistent(s, schema) && Monotone(clock) && Boundary(before, s, t, clock)
    requires Reverts(s, schema, AtOrBefore(t), clock, rows, cs, o)
    ensures o.error.None? && o.state.rows == before.rows && o.state.indexes == before.indexes
      && o.state.next == before.next
    ensures Consistent(o.state, schema)
  {
    hide RowMap, ApplyAll, KeyOf, Agrees, BuildIndex, Conforms, ReplayAll, Replay, Rebuilt, IsDelta, CanRebuild,
      Recorded, Boundary;
    BoundaryReplay(before, s, t, clock);
    LatestReplaysAlike(s.history, t);
    ListsUnique(rows, before.rows);
    ConformShaped(before.rows, schema);
    SelfRebuild(before, schema);
    RevertKeeps(s, schema, AtOrBefore(t), clock, rows, cs, o);
  }
}
