/** The event history of a table: replaying it, as of any time, and the queries that pick a time to go back to. */
module History {
  import opened Wrappers
  import opened Predicates

  type Time = nat

  datatype ChangeKind = CreateDatabase | DropDatabase | CreateTable | DropTable | InsertRow | UpdateRow | DeleteRow

  datatype Change = Change(kind: ChangeKind, before: Option<Row>, after: Option<Row>)

  datatype Event = Event(change: Change, time: Time)

  type RowsById = map<RowId, Row>

  // ---------- replay ----------

  function Apply(m: RowsById, c: Change): RowsById {
    match c.kind
    case CreateTable => map[]
    case DropTable => map[]
    case InsertRow => if c.after.Some? then m[c.after.value.id := c.after.value] else m
    case UpdateRow => if c.after.Some? then m[c.after.value.id := c.after.value] else m
    case DeleteRow => if c.before.Some? then m - {c.before.value.id} else m
    case _ => m
  }

  function ApplyAll(m: RowsById, cs: seq<Change>): RowsById {
    if cs == [] then m else Apply(ApplyAll(m, cs[..|cs| - 1]), cs[|cs| - 1])
  }

  lemma {:induction false} ApplyAppend(m: RowsById, a: seq<Change>, b: seq<Change>)
    ensures ApplyAll(m, a + b) == ApplyAll(ApplyAll(m, a), b)
  {
    if b == [] {
      assert a + b == a;
    } else {
      var n := |b| - 1;
      ApplyAppend(m, a, b[..n]);
      assert (a + b)[..|a + b| - 1] == a + b[..n];
    }
  }

  /** The changes stamped at or before `t`, in order. */
  function UpTo(h: seq<Event>, t: Time): seq<Change> {
    if h == [] then []
    else
      var rest := UpTo(h[..|h| - 1], t);
      if h[|h| - 1].time > t then rest else rest + [h[|h| - 1].change]
  }

  function Changes(h: seq<Event>): seq<Change> {
    seq(|h|, i requires 0 <= i < |h| => h[i].change)
  }

  /** The table as of time `t`. */
  function Replay(h: seq<Event>, t: Time): RowsById {
    ApplyAll(map[], UpTo(h, t))
  }

  function ReplayAll(h: seq<Event>): RowsById {
    ApplyAll(map[], Changes(h))
  }

  lemma {:induction false} UpToAppend(h: seq<Event>, more: seq<Event>, t: Time)
    ensures UpTo(h + more, t) == UpTo(h, t) + UpTo(more, t)
  {
    if more == [] {
      assert h + more == h;
    } else {
      var n := |more| - 1;
      UpToAppend(h, more[..n], t);
      assert (h + more)[..|h + more| - 1] == h + more[..n];
    }
  }

  lemma {:induction false} UpToNothing(h: seq<Event>, t: Time)
    requires forall i :: 0 <= i < |h| ==> h[i].time > t
    ensures UpTo(h, t) == []
  {
    if h != [] { UpToNothing(h[..|h| - 1], t); }
  }

  lemma {:induction false} UpToEverything(h: seq<Event>, t: Time)
    requires forall i :: 0 <= i < |h| ==> h[i].time <= t
    ensures UpTo(h, t) == Changes(h)
  {
    if h != [] {
      var n := |h| - 1;
      UpToEverything(h[..n], t);
      assert Changes(h) == Changes(h[..n]) + [h[n].change];
    }
  }

  lemma {:induction false} UpToSame(h: seq<Event>, t: Time, t': Time)
    requires forall i :: 0 <= i < |h| ==> (h[i].time <= t <==> h[i].time <= t')
    ensures UpTo(h, t) == UpTo(h, t')
  {
    if h != [] { UpToSame(h[..|h| - 1], t, t'); }
  }

  /** The change decides whether there is a row with this id afterwards, and which. */
  predicate Decides(c: Change, id: RowId) {
    match c.kind
    case CreateTable => true
    case DropTable => true
    case InsertRow => c.after.Some? && c.after.value.id == id
    case UpdateRow => c.after.Some? && c.after.value.id == id
    case DeleteRow => c.before.Some? && c.before.value.id == id
    case _ => false
  }

  /** The row with this id that a change leaves. */
  function LeftBy(c: Change): Option<Row> {
    if c.kind.InsertRow? || c.kind.UpdateRow? then c.after else None
  }

  function RowAt(m: RowsById, id: RowId): Option<Row> {
    if id in m then Some(m[id]) else None
  }

  /** The last event up to `t` that says something about a row is the `i`-th one. */
  predicate LastSays(h: seq<Event>, t: Time, id: RowId, i: nat) {
    i < |h| && h[i].time <= t && Decides(h[i].change, id)
    && forall j :: i < j < |h| && h[j].time <= t ==> !Decides(h[j].change, id)
  }

  predicate NoneSays(h: seq<Event>, t: Time, id: RowId) {
    forall j :: 0 <= j < |h| && h[j].time <= t ==> !Decides(h[j].change, id)
  }

  /** As of any time, a row is what the last event about it up to then has left; no row is left by a deletion, nor by
      the creation or removal of its table, whatever came before. */
  lemma {:induction false} LastDecides(h: seq<Event>, t: Time, id: RowId, i: nat)
    requires LastSays(h, t, id, i)
    ensures RowAt(Replay(h, t), id) == LeftBy(h[i].change)
  {
    hide Decides;
    var n := |h| - 1;
    ReplayLast(h, t, id);
    if i < n { LastDecides(h[..n], t, id, i); }
  }

  /** Nothing is known of a row that no event up to then is about. */
  lemma {:induction false} NoneDecides(h: seq<Event>, t: Time, id: RowId)
    requires NoneSays(h, t, id)
    ensures RowAt(Replay(h, t), id) == None
  {
    hide Decides;
    if h != [] {
      ReplayLast(h, t, id);
      NoneDecides(h[..|h| - 1], t, id);
    }
  }

  lemma ReplayLast(h: seq<Event>, t: Time, id: RowId)
    requires h != []
    ensures var last := h[|h| - 1];
      RowAt(Replay(h, t), id) == if last.time <= t && Decides(last.change, id) then LeftBy(last.change)
        else RowAt(Replay(h[..|h| - 1], t), id)
  {
    var rest := UpTo(h[..|h| - 1], t);
    assert (rest + [h[|h| - 1].change])[..|rest|] == rest;
  }

  /** What is recorded later does not change the past. */
  lemma PastIsFixed(h: seq<Event>, more: seq<Event>, t: Time)
    requires forall i :: 0 <= i < |more| ==> more[i].time > t
    ensures Replay(h + more, t) == Replay(h, t)
  {
    UpToAppend(h, more, t);
    UpToNothing(more, t);
    assert UpTo(h, t) + [] == UpTo(h, t);
  }

  lemma ReplayMore(h: seq<Event>, more: seq<Event>)
    ensures ReplayAll(h + more) == ApplyAll(ReplayAll(h), Changes(more))
  {
    assert Changes(h + more) == Changes(h) + Changes(more);
    ApplyAppend(map[], Changes(h), Changes(more));
  }

  // ---------- choosing a time ----------

  /** The greatest timestamp at or before `t`, if there is one. */
  function LatestAtOrBefore(h: seq<Event>, t: Time): Option<Time> {
    if h == [] then None
    else
      var rest, last := LatestAtOrBefore(h[..|h| - 1], t), h[|h| - 1].time;
      if last > t then rest
      else if rest.None? || rest.value < last then Some(last) else rest
  }

  lemma {:induction false} LatestIsGreatest(h: seq<Event>, t: Time)
    ensures LatestAtOrBefore(h, t).None? <==> forall i :: 0 <= i < |h| ==> h[i].time > t
    ensures LatestAtOrBefore(h, t).Some? ==>
      var best := LatestAtOrBefore(h, t).value;
      best <= t && (exists i :: 0 <= i < |h| && h[i].time == best)
      && forall i :: 0 <= i < |h| && h[i].time <= t ==> h[i].time <= best
  {
    if h != [] {
      var n := |h| - 1;
      LatestIsGreatest(h[..n], t);
      var rest := LatestAtOrBefore(h[..n], t);
      if rest.Some? {
        var i :| 0 <= i < n && h[..n][i].time == rest.value;
        assert h[i].time == rest.value;
      }
      if rest.None? {
        assert forall i :: 0 <= i < n ==> h[..n][i] == h[i];
      }
    }
  }

  /** Going back to the latest recorded time is going back to the time asked for. */
  lemma LatestReplaysAlike(h: seq<Event>, t: Time)
    requires LatestAtOrBefore(h, t).Some?
    ensures Replay(h, LatestAtOrBefore(h, t).value) == Replay(h, t)
  {
    LatestIsGreatest(h, t);
    UpToSame(h, LatestAtOrBefore(h, t).value, t);
  }

  /** Something was recorded exactly at `t`. */
  predicate HasTime(h: seq<Event>, t: Time) {
    exists i :: 0 <= i < |h| && h[i].time == t
  }

  /** The greatest timestamp of all. */
  function Latest(h: seq<Event>): Option<Time> {
    if h == [] then None
    else
      var rest, last := Latest(h[..|h| - 1]), h[|h| - 1].time;
      if rest.None? || rest.value < last then Some(last) else rest
  }

  lemma {:induction false} LatestCoversAll(h: seq<Event>)
    ensures Latest(h).None? <==> h == []
    ensures Latest(h).Some? ==> forall i :: 0 <= i < |h| ==> h[i].time <= Latest(h).value
    ensures Latest(h).Some? ==> HasTime(h, Latest(h).value)
  {
    if h != [] {
      var n := |h| - 1;
      LatestCoversAll(h[..n]);
      if Latest(h[..n]).Some? {
        var i :| 0 <= i < n && h[..n][i].time == Latest(h[..n]).value;
        assert h[i].time == Latest(h[..n]).value && h[n].time == h[n].time;
      } else {
        assert h[n].time == h[n].time;
      }
    }
  }

  /** The latest time replays everything. */
  lemma LatestReplaysAll(h: seq<Event>)
    requires h != []
    ensures Latest(h).Some? && Replay(h, Latest(h).value) == ReplayAll(h)
  {
    LatestCoversAll(h);
    UpToEverything(h, Latest(h).value);
  }
}
