/** The coordinator's loop and the storage node's command handler, as runs and steps of the protocol. */
module ClusterCommands {
  import opened TwoPhaseCommit

  // ---------- the wire format ----------

  const PREPARE_PREFIX := "CLUSTER PREPARE_TX "
  const COMMIT_PREFIX := "CLUSTER COMMIT_TX "
  const ABORT_PREFIX := "CLUSTER ABORT_TX "

  datatype Command = Command(verb: Verb, tx: TxId, sql: Sql) | Malformed | Unrelated

  function Render(verb: Verb, tx: TxId, sql: Sql): string {
    match verb
    case Prepare => PREPARE_PREFIX + tx + " " + sql
    case Commit => COMMIT_PREFIX + tx
    case Abort => ABORT_PREFIX + tx
  }

  /** The position of the first blank. */
  function FirstBlank(s: string): (n: nat)
    ensures n <= |s|
    ensures n < |s| ==> s[n] == ' '
    ensures forall i :: 0 <= i < n ==> s[i] != ' '
  {
    if s == [] || s[0] == ' ' then 0 else 1 + FirstBlank(s[1..])
  }

  function ParseCommand(payload: string): Command {
    if PREPARE_PREFIX <= payload then
      var rest := payload[|PREPARE_PREFIX|..];
      var split := FirstBlank(rest);
      if split == |rest| || split == 0 || split + 1 == |rest| then Malformed
      else Command(Prepare, rest[..split], rest[split + 1..])
    else if COMMIT_PREFIX <= payload then
      var tx := payload[|COMMIT_PREFIX|..];
      if tx == "" then Malformed else Command(Commit, tx, "")
    else if ABORT_PREFIX <= payload then
      var tx := payload[|ABORT_PREFIX|..];
      if tx == "" then Malformed else Command(Abort, tx, "")
    else Unrelated
  }

  /** A node reads every request as the coordinator meant it, whatever the statement contains. */
  lemma ParseAfterRender(verb: Verb, tx: TxId, sql: Sql)
    requires tx != "" && ' ' !in tx && sql != ""
    ensures ParseCommand(Render(verb, tx, sql)) == Command(verb, tx, if verb == Prepare then sql else "")
  {
    var payload := Render(verb, tx, sql);
    match verb
    case Prepare =>
      var rest := payload[|PREPARE_PREFIX|..];
      assert rest == tx + " " + sql;
      assert rest[|tx|] == ' ' && forall i :: 0 <= i < |tx| ==> rest[i] == tx[i];
      assert FirstBlank(rest) == |tx|;
      assert rest[..|tx|] == tx && rest[|tx| + 1..] == sql;
    case Commit =>
      assert payload[8] == 'C';
      assert payload[|COMMIT_PREFIX|..] == tx;
    case Abort =>
      assert payload[8] == 'A';
      assert payload[|ABORT_PREFIX|..] == tx;
  }

  // ---------- a storage node ----------

  class StorageNode {
    var pending: map<TxId, Sql>
    var executed: seq<Execution>

    function State(): Node
      reads this
    {
      Node(pending, executed)
    }

    constructor ()
      ensures State() == Node(map[], [])
    {
      pending, executed := map[], [];
    }

    /** The PREPARE, COMMIT and ABORT branches.  `accepts` is the verdict of the parser or of the engine. */
    method ParseClusterCommand(payload: string, accepts: bool) returns (handled: bool, status: nat)
      modifies this
      ensures match ParseCommand(payload)
        case Command(verb, tx, sql) => handled && (State(), status) == Handle(old(State()), verb, sql, tx, accepts)
        case Malformed => handled && status == 400 && State() == old(State())
        case Unrelated => !handled && State() == old(State())
    {
      match ParseCommand(payload)
      case Malformed => return true, 400;
      case Unrelated => return false, 0;
      case Command(verb, tx, sql) =>
        handled := true;
        match verb {
          case Prepare =>
            if !accepts { return true, 400; }
            pending := pending[tx := sql];
            status := 200;
          case Commit =>
            if tx !in pending { return true, 404; }
            var prepared := pending[tx];
            pending := pending - {tx};
            executed := executed + [Execution(tx, prepared, accepts)];
            status := if accepts then 200 else 400;
          case Abort =>
            pending := pending - {tx};
            status := 200;
        }
    }
  }

  // ---------- the coordinator ----------

  /** What becomes of one request: served (with the node's verdict), lost on the way, or served and the reply lost. */
  datatype Fate = Served(accepts: bool) | Lost | ReplyLost(accepts: bool)

  lemma {:induction false} RunAppend(c: Cluster, a: seq<Step>, b: seq<Step>)
    requires CanRun(c, a) && CanRun(Run(c, a), b)
    ensures CanRun(c, a + b) && Run(c, a + b) == Run(Run(c, a), b)
    decreases |a|
  {
    hide Enabled, After;
    if a == [] {
      assert a + b == b;
    } else {
      RunAppend(After(c, a[0]), a[1..], b);
      assert (a + b)[0] == a[0] && (a + b)[1..] == a[1..] + b;
    }
  }

  lemma RunOne(c: Cluster, step: Step)
    requires Enabled(c, step)
    ensures CanRun(c, [step]) && Run(c, [step]) == After(c, step)
  {
    hide Enabled, After;
    assert [step][1..] == [];
  }

  lemma RunTwo(c: Cluster, a: Step, b: Step)
    requires Enabled(c, a) && Enabled(After(c, a), b)
    ensures CanRun(c, [a, b]) && Run(c, [a, b]) == After(After(c, a), b)
  {
    hide Enabled, After;
    RunOne(After(c, a), b);
    assert [a, b][1..] == [b];
  }

  /** The request that a coordinator in this phase sends. */
  function AskedVerb(p: Phase): Verb {
    match p
    case Preparing(_, _) => Prepare
    case Committing(_, _) => Commit
    case _ => Abort
  }

  function AskedIndex(p: Phase): nat {
    match p
    case Preparing(i, _) => i
    case Committing(i, _) => i
    case Aborting(i, _, _) => i
    case _ => 0
  }

  /** What the node makes of the request, if it gets it. */
  function Handled(c: Cluster, tx: TxId, co: Coordinator, accepts: bool): (Node, nat)
    requires AskedIndex(co.phase) < |co.targets|
  {
    var target := co.targets[AskedIndex(co.phase)];
    Handle(At(c, target.node), AskedVerb(co.phase), target.sql, tx, accepts)
  }

  /** Sends the next request of `tx` and waits for the answer; `good` is an answer of 200. */
  method Forward(c: Cluster, tx: TxId, fate: Fate) returns (c': Cluster, good: bool, ghost steps: seq<Step>)
    requires tx in c.coordinators && NextRequest(tx, c.coordinators[tx]) != {} && InRange(c.coordinators[tx])
    ensures CanRun(c, steps) && Run(c, steps) == c'
    ensures c'.coordinators
         == var co := c.coordinators[tx]; c.coordinators[tx := co.(phase := Heard(co.(phase := Sent(co)), good))]
    ensures var co := c.coordinators[tx];
      && AskedIndex(co.phase) < |co.targets|
      && (good <==> fate.Served? && Handled(c, tx, co, fate.accepts).1 == 200)
      && forall n :: At(c', n) == if n == co.targets[AskedIndex(co.phase)].node && !fate.Lost?
           then Handled(c, tx, co, fate.accepts).0 else At(c, n)
  {
    hide Handle, CanRun, Run;
    var co := c.coordinators[tx];
    var c1 := After(c, Send(tx));
    var tag :| tag in NextRequest(tx, co);
    RunOne(c, Send(tx));
    match fate {
      case Lost =>
        c', good := After(After(c1, LoseRequest(tag)), GiveUp(tx)), false;
        RunTwo(c1, LoseRequest(tag), GiveUp(tx));
        RunAppend(c, [Send(tx)], [LoseRequest(tag), GiveUp(tx)]);
        steps := [Send(tx)] + [LoseRequest(tag), GiveUp(tx)];
      case ReplyLost(accepts) =>
        c', good := After(After(c1, Deliver(tag, accepts)), GiveUp(tx)), false;
        RunTwo(c1, Deliver(tag, accepts), GiveUp(tx));
        RunAppend(c, [Send(tx)], [Deliver(tag, accepts), GiveUp(tx)]);
        steps := [Send(tx)] + [Deliver(tag, accepts), GiveUp(tx)];
      case Served(accepts) =>
        var c2 := After(c1, Deliver(tag, accepts));
        var target := TargetOf(c1, tag);
        var status := Handle(At(c1, target.node), tag.verb, target.sql, tx, accepts).1;
        var reply := Reply(tag, status);
        c', good := After(c2, Hear(reply)), status == 200;
        RunTwo(c1, Deliver(tag, accepts), Hear(reply));
        RunAppend(c, [Send(tx)], [Deliver(tag, accepts), Hear(reply)]);
        steps := [Send(tx)] + [Deliver(tag, accepts), Hear(reply)];
    }
  }

  function FateOf(fates: seq<Fate>, k: nat): Fate {
    if k < |fates| then fates[k] else Lost
  }

  predicate AllServed(fates: seq<Fate>, n: nat) {
    forall k :: 0 <= k < n ==> FateOf(fates, k) == Served(true)
  }

  /** A transaction with a name, and a statement for each of its nodes. */
  predicate WellPosed(tx: TxId, prepared: seq<Target>) {
    && tx != "" && (forall i :: 0 <= i < |prepared| ==> prepared[i].sql != "")
    && forall i, j :: 0 <= i < j < |prepared| ==> prepared[i].node != prepared[j].node
  }

  /** How a transaction over `n` nodes ends: what is refused was refused by the first node that did not serve its
      PREPARE, and what breaks off does at the first node that did not serve its COMMIT. */
  predicate EndsAs(n: nat, fates: seq<Fate>, phase: Phase) {
    match phase
    case Answered => AllServed(fates, 2 * n)
    case Refused(failed) => failed < n && AllServed(fates, failed) && FateOf(fates, failed) != Served(true)
    case Broken(i) => i < n && AllServed(fates, n + i) && FateOf(fates, n + i) != Served(true)
    case _ => false
  }

  /** The nodes from the `from`-th to before the `to`-th one hold the transaction. */
  ghost predicate Hold(c: Cluster, tx: TxId, prepared: seq<Target>, from: nat, to: nat) {
    forall i :: from <= i < to && i < |prepared| ==> tx in At(c, prepared[i].node).pending
  }

  /** `c` is what the steps so far have made of `start`, and `tx` is in phase `phase`. */
  ghost predicate Reached(start: Cluster, steps: seq<Step>, c: Cluster, tx: TxId, prepared: seq<Target>, phase: Phase) {
    CanRun(start, steps) && Run(start, steps) == c
    && tx in c.coordinators && c.coordinators[tx] == Coordinator(prepared, phase)
  }

  lemma ReachedMore(start: Cluster, steps: seq<Step>, c: Cluster, tx: TxId, prepared: seq<Target>, phase: Phase,
                    more: seq<Step>, c': Cluster, phase': Phase)
    requires Reached(start, steps, c, tx, prepared, phase) && CanRun(c, more) && Run(c, more) == c'
    requires c'.coordinators == c.coordinators[tx := Coordinator(prepared, phase')]
    ensures Reached(start, steps + more, c', tx, prepared, phase')
  {
    hide CanRun, Run;
    RunAppend(start, steps, more);
  }

  /** Nothing is out: the loop the coordinator is in ends. */
  lemma LoopEnds(start: Cluster, steps: seq<Step>, c: Cluster, tx: TxId, prepared: seq<Target>, phase: Phase)
    requires Reached(start, steps, c, tx, prepared, phase)
    requires NextRequest(tx, Coordinator(prepared, phase)) == {} && Awaited(tx, Coordinator(prepared, phase)) == {}
    ensures Reached(start, steps + [Send(tx)], Moved(c, tx, Sent(Coordinator(prepared, phase))), tx, prepared,
                    Sent(Coordinator(prepared, phase)))
  {
    hide CanRun, Run, Sent;
    RunOne(c, Send(tx));
    RunAppend(start, steps, [Send(tx)]);
    assert c.requests + {} == c.requests;
  }

  /** The coordinator's loop: PREPARE everywhere, on the first failure ABORT what was prepared, else COMMIT everywhere.
      Whatever the network does to its requests, it takes only steps of the protocol; the answer 200 therefore means
      that every target has executed, and a failed PREPARE that none ever has. */
  method ExecuteTwoPhaseCommit(start: Cluster, tx: TxId, prepared: seq<Target>, fates: seq<Fate>, ghost past: seq<Step>)
    returns (answer: bool, end: Cluster, ghost steps: seq<Step>, ghost phase: Phase)
    requires CanRun(INITIAL, past) && Run(INITIAL, past) == start && tx !in start.coordinators
    ensures Reached(start, steps, end, tx, prepared, phase)
    ensures answer <==> phase.Answered?
    ensures phase.Answered? || phase.Refused? || phase.Broken?
    ensures WellPosed(tx, prepared) ==> EndsAs(|prepared|, fates, phase)
    ensures answer ==> forall k :: 0 <= k < |prepared| ==>
      RanWell(At(end, prepared[k].node), tx) && Runs(At(end, prepared[k].node).executed, tx) == 1
    ensures phase.Refused? ==> forall n :: Runs(At(end, n).executed, tx) == 0
  {
    hide CanRun, Run, Runs, RanWell, After, Reached;
    answer, end, steps, phase := Coordinate(start, tx, prepared, fates);
    Consequences(past, start, steps, end, tx, prepared, phase);
  }

  lemma Consequences(past: seq<Step>, start: Cluster, steps: seq<Step>, end: Cluster, tx: TxId, prepared: seq<Target>,
                     phase: Phase)
    requires CanRun(INITIAL, past) && Run(INITIAL, past) == start && Reached(start, steps, end, tx, prepared, phase)
    ensures phase.Answered? ==> forall k :: 0 <= k < |prepared| ==>
      RanWell(At(end, prepared[k].node), tx) && Runs(At(end, prepared[k].node).executed, tx) == 1
    ensures phase.Refused? ==> forall n :: Runs(At(end, n).executed, tx) == 0
  {
    hide Runs, RanWell, After, Enabled;
    RunAppend(INITIAL, past, steps);
    if phase.Answered? { AnswerMeansExecuted(past + steps, [], tx); }
    if phase.Refused? {
      forall n ensures Runs(At(end, n).executed, tx) == 0 { FailedPrepareNeverExecutes(past + steps, [], tx, n); }
    }
  }

  method Coordinate(start: Cluster, tx: TxId, prepared: seq<Target>, fates: seq<Fate>)
    returns (answer: bool, end: Cluster, ghost steps: seq<Step>, ghost phase: Phase)
    requires tx !in start.coordinators
    ensures Reached(start, steps, end, tx, prepared, phase)
    ensures answer <==> phase.Answered?
    ensures phase.Answered? || phase.Refused? || phase.Broken?
    ensures WellPosed(tx, prepared) ==> EndsAs(|prepared|, fates, phase)
  {
    hide CanRun, Run, WellPosed, Hold, AllServed, Handle;
    RunOne(start, Begin(tx, prepared));
    end, steps, phase := After(start, Begin(tx, prepared)), [Begin(tx, prepared)], Preparing(0, false);
    var sent, good := 0, true;
    var i := 0;
    ghost var more;
    NothingServed(end, tx, prepared, fates);
    while i < |prepared|
      invariant i <= |prepared| && phase == Preparing(i, false) && Reached(start, steps, end, tx, prepared, phase)
      invariant sent == i && (WellPosed(tx, prepared) ==> AllServed(fates, i) && Hold(end, tx, prepared, 0, i))
    {
      ghost var before := end;
      end, good, more := Forward(end, tx, FateOf(fates, sent));
      if WellPosed(tx, prepared) { AfterPrepare(before, end, tx, prepared, i, fates, good); }
      sent := sent + 1;
      phase := if good then Preparing(i + 1, false) else Aborting(0, false, i);
      ReachedMore(start, steps, before, tx, prepared, Preparing(i, false), more, end, phase);
      steps := steps + more;
      if !good {
        end, more, phase := AbortPrepared(end, tx, prepared, i, fates, sent, start, steps);
        return false, end, more, phase;
      }
      i := i + 1;
    }
    LoopEnds(start, steps, end, tx, prepared, phase);
    SendHolds(end, tx, prepared);
    end, steps, phase := After(end, Send(tx)), steps + [Send(tx)], Committing(0, false);
    i := 0;
    while i < |prepared|
      invariant i <= |prepared| && phase == Committing(i, false) && Reached(start, steps, end, tx, prepared, phase)
      invariant sent == |prepared| + i
      invariant WellPosed(tx, prepared) ==> AllServed(fates, sent) && Hold(end, tx, prepared, i, |prepared|)
    {
      ghost var before := end;
      end, good, more := Forward(end, tx, FateOf(fates, sent));
      if WellPosed(tx, prepared) { AfterCommit(before, end, tx, prepared, i, fates, good); }
      sent := sent + 1;
      phase := if good then Committing(i + 1, false) else Broken(i);
      ReachedMore(start, steps, before, tx, prepared, Committing(i, false), more, end, phase);
      steps := steps + more;
      if !good { return false, end, steps, phase; }
      i := i + 1;
    }
    LoopEnds(start, steps, end, tx, prepared, phase);
    end, steps, phase := After(end, Send(tx)), steps + [Send(tx)], Answered;
    answer := true;
  }

  lemma NothingServed(c: Cluster, tx: TxId, prepared: seq<Target>, fates: seq<Fate>)
    ensures AllServed(fates, 0) && Hold(c, tx, prepared, 0, 0)
  {
  }

  lemma SendHolds(c: Cluster, tx: TxId, prepared: seq<Target>)
    requires Enabled(c, Send(tx))
    ensures Hold(After(c, Send(tx)), tx, prepared, 0, |prepared|) <==> Hold(c, tx, prepared, 0, |prepared|)
  {
    assert forall n :: At(After(c, Send(tx)), n) == At(c, n);
  }

  lemma AfterPrepare(c: Cluster, c': Cluster, tx: TxId, prepared: seq<Target>, i: nat, fates: seq<Fate>, good: bool)
    requires WellPosed(tx, prepared) && i < |prepared| && AllServed(fates, i) && Hold(c, tx, prepared, 0, i)
    requires var fate, co := FateOf(fates, i), Coordinator(prepared, Preparing(i, false));
      && (good <==> fate.Served? && Handled(c, tx, co, fate.accepts).1 == 200)
      && forall n :: At(c', n) == if n == prepared[i].node && !fate.Lost?
           then Handled(c, tx, co, fate.accepts).0 else At(c, n)
    ensures good <==> FateOf(fates, i) == Served(true)
    ensures good ==> AllServed(fates, i + 1) && Hold(c', tx, prepared, 0, i + 1)
  {
    if good {
      forall j | 0 <= j < i + 1 ensures tx in At(c', prepared[j].node).pending {
        if j < i { assert prepared[j].node != prepared[i].node; }
      }
    }
  }

  lemma AfterCommit(c: Cluster, c': Cluster, tx: TxId, prepared: seq<Target>, i: nat, fates: seq<Fate>, good: bool)
    requires WellPosed(tx, prepared) && i < |prepared| && AllServed(fates, |prepared| + i)
    requires Hold(c, tx, prepared, i, |prepared|)
    requires var fate, co := FateOf(fates, |prepared| + i), Coordinator(prepared, Committing(i, false));
      && (good <==> fate.Served? && Handled(c, tx, co, fate.accepts).1 == 200)
      && forall n :: At(c', n) == if n == prepared[i].node && !fate.Lost?
           then Handled(c, tx, co, fate.accepts).0 else At(c, n)
    ensures good <==> FateOf(fates, |prepared| + i) == Served(true)
    ensures good ==> AllServed(fates, |prepared| + i + 1) && Hold(c', tx, prepared, i + 1, |prepared|)
  {
    assert tx in At(c, prepared[i].node).pending;
    if good {
      forall j | i + 1 <= j < |prepared| ensures tx in At(c', prepared[j].node).pending {
        assert prepared[j].node != prepared[i].node;
      }
    }
  }

  /** ABORT to every node that has answered its PREPARE; the replies do not matter. */
  method AbortPrepared(c: Cluster, tx: TxId, prepared: seq<Target>, failed: nat, fates: seq<Fate>, used: nat,
                       ghost start: Cluster, ghost steps: seq<Step>)
    returns (end: Cluster, ghost steps': seq<Step>, ghost phase: Phase)
    requires failed < |prepared| && Reached(start, steps, c, tx, prepared, Aborting(0, false, failed))
    ensures phase == Refused(failed) && Reached(start, steps', end, tx, prepared, phase)
  {
    hide CanRun, Run;
    end, steps', phase := c, steps, Aborting(0, false, failed);
    var sent := used;
    var i := 0;
    while i < failed
      invariant i <= failed && phase == Aborting(i, false, failed) && Reached(start, steps', end, tx, prepared, phase)
    {
      ghost var before, more := end, [];
      var good;
      end, good, more := Forward(end, tx, FateOf(fates, sent));
      sent := sent + 1;
      phase := Aborting(i + 1, false, failed);
      ReachedMore(start, steps', before, tx, prepared, Aborting(i, false, failed), more, end, phase);
      steps' := steps' + more;
      i := i + 1;
    }
    LoopEnds(start, steps', end, tx, prepared, phase);
    end, steps', phase := After(end, Send(tx)), steps' + [Send(tx)], Refused(failed);
  }
}
