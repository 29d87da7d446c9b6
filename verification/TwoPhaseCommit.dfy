/** Two-phase commit over an unreliable network, with any number of coordinators at work.

    A coordinator sends one request at a time and waits for the reply.  Requests and replies may be lost or arrive late;
    a coordinator that gives up waiting treats the request as failed although it may still be delivered. */
module TwoPhaseCommit {
  type NodeId = nat
  type TxId = string
  type Sql = string

  datatype Target = Target(node: NodeId, sql: Sql)

  datatype Verb = Prepare | Commit | Abort

  /** The request number `i` of one kind that transaction `tx` sends; it goes to the `i`-th target. */
  datatype Tag = Tag(tx: TxId, verb: Verb, i: nat)

  datatype Reply = Reply(tag: Tag, status: nat)

  /** Where a coordinator is: `asked` says that the `i`-th request is out and not yet answered. */
  datatype Phase =
    | Preparing(i: nat, asked: bool)
    | Aborting(i: nat, asked: bool, failed: nat)
    | Committing(i: nat, asked: bool)
    | Refused(failed: nat)
    | Broken(i: nat)
    | Answered

  datatype Coordinator = Coordinator(targets: seq<Target>, phase: Phase)

  datatype Execution = Execution(tx: TxId, sql: Sql, ok: bool)

  /** A storage node: transactions it has prepared, and the statements it has run for the cluster. */
  datatype Node = Node(pending: map<TxId, Sql>, executed: seq<Execution>)

  datatype Cluster = Cluster(
    coordinators: map<TxId, Coordinator>,
    nodes: map<NodeId, Node>,
    requests: set<Tag>,
    replies: set<Reply>,
    agreed: set<Tag>,   // PREPAREs that a node has answered with 200
    aborted: set<Tag>,  // ABORTs that a node has carried out
    lost: set<Tag>)     // requests that no node has received

  const INITIAL := Cluster(map[], map[], {}, {}, {}, {}, {})

  function At(c: Cluster, n: NodeId): Node {
    if n in c.nodes then c.nodes[n] else Node(map[], [])
  }

  // ---------- a storage node ----------

  /** What a node does with a request.  `accepts` is its own verdict: for PREPARE whether the statement parses and is a
      mutating one, for COMMIT whether running it succeeds. */
  function Handle(n: Node, verb: Verb, sql: Sql, tx: TxId, accepts: bool): (Node, nat) {
    match verb
    case Prepare =>
      if accepts && tx != "" && sql != "" then (n.(pending := n.pending[tx := sql]), 200) else (n, 400)
    case Commit =>
      if tx == "" then (n, 400)
      else if tx !in n.pending then (n, 404)
      else (Node(n.pending - {tx}, n.executed + [Execution(tx, n.pending[tx], accepts)]), if accepts then 200 else 400)
    case Abort =>
      if tx == "" then (n, 400) else (n.(pending := n.pending - {tx}), 200)
  }

  // ---------- a coordinator ----------

  /** The request a coordinator is about to send. */
  function NextRequest(tx: TxId, co: Coordinator): set<Tag> {
    match co.phase
    case Preparing(i, false) => if i < |co.targets| then {Tag(tx, Prepare, i)} else {}
    case Aborting(i, false, failed) => if i < failed then {Tag(tx, Abort, i)} else {}
    case Committing(i, false) => if i < |co.targets| then {Tag(tx, Commit, i)} else {}
    case _ => {}
  }

  /** Its phase once nothing is out: the next request is sent, or the loop it is in ends. */
  function Sent(co: Coordinator): Phase {
    match co.phase
    case Preparing(i, false) => if i < |co.targets| then Preparing(i, true) else Committing(0, false)
    case Aborting(i, false, failed) => if i < failed then Aborting(i, true, failed) else Refused(failed)
    case Committing(i, false) => if i < |co.targets| then Committing(i, true) else Answered
    case _ => co.phase
  }

  /** The request it waits for. */
  function Awaited(tx: TxId, co: Coordinator): set<Tag> {
    match co.phase
    case Preparing(i, true) => {Tag(tx, Prepare, i)}
    case Aborting(i, true, _) => {Tag(tx, Abort, i)}
    case Committing(i, true) => {Tag(tx, Commit, i)}
    case _ => {}
  }

  /** Its phase after the reply, or after no reply at all (`good` says that the reply came and was 200). */
  function Heard(co: Coordinator, good: bool): Phase {
    match co.phase
    case Preparing(i, true) => if good then Preparing(i + 1, false) else Aborting(0, false, i)
    case Aborting(i, true, failed) => Aborting(i + 1, false, failed)
    case Committing(i, true) => if good then Committing(i + 1, false) else Broken(i)
    case _ => co.phase
  }

  // ---------- the cluster ----------

  datatype Step =
    | Begin(tx: TxId, targets: seq<Target>)
    | Send(tx: TxId)
    | Deliver(tag: Tag, accepts: bool)
    | Hear(reply: Reply)
    | GiveUp(tx: TxId)
    | LoseRequest(tag: Tag)
    | LoseReply(reply: Reply)

  function Moved(c: Cluster, tx: TxId, phase: Phase): Cluster
    requires tx in c.coordinators
  {
    c.(coordinators := c.coordinators[tx := c.coordinators[tx].(phase := phase)])
  }

  function TargetOf(c: Cluster, tag: Tag): Target
    requires tag.tx in c.coordinators && tag.i < |c.coordinators[tag.tx].targets|
  {
    c.coordinators[tag.tx].targets[tag.i]
  }

  predicate Enabled(c: Cluster, step: Step) {
    match step
    case Begin(tx, targets) => tx !in c.coordinators
    case Send(tx) => tx in c.coordinators && Awaited(tx, c.coordinators[tx]) == {}
    case Deliver(tag, accepts) =>
      tag in c.requests && tag.tx in c.coordinators && tag.i < |c.coordinators[tag.tx].targets|
    case Hear(reply) =>
      reply in c.replies && reply.tag.tx in c.coordinators
      && reply.tag in Awaited(reply.tag.tx, c.coordinators[reply.tag.tx])
    case GiveUp(tx) => tx in c.coordinators && Awaited(tx, c.coordinators[tx]) != {}
    case LoseRequest(tag) => tag in c.requests
    case LoseReply(reply) => reply in c.replies
  }

  function After(c: Cluster, step: Step): Cluster
    requires Enabled(c, step)
  {
    match step
    case Begin(tx, targets) => c.(coordinators := c.coordinators[tx := Coordinator(targets, Preparing(0, false))])
    case Send(tx) =>
      var co := c.coordinators[tx];
      Moved(c, tx, Sent(co)).(requests := c.requests + NextRequest(tx, co))
    case Deliver(tag, accepts) =>
      var target := TargetOf(c, tag);
      var (n, status) := Handle(At(c, target.node), tag.verb, target.sql, tag.tx, accepts);
      c.(nodes := c.nodes[target.node := n], requests := c.requests - {tag},
         replies := c.replies + {Reply(tag, status)},
         agreed := if tag.verb == Prepare && status == 200 then c.agreed + {tag} else c.agreed,
         aborted := if tag.verb == Abort then c.aborted + {tag} else c.aborted)
    case Hear(reply) =>
      Moved(c, reply.tag.tx, Heard(c.coordinators[reply.tag.tx], reply.status == 200))
        .(replies := c.replies - {reply})
    case GiveUp(tx) => Moved(c, tx, Heard(c.coordinators[tx], false))
    case LoseRequest(tag) => c.(requests := c.requests - {tag}, lost := c.lost + {tag})
    case LoseReply(reply) => c.(replies := c.replies - {reply})
  }

  /** A run is any sequence of steps, each of them possible when it is taken. */
  predicate CanRun(c: Cluster, steps: seq<Step>)
    decreases |steps|
  {
    steps == [] || (Enabled(c, steps[0]) && CanRun(After(c, steps[0]), steps[1..]))
  }

  function Run(c: Cluster, steps: seq<Step>): Cluster
    requires CanRun(c, steps)
    decreases |steps|
  {
    if steps == [] then c else Run(After(c, steps[0]), steps[1..])
  }

  // ---------- what every step keeps ----------

  /** Every PREPARE has been answered with 200, and COMMITs may go out. */
  predicate Past(p: Phase) {
    p.Committing? || p.Broken? || p.Answered?
  }

  ghost predicate InRange(co: Coordinator) {
    var n := |co.targets|;
    match co.phase
    case Preparing(i, asked) => i <= n && (asked ==> i < n)
    case Aborting(i, asked, failed) => i <= failed < n && (asked ==> i < failed)
    case Committing(i, asked) => i <= n && (asked ==> i < n)
    case Refused(failed) => failed < n
    case Broken(i) => i < n
    case Answered => true
  }

  /** Requests or replies with this tag may still be on their way. */
  ghost predicate Live(p: Phase, verb: Verb, k: nat) {
    match verb
    case Prepare =>
      (match p
       case Preparing(i, asked) => asked && k == i
       case Aborting(_, _, failed) => k == failed
       case Refused(failed) => k == failed
       case _ => false)
    case Commit =>
      (match p
       case Committing(i, asked) => asked && k == i
       case Broken(i) => k == i
       case _ => false)
    case Abort =>
      (match p
       case Aborting(i, asked, _) => k < i || (asked && k == i)
       case Refused(failed) => k < failed
       case _ => false)
  }

  ghost predicate Known(c: Cluster, tag: Tag) {
    tag.tx in c.coordinators
    && tag.i < |c.coordinators[tag.tx].targets| && Live(c.coordinators[tag.tx].phase, tag.verb, tag.i)
  }

  /** At most one message carries a tag, and only tags that are still live are on their way. */
  ghost predicate Messages(c: Cluster) {
    && (forall tx :: tx in c.coordinators ==> InRange(c.coordinators[tx]))
    && (forall tag :: tag in c.requests ==> Known(c, tag))
    && (forall r :: r in c.replies ==> Known(c, r.tag) && r.tag !in c.requests)
    && (forall r, r' :: r in c.replies && r' in c.replies && r.tag == r'.tag ==> r == r')
  }

  /** How many PREPAREs a coordinator has seen answered with 200. */
  ghost function Promised(co: Coordinator): nat {
    match co.phase
    case Preparing(i, _) => i
    case Aborting(_, _, failed) => failed
    case Refused(failed) => failed
    case _ => |co.targets|
  }

  ghost predicate Agreement(c: Cluster) {
    && (forall r :: r in c.replies && r.tag.verb == Prepare && r.status == 200 ==> r.tag in c.agreed)
    && (forall tx, k: nat :: tx in c.coordinators && k < Promised(c.coordinators[tx]) ==>
      Tag(tx, Prepare, k) in c.agreed)
  }

  function Runs(es: seq<Execution>, tx: TxId): nat {
    if es == [] then 0 else Runs(es[..|es| - 1], tx) + if es[|es| - 1].tx == tx then 1 else 0
  }

  ghost predicate RanWell(n: Node, tx: TxId) {
    exists e :: e in n.executed && e.tx == tx && e.ok
  }

  /** How many targets a coordinator knows to have executed. */
  ghost function Settled(co: Coordinator): nat {
    match co.phase
    case Committing(i, _) => i
    case Broken(i) => i
    case Answered => |co.targets|
    case _ => 0
  }

  /** What a node has prepared and what it has run was asked for, and it runs a transaction only once. */
  ghost predicate OneNode(c: Cluster, n: NodeId) {
    var node := At(c, n);
    && (forall tx :: tx in node.pending ==>
          tx in c.coordinators && Target(n, node.pending[tx]) in c.coordinators[tx].targets
            && Runs(node.executed, tx) == 0)
    && (forall e :: e in node.executed ==>
          e.tx in c.coordinators && Target(n, e.sql) in c.coordinators[e.tx].targets
          && Past(c.coordinators[e.tx].phase))
    && (forall tx :: Runs(node.executed, tx) <= 1)
  }

  ghost predicate Nodes(c: Cluster) {
    forall n :: OneNode(c, n)
  }

  ghost predicate Effects(c: Cluster) {
    && (forall r :: r in c.replies && r.tag.verb == Commit && r.status == 200 ==>
          r.tag.tx in c.coordinators && r.tag.i < |c.coordinators[r.tag.tx].targets|
          && RanWell(At(c, TargetOf(c, r.tag).node), r.tag.tx))
    && (forall tx, k: nat ::
      tx in c.coordinators && k < Settled(c.coordinators[tx]) && k < |c.coordinators[tx].targets| ==>
          RanWell(At(c, c.coordinators[tx].targets[k].node), tx))
  }

  ghost predicate Inv(c: Cluster) {
    Messages(c) && Agreement(c) && Nodes(c) && Effects(c)
  }

  lemma KeepsMessages(c: Cluster, step: Step)
    requires Messages(c) && Enabled(c, step)
    ensures Messages(After(c, step))
  {
    hide Handle;
    match step
    case Begin(tx, targets) =>
      assert forall tag :: tag in c.requests ==> Known(After(c, step), tag);
    case Send(tx) => SendKeepsMessages(c, tx);
    case Deliver(tag, accepts) => DeliverKeepsMessages(c, tag, accepts);
    case Hear(reply) => HearKeepsMessages(c, reply.tag.tx, {reply}, reply.status == 200);
    case GiveUp(tx) => HearKeepsMessages(c, tx, {}, false);
    case LoseRequest(tag) => LossKeepsMessages(c, {tag}, {});
    case LoseReply(reply) => LossKeepsMessages(c, {}, {reply});
  }

  lemma SendKeepsMessages(c: Cluster, tx: TxId)
    requires Messages(c) && Enabled(c, Send(tx))
    ensures Messages(After(c, Send(tx)))
  {
    var co, c' := c.coordinators[tx], After(c, Send(tx));
    assert InRange(co) && InRange(c'.coordinators[tx]);
    forall tag | tag in c.requests || (exists r :: r in c.replies && r.tag == tag)
      ensures Known(c', tag) && tag !in NextRequest(tx, co)
    {
      assert Known(c, tag);
    }
  }

  lemma DeliverKeepsMessages(c: Cluster, tag: Tag, accepts: bool)
    requires Messages(c) && Enabled(c, Deliver(tag, accepts))
    ensures Messages(After(c, Deliver(tag, accepts)))
  {
    hide Handle, Live, InRange;
    var c' := After(c, Deliver(tag, accepts));
    assert forall t :: Known(c, t) ==> Known(c', t);
  }

  /** A coordinator moves on, whether it took the reply or none. */
  lemma HearKeepsMessages(c: Cluster, tx: TxId, taken: set<Reply>, good: bool)
    requires Messages(c) && tx in c.coordinators && Awaited(tx, c.coordinators[tx]) != {}
    requires forall r :: r in taken ==> r in c.replies && r.tag in Awaited(tx, c.coordinators[tx])
    requires good ==> taken != {}
    ensures Messages(Moved(c, tx, Heard(c.coordinators[tx], good)).(replies := c.replies - taken))
  {
    var co := c.coordinators[tx];
    var c' := Moved(c, tx, Heard(co, good)).(replies := c.replies - taken);
    assert InRange(co) && InRange(c'.coordinators[tx]);
    forall tag | tag in c'.requests || (exists r :: r in c'.replies && r.tag == tag) ensures Known(c', tag) {
      assert Known(c, tag);
    }
  }

  lemma LossKeepsMessages(c: Cluster, requests: set<Tag>, replies: set<Reply>)
    requires Messages(c)
    ensures Messages(c.(requests := c.requests - requests, replies := c.replies - replies))
  {
    hide Live, InRange;
    var c' := c.(requests := c.requests - requests, replies := c.replies - replies);
    assert forall t :: Known(c, t) ==> Known(c', t);
  }

  lemma KeepsAgreement(c: Cluster, step: Step)
    requires Messages(c) && Agreement(c) && Enabled(c, step)
    ensures Agreement(After(c, step))
  {
    match step
    case Begin(tx, targets) =>
    case Send(tx) =>
    case Deliver(tag, accepts) =>
    case Hear(reply) =>
    case GiveUp(tx) =>
    case LoseRequest(tag) =>
    case LoseReply(reply) =>
  }

  lemma KeepsNodes(c: Cluster, step: Step)
    requires Messages(c) && Nodes(c) && Enabled(c, step)
    ensures Nodes(After(c, step))
  {
    var c' := After(c, step);
    forall n ensures OneNode(c', n) {
      assert OneNode(c, n);
      if step.Deliver? { DeliverKeepsNode(c, step.tag, step.accepts, n); } else { OthersKeepNode(c, step, n); }
    }
  }

  lemma OthersKeepNode(c: Cluster, step: Step, n: NodeId)
    requires Messages(c) && OneNode(c, n) && Enabled(c, step) && !step.Deliver?
    ensures OneNode(After(c, step), n)
  {
    hide Handle, InRange, Live, Runs;
    assert At(After(c, step), n) == At(c, n);
  }

  lemma DeliverKeepsNode(c: Cluster, tag: Tag, accepts: bool, n: NodeId)
    requires Messages(c) && OneNode(c, n) && Enabled(c, Deliver(tag, accepts))
    ensures OneNode(After(c, Deliver(tag, accepts)), n)
  {
    hide Live, Runs, InRange, RanWell;
    var c', target, tx := After(c, Deliver(tag, accepts)), TargetOf(c, tag), tag.tx;
    LiveVerb(c, tag);
    if n != target.node {
      assert At(c', n) == At(c, n);
    } else {
      var node := At(c, n);
      if tag.verb == Prepare {
        NeverRun(node.executed, tx);
      } else if tag.verb == Commit && tx in node.pending {
        var e := Execution(tx, node.pending[tx], accepts);
        RunsMore(node.executed, e);
        assert forall e' :: e' in At(c', n).executed ==> e' in node.executed || e' == e;
      }
    }
  }

  /** A live PREPARE belongs to a coordinator that has not gone past it, a live COMMIT to one that has. */
  lemma LiveVerb(c: Cluster, tag: Tag)
    requires Messages(c) && tag in c.requests
    ensures Known(c, tag)
    ensures tag.verb == Prepare ==> !Past(c.coordinators[tag.tx].phase)
    ensures tag.verb == Commit ==> Past(c.coordinators[tag.tx].phase)
  {
    assert Known(c, tag);
  }

  lemma {:induction false} NeverRun(es: seq<Execution>, tx: TxId)
    ensures Runs(es, tx) == 0 <==> forall e :: e in es ==> e.tx != tx
  {
    if es != [] {
      var last := es[|es| - 1];
      NeverRun(es[..|es| - 1], tx);
      assert forall e :: e in es <==> e in es[..|es| - 1] || e == last;
    }
  }

  lemma RunsMore(es: seq<Execution>, e: Execution)
    ensures forall tx :: Runs(es + [e], tx) == Runs(es, tx) + if e.tx == tx then 1 else 0
  {
    assert (es + [e])[..|es|] == es;
  }

  lemma KeepsEffects(c: Cluster, step: Step)
    requires Messages(c) && Effects(c) && Enabled(c, step)
    ensures Effects(After(c, step))
  {
    match step
    case Deliver(tag, accepts) => DeliverKeepsEffects(c, tag, accepts);
    case Hear(reply) => HearKeepsEffects(c, reply);
    case _ => OthersKeepEffects(c, step);
  }

  lemma OthersKeepEffects(c: Cluster, step: Step)
    requires Messages(c) && Effects(c) && Enabled(c, step) && !step.Deliver? && !step.Hear?
    ensures Effects(After(c, step))
  {
    hide Handle, RanWell, Live;
    assert forall n :: At(After(c, step), n) == At(c, n);
  }

  lemma HearKeepsEffects(c: Cluster, reply: Reply)
    requires Messages(c) && Effects(c) && Enabled(c, Hear(reply))
    ensures Effects(After(c, Hear(reply)))
  {
    hide Handle, RanWell;
    assert forall n :: At(After(c, Hear(reply)), n) == At(c, n);
    assert Known(c, reply.tag);
  }

  lemma DeliverKeepsEffects(c: Cluster, tag: Tag, accepts: bool)
    requires Messages(c) && Effects(c) && Enabled(c, Deliver(tag, accepts))
    ensures Effects(After(c, Deliver(tag, accepts)))
  {
    var c', n := After(c, Deliver(tag, accepts)), TargetOf(c, tag).node;
    assert At(c, n).executed <= At(c', n).executed;
    forall m, tx | RanWell(At(c, m), tx) ensures RanWell(At(c', m), tx) {
      var e :| e in At(c, m).executed && e.tx == tx && e.ok;
      assert e in At(c', m).executed;
    }
    if tag.verb == Commit && Reply(tag, 200) in c'.replies && Reply(tag, 200) !in c.replies {
      var es := At(c', n).executed;
      assert es[|es| - 1] in es;
      assert RanWell(At(c', n), tag.tx);
    }
  }

  // ---------- every run ----------

  lemma KeepsInv(c: Cluster, step: Step)
    requires Inv(c) && Enabled(c, step)
    ensures Inv(After(c, step))
  {
    hide After, Messages, Agreement, Nodes, Effects;
    KeepsMessages(c, step);
    KeepsAgreement(c, step);
    KeepsNodes(c, step);
    KeepsEffects(c, step);
  }

  lemma {:induction false} RunKeepsInv(c: Cluster, steps: seq<Step>)
    requires Inv(c) && CanRun(c, steps)
    ensures Inv(Run(c, steps))
    decreases |steps|
  {
    if steps != [] {
      KeepsInv(c, steps[0]);
      RunKeepsInv(After(c, steps[0]), steps[1..]);
    }
  }

  lemma InitialInv()
    ensures Inv(INITIAL)
  {
    assert forall n :: At(INITIAL, n) == Node(map[], []);
  }

  /** A coordinator that may no longer commit. */
  predicate Doomed(p: Phase) {
    p.Aborting? || p.Refused?
  }

  lemma {:induction false} RunKeepsOutcome(c: Cluster, steps: seq<Step>, tx: TxId)
    requires CanRun(c, steps) && tx in c.coordinators
    ensures var co, co' := c.coordinators[tx], Run(c, steps).coordinators;
      && tx in co' && co'[tx].targets == co.targets
      && (Doomed(co.phase) ==> Doomed(co'[tx].phase))
      && (co.phase.Answered? ==> co'[tx].phase.Answered?)
    decreases |steps|
  {
    hide Handle;
    if steps != [] {
      RunKeepsOutcome(After(c, steps[0]), steps[1..], tx);
    }
  }

  /** Whatever the interleaving and whatever is lost, COMMIT is sent, and a statement run, only after every node of the
      transaction has answered its PREPARE with 200. */
  lemma CommitOnlyAfterAllPrepared(steps: seq<Step>, tx: TxId, k: nat)
    requires CanRun(INITIAL, steps)
    ensures var c := Run(INITIAL, steps);
      && (forall i :: Tag(tx, Commit, i) in c.requests ==>
            tx in c.coordinators && (k < |c.coordinators[tx].targets| ==> Tag(tx, Prepare, k) in c.agreed))
      && (forall n, e :: e in At(c, n).executed && e.tx == tx ==>
            tx in c.coordinators && (k < |c.coordinators[tx].targets| ==> Tag(tx, Prepare, k) in c.agreed))
  {
    hide Handle, Runs, RanWell, Effects;
    InitialInv();
    RunKeepsInv(INITIAL, steps);
    var c := Run(INITIAL, steps);
    forall i | Tag(tx, Commit, i) in c.requests
      ensures tx in c.coordinators && (k < |c.coordinators[tx].targets| ==> Tag(tx, Prepare, k) in c.agreed)
    {
      LiveVerb(c, Tag(tx, Commit, i));
    }
    forall n, e | e in At(c, n).executed && e.tx == tx
      ensures tx in c.coordinators && (k < |c.coordinators[tx].targets| ==> Tag(tx, Prepare, k) in c.agreed)
    {
      assert OneNode(c, n);
    }
  }

  /** Once a PREPARE has failed, no node ever runs the transaction. */
  lemma FailedPrepareNeverExecutes(steps: seq<Step>, later: seq<Step>, tx: TxId, n: NodeId)
    requires CanRun(INITIAL, steps) && CanRun(Run(INITIAL, steps), later)
    requires tx in Run(INITIAL, steps).coordinators && Doomed(Run(INITIAL, steps).coordinators[tx].phase)
    ensures Runs(At(Run(Run(INITIAL, steps), later), n).executed, tx) == 0
  {
    hide CanRun, Run;
    InitialInv();
    RunKeepsInv(INITIAL, steps);
    var c := Run(INITIAL, steps);
    RunKeepsInv(c, later);
    RunKeepsOutcome(c, later, tx);
    var c' := Run(c, later);
    assert OneNode(c', n);
    NeverRun(At(c', n).executed, tx);
  }

  /** No node runs a transaction twice. */
  lemma ExecutesAtMostOnce(steps: seq<Step>, tx: TxId, n: NodeId)
    requires CanRun(INITIAL, steps)
    ensures Runs(At(Run(INITIAL, steps), n).executed, tx) <= 1
  {
    hide CanRun, Run;
    InitialInv();
    RunKeepsInv(INITIAL, steps);
    assert OneNode(Run(INITIAL, steps), n);
  }

  /** The answer 200 means that every node of the transaction has run it, successfully and exactly once, and that no
      later step changes this; a node outside the transaction has not run it. */
  lemma AnswerMeansExecuted(steps: seq<Step>, later: seq<Step>, tx: TxId)
    requires CanRun(INITIAL, steps) && CanRun(Run(INITIAL, steps), later)
    requires tx in Run(INITIAL, steps).coordinators && Run(INITIAL, steps).coordinators[tx].phase.Answered?
    ensures var targets, c' := Run(INITIAL, steps).coordinators[tx].targets, Run(Run(INITIAL, steps), later);
      && (forall k :: 0 <= k < |targets| ==>
            var node := At(c', targets[k].node);
            RanWell(node, tx) && Runs(node.executed, tx) == 1)
      && (forall n, e :: e in At(c', n).executed && e.tx == tx ==> Target(n, e.sql) in targets)
  {
    hide CanRun, Run;
    InitialInv();
    RunKeepsInv(INITIAL, steps);
    var c := Run(INITIAL, steps);
    RunKeepsInv(c, later);
    RunKeepsOutcome(c, later, tx);
    var c', targets := Run(c, later), c.coordinators[tx].targets;
    forall k | 0 <= k < |targets|
      ensures RanWell(At(c', targets[k].node), tx) && Runs(At(c', targets[k].node).executed, tx) == 1
    {
      assert OneNode(c', targets[k].node);
      NeverRun(At(c', targets[k].node).executed, tx);
    }
    forall n, e | e in At(c', n).executed && e.tx == tx ensures Target(n, e.sql) in targets {
      assert OneNode(c', n);
    }
  }

  // ---------- what a refused transaction leaves behind ----------

  /** PREPARE number `k` has been sent. */
  ghost predicate Asked(p: Phase, k: nat) {
    match p
    case Preparing(i, asked) => k < i || (asked && k == i)
    case Aborting(_, _, failed) => k <= failed
    case Refused(failed) => k <= failed
    case _ => true
  }

  ghost predicate KnownTag(c: Cluster, tag: Tag) {
    && tag.tx in c.coordinators && tag.i < |c.coordinators[tag.tx].targets|
    && (tag.verb == Prepare ==> Asked(c.coordinators[tag.tx].phase, tag.i))
    && (tag.verb == Abort ==> Live(c.coordinators[tag.tx].phase, Abort, tag.i))
  }

  /** Every ABORT that was sent is on its way, carried out or lost, and only one of these. */
  ghost predicate Aborts(c: Cluster) {
    && (forall tag :: tag in c.agreed ==> tag.verb == Prepare && tag.tx != "" && KnownTag(c, tag))
    && (forall tag :: tag in c.aborted ==>
      tag.verb == Abort && KnownTag(c, tag) && tag !in c.requests && tag !in c.lost)
    && (forall tag :: tag in c.lost && tag.verb == Abort ==> KnownTag(c, tag) && tag !in c.requests)
    && (forall tx, k: nat :: tx in c.coordinators && Live(c.coordinators[tx].phase, Abort, k) ==>
          Tag(tx, Abort, k) in c.requests || Tag(tx, Abort, k) in c.aborted || Tag(tx, Abort, k) in c.lost)
  }

  predicate DistinctNodes(targets: seq<Target>) {
    forall i, j :: 0 <= i < j < |targets| ==> targets[i].node != targets[j].node
  }

  /** The node of target `k` holds the transaction exactly if it has agreed and not carried out an ABORT. */
  ghost predicate Holding(c: Cluster, tx: TxId, k: nat)
    requires tx in c.coordinators && k < |c.coordinators[tx].targets|
  {
    tx in At(c, c.coordinators[tx].targets[k].node).pending <==>
      Tag(tx, Prepare, k) in c.agreed && Tag(tx, Abort, k) !in c.aborted
  }

  /** Target `k` of a transaction that no COMMIT has been sent for. */
  predicate Undecided(c: Cluster, tx: TxId, k: nat) {
    && tx in c.coordinators && !Past(c.coordinators[tx].phase) && DistinctNodes(c.coordinators[tx].targets)
    && k < |c.coordinators[tx].targets|
  }

  ghost predicate Held(c: Cluster) {
    forall tx, k: nat :: Undecided(c, tx, k) ==> Holding(c, tx, k)
  }

  lemma KeepsAborts(c: Cluster, step: Step)
    requires Messages(c) && Aborts(c) && Enabled(c, step)
    ensures Aborts(After(c, step))
  {
    match step
    case Begin(tx, targets) =>
      assert forall tag :: KnownTag(c, tag) ==> KnownTag(After(c, step), tag);
    case Send(tx) => SendKeepsAborts(c, tx);
    case Deliver(tag, accepts) => DeliverKeepsAborts(c, tag, accepts);
    case Hear(reply) => MoveKeepsAborts(c, reply.tag.tx, {reply}, reply.status == 200);
    case GiveUp(tx) => MoveKeepsAborts(c, tx, {}, false);
    case LoseRequest(tag) => LossKeepsAborts(c, tag);
    case LoseReply(reply) =>
      assert forall tag :: KnownTag(c, tag) ==> KnownTag(After(c, step), tag);
  }

  lemma SendKeepsAborts(c: Cluster, tx: TxId)
    requires Messages(c) && Aborts(c) && Enabled(c, Send(tx))
    ensures Aborts(After(c, Send(tx)))
  {
    var co, c' := c.coordinators[tx], After(c, Send(tx));
    assert InRange(co);
    assert forall tag :: KnownTag(c, tag) ==> KnownTag(c', tag);
    forall tag | tag in NextRequest(tx, co) ensures tag !in c.aborted && (tag.verb == Abort ==> tag !in c.lost) {
      assert tag.verb == Abort ==> !KnownTag(c, tag);
    }
  }

  lemma MoveKeepsAborts(c: Cluster, tx: TxId, taken: set<Reply>, good: bool)
    requires Messages(c) && Aborts(c) && tx in c.coordinators && Awaited(tx, c.coordinators[tx]) != {}
    ensures Aborts(Moved(c, tx, Heard(c.coordinators[tx], good)).(replies := c.replies - taken))
  {
    var c' := Moved(c, tx, Heard(c.coordinators[tx], good)).(replies := c.replies - taken);
    assert InRange(c.coordinators[tx]);
    assert forall tag :: KnownTag(c, tag) ==> KnownTag(c', tag);
  }

  lemma DeliverKeepsAborts(c: Cluster, tag: Tag, accepts: bool)
    requires Messages(c) && Aborts(c) && Enabled(c, Deliver(tag, accepts))
    ensures Aborts(After(c, Deliver(tag, accepts)))
  {
    hide InRange;
    var c' := After(c, Deliver(tag, accepts));
    assert Known(c, tag) && c'.coordinators == c.coordinators;
    assert KnownTag(c', tag);
    assert forall t :: KnownTag(c, t) ==> KnownTag(c', t);
  }

  lemma LossKeepsAborts(c: Cluster, tag: Tag)
    requires Messages(c) && Aborts(c) && tag in c.requests
    ensures Aborts(After(c, LoseRequest(tag)))
  {
    hide InRange;
    var c' := After(c, LoseRequest(tag));
    assert Known(c, tag);
    assert forall t :: KnownTag(c, t) ==> KnownTag(c', t);
  }

  lemma KeepsHeld(c: Cluster, step: Step)
    requires Messages(c) && Nodes(c) && Aborts(c) && Held(c) && Enabled(c, step)
    ensures Held(After(c, step))
  {
    hide Messages, Nodes, Aborts, Held, Holding;
    var c' := After(c, step);
    forall tx, k: nat | Undecided(c', tx, k) ensures Holding(c', tx, k) {
      if step.Deliver? {
        DeliverKeepsHeld(c, step.tag, step.accepts, tx, k);
      } else if step.Begin? && step.tx == tx {
        NewHoldsNothing(c, tx, step.targets, k);
      } else {
        OthersKeepHeld(c, step, tx, k);
      }
    }
    HeldIf(c');
  }

  lemma HeldIf(c: Cluster)
    requires forall tx, k: nat :: Undecided(c, tx, k) ==> Holding(c, tx, k)
    ensures Held(c)
  {
    hide Holding;
  }

  lemma NewHoldsNothing(c: Cluster, tx: TxId, targets: seq<Target>, k: nat)
    requires Nodes(c) && Aborts(c) && tx !in c.coordinators && k < |targets|
    ensures Holding(After(c, Begin(tx, targets)), tx, k)
  {
    assert OneNode(c, targets[k].node);
  }

  lemma OthersKeepHeld(c: Cluster, step: Step, tx: TxId, k: nat)
    requires Messages(c) && Held(c) && Enabled(c, step) && !step.Deliver? && tx in c.coordinators
    requires Undecided(After(c, step), tx, k)
    ensures Holding(After(c, step), tx, k)
  {
    hide Messages;
    assert Holding(c, tx, k);
  }

  /** No ABORT goes to a node whose PREPARE may still arrive. */
  lemma NotBoth(c: Cluster, tx: TxId, k: nat)
    requires Messages(c) && Aborts(c) && Tag(tx, Prepare, k) in c.requests
    ensures Tag(tx, Abort, k) !in c.aborted
  {
    assert Known(c, Tag(tx, Prepare, k)) && InRange(c.coordinators[tx]);
    assert Tag(tx, Abort, k) in c.aborted ==> KnownTag(c, Tag(tx, Abort, k));
  }

  lemma DeliverKeepsHeld(c: Cluster, tag: Tag, accepts: bool, tx: TxId, k: nat)
    requires Messages(c) && Aborts(c) && Held(c) && Enabled(c, Deliver(tag, accepts))
    requires Undecided(c, tx, k)
    ensures Holding(After(c, Deliver(tag, accepts)), tx, k)
  {
    hide InRange, Live;
    var n, target := c.coordinators[tx].targets[k].node, TargetOf(c, tag);
    assert Holding(c, tx, k);
    LiveVerb(c, tag);
    if tag.tx == tx && tag.i == k {
      if tag.verb == Prepare { NotBoth(c, tx, k); }
    } else if tag.tx == tx {
      assert target.node != n;
    }
  }

  lemma {:induction false} RunKeepsHeld(c: Cluster, steps: seq<Step>)
    requires Inv(c) && Aborts(c) && Held(c) && CanRun(c, steps)
    ensures Inv(Run(c, steps)) && Aborts(Run(c, steps)) && Held(Run(c, steps))
    decreases |steps|
  {
    hide After, Messages, Agreement, Nodes, Effects, Aborts, Held;
    if steps != [] {
      KeepsInv(c, steps[0]);
      KeepsAborts(c, steps[0]);
      KeepsHeld(c, steps[0]);
      RunKeepsHeld(After(c, steps[0]), steps[1..]);
    }
  }

  /** Once a transaction is refused at its PREPARE number `failed`, and none of its requests is on its way any more,
      exactly these nodes hold it: those before `failed` whose ABORT was lost, and the one at `failed` if it has agreed,
      with a 200 that the coordinator has not heard; it gets no ABORT. */
  lemma HeldAfterRefusal(steps: seq<Step>, tx: TxId, k: nat)
    requires CanRun(INITIAL, steps) && tx in Run(INITIAL, steps).coordinators
    requires Run(INITIAL, steps).coordinators[tx].phase.Refused?
    requires DistinctNodes(Run(INITIAL, steps).coordinators[tx].targets)
    requires k < |Run(INITIAL, steps).coordinators[tx].targets|
    requires forall tag :: tag in Run(INITIAL, steps).requests ==> tag.tx != tx
    ensures var c := Run(INITIAL, steps);
      var co := c.coordinators[tx];
      tx in At(c, co.targets[k].node).pending <==>
        if k < co.phase.failed then Tag(tx, Abort, k) in c.lost
        else k == co.phase.failed && Tag(tx, Prepare, k) in c.agreed
  {
    hide CanRun, Run, InRange, Nodes, Effects;
    InitialInv();
    RunKeepsHeld(INITIAL, steps);
    var c := Run(INITIAL, steps);
    var co := c.coordinators[tx];
    assert Undecided(c, tx, k) && Holding(c, tx, k);
    if k < co.phase.failed {
      assert Live(co.phase, Abort, k) && Promised(co) == co.phase.failed;
    } else {
      assert Tag(tx, Abort, k) in c.aborted ==> KnownTag(c, Tag(tx, Abort, k));
      assert Tag(tx, Prepare, k) in c.agreed ==> KnownTag(c, Tag(tx, Prepare, k));
    }
  }

  lemma RunFrom(c: Cluster, steps: seq<Step>, n: nat)
    requires n < |steps| && Enabled(c, steps[n]) && CanRun(After(c, steps[n]), steps[n + 1..])
    ensures CanRun(c, steps[n..]) && Run(c, steps[n..]) == Run(After(c, steps[n]), steps[n + 1..])
  {
    hide After, Enabled;
    assert steps[n..][1..] == steps[n + 1..];
  }

  const ONE_TARGET := [Target(0, "s")]

  const ONE_PREPARE := Tag("t", Prepare, 0)

  const LOST_ANSWER := [
    Begin("t", ONE_TARGET), Send("t"), Deliver(ONE_PREPARE, true), LoseReply(Reply(ONE_PREPARE, 200)), GiveUp("t"),
      Send("t")]

  /** The cluster while the only coordinator is in this phase. */
  function InPhase(phase: Phase, agreed: bool, requests: set<Tag>, replies: set<Reply>): Cluster {
    Cluster(map["t" := Coordinator(ONE_TARGET, phase)], if agreed then map[0 := Node(map["t" := "s"], [])] else map[],
            requests, replies, if agreed then {ONE_PREPARE} else {}, {}, {})
  }

  lemma PrepareIsSent()
    ensures Enabled(INITIAL, LOST_ANSWER[0])
      && After(INITIAL, LOST_ANSWER[0]) == InPhase(Preparing(0, false), false, {}, {})
    ensures Enabled(InPhase(Preparing(0, false), false, {}, {}), LOST_ANSWER[1])
    ensures After(InPhase(Preparing(0, false), false, {}, {}), LOST_ANSWER[1])
      == InPhase(Preparing(0, true), false, {ONE_PREPARE}, {})
  {
  }

  lemma NodeAgrees()
    ensures Enabled(InPhase(Preparing(0, true), false, {ONE_PREPARE}, {}), LOST_ANSWER[2])
    ensures After(InPhase(Preparing(0, true), false, {ONE_PREPARE}, {}), LOST_ANSWER[2])
         == InPhase(Preparing(0, true), true, {}, {Reply(ONE_PREPARE, 200)})
  {
  }

  lemma CoordinatorRefuses()
    ensures var c := InPhase(Preparing(0, true), true, {}, {Reply(ONE_PREPARE, 200)});
      Enabled(c, LOST_ANSWER[3]) && After(c, LOST_ANSWER[3]) == InPhase(Preparing(0, true), true, {}, {})
    ensures Enabled(InPhase(Preparing(0, true), true, {}, {}), LOST_ANSWER[4])
    ensures After(InPhase(Preparing(0, true), true, {}, {}), LOST_ANSWER[4])
      == InPhase(Aborting(0, false, 0), true, {}, {})
    ensures Enabled(InPhase(Aborting(0, false, 0), true, {}, {}), LOST_ANSWER[5])
    ensures After(InPhase(Aborting(0, false, 0), true, {}, {}), LOST_ANSWER[5]) == InPhase(Refused(0), true, {}, {})
  {
  }

  /** For instance: the only node agrees, its answer is lost, and the transaction is refused.  The node holds it for
      good. */
  lemma LostAnswerHolds()
    ensures CanRun(INITIAL, LOST_ANSWER) && Run(INITIAL, LOST_ANSWER) == InPhase(Refused(0), true, {}, {})
    ensures At(InPhase(Refused(0), true, {}, {}), 0).pending == map["t" := "s"]
  {
    hide Run, CanRun, After, Enabled;
    var s := LOST_ANSWER;
    PrepareIsSent();
    NodeAgrees();
    CoordinatorRefuses();
    NoSteps(InPhase(Refused(0), true, {}, {}));
    assert s[6..] == [] && s[0..] == s;
    RunFrom(InPhase(Aborting(0, false, 0), true, {}, {}), s, 5);
    RunFrom(InPhase(Preparing(0, true), true, {}, {}), s, 4);
    RunFrom(InPhase(Preparing(0, true), true, {}, {Reply(ONE_PREPARE, 200)}), s, 3);
    RunFrom(InPhase(Preparing(0, true), false, {ONE_PREPARE}, {}), s, 2);
    RunFrom(InPhase(Preparing(0, false), false, {}, {}), s, 1);
    RunFrom(INITIAL, s, 0);
  }

  lemma NoSteps(c: Cluster)
    ensures CanRun(c, []) && Run(c, []) == c
  {
  }
}
