/** What the engine makes of each request: shared state, open transactions and files, as values; and whole runs of
    requests by any number of sessions. */
module Transactions {
  import opened Wrappers
  import opened TableStatements
  import opened TableEffects
  import opened Databases
  import opened WriteAheadLog

  datatype Session = Session(clientId: string, current: string)

  datatype OpenTx = OpenTx(working: Snapshot, log: seq<string>)

  /** The state that the data file holds, and the content of the log file. */
  datatype Disk = Disk(saved: Snapshot, wal: Option<string>)

  datatype EngineState = EngineState(shared: Snapshot, open: map<string, OpenTx>, disk: Disk)

  type Parser = string -> Result<Command>

  datatype Input = Input(session: Session, sql: string, writeWal: bool, clock: Clock)

  /** The engine afterwards, the session's database afterwards, and the error that was answered. */
  datatype Answer = Answer(state: EngineState, current: string, error: Option<Error>)

  function Key(session: Session): string {
    if session.clientId != "" then session.clientId else "__default_session__"
  }

  /** Sessions share a transaction exactly if they have the same client id, where none at all counts as
      "__default_session__". */
  lemma KeyIsClient(a: Session, b: Session)
    ensures Key(a) == Key(b) <==>
      (a.clientId == b.clientId
       || (a.clientId == "" && b.clientId == "__default_session__")
       || (a.clientId == "__default_session__" && b.clientId == ""))
    ensures a.clientId != "" ==> Key(a) == a.clientId
  {
  }

  /** Two different clients, neither of whom goes by the name that stands for no client id. */
  predicate OtherClients(a: Session, b: Session) {
    a.clientId != b.clientId && a.clientId != "__default_session__" && b.clientId != "__default_session__"
  }

  const EMPTY_LOG := Some(HEADER + "\n")

  function Emptied(wal: Option<string>, writeWal: bool): Option<string> {
    if writeWal then EMPTY_LOG else wal
  }

  function Committed(s: EngineState, key: string, writeWal: bool): EngineState
    requires key in s.open
  {
    var working := s.open[key].working;
    EngineState(working, s.open - {key}, Disk(working, Emptied(s.disk.wal, writeWal)))
  }

  /** A statement of a session with an open transaction works on the transaction's own state. */
  ghost predicate AnswersInside(s: EngineState, key: string, c: Command, i: Input, a: Answer)
    requires key in s.open
  {
    if IsService(c) || c.Ddl? then a == Answer(s, i.session.current, Some(ValidationError))
    else
      && key in a.state.open
      && a.state == s.(open := s.open[key := a.state.open[key]])
      && Performs(s.open[key].working, i.session.current, c, i.clock, a.state.open[key].working, a.error, a.current)
      && a.state.open[key].log == s.open[key].log + if a.error.None? && i.writeWal && IsMutating(c) then [i.sql] else []
  }

  /** A statement outside a transaction works on the shared state; if it succeeds and may have changed something, the
      state is saved. */
  ghost predicate AnswersDirectly(s: EngineState, c: Command, i: Input, a: Answer) {
    && a.state.open == s.open
    && Performs(s.shared, i.session.current, c, i.clock, a.state.shared, a.error, a.current)
    && a.state.disk == if a.error.None? && IsMutating(c) then Disk(a.state.shared, Emptied(s.disk.wal, i.writeWal))
      else s.disk
  }

  ghost predicate Answers(parse: Parser, s: EngineState, i: Input, a: Answer) {
    var key, current := Key(i.session), i.session.current;
    match parse(i.sql)
    case Err(e) => a == Answer(s, current, Some(e))
    case Ok(Begin) =>
      a == if key in s.open then Answer(s, current, Some(ValidationError))
           else Answer(s.(open := s.open[key := OpenTx(s.shared, [])]), current, None)
    case Ok(Commit) =>
      a == if key in s.open then Answer(Committed(s, key, i.writeWal), current, None)
           else Answer(s, current, Some(ValidationError))
    case Ok(Rollback) =>
      a == if key in s.open then Answer(s.(open := s.open - {key}), current, None)
           else Answer(s, current, Some(ValidationError))
    case Ok(c) => if key in s.open then AnswersInside(s, key, c, i, a) else AnswersDirectly(s, c, i, a)
  }

  /** Requests that the model covers: no DDL outside a transaction, and no input row longer than the column list. */
  predicate Covered(parse: Parser, sql: string, inside: bool) {
    match parse(sql)
    case Err(_) => true
    case Ok(c) => (c.Ddl? ==> inside) && (c.Modify? ==> WellFormed(c.command))
  }

  // ---------- what the files go through ----------

  /** The statements go to the log as one block, then the state is saved, then the log starts over. */
  function CommitSteps(disk: Disk, log: seq<string>, working: Snapshot, writeWal: bool): seq<Disk> {
    var wal := if writeWal && log != [] then Some(WithTransaction(disk.wal, log)) else disk.wal;
    (if writeWal && log != [] then [Disk(disk.saved, wal)] else [])
    + [Disk(working, wal)] + if writeWal then [Disk(working, EMPTY_LOG)] else []
  }

  function DirectSteps(disk: Disk, sql: string, after: Snapshot, writeWal: bool): seq<Disk> {
    if writeWal then
      var wal := Some(WithSql(disk.wal, sql));
      [Disk(disk.saved, wal), Disk(after, wal), Disk(after, EMPTY_LOG)]
    else [Disk(after, disk.wal)]
  }

  /** Every state of the files while a request is answered. */
  function Steps(parse: Parser, s: EngineState, i: Input, a: Answer): seq<Disk> {
    var key := Key(i.session);
    match parse(i.sql)
    case Err(_) => []
    case Ok(c) =>
      if key in s.open then
        if c.Commit? then CommitSteps(s.disk, s.open[key].log, s.open[key].working, i.writeWal) else []
      else if !IsControl(c) && IsMutating(c) && a.error.None? then
        DirectSteps(s.disk, i.sql, a.state.shared, i.writeWal)
      else []
  }

  /** COMMIT, and modifications outside a transaction, if they succeed. */
  predicate Saves(parse: Parser, s: EngineState, i: Input, a: Answer) {
    a.error.None?
    && match parse(i.sql)
       case Err(_) => false
       case Ok(c) => if Key(i.session) in s.open then c.Commit? else c.RebuildIndex? || c.Modify?
  }

  /** The files end up as the last of their states, and stay as they are if there is none; there is none exactly for
      what fails, only reads, or is done inside a transaction.  Otherwise the state that is then shared has been saved,
      and a log that is not to be written is left alone. */
  lemma FilesMean(parse: Parser, s: EngineState, i: Input, a: Answer)
    requires Answers(parse, s, i, a)
    ensures Steps(parse, s, i, a) != [] <==> Saves(parse, s, i, a)
    ensures var steps := Steps(parse, s, i, a); a.state.disk == if steps == [] then s.disk else steps[|steps| - 1]
    ensures Saves(parse, s, i, a) ==> a.state.disk.saved == a.state.shared
    ensures !i.writeWal ==> forall n :: 0 <= n < |Steps(parse, s, i, a)| ==> Steps(parse, s, i, a)[n].wal == s.disk.wal
  {
  }

  // ---------- control statements, and what a transaction takes note of ----------

  /** BEGIN opens a transaction on the shared state if there is none, COMMIT and ROLLBACK end the one there is;
      otherwise they are refused and change nothing. */
  lemma ControlMeans(parse: Parser, s: EngineState, i: Input, a: Answer)
    requires Answers(parse, s, i, a) && parse(i.sql).Ok? && IsControl(parse(i.sql).value)
    ensures var c, key := parse(i.sql).value, Key(i.session);
      && a.error == (if c.Begin? <==> key in s.open then Some(ValidationError) else None)
      && (a.error.Some? ==> a.state == s)
      && (a.error.None? ==> (key in a.state.open <==> c.Begin?))
      && (a.error.None? && c.Begin? ==>
            a.state.open[key].log == [] && ReadBy(a.state, key) == ReadBy(s, key) == s.shared)
      && (a.error.None? && !c.Begin? ==>
            ReadBy(a.state, key) == a.state.shared == if c.Commit? then ReadBy(s, key) else s.shared)
  {
  }

  /** Inside a transaction, of the statements that may run there, exactly the modifications that succeed are noted, if
      they are to be logged at all; creating and dropping, checking and rebuilding are refused. */
  lemma NotedMeans(parse: Parser, s: EngineState, i: Input, a: Answer)
    requires Answers(parse, s, i, a) && parse(i.sql).Ok? && !IsControl(parse(i.sql).value) && Key(i.session) in s.open
    ensures var c, key := parse(i.sql).value, Key(i.session);
      && key in a.state.open
      && a.state.open[key].log
         == s.open[key].log + (if c.Modify? && a.error.None? && i.writeWal then [i.sql] else [])
      && (!c.Modify? ==> ReadBy(a.state, key) == ReadBy(s, key))
      && (!c.Modify? && !c.Select? && !c.Use? ==> a.error == Some(ValidationError) && a.state == s)
  {
  }

  // ---------- isolation ----------

  /** The state that a session's next query is answered from. */
  function ReadBy(s: EngineState, key: string): Snapshot {
    if key in s.open then s.open[key].working else s.shared
  }

  /** No request changes what another session sees inside its transaction, and no request inside a transaction, but its
      COMMIT, changes what any other session sees, or the files. */
  lemma TransactionsArePrivate(parse: Parser, s: EngineState, i: Input, a: Answer, other: string)
    requires Answers(parse, s, i, a) && other != Key(i.session)
    ensures other in s.open <==> other in a.state.open
    ensures other in s.open ==> a.state.open[other] == s.open[other]
    ensures Key(i.session) in s.open && parse(i.sql) != Ok(Commit) ==>
      a.state.shared == s.shared && a.state.disk == s.disk && ReadBy(a.state, other) == ReadBy(s, other)
  {
    hide Performs;
  }

  /** In terms of clients: a request of one client changes nothing that another client's open transaction consists of,
      nor whether there is one, and inside a transaction nothing but COMMIT changes what another client's queries are
      answered from. */
  lemma ClientsArePrivate(parse: Parser, s: EngineState, i: Input, a: Answer, other: Session)
    requires Answers(parse, s, i, a) && OtherClients(i.session, other)
    ensures Key(other) in s.open <==> Key(other) in a.state.open
    ensures Key(other) in s.open ==> a.state.open[Key(other)] == s.open[Key(other)]
    ensures Key(i.session) in s.open && parse(i.sql) != Ok(Commit) ==>
      a.state.shared == s.shared && a.state.disk == s.disk && ReadBy(a.state, Key(other)) == ReadBy(s, Key(other))
  {
    hide Answers, Key, ReadBy;
    KeyIsClient(i.session, other);
    TransactionsArePrivate(parse, s, i, a, Key(other));
  }

  /** Requests, their answers, and the engine before, between and after them. */
  datatype Run = Run(states: seq<EngineState>, inputs: seq<Input>, answers: seq<Answer>) {
    ghost predicate Valid(parse: Parser) {
      && |states| == |inputs| + 1 && |answers| == |inputs|
      && forall k :: 0 <= k < |inputs| ==> Step(parse, k)
    }

    ghost predicate Step(parse: Parser, k: nat)
      requires |states| == |inputs| + 1 && |answers| == |inputs| && k < |inputs|
    {
      Answers(parse, states[k], inputs[k], answers[k]) && states[k + 1] == answers[k].state
    }

    function First(): EngineState
      requires states != []
    {
      states[0]
    }

    function Last(): EngineState
      requires states != []
    {
      states[|states| - 1]
    }

    function Prefix(n: nat): Run
      requires |states| == |inputs| + 1 && |answers| == |inputs| && n <= |inputs|
    {
      Run(states[..n + 1], inputs[..n], answers[..n])
    }

    function More(i: Input, a: Answer): Run {
      Run(states + [a.state], inputs + [i], answers + [a])
    }
  }

  lemma RunPrefix(parse: Parser, r: Run, n: nat)
    requires r.Valid(parse) && n <= |r.inputs|
    ensures r.Prefix(n).Valid(parse) && r.Prefix(n).First() == r.First() && r.Prefix(n).Last() == r.states[n]
  {
    hide Answers;
    var p := r.Prefix(n);
    forall k | 0 <= k < n ensures p.Step(parse, k) {
      assert r.Step(parse, k);
    }
  }

  lemma RunMore(parse: Parser, r: Run, i: Input, a: Answer)
    requires r.Valid(parse) && Answers(parse, r.Last(), i, a)
    ensures r.More(i, a).Valid(parse) && r.More(i, a).First() == r.First() && r.More(i, a).Last() == a.state
  {
    hide Answers;
    var more := r.More(i, a);
    forall k | 0 <= k <= |r.inputs| ensures more.Step(parse, k) {
      if k < |r.inputs| { assert r.Step(parse, k); }
    }
  }

  lemma RunNothing(parse: Parser, s: EngineState)
    ensures Run([s], [], []).Valid(parse)
  {
  }

  // ---------- a transaction that is rolled back leaves no trace ----------

  function Without(s: EngineState, key: string): EngineState {
    s.(open := s.open - {key})
  }

  /** Requests by a session that neither commits nor runs statements outside a transaction. */
  ghost predicate Tentative(parse: Parser, s: EngineState, i: Input) {
    match parse(i.sql)
    case Err(_) => true
    case Ok(c) => if IsControl(c) then !c.Commit? else Key(i.session) in s.open
  }

  lemma TentativeStep(parse: Parser, s: EngineState, i: Input, a: Answer)
    requires Answers(parse, s, i, a) && Tentative(parse, s, i)
    ensures Without(a.state, Key(i.session)) == Without(s, Key(i.session))
  {
    hide Performs;
  }

  /** The other sessions' requests are answered alike whether the transaction is there or not. */
  lemma OtherStep(parse: Parser, s: EngineState, i: Input, a: Answer, key: string)
    requires Answers(parse, s, i, a) && key != Key(i.session)
    ensures Answers(parse, Without(s, key), i, Answer(Without(a.state, key), a.current, a.error))
  {
    hide Performs;
    var k := Key(i.session);
    if k in s.open {
      assert s.open - {k} - {key} == s.open - {key} - {k};
      if k in a.state.open { assert s.open[k := a.state.open[k]] - {key} == (s.open - {key})[k := a.state.open[k]]; }
    } else if k in a.state.open {
      assert s.open[k := a.state.open[k]] - {key} == (s.open - {key})[k := a.state.open[k]];
    }
  }

  function OthersInputs(inputs: seq<Input>, key: string): seq<Input> {
    if inputs == [] then []
    else
      var n := |inputs| - 1;
      var before := OthersInputs(inputs[..n], key);
      if Key(inputs[n].session) == key then before else before + [inputs[n]]
  }

  /** In any interleaving, the requests of a session that only ever rolls back can be left out: what remains is a run,
      every other request gets the same answer in it, and it ends in the same shared state, files and other
      transactions. */
  lemma {:induction false} RolledBackIsInvisible(parse: Parser, r: Run, key: string) returns (rest: Run)
    requires r.Valid(parse)
    requires forall k :: 0 <= k < |r.inputs| && Key(r.inputs[k].session) == key ==>
      Tentative(parse, r.states[k], r.inputs[k])
    ensures rest.Valid(parse) && rest.inputs == OthersInputs(r.inputs, key)
    ensures rest.First() == Without(r.First(), key) && rest.Last() == Without(r.Last(), key)
    ensures Errors(rest.answers) == OthersErrors(r.inputs, r.answers, key)
    decreases |r.inputs|
  {
    hide Answers, Tentative, Without;
    if r.inputs == [] {
      RunNothing(parse, Without(r.First(), key));
      return Run([Without(r.First(), key)], [], []);
    }
    var n := |r.inputs| - 1;
    var i, a := r.inputs[n], r.answers[n];
    RunPrefix(parse, r, n);
    rest := RolledBackIsInvisible(parse, r.Prefix(n), key);
    assert r.Step(parse, n);
    if Key(i.session) == key {
      TentativeStep(parse, r.states[n], i, a);
    } else {
      OtherStep(parse, r.states[n], i, a, key);
      var b := Answer(Without(a.state, key), a.current, a.error);
      RunMore(parse, rest, i, b);
      ErrorsMore(rest.answers, b);
      rest := rest.More(i, b);
    }
  }

  function Errors(answers: seq<Answer>): seq<Option<Error>> {
    seq(|answers|, k requires 0 <= k < |answers| => answers[k].error)
  }

  lemma ErrorsMore(answers: seq<Answer>, a: Answer)
    ensures Errors(answers + [a]) == Errors(answers) + [a.error]
  {
  }

  function OthersErrors(inputs: seq<Input>, answers: seq<Answer>, key: string): seq<Option<Error>>
    requires |inputs| == |answers|
  {
    if inputs == [] then []
    else
      var n := |inputs| - 1;
      var before := OthersErrors(inputs[..n], answers[..n], key);
      if Key(inputs[n].session) == key then before else before + [answers[n].error]
  }

  /** The requests of all clients but one. */
  function InputsOfOthers(inputs: seq<Input>, client: string): seq<Input> {
    if inputs == [] then []
    else
      var n := |inputs| - 1;
      var before := InputsOfOthers(inputs[..n], client);
      if inputs[n].session.clientId == client then before else before + [inputs[n]]
  }

  function ErrorsOfOthers(inputs: seq<Input>, answers: seq<Answer>, client: string): seq<Option<Error>>
    requires |inputs| == |answers|
  {
    if inputs == [] then []
    else
      var n := |inputs| - 1;
      var before := ErrorsOfOthers(inputs[..n], answers[..n], client);
      if inputs[n].session.clientId == client then before else before + [answers[n].error]
  }

  lemma {:induction false} OthersAreOtherClients(inputs: seq<Input>, answers: seq<Answer>, client: string)
    requires client != "" && client != "__default_session__" && |inputs| == |answers|
    ensures OthersInputs(inputs, client) == InputsOfOthers(inputs, client)
    ensures OthersErrors(inputs, answers, client) == ErrorsOfOthers(inputs, answers, client)
  {
    hide Key;
    if inputs != [] {
      var n := |inputs| - 1;
      OthersAreOtherClients(inputs[..n], answers[..n], client);
      KeyIsClient(inputs[n].session, Session(client, ""));
      KeyIsClient(Session(client, ""), inputs[n].session);
    }
  }

  /** In terms of clients: in any interleaving, the requests of a client that only ever rolls back can be left out, and
      every other client gets the same answers. */
  lemma RolledBackClientIsInvisible(parse: Parser, r: Run, client: string) returns (rest: Run)
    requires r.Valid(parse) && client != "" && client != "__default_session__"
    requires forall k :: 0 <= k < |r.inputs| && r.inputs[k].session.clientId == client ==>
      Tentative(parse, r.states[k], r.inputs[k])
    ensures rest.Valid(parse) && rest.inputs == InputsOfOthers(r.inputs, client)
    ensures rest.First() == Without(r.First(), client) && rest.Last() == Without(r.Last(), client)
    ensures Errors(rest.answers) == ErrorsOfOthers(r.inputs, r.answers, client)
  {
    hide Answers, Tentative, Without, Key;
    forall k | 0 <= k < |r.inputs| && Key(r.inputs[k].session) == client
      ensures Tentative(parse, r.states[k], r.inputs[k])
    {
      KeyIsClient(r.inputs[k].session, Session(client, ""));
      KeyIsClient(Session(client, ""), r.inputs[k].session);
    }
    OthersAreOtherClients(r.inputs, r.answers, client);
    rest := RolledBackIsInvisible(parse, r, client);
  }

  // ---------- a transaction means what its statements mean ----------

  /** Statements that a transaction accepts. */
  predicate Ordinary(parse: Parser, i: Input) {
    match parse(i.sql)
    case Err(_) => true
    case Ok(c) => !IsControl(c) && !IsService(c) && !c.Ddl?
  }

  /** One session's BEGIN and statements, whether they succeed or not, with no other session in between. */
  ghost predicate Inside(parse: Parser, r: Run, key: string) {
    && r.Valid(parse) && r.inputs != [] && key !in r.First().open
    && (forall k :: 0 <= k < |r.inputs| ==> Key(r.inputs[k].session) == key)
    && parse(r.inputs[0].sql) == Ok(Begin)
    && forall k :: 1 <= k < |r.inputs| ==> Ordinary(parse, r.inputs[k])
  }

  lemma {:induction false} InsideStays(parse: Parser, r: Run, key: string, k: nat)
    requires Inside(parse, r, key) && 1 <= k <= |r.inputs|
    ensures key in r.states[k].open && r.states[k] == r.First().(open := r.First().open[key := r.states[k].open[key]])
    ensures k == 1 ==> r.states[k].open[key] == OpenTx(r.First().shared, [])
  {
    hide Performs;
    assert r.Step(parse, k - 1);
    if k > 1 { InsideStays(parse, r, key, k - 1); }
  }

  /** The direct answer to a statement that was answered inside the transaction. */
  lemma DirectAnswer(parse: Parser, s: EngineState, i: Input, a: Answer, d: EngineState) returns (b: Answer)
    requires Answers(parse, s, i, a) && Ordinary(parse, i) && Key(i.session) in s.open
    requires Key(i.session) !in d.open && d.shared == s.open[Key(i.session)].working
    ensures Answers(parse, d, i, b) && b.error == a.error && b.current == a.current
    ensures Key(i.session) in a.state.open && b.state.shared == a.state.open[Key(i.session)].working
      && b.state.open == d.open
  {
    hide Performs;
    var key := Key(i.session);
    match parse(i.sql)
    case Err(e) =>
      b := Answer(d, i.session.current, Some(e));
    case Ok(c) =>
      var y := a.state.open[key].working;
      var disk := if a.error.None? && IsMutating(c) then Disk(y, Emptied(d.disk.wal, i.writeWal)) else d.disk;
      b := Answer(EngineState(y, d.open, disk), a.current, a.error);
  }

  /** What a transaction has made of its private copy is what its statements, run directly, make of the shared state,
      and every statement gets the same answer. */
  lemma {:induction false} TransactionIsDirect(parse: Parser, r: Run, key: string) returns (d: Run)
    requires Inside(parse, r, key)
    ensures d.Valid(parse) && d.inputs == r.inputs[1..] && d.First() == r.First()
    ensures key in r.Last().open && d.Last().shared == r.Last().open[key].working && d.Last().open == r.First().open
    ensures SameAnswers(d.answers, r.answers[1..])
    decreases |r.inputs|
  {
    hide Answers, Performs, Ordinary;
    var n := |r.inputs| - 1;
    InsideStays(parse, r, key, n + 1);
    if n == 0 {
      RunNothing(parse, r.First());
      return Run([r.First()], [], []);
    }
    RunPrefix(parse, r, n);
    d := TransactionIsDirect(parse, r.Prefix(n), key);
    InsideStays(parse, r, key, n);
    assert r.Step(parse, n);
    var b := DirectAnswer(parse, r.states[n], r.inputs[n], r.answers[n], d.Last());
    RunMore(parse, d, r.inputs[n], b);
    assert r.inputs[1..] == r.inputs[..n][1..] + [r.inputs[n]]
      && r.answers[1..] == r.answers[..n][1..] + [r.answers[n]];
    d := d.More(r.inputs[n], b);
  }

  /** The same errors, and the same current database afterwards. */
  predicate SameAnswers(a: seq<Answer>, b: seq<Answer>) {
    |a| == |b| && forall k :: 0 <= k < |a| ==> a[k].error == b[k].error && a[k].current == b[k].current
  }

  /** BEGIN, any statements, COMMIT, with no other session in between, ends in the same shared state (rows, row ids,
      counters, indexes and events) as running the statements directly, and every statement gets the same answer. */
  lemma CommitMeansStatements(parse: Parser, r: Run, key: string, i: Input, a: Answer) returns (d: Run)
    requires Inside(parse, r, key)
    requires Answers(parse, r.Last(), i, a) && parse(i.sql) == Ok(Commit) && Key(i.session) == key
    ensures d.Valid(parse) && d.inputs == r.inputs[1..] && d.First() == r.First()
    ensures a.error == None && a.state.shared == d.Last().shared && a.state.open == r.First().open
    ensures SameAnswers(d.answers, r.answers[1..])
  {
    hide Performs;
    InsideStays(parse, r, key, |r.inputs|);
    d := TransactionIsDirect(parse, r, key);
    assert r.First().open[key := r.Last().open[key]] - {key} == r.First().open;
  }

  // ---------- and does so whenever they are run ----------

  /** Statements, but no REVERT, which depends on times. */
  predicate Timeless(parse: Parser, i: Input) {
    && Ordinary(parse, i)
    && match parse(i.sql)
       case Ok(Modify(_, command)) => !command.RevertTable?
       case _ => true
  }

  /** The same error, unless it was a query's, and the same current database afterwards. */
  predicate SameAnswer(parse: Parser, sql: string, a: Answer, b: Answer) {
    a.current == b.current && ((parse(sql).Ok? && parse(sql).value.Select?) || a.error == b.error)
  }

  lemma SameStatement(parse: Parser, s: EngineState, i: Input, a: Answer, t: EngineState, j: Input, b: Answer)
    requires Answers(parse, s, i, a) && Answers(parse, t, j, b) && Timeless(parse, j)
    requires i.sql == j.sql && i.session == j.session && Key(i.session) in s.open && Key(j.session) !in t.open
    requires SameButTimes(s.open[Key(i.session)].working, t.shared)
    ensures Key(i.session) in a.state.open && Key(j.session) !in b.state.open && SameAnswer(parse, i.sql, a, b)
    ensures SameButTimes(a.state.open[Key(i.session)].working, b.state.shared)
  {
    hide Effect, SameButTimes, Find, OnlyTable;
    var x, y := s.open[Key(i.session)].working, t.shared;
    assert x.databases == y.databases by { SameDatabases(x, y); }
    match parse(i.sql)
    case Ok(Modify(target, command)) =>
      PerformsTimeless(x, y, i.session.current, j.session.current, Modify(target, command), i.clock, j.clock,
                       a.state.open[Key(i.session)].working, b.state.shared, a.error, b.error, a.current, b.current);
    case _ =>
  }

  lemma SameDatabases(x: Snapshot, y: Snapshot)
    requires SameButTimes(x, y)
    ensures x.databases == y.databases
  {
  }

  /** The statements after BEGIN, at any times, with no transaction open and from the same state. */
  ghost predicate RunsDirectly(parse: Parser, r: Run, key: string, d: Run)
    requires Inside(parse, r, key)
  {
    && d.Valid(parse) && |d.inputs| + 1 == |r.inputs| && key !in d.First().open
      && SameButTimes(r.First().shared, d.First().shared)
    && forall j :: 0 <= j < |d.inputs| ==>
         Timeless(parse, d.inputs[j]) && d.inputs[j].sql == r.inputs[j + 1].sql
           && d.inputs[j].session == r.inputs[j + 1].session
  }

  lemma {:induction false} SameSoFar(parse: Parser, r: Run, key: string, d: Run, k: nat)
    requires Inside(parse, r, key) && RunsDirectly(parse, r, key, d) && k <= |d.inputs|
    ensures key in r.states[k + 1].open && key !in d.states[k].open
    ensures SameButTimes(r.states[k + 1].open[key].working, d.states[k].shared)
    ensures k > 0 ==> SameAnswer(parse, d.inputs[k - 1].sql, r.answers[k], d.answers[k - 1])
  {
    hide Answers, SameButTimes, Timeless, Ordinary, SameAnswer;
    InsideStays(parse, r, key, k + 1);
    if k > 0 {
      SameSoFar(parse, r, key, d, k - 1);
      assert r.Step(parse, k) && d.Step(parse, k - 1);
      SameStatement(parse, r.states[k], r.inputs[k], r.answers[k], d.states[k - 1], d.inputs[k - 1], d.answers[k - 1]);
    }
  }

  /** Whenever and by whatever engine the statements of a transaction are run directly, in the same order and from the
      same state, they end in the state that COMMIT publishes, times aside, with the same answers on the way. */
  lemma EveryDirectRunAgrees(parse: Parser, r: Run, key: string, i: Input, a: Answer, d: Run)
    requires Inside(parse, r, key) && RunsDirectly(parse, r, key, d)
    requires Answers(parse, r.Last(), i, a) && parse(i.sql) == Ok(Commit) && Key(i.session) == key
    ensures a.error.None? && SameButTimes(a.state.shared, d.Last().shared)
    ensures forall j :: 0 <= j < |d.answers| ==> SameAnswer(parse, d.inputs[j].sql, r.answers[j + 1], d.answers[j])
  {
    hide SameButTimes, Timeless, Ordinary, SameAnswer, Performs;
    SameSoFar(parse, r, key, d, |d.inputs|);
    forall j | 0 <= j < |d.answers| ensures SameAnswer(parse, d.inputs[j].sql, r.answers[j + 1], d.answers[j]) {
      SameSoFar(parse, r, key, d, j + 1);
    }
  }
}
