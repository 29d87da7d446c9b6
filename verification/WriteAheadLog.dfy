/** The write-ahead log: lines appended to a file, and what loading makes of a file that was cut off anywhere. */
module WriteAheadLog {
  import opened Wrappers
  import opened TextLines

  const HEADER := "WAL\t2"

  datatype Entry = Sql(statement: string) | Transaction(statements: seq<string>)

  // ---------- lines cut off ----------

  /** Where a cut through appended lines falls: after `i` of them and `j` characters of the next one. */
  lemma {:induction false} CutFalls(lines: seq<string>, c: nat) returns (i: nat, j: nat)
    requires c <= |Joined(lines)|
    ensures i <= |lines| && (i == |lines| ==> j == 0) && (i < |lines| ==> j <= |lines[i]|)
    ensures Joined(lines)[..c] == Joined(lines[..i]) + if i < |lines| then lines[i][..j] else ""
    ensures c == |Joined(lines)| <==> i == |lines|
    ensures c + 1 == |Joined(lines)| ==> lines != [] && i == |lines| - 1 && j == |lines[i]|
    ensures c + 1 < |Joined(lines)| ==> i < |lines| && (i == |lines| - 1 ==> j < |lines[i]|)
  {
    if lines == [] { return 0, 0; }
    var n := |lines| - 1;
    var first := Joined(lines[..n]);
    if c < |first| {
      i, j := CutFalls(lines[..n], c);
      assert Joined(lines)[..c] == first[..c];
      assert lines[..n][..i] == lines[..i];
    } else if c == |Joined(lines)| {
      assert Joined(lines)[..c] == Joined(lines) && lines[..|lines|] == lines;
      return |lines|, 0;
    } else {
      assert Joined(lines)[..c] == first + lines[n][..c - |first|];
      return n, c - |first|;
    }
  }

  /** The lines of a file cut off inside appended lines. */
  lemma CutOffLines(s: string, lines: seq<string>, c: nat) returns (i: nat, partial: string)
    requires AllPlain(lines) && Cut(s).rest == "" && c <= |Joined(lines)|
    ensures i <= |lines| && (i == |lines| ==> partial == "") && (i < |lines| ==> partial <= lines[i])
    ensures Joined(lines)[..c] == Joined(lines[..i]) + partial
    ensures Lines(s + Joined(lines)[..c]) == Cut(s).lines + lines[..i] + if partial == "" then [] else [partial]
    ensures c == |Joined(lines)| <==> i == |lines|
    ensures c + 1 == |Joined(lines)| ==> lines != [] && i == |lines| - 1 && partial == lines[i]
    ensures c + 1 < |Joined(lines)| ==> i < |lines| && (i == |lines| - 1 ==> |partial| < |lines[i]|)
  {
    hide Joined, Cut;
    var j;
    i, j := CutFalls(lines, c);
    partial := if i < |lines| then lines[i][..j] else "";
    var t := s + Joined(lines[..i]);
    assert s + Joined(lines)[..c] == t + partial && "" + partial == partial;
    CutJoined(s, lines[..i]);
    CutMore(t, partial);
  }

  // ---------- loading ----------

  /** Reading line by line: the entries so far and the open transaction, if any. */
  datatype Loader = Loading(entries: seq<Entry>, tx: Option<seq<string>>) | Malformed

  function Take(l: Loader, line: string): Loader {
    if l.Malformed? || line == "" then l
    else if line == "TX_BEGIN" then if l.tx.Some? then Malformed else l.(tx := Some([]))
    else if line == "TX_END" then if l.tx.None? then Malformed else Loading(l.entries + [Transaction(l.tx.value)], None)
    else if "SQL\t" <= line then
      if l.tx.Some? then Malformed else l.(entries := l.entries + [Sql(Unescaped(line[4..]))])
    else if "TX_SQL\t" <= line then
      if l.tx.None? then Malformed else l.(tx := Some(l.tx.value + [Unescaped(line[7..])]))
    else Malformed
  }

  function TakeAll(l: Loader, lines: seq<string>): Loader {
    if lines == [] then l else Take(TakeAll(l, lines[..|lines| - 1]), lines[|lines| - 1])
  }

  lemma TakeNothing(l: Loader)
    ensures TakeAll(l, []) == l
  {
  }

  lemma TakeMore(l: Loader, lines: seq<string>, line: string)
    ensures TakeAll(l, lines + [line]) == Take(TakeAll(l, lines), line)
  {
    assert (lines + [line])[..|lines|] == lines;
  }

  lemma {:induction false} TakeConcat(l: Loader, a: seq<string>, b: seq<string>)
    ensures TakeAll(l, a + b) == TakeAll(TakeAll(l, a), b)
  {
    if b == [] {
      assert a + b == a;
    } else {
      var n := |b| - 1;
      TakeConcat(l, a, b[..n]);
      assert (a + b)[..|a + b| - 1] == a + b[..n];
    }
  }

  lemma {:induction false} MalformedStays(lines: seq<string>)
    ensures TakeAll(Malformed, lines) == Malformed
  {
    if lines != [] { MalformedStays(lines[..|lines| - 1]); }
  }

  const START := Loading([], None)

  /** Before the `i`-th line a transaction has begun and not ended. */
  predicate OpenAt(lines: seq<string>, i: nat)
    requires i <= |lines|
  {
    exists b :: 0 <= b < i && lines[b] == "TX_BEGIN" && NoEndIn(lines, b + 1, i)
  }

  predicate NoEndIn(lines: seq<string>, from: nat, to: nat)
    requires from <= to <= |lines|
  {
    forall k :: from <= k < to ==> lines[k] != "TX_END"
  }

  /** What may stand in a line: statements of a transaction and its end inside one, anything else outside. */
  predicate InPlace(lines: seq<string>, i: nat)
    requires i < |lines|
  {
    || lines[i] == ""
    || ((lines[i] == "TX_END" || "TX_SQL\t" <= lines[i]) && OpenAt(lines, i))
    || ((lines[i] == "TX_BEGIN" || "SQL\t" <= lines[i]) && !OpenAt(lines, i))
  }

  predicate AllInPlace(lines: seq<string>) {
    forall i :: 0 <= i < |lines| ==> InPlace(lines, i)
  }

  lemma OpenBefore(lines: seq<string>, i: nat)
    requires i < |lines|
    ensures OpenAt(lines[..|lines| - 1], i) <==> OpenAt(lines, i)
  {
    var front := lines[..|lines| - 1];
    if OpenAt(front, i) {
      var b :| 0 <= b < i && front[b] == "TX_BEGIN" && NoEndIn(front, b + 1, i);
      assert forall k :: b + 1 <= k < i ==> lines[k] == front[k];
      assert lines[b] == "TX_BEGIN" && NoEndIn(lines, b + 1, i);
    }
    if OpenAt(lines, i) {
      var b :| 0 <= b < i && lines[b] == "TX_BEGIN" && NoEndIn(lines, b + 1, i);
      assert forall k :: b + 1 <= k < i ==> lines[k] == front[k];
      assert front[b] == "TX_BEGIN" && NoEndIn(front, b + 1, i);
    }
  }

  lemma OpenMore(lines: seq<string>, i: nat)
    requires i < |lines|
    ensures OpenAt(lines, i + 1) <==> lines[i] == "TX_BEGIN" || (OpenAt(lines, i) && lines[i] != "TX_END")
  {
    if lines[i] == "TX_BEGIN" {
      assert NoEndIn(lines, i + 1, i + 1);
    } else if OpenAt(lines, i) && lines[i] != "TX_END" {
      var b :| 0 <= b < i && lines[b] == "TX_BEGIN" && NoEndIn(lines, b + 1, i);
      assert NoEndIn(lines, b + 1, i + 1);
    }
    if OpenAt(lines, i + 1) && lines[i] != "TX_BEGIN" {
      var b :| 0 <= b < i + 1 && lines[b] == "TX_BEGIN" && NoEndIn(lines, b + 1, i + 1);
      assert NoEndIn(lines, b + 1, i);
    }
  }

  /** A line belongs where it is, and what is open afterwards. */
  lemma TakeInPlace(l: Loader, lines: seq<string>)
    requires lines != [] && (l.Loading? ==> (l.tx.Some? <==> OpenAt(lines, |lines| - 1)))
    ensures Take(l, lines[|lines| - 1]).Malformed? <==> l.Malformed? || !InPlace(lines, |lines| - 1)
    ensures var next := Take(l, lines[|lines| - 1]); next.Loading? ==> (next.tx.Some? <==> OpenAt(lines, |lines|))
  {
    hide OpenAt, Unescaped;
    OpenMore(lines, |lines| - 1);
    Tags(lines[|lines| - 1]);
  }

  /** No line begins in two ways. */
  lemma Tags(line: string)
    ensures "SQL\t" <= line ==> line[0] == 'S'
    ensures "TX_SQL\t" <= line ==> line[0] == 'T' && line[3] == 'S'
  {
  }

  /** The lines behind the header are malformed if and only if one of them is out of place. */
  lemma {:induction false} LoadsExactly(lines: seq<string>)
    ensures TakeAll(START, lines).Malformed? <==> !AllInPlace(lines)
    ensures var l := TakeAll(START, lines); l.Loading? ==> (l.tx.Some? <==> OpenAt(lines, |lines|))
  {
    hide OpenAt, InPlace, Take;
    if lines == [] {
      NothingOpen(lines);
    } else {
      var n := |lines| - 1;
      LoadsExactly(lines[..n]);
      OpenBefore(lines, n);
      TakeInPlace(TakeAll(START, lines[..n]), lines);
      forall i | 0 <= i < n ensures InPlace(lines, i) <==> InPlace(lines[..n], i) { PlaceBefore(lines, i); }
      assert AllInPlace(lines) <==> AllInPlace(lines[..n]) && InPlace(lines, n);
    }
  }

  lemma NothingOpen(lines: seq<string>)
    requires lines == []
    ensures !OpenAt(lines, 0)
  {
  }

  lemma PlaceBefore(lines: seq<string>, i: nat)
    requires i < |lines| - 1
    ensures InPlace(lines, i) <==> InPlace(lines[..|lines| - 1], i)
  {
    hide OpenAt;
    OpenBefore(lines, i);
  }

  predicate GoodHeader(line: string) {
    "WAL\t" <= line && (line[4..] == "1" || line[4..] == "2")
  }

  /** The headers of versions 1 and 2. */
  lemma HeaderMeans(line: string)
    ensures GoodHeader(line) <==> line == "WAL\t1" || line == "WAL\t2"
  {
    if GoodHeader(line) { assert line == "WAL\t" + line[4..]; }
  }

  /** What loading a file yields: None if it is malformed; an open transaction at the end is dropped. */
  function LoadedLines(lines: seq<string>): Option<seq<Entry>> {
    if lines == [] then Some([])
    else if !GoodHeader(lines[0]) then None
    else match TakeAll(START, lines[1..])
      case Malformed => None
      case Loading(entries, _) => Some(entries)
  }

  function Loaded(content: Option<string>): Option<seq<Entry>> {
    match content
    case None => Some([])
    case Some(text) => LoadedLines(Lines(text))
  }

  /** A file is malformed if and only if its first line is no header or one of the others is out of place. */
  lemma MalformedExactly(content: Option<string>)
    ensures Loaded(content).None? <==>
      content.Some? && Lines(content.value) != []
      && !(GoodHeader(Lines(content.value)[0]) && AllInPlace(Lines(content.value)[1..]))
  {
    hide Lines, GoodHeader, AllInPlace, Take;
    if content.Some? && Lines(content.value) != [] { LoadsExactly(Lines(content.value)[1..]); }
  }

  // ---------- appending ----------

  /** The file as an append finds it: a header goes first if there is nothing yet. */
  function Opened(content: Option<string>): string {
    if content.None? || content.value == "" then HEADER + "\n" else content.value
  }

  function SqlLine(sql: string): string {
    "SQL\t" + Escaped(sql)
  }

  function TxLine(sql: string): string {
    "TX_SQL\t" + Escaped(sql)
  }

  function TxLines(statements: seq<string>): seq<string> {
    ["TX_BEGIN"] + seq(|statements|, i requires 0 <= i < |statements| => TxLine(statements[i])) + ["TX_END"]
  }

  function WithSql(content: Option<string>, sql: string): string {
    Opened(content) + Joined([SqlLine(sql)])
  }

  function WithTransaction(content: Option<string>, statements: seq<string>): string {
    Opened(content) + Joined(TxLines(statements))
  }

  /** A file that holds exactly these entries: whole lines, no transaction left open. */
  ghost predicate Holds(content: Option<string>, entries: seq<Entry>) {
    if content.None? || content.value == "" then entries == []
    else
      var p := Cut(content.value);
      p.rest == "" && p.lines != [] && GoodHeader(p.lines[0]) && TakeAll(START, p.lines[1..]) == Loading(entries, None)
  }

  lemma HoldsLoads(content: Option<string>, entries: seq<Entry>)
    requires Holds(content, entries)
    ensures Loaded(content) == Some(entries)
  {
  }

  lemma HeaderHolds()
    ensures Holds(Some(HEADER + "\n"), []) && Cut(HEADER + "\n") == Pieces([HEADER], "")
  {
    hide Cut;
    CutNothing();
    CutMore("", HEADER);
    assert "" + HEADER == HEADER;
    CutNewline(HEADER);
  }

  lemma OpenedHolds(content: Option<string>, entries: seq<Entry>)
    requires Holds(content, entries)
    ensures Opened(content) != "" && Holds(Some(Opened(content)), entries)
  {
    HeaderHolds();
  }

  /** Loading a file to which lines were appended, cut off anywhere inside them. */
  lemma LoadCutOff(text: string, entries: seq<Entry>, lines: seq<string>, c: nat) returns (i: nat, partial: string)
    requires text != "" && Holds(Some(text), entries) && AllPlain(lines) && c <= |Joined(lines)|
    ensures i <= |lines| && (i == |lines| ==> partial == "") && (i < |lines| ==> partial <= lines[i])
    ensures Joined(lines)[..c] == Joined(lines[..i]) + partial
    ensures c == |Joined(lines)| <==> i == |lines|
    ensures c + 1 == |Joined(lines)| ==> lines != [] && i == |lines| - 1 && partial == lines[i]
    ensures c + 1 < |Joined(lines)| ==> i < |lines| && (i == |lines| - 1 ==> |partial| < |lines[i]|)
    ensures Loaded(Some(text + Joined(lines)[..c]))
      == Outcome(Take(TakeAll(Loading(entries, None), lines[..i]), partial))
  {
    hide Cut, Joined, Take, TakeAll, GoodHeader;
    i, partial := CutOffLines(text, lines, c);
    var kept, all := Cut(text).lines, Lines(text + Joined(lines)[..c]);
    var news := lines[..i] + if partial == "" then [] else [partial];
    assert all == kept + news && all[0] == kept[0] && all[1..] == kept[1..] + news;
    TakeConcat(START, kept[1..], news);
    if partial == "" {
      assert news == lines[..i];
      TakeEmpty(TakeAll(Loading(entries, None), lines[..i]));
    } else {
      TakeMore(Loading(entries, None), lines[..i], partial);
    }
  }

  lemma TakeEmpty(l: Loader)
    ensures Take(l, "") == l
  {
  }

  function Outcome(l: Loader): Option<seq<Entry>> {
    if l.Malformed? then None else Some(l.entries)
  }

  // ---------- a transaction is loaded whole or not at all ----------

  /** Inside a transaction no line but its end adds an entry. */
  lemma TakeInside(l: Loader, line: string)
    requires l.Loading? && l.tx.Some? && line != "TX_END"
    ensures Outcome(Take(l, line)) in {None, Some(l.entries)}
  {
  }

  lemma TakeStatement(l: Loader, sql: string)
    requires l.Loading? && l.tx.Some?
    ensures Take(l, TxLine(sql)) == l.(tx := Some(l.tx.value + [sql]))
  {
    hide Escaped, Scanned;
    UnescapeEscape(sql);
    var line := TxLine(sql);
    assert line[0] == 'T' && line[3] == 'S' && line[7..] == Escaped(sql);
  }

  /** After the beginning and some statements. */
  lemma {:induction false} TakeStatements(entries: seq<Entry>, statements: seq<string>, i: nat)
    requires 1 <= i <= |statements| + 1
    ensures TakeAll(Loading(entries, None), TxLines(statements)[..i]) == Loading(entries, Some(statements[..i - 1]))
  {
    hide Take, TxLine;
    var lines, l := TxLines(statements), Loading(entries, None);
    if i == 1 {
      assert lines[..1] == [] + ["TX_BEGIN"];
      TakeMore(l, [], "TX_BEGIN");
      TakeBegin(l);
    } else {
      TakeStatements(entries, statements, i - 1);
      TakeMore(l, lines[..i - 1], lines[i - 1]);
      assert lines[..i] == lines[..i - 1] + [lines[i - 1]];
      TakeStatement(Loading(entries, Some(statements[..i - 2])), statements[i - 2]);
      assert statements[..i - 1] == statements[..i - 2] + [statements[i - 2]];
    }
  }

  lemma TakeBegin(l: Loader)
    requires l.Loading? && l.tx.None?
    ensures Take(l, "TX_BEGIN") == l.(tx := Some([]))
  {
  }

  lemma TakeEnd(l: Loader)
    requires l.Loading? && l.tx.Some?
    ensures Take(l, "TX_END") == Loading(l.entries + [Transaction(l.tx.value)], None)
  {
  }

  lemma TakeTransaction(entries: seq<Entry>, statements: seq<string>)
    ensures TakeAll(Loading(entries, None), TxLines(statements)) == Loading(entries + [Transaction(statements)], None)
  {
    hide Take, TxLine;
    var lines, n := TxLines(statements), |statements| + 1;
    TakeStatements(entries, statements, n);
    TakeMore(Loading(entries, None), lines[..n], "TX_END");
    assert lines == lines[..n] + ["TX_END"] && statements[..|statements|] == statements;
    TakeEnd(Loading(entries, Some(statements)));
  }

  lemma TxLinesPlain(statements: seq<string>)
    requires AllPlain(statements)
    ensures AllPlain(TxLines(statements))
  {
    forall i | 0 <= i < |statements| ensures Plain(TxLine(statements[i])) { EscapeKeepsLines(statements[i]); }
    var lines := TxLines(statements);
    forall i | 0 <= i < |lines| ensures Plain(lines[i]) {
      if 0 < i <= |statements| { assert lines[i] == TxLine(statements[i - 1]); }
    }
  }

  lemma StatementIsNotEnd(sql: string, partial: string)
    requires partial <= TxLine(sql)
    ensures partial != "TX_END"
  {
    if |partial| > 3 { assert partial[3] == TxLine(sql)[3] == 'S'; }
  }

  /** What a cut-off first line, or a later one, of a transaction leads to. */
  lemma CutOffOutcome(entries: seq<Entry>, statements: seq<string>, i: nat, partial: string)
    requires i < |TxLines(statements)| && partial <= TxLines(statements)[i]
    requires i == |statements| + 1 ==> |partial| < 6
    ensures Outcome(Take(TakeAll(Loading(entries, None), TxLines(statements)[..i]), partial)) in {None, Some(entries)}
  {
    hide Take, Escaped;
    var lines, l := TxLines(statements), Loading(entries, None);
    if i == 0 {
      assert lines[..0] == [];
      PartialBegin(l, partial);
    } else {
      TakeStatements(entries, statements, i);
      if i <= |statements| { StatementIsNotEnd(statements[i - 1], partial); }
      TakeInside(Loading(entries, Some(statements[..i - 1])), partial);
    }
  }

  lemma PartialBegin(l: Loader, partial: string)
    requires l.Loading? && l.tx.None? && partial <= "TX_BEGIN"
    ensures Outcome(Take(l, partial)) in {None, Some(l.entries)}
  {
    if |partial| > 3 { assert partial[3] == 'B'; }
    if |partial| > 0 { assert partial[0] == 'T'; }
  }

  /** All lines, the last one perhaps without its newline. */
  lemma WholeTransaction(entries: seq<Entry>, statements: seq<string>, i: nat, partial: string)
    requires var lines := TxLines(statements);
      (i == |lines| && partial == "") || (i == |lines| - 1 && partial == lines[i])
    ensures Take(TakeAll(Loading(entries, None), TxLines(statements)[..i]), partial)
         == Loading(entries + [Transaction(statements)], None)
  {
    hide Take, TxLine;
    var lines, l := TxLines(statements), Loading(entries, None);
    TakeTransaction(entries, statements);
    if i == |lines| {
      assert lines[..i] == lines;
      TakeEmpty(TakeAll(l, lines));
    } else {
      TakeMore(l, lines[..i], partial);
      assert lines == lines[..i] + [partial];
    }
  }

  /** A file that was cut off inside its first line. */
  lemma TornHeader(text: string)
    requires text <= HEADER
    ensures Loaded(Some(text)) in {None, Some([])}
  {
    hide Cut, TakeAll;
    CutNothing();
    CutMore("", text);
    assert "" + text == text && Lines(text) == if text == "" then [] else [text];
    if text != "" {
      assert [text][1..] == [];
      TakeNothing(START);
    }
  }

  lemma {:induction false} JoinedLonger(lines: seq<string>)
    ensures |Joined(lines)| >= |lines|
  {
    if lines != [] { JoinedLonger(lines[..|lines| - 1]); }
  }

  /** Wherever an append of a transaction is cut off, loading the file afterwards yields the old entries, or nothing at
      all because the file is malformed; only when no more than the last newline is missing does it yield the
      transaction, and then with all its statements. */
  lemma TornTransaction(content: Option<string>, entries: seq<Entry>, statements: seq<string>, c: nat)
    requires Holds(content, entries) && AllPlain(statements)
    requires (if content.Some? then |content.value| else 0) <= c <= |WithTransaction(content, statements)|
    ensures var loaded := Loaded(Some(WithTransaction(content, statements)[..c]));
      if c + 1 >= |WithTransaction(content, statements)| then loaded == Some(entries + [Transaction(statements)])
      else loaded in {None, Some(entries)}
  {
    hide Joined, Loaded, Take, TakeAll, Cut;
    var text, lines, all := Opened(content), TxLines(statements), WithTransaction(content, statements);
    OpenedHolds(content, entries);
    TxLinesPlain(statements);
    if c < |text| {
      assert text == HEADER + "\n" && all[..c] == text[..c] && entries == [];
      TornHeader(text[..c]);
      JoinedLonger(lines);
    } else {
      var d := c - |text|;
      assert all[..c] == text + Joined(lines)[..d];
      var i, partial := LoadCutOff(text, entries, lines, d);
      if c + 1 >= |all| {
        WholeTransaction(entries, statements, i, partial);
      } else {
        CutOffOutcome(entries, statements, i, partial);
      }
    }
  }

  // ---------- single statements ----------

  lemma TakeSql(entries: seq<Entry>, sql: string)
    ensures Take(Loading(entries, None), SqlLine(sql)) == Loading(entries + [Sql(sql)], None)
  {
    hide Escaped, Scanned;
    UnescapeEscape(sql);
    var line := SqlLine(sql);
    assert line[0] == 'S' && line[4..] == Escaped(sql);
  }

  /** A cut-off statement: nothing is read before the tab, and a part of the statement after it. */
  lemma TakePartialSql(entries: seq<Entry>, sql: string, partial: string)
    requires partial <= SqlLine(sql)
    ensures |partial| < 4 ==> Outcome(Take(Loading(entries, None), partial)) in {None, Some(entries)}
    ensures |partial| >= 4 ==>
      var part := Unescaped(Escaped(sql)[..|partial| - 4]);
      && Take(Loading(entries, None), partial) == Loading(entries + [Sql(part)], None)
      && part <= sql && (|partial| < |SqlLine(sql)| ==> part < sql)
  {
    hide Escaped, Unescaped;
    if partial != "" { assert partial[0] == 'S'; }
    if |partial| >= 4 {
      var j := |partial| - 4;
      assert "SQL\t" <= partial && partial[4..] == Escaped(sql)[..j];
      UnescapePrefix(sql, j);
    }
  }

  /** What is left of a statement whose append was cut off after `c` bytes. */
  function PartLeft(content: Option<string>, sql: string, c: nat): string
    requires |Opened(content)| + 4 <= c <= |Opened(content)| + 4 + |Escaped(sql)|
  {
    Unescaped(Escaped(sql)[..c - |Opened(content)| - 4])
  }

  lemma WithSqlLength(content: Option<string>, sql: string)
    ensures |WithSql(content, sql)| == |Opened(content)| + 4 + |Escaped(sql)| + 1
  {
    hide Escaped;
    JoinedStep([SqlLine(sql)]);
    CutNothing();
    assert [SqlLine(sql)][..0] == [];
  }

  /** A single statement is not loaded whole or not at all: an append cut off after the tab, by more than the last
      newline, leaves a proper part of the statement in the file, and loading takes that part for a statement. */
  lemma TornStatement(content: Option<string>, entries: seq<Entry>, sql: string, c: nat)
    requires Holds(content, entries) && Plain(sql)
    requires (if content.Some? then |content.value| else 0) <= c <= |WithSql(content, sql)|
    ensures |WithSql(content, sql)| == |Opened(content)| + 4 + |Escaped(sql)| + 1
    ensures var loaded := Loaded(Some(WithSql(content, sql)[..c]));
      if c + 1 >= |WithSql(content, sql)| then loaded == Some(entries + [Sql(sql)])
      else if c < |Opened(content)| + 4 then loaded in {None, Some(entries)}
      else loaded == Some(entries + [Sql(PartLeft(content, sql, c))]) && PartLeft(content, sql, c) < sql
  {
    hide Loaded, Take, TakeAll, Cut, Escaped, Joined, Scanned;
    var text, lines, all := Opened(content), [SqlLine(sql)], WithSql(content, sql);
    WithSqlLength(content, sql);
    OpenedHolds(content, entries);
    EscapeKeepsLines(sql);
    JoinedStep(lines);
    CutNothing();
    TakeNothing(Loading(entries, None));
    assert lines[..0] == [] && lines[..1] == lines && [] + lines == lines;
    if c < |text| {
      assert text == HEADER + "\n" && all[..c] == text[..c] && entries == [];
      TornHeader(text[..c]);
    } else {
      var d := c - |text|;
      assert all[..c] == text + Joined(lines)[..d];
      var i, partial := LoadCutOff(text, entries, lines, d);
      if c + 1 >= |all| {
        TakeSql(entries, sql);
        if i == 1 {
          TakeMore(Loading(entries, None), [], SqlLine(sql));
          TakeEmpty(TakeAll(Loading(entries, None), lines));
        }
      } else {
        assert lines[..i] == [] && Joined(lines)[..d] == "" + partial;
        TakePartialSql(entries, sql, partial);
      }
    }
  }

  /** The cuts at which an append leaves the old entries, a malformed file or the whole statement are exactly those
      before the end of the tag and those that miss no more than the last newline. */
  lemma StatementCutIsAtomic(content: Option<string>, entries: seq<Entry>, sql: string, c: nat)
    requires Holds(content, entries) && Plain(sql)
    requires (if content.Some? then |content.value| else 0) <= c <= |WithSql(content, sql)|
    ensures Loaded(Some(WithSql(content, sql)[..c])) in {None, Some(entries), Some(entries + [Sql(sql)])}
       <==> c < |Opened(content)| + 4 || c + 1 >= |WithSql(content, sql)|
  {
    hide Loaded, Holds, WithSql, PartLeft, Opened, Escaped;
    TornStatement(content, entries, sql, c);
    if |Opened(content)| + 4 <= c && c + 1 < |WithSql(content, sql)| {
      var part := PartLeft(content, sql, c);
      assert (entries + [Sql(part)])[|entries|] != (entries + [Sql(sql)])[|entries|];
    }
  }

  /** Any beginning of a statement can come to be loaded instead of it. */
  lemma AnyBeginningIsLoaded(content: Option<string>, entries: seq<Entry>, first: string, rest: string)
    requires Holds(content, entries) && Plain(first + rest) && rest != ""
    ensures var c := |Opened(content)| + 4 + |Escaped(first)|;
      c + 1 < |WithSql(content, first + rest)|
      && Loaded(Some(WithSql(content, first + rest)[..c])) == Some(entries + [Sql(first)])
  {
    hide Loaded, Holds, WithSql, Opened, Escaped, Scanned;
    var c := |Opened(content)| + 4 + |Escaped(first)|;
    EscapedConcat(first, rest);
    EscapedStep(rest);
    WithSqlLength(content, first + rest);
    BeginsLater(content);
    TornStatement(content, entries, first + rest, c);
    assert Escaped(first + rest)[..|Escaped(first)|] == Escaped(first);
    UnescapeEscape(first);
  }

  lemma BeginsLater(content: Option<string>)
    ensures (if content.Some? then |content.value| else 0) <= |Opened(content)|
  {
  }

  /** For instance: the statement `ab`, cut off before its last letter, is loaded as `a`. */
  lemma TornStatementExample()
    ensures var text := WithSql(None, "ab"); Loaded(Some(text[..|text| - 2])) == Some([Sql("a")])
  {
    hide Loaded, WithSql;
    assert "a" + "b" == "ab" && EscapeChar('a') == "a" && EscapeChar('b') == "b";
    assert "a"[..0] == "" && "b"[..0] == "";
    AnyBeginningIsLoaded(None, [], "a", "b");
    EscapedConcat("a", "b");
    WithSqlLength(None, "ab");
    assert [] + [Sql("a")] == [Sql("a")];
  }

  // ---------- whole appends ----------

  predicate PlainEntry(e: Entry) {
    match e
    case Sql(statement) => Plain(statement)
    case Transaction(statements) => AllPlain(statements)
  }

  predicate PlainLoader(l: Loader) {
    l.Loading? ==>
      (forall i :: 0 <= i < |l.entries| ==> PlainEntry(l.entries[i])) && (l.tx.Some? ==> AllPlain(l.tx.value))
  }

  lemma TakePlain(l: Loader, line: string)
    requires PlainLoader(l) && Plain(line)
    ensures PlainLoader(Take(l, line))
  {
    hide Unescaped;
    if "SQL\t" <= line { UnescapeKeepsLines(line[4..]); }
    if "TX_SQL\t" <= line { UnescapeKeepsLines(line[7..]); }
  }

  lemma {:induction false} TakeAllPlain(lines: seq<string>)
    requires AllPlain(lines)
    ensures PlainLoader(TakeAll(START, lines))
  {
    hide Take, PlainLoader, Plain;
    if lines == [] {
      StartPlain();
    } else {
      var n := |lines| - 1;
      TakeAllPlain(lines[..n]);
      TakePlain(TakeAll(START, lines[..n]), lines[n]);
    }
  }

  lemma StartPlain()
    ensures PlainLoader(START)
  {
  }

  /** No statement that loading yields contains a newline. */
  lemma LoadedArePlain(text: string, entries: seq<Entry>)
    requires Loaded(Some(text)) == Some(entries)
    ensures forall i :: 0 <= i < |entries| ==> PlainEntry(entries[i])
  {
    hide Cut, Plain, GoodHeader;
    LinesArePlain(text);
    if Lines(text) != [] { TakeAllPlain(Lines(text)[1..]); }
  }

  lemma LastIsPlain(text: string, entries: seq<Entry>, e: Entry)
    requires Loaded(Some(text)) == Some(entries + [e])
    ensures PlainEntry(e)
  {
    hide Loaded, PlainEntry;
    LoadedArePlain(text, entries + [e]);
    assert (entries + [e])[|entries|] == e;
  }

  lemma HoldsMore(text: string, entries: seq<Entry>, lines: seq<string>, more: seq<Entry>)
    requires text != "" && Holds(Some(text), entries) && AllPlain(lines)
    requires TakeAll(Loading(entries, None), lines) == Loading(more, None)
    ensures Holds(Some(text + Joined(lines)), more)
  {
    hide Cut, Joined, Take, TakeAll, Plain, GoodHeader;
    CutJoined(text, lines);
    var kept := Cut(text).lines;
    TakeConcat(START, kept[1..], lines);
    assert (kept + lines)[0] == kept[0] && (kept + lines)[1..] == kept[1..] + lines;
  }

  /** A statement with a newline can tear its transaction: cut off before its last line, this one is loaded as a
      transaction with the beginning of the statement. */
  lemma NewlineTearsTransaction(content: Option<string>, entries: seq<Entry>, first: string)
    requires Holds(content, entries) && Plain(first)
    ensures var text := WithTransaction(content, [first + "\nTX_END"]);
      |text| > 7 && Loaded(Some(text[..|text| - 7])) == Some(entries + [Transaction([first])])
  {
    hide Joined, Cut, Escaped, Scanned, Loaded, Take, TakeAll, Holds;
    var sql, half := first + "\nTX_END", "TX_SQL\t" + Escaped(first) + "\\";
    var lines := ["TX_BEGIN", half, "TX_END"];
    OpenedHolds(content, entries);
    TornLines(first);
    assert TxLines([sql]) == ["TX_BEGIN", TxLine(sql), "TX_END"];
    JoinedThree("TX_BEGIN", TxLine(sql), "TX_END");
    JoinedThree("TX_BEGIN", half, "TX_END");
    var text := WithTransaction(content, [sql]);
    assert text == Opened(content) + Joined(lines) + "TX_END\n";
    assert text[..|text| - 7] == Opened(content) + Joined(lines);
    TakeTorn(entries, first);
    HoldsMore(Opened(content), entries, lines, entries + [Transaction([first])]);
    HoldsLoads(Some(Opened(content) + Joined(lines)), entries + [Transaction([first])]);
  }

  lemma TornLines(first: string)
    requires Plain(first)
    ensures TxLine(first + "\nTX_END") == "TX_SQL\t" + Escaped(first) + "\\" + "\n" + "TX_END"
    ensures AllPlain(["TX_BEGIN", "TX_SQL\t" + Escaped(first) + "\\", "TX_END"])
  {
    hide Escaped;
    EscapeKeepsLines(first);
    EscapedConcat(first, "\nTX_END");
    EndEscaped();
    Regrouped("TX_SQL\t", Escaped(first));
  }

  lemma Regrouped(a: string, b: string)
    ensures a + (b + ("\\\n" + "TX_END")) == a + b + "\\" + "\n" + "TX_END"
  {
  }

  lemma EndEscaped()
    ensures Escaped("\nTX_END") == "\\\n" + "TX_END"
  {
    hide Escaped;
    EscapedConcat("\n", "TX_END");
    NewlineEscaped();
    BareEscaped("TX_END");
    assert "\n" + "TX_END" == "\nTX_END";
  }

  lemma NewlineEscaped()
    ensures Escaped("\n") == "\\\n"
  {
    hide Escaped;
    NothingEscaped();
    EscapedStep("\n");
    assert "\n"[..0] == "" && "" + EscapeChar('\n') == EscapeChar('\n');
  }

  lemma {:induction false} BareEscaped(s: string)
    requires forall i :: 0 <= i < |s| ==> !Special(s[i])
    ensures Escaped(s) == s
  {
    if s != "" {
      BareEscaped(s[..|s| - 1]);
      assert s == s[..|s| - 1] + [s[|s| - 1]];
    }
  }

  lemma JoinedThree(a: string, b: string, c: string)
    ensures Joined([a, b, c]) == a + "\n" + b + "\n" + c + "\n"
  {
    hide Joined;
    CutNothing();
    JoinedStep([a]);
    JoinedStep([a, b]);
    JoinedStep([a, b, c]);
    assert [a, b, c][..2] == [a, b] && [a, b][..1] == [a] && [a][..0] == [];
    assert "" + a + "\n" == a + "\n";
  }

  lemma TakeTorn(entries: seq<Entry>, first: string)
    ensures TakeAll(Loading(entries, None), ["TX_BEGIN", "TX_SQL\t" + Escaped(first) + "\\", "TX_END"])
         == Loading(entries + [Transaction([first])], None)
  {
    hide Escaped, Scanned, TakeAll;
    var l, half := Loading(entries, None), "TX_SQL\t" + Escaped(first) + "\\";
    TakeNothing(l);
    TakeMore(l, [], "TX_BEGIN");
    TakeMore(l, ["TX_BEGIN"], half);
    TakeMore(l, ["TX_BEGIN", half], "TX_END");
    assert [] + ["TX_BEGIN"] == ["TX_BEGIN"] && ["TX_BEGIN"] + [half] == ["TX_BEGIN", half];
    assert ["TX_BEGIN", half] + ["TX_END"] == ["TX_BEGIN", half, "TX_END"];
    assert half[0] == 'T' && half[3] == 'S' && half[7..] == Escaped(first) + ['\\'];
    UnescapeEscape(first);
    ScanMore(Escaped(first), '\\');
    assert [] + [first] == [first];
  }

  /** A statement is read back from the log exactly when it contains no newline. */
  lemma StatementSurvives(content: Option<string>, entries: seq<Entry>, sql: string)
    requires Holds(content, entries)
    ensures Loaded(Some(WithSql(content, sql))) == Some(entries + [Sql(sql)]) <==> Plain(sql)
    ensures Plain(sql) ==> Holds(Some(WithSql(content, sql)), entries + [Sql(sql)])
  {
    hide Loaded, Take, TakeAll, Cut, Escaped, Joined;
    var text := WithSql(content, sql);
    if Plain(sql) {
      OpenedHolds(content, entries);
      EscapeKeepsLines(sql);
      TakeNothing(Loading(entries, None));
      TakeMore(Loading(entries, None), [], SqlLine(sql));
      assert [] + [SqlLine(sql)] == [SqlLine(sql)];
      TakeSql(entries, sql);
      HoldsMore(Opened(content), entries, [SqlLine(sql)], entries + [Sql(sql)]);
      HoldsLoads(Some(text), entries + [Sql(sql)]);
    } else if Loaded(Some(text)) == Some(entries + [Sql(sql)]) {
      LastIsPlain(text, entries, Sql(sql));
    }
  }

  /** A transaction is read back from the log exactly when no statement of it contains a newline. */
  lemma TransactionSurvives(content: Option<string>, entries: seq<Entry>, statements: seq<string>)
    requires Holds(content, entries)
    ensures Loaded(Some(WithTransaction(content, statements))) == Some(entries + [Transaction(statements)]) <==>
      AllPlain(statements)
    ensures AllPlain(statements) ==>
      Holds(Some(WithTransaction(content, statements)), entries + [Transaction(statements)])
  {
    hide Loaded, Take, TakeAll, Cut, Escaped, Joined, Plain, TxLines;
    var text := WithTransaction(content, statements);
    if AllPlain(statements) {
      OpenedHolds(content, entries);
      TxLinesPlain(statements);
      TakeTransaction(entries, statements);
      HoldsMore(Opened(content), entries, TxLines(statements), entries + [Transaction(statements)]);
      HoldsLoads(Some(text), entries + [Transaction(statements)]);
    } else if Loaded(Some(text)) == Some(entries + [Transaction(statements)]) {
      LastIsPlain(text, entries, Transaction(statements));
    }
  }

  // ---------- the log file ----------

  /** The log file; None while it does not exist. */
  class WalManager {
    var content: Option<string>

    constructor (content: Option<string>)
      ensures this.content == content
    {
      this.content := content;
    }

    /** Opens the file for appending: a header goes first if it is empty. */
    method Open()
      modifies this
      ensures content == Some(Opened(old(content)))
    {
      if content.None? { content := Some(""); }
      if |content.value| == 0 { content := Some(HEADER + "\n"); }
    }

    method WriteLine(line: string)
      requires content.Some?
      modifies this
      ensures content == Some(old(content).value + line + "\n")
    {
      content := Some(content.value + line + "\n");
    }

    method AppendSql(sql: string)
      modifies this
      ensures content == Some(WithSql(old(content), sql))
    {
      Open();
      var escaped := Escape(sql);
      WriteLine("SQL\t" + escaped);
      FirstLine(Opened(old(content)), [SqlLine(sql)]);
      assert [SqlLine(sql)][..1] == [SqlLine(sql)];
    }

    method AppendTransaction(statements: seq<string>)
      modifies this
      ensures content == Some(WithTransaction(old(content), statements))
    {
      hide Joined, Opened, TxLine;
      Open();
      ghost var text, lines := Opened(old(content)), TxLines(statements);
      WriteLine("TX_BEGIN");
      FirstLine(text, lines);
      var i := 0;
      while i < |statements|
        invariant i <= |statements| && content == Some(text + Joined(lines[..i + 1]))
      {
        var escaped := Escape(statements[i]);
        WriteLine("TX_SQL\t" + escaped);
        NextLine(text, lines, i + 1);
        TxLineIs(statements[i]);
        i := i + 1;
      }
      WriteLine("TX_END");
      NextLine(text, lines, i + 1);
      assert lines[..i + 2] == lines;
    }

    lemma TxLineIs(sql: string)
      ensures TxLine(sql) == "TX_SQL\t" + Escaped(sql)
    {
    }

    lemma FirstLine(text: string, lines: seq<string>)
      requires lines != []
      ensures text + Joined(lines[..1]) == text + lines[0] + "\n"
    {
      NextLine(text, lines, 0);
      CutNothing();
      assert lines[..0] == [] && text + "" == text;
    }

    lemma NextLine(text: string, lines: seq<string>, i: nat)
      requires i < |lines|
      ensures text + Joined(lines[..i + 1]) == text + Joined(lines[..i]) + lines[i] + "\n"
    {
      hide Joined;
      JoinedStep(lines[..i + 1]);
      assert lines[..i + 1][..i] == lines[..i];
      var joined := Joined(lines[..i]);
      assert text + (joined + lines[i] + "\n") == text + joined + lines[i] + "\n";
    }

    /** Reads the log: false if it is malformed; an unfinished transaction at the end is dropped. */
    method LoadAll() returns (ok: bool, entries: seq<Entry>)
      ensures ok <==> Loaded(content).Some?
      ensures ok ==> entries == Loaded(content).value
    {
      hide Cut;
      entries := [];
      var lines := [];
      if content.Some? { lines := ReadLines(content.value); }
      if |lines| == 0 { return true, []; }
      if !("WAL\t" <= lines[0]) { return false, []; }
      var version := lines[0][4..];
      if !(version == "1" || version == "2") { return false, []; }
      ghost var body := lines[1..];
      var inTx, currentTx: seq<string> := false, [];
      var i := 1;
      while i < |lines|
        invariant 1 <= i <= |lines|
        invariant TakeAll(START, body[..i - 1]) == Loading(entries, if inTx then Some(currentTx) else None)
      {
        var line := lines[i];
        assert body[..i] == body[..i - 1] + [line];
        TakeMore(START, body[..i - 1], line);
        if line == "" {
        } else if line == "TX_BEGIN" {
          if inTx {
            Stops(body, i);
            return false, [];
          }
          inTx, currentTx := true, [];
        } else if line == "TX_END" {
          if !inTx {
            Stops(body, i);
            return false, [];
          }
          entries, inTx := entries + [Transaction(currentTx)], false;
        } else if "SQL\t" <= line {
          if inTx {
            Stops(body, i);
            return false, [];
          }
          var sql := Unescape(line[4..]);
          entries := entries + [Sql(sql)];
        } else if "TX_SQL\t" <= line {
          if !inTx {
            Stops(body, i);
            return false, [];
          }
          var sql := Unescape(line[7..]);
          currentTx := currentTx + [sql];
        } else {
          Stops(body, i);
          return false, [];
        }
        i := i + 1;
      }
      assert body[..i - 1] == body;
      return true, entries;
    }

    lemma Stops(lines: seq<string>, i: nat)
      requires i <= |lines| && TakeAll(START, lines[..i]) == Malformed
      ensures TakeAll(START, lines) == Malformed
    {
      hide Take, TakeAll;
      TakeConcat(START, lines[..i], lines[i..]);
      assert lines == lines[..i] + lines[i..];
      MalformedStays(lines[i..]);
    }

    /** The log starts over. */
    method Reset()
      modifies this
      ensures content == Some(HEADER + "\n")
    {
      content := Some(HEADER + "\n");
    }

    /** A malformed log is moved out of the way. */
    method QuarantineCorrupted()
      modifies this
      ensures content == Some(HEADER + "\n")
    {
      if content.Some? { content := None; }
      Reset();
    }
  }
}
