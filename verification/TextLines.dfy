/** Text as the engine's files hold it: escaped strings, and lines. */
module TextLines {
  // ---------- escaping ----------

  predicate Special(c: char) {
    c == '\\' || c == '\t' || c == '\n'
  }

  function EscapeChar(c: char): string {
    if Special(c) then ['\\', c] else [c]
  }

  function Escaped(s: string): string {
    if s == "" then "" else Escaped(s[..|s| - 1]) + EscapeChar(s[|s| - 1])
  }

  /** The text read so far, and whether the last character was an escaping backslash. */
  datatype Scan = Scan(text: string, escaped: bool)

  function ScanChar(scan: Scan, c: char): Scan {
    if scan.escaped then Scan(scan.text + [c], false)
    else if c == '\\' then Scan(scan.text, true)
    else Scan(scan.text + [c], false)
  }

  function Scanned(s: string): Scan {
    if s == "" then Scan("", false) else ScanChar(Scanned(s[..|s| - 1]), s[|s| - 1])
  }

  function Unescaped(s: string): string {
    Scanned(s).text
  }

  lemma ScanMore(s: string, c: char)
    ensures Scanned(s + [c]) == ScanChar(Scanned(s), c)
  {
    assert (s + [c])[..|s|] == s;
  }

  lemma EscapedStep(s: string)
    requires s != ""
    ensures Escaped(s) == Escaped(s[..|s| - 1]) + EscapeChar(s[|s| - 1])
  {
  }

  lemma NothingEscaped()
    ensures Escaped("") == "" && Scanned("") == Scan("", false)
  {
  }

  /** Unescaping undoes escaping, for every string. */
  lemma {:induction false} UnescapeEscape(s: string)
    ensures Scanned(Escaped(s)) == Scan(s, false)
  {
    hide Escaped, Scanned;
    if s == "" {
      NothingEscaped();
    } else {
      var n := |s| - 1;
      EscapedStep(s);
      UnescapeEscape(s[..n]);
      UnescapeChar(Escaped(s[..n]), s[..n], s[n]);
      assert s == s[..n] + [s[n]];
    }
  }

  lemma UnescapeChar(e: string, s: string, c: char)
    requires Scanned(e) == Scan(s, false)
    ensures Scanned(e + EscapeChar(c)) == Scan(s + [c], false)
  {
    hide Scanned;
    if Special(c) {
      ScanMore(e, '\\');
      ScanMore(e + ['\\'], c);
      assert e + EscapeChar(c) == e + ['\\'] + [c];
    } else {
      ScanMore(e, c);
    }
  }

  /** A part of an escaped text reads as a part of the text, and a proper part as a proper part. */
  lemma {:induction false} UnescapePrefix(s: string, j: nat)
    requires j <= |Escaped(s)|
    ensures Unescaped(Escaped(s)[..j]) <= s
    ensures j < |Escaped(s)| ==> Unescaped(Escaped(s)[..j]) < s
  {
    hide Escaped, Scanned;
    NothingEscaped();
    if s == "" {
      assert Escaped(s)[..j] == "";
    } else {
      var n := |s| - 1;
      var e := Escaped(s[..n]);
      EscapedStep(s);
      if j <= |e| {
        UnescapePrefix(s[..n], j);
        assert Escaped(s)[..j] == e[..j];
        assert Unescaped(e[..j]) <= s[..n];
      } else if j == |Escaped(s)| {
        UnescapeEscape(s);
        assert Escaped(s)[..j] == Escaped(s);
      } else {
        UnescapeEscape(s[..n]);
        ScanMore(e, '\\');
        assert Escaped(s)[..j] == e + ['\\'];
      }
    }
  }

  lemma {:induction false} EscapedConcat(a: string, b: string)
    ensures Escaped(a + b) == Escaped(a) + Escaped(b)
  {
    hide Escaped;
    NothingEscaped();
    if b == "" {
      assert a + b == a;
    } else {
      var n := |b| - 1;
      EscapedConcat(a, b[..n]);
      EscapedStep(b);
      EscapedStep(a + b);
      assert (a + b)[..|a + b| - 1] == a + b[..n];
      assert Escaped(a) + (Escaped(b[..n]) + EscapeChar(b[n])) == Escaped(a) + Escaped(b[..n]) + EscapeChar(b[n]);
    }
  }

  lemma {:induction false} EscapeKeepsLines(s: string)
    ensures '\n' in Escaped(s) <==> '\n' in s
  {
    if s != "" {
      EscapeKeepsLines(s[..|s| - 1]);
      assert s == s[..|s| - 1] + [s[|s| - 1]];
    }
  }

  lemma {:induction false} UnescapeKeepsLines(s: string)
    requires '\n' !in s
    ensures '\n' !in Unescaped(s)
  {
    if s != "" { UnescapeKeepsLines(s[..|s| - 1]); }
  }

  method Escape(value: string) returns (escaped: string)
    ensures escaped == Escaped(value)
  {
    escaped := "";
    var i := 0;
    while i < |value|
      invariant i <= |value| && escaped == Escaped(value[..i])
    {
      assert value[..i + 1][..i] == value[..i];
      if value[i] == '\\' || value[i] == '\t' || value[i] == '\n' { escaped := escaped + ['\\']; }
      escaped := escaped + [value[i]];
      i := i + 1;
    }
    assert value[..|value|] == value;
  }

  method Unescape(value: string) returns (unescaped: string)
    ensures unescaped == Unescaped(value)
  {
    unescaped := "";
    var escaped := false;
    var i := 0;
    while i < |value|
      invariant i <= |value| && Scanned(value[..i]) == Scan(unescaped, escaped)
    {
      assert value[..i + 1][..i] == value[..i];
      if escaped {
        unescaped := unescaped + [value[i]];
        escaped := false;
      } else if value[i] == '\\' {
        escaped := true;
      } else {
        unescaped := unescaped + [value[i]];
      }
      i := i + 1;
    }
    assert value[..|value|] == value;
  }

  // ---------- lines ----------

  /** The finished lines and what follows the last newline. */
  datatype Pieces = Pieces(lines: seq<string>, rest: string)

  function Cut(s: string): Pieces {
    if s == "" then Pieces([], "")
    else
      var before, c := Cut(s[..|s| - 1]), s[|s| - 1];
      if c == '\n' then Pieces(before.lines + [before.rest], "") else Pieces(before.lines, before.rest + [c])
  }

  /** The lines that reading a file yields: a last line counts without its newline, unless it is empty. */
  function Lines(s: string): seq<string> {
    var p := Cut(s);
    if p.rest == "" then p.lines else p.lines + [p.rest]
  }

  function Joined(lines: seq<string>): string {
    if lines == [] then "" else Joined(lines[..|lines| - 1]) + lines[|lines| - 1] + "\n"
  }

  predicate Plain(line: string) {
    '\n' !in line
  }

  predicate AllPlain(lines: seq<string>) {
    forall i :: 0 <= i < |lines| ==> Plain(lines[i])
  }

  lemma CutNothing()
    ensures Cut("") == Pieces([], "") && Joined([]) == ""
  {
  }

  lemma CutChar(s: string, c: char)
    requires c != '\n'
    ensures Cut(s + [c]) == Pieces(Cut(s).lines, Cut(s).rest + [c])
  {
    assert (s + [c])[..|s|] == s;
  }

  lemma CutNewline(s: string)
    ensures Cut(s + "\n") == Pieces(Cut(s).lines + [Cut(s).rest], "")
  {
    assert (s + "\n")[..|s|] == s;
  }

  lemma {:induction false} CutMore(s: string, line: string)
    requires Plain(line)
    ensures Cut(s + line) == Pieces(Cut(s).lines, Cut(s).rest + line)
  {
    hide Cut;
    if line == "" {
      assert s + line == s && Cut(s).rest + line == Cut(s).rest;
    } else {
      var n := |line| - 1;
      CutMore(s, line[..n]);
      CutChar(s + line[..n], line[n]);
      assert line == line[..n] + [line[n]];
      assert s + line == s + line[..n] + [line[n]];
      assert Cut(s).rest + line == Cut(s).rest + line[..n] + [line[n]];
    }
  }

  lemma JoinedStep(lines: seq<string>)
    requires lines != []
    ensures Joined(lines) == Joined(lines[..|lines| - 1]) + lines[|lines| - 1] + "\n"
  {
  }

  /** Whole lines appended to a file that ends in a newline. */
  lemma {:induction false} CutJoined(s: string, lines: seq<string>)
    requires AllPlain(lines) && Cut(s).rest == ""
    ensures Cut(s + Joined(lines)) == Pieces(Cut(s).lines + lines, "")
  {
    hide Cut, Joined;
    if lines == [] {
      CutNothing();
      assert s + Joined(lines) == s && Cut(s).lines + lines == Cut(s).lines;
    } else {
      var n := |lines| - 1;
      CutJoined(s, lines[..n]);
      var t := s + Joined(lines[..n]);
      CutMore(t, lines[n]);
      CutNewline(t + lines[n]);
      JoinedStep(lines);
      assert "" + lines[n] == lines[n];
      assert s + Joined(lines) == t + lines[n] + "\n";
      assert Cut(s).lines + lines == Cut(s).lines + lines[..n] + [lines[n]];
    }
  }

  lemma {:induction false} LinesArePlain(s: string)
    ensures AllPlain(Cut(s).lines) && Plain(Cut(s).rest) && AllPlain(Lines(s))
  {
    if s != "" { LinesArePlain(s[..|s| - 1]); }
  }

  /** A text line by line. */
  method ReadLines(text: string) returns (lines: seq<string>)
    ensures lines == Lines(text)
  {
    lines := [];
    var rest := "";
    var i := 0;
    while i < |text|
      invariant i <= |text| && Cut(text[..i]) == Pieces(lines, rest)
    {
      assert text[..i + 1][..i] == text[..i];
      if text[i] == '\n' {
        lines, rest := lines + [rest], "";
      } else {
        rest := rest + [text[i]];
      }
      i := i + 1;
    }
    assert text[..|text|] == text;
    if rest != "" { lines := lines + [rest]; }
  }
}
