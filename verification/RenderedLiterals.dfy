/** String literals that a coordinator writes into the SQL for a node, and what the node's lexer makes of them. */
module RenderedLiterals {
  import opened Values

  const QUOTE := '"'
  const BACKSLASH := '\\'

  // ---------- writing ----------

  function Quoted(s: string): string {
    if s == "" then ""
    else
      var n := |s| - 1;
      Quoted(s[..n]) + (if s[n] == BACKSLASH || s[n] == QUOTE then [BACKSLASH] else "") + [s[n]]
  }

  function Rendered(s: string): string {
    [QUOTE] + Quoted(s) + [QUOTE]
  }

  method RenderString(s: string) returns (sql: string)
    ensures sql == Rendered(s)
  {
    sql := [QUOTE];
    var i := 0;
    while i < |s|
      invariant i <= |s| && sql == [QUOTE] + Quoted(s[..i])
    {
      assert s[..i + 1][..i] == s[..i];
      if s[i] == BACKSLASH || s[i] == QUOTE { sql := sql + [BACKSLASH]; }
      sql := sql + [s[i]];
      i := i + 1;
    }
    assert s[..|s|] == s;
    sql := sql + [QUOTE];
  }

  // ---------- reading ----------

  /** A quote that no backslash precedes. */
  predicate Closes(sql: string, i: nat) {
    0 < i < |sql| && sql[i] == QUOTE && sql[i - 1] != BACKSLASH
  }

  /** The end of the string token that starts with a quote at the first position: behind the first quote that closes it,
      or the end of the text. */
  predicate EndsAt(sql: string, end: nat) {
    1 <= end <= |sql| && (forall i :: 1 <= i < end - 1 ==> !Closes(sql, i)) && (end < |sql| ==> Closes(sql, end - 1))
  }

  method ReadString(sql: string) returns (literal: string)
    requires sql != "" && sql[0] == QUOTE
    ensures literal <= sql && EndsAt(sql, |literal|)
  {
    literal := [sql[0]];
    var i := 1;
    while i < |sql|
      invariant 1 <= i <= |sql| && literal == sql[..i]
      invariant forall j :: 1 <= j < i ==> !Closes(sql, j)
    {
      literal := literal + [sql[i]];
      if sql[i] == QUOTE && |literal| > 1 && literal[|literal| - 2] != BACKSLASH {
        assert Closes(sql, i);
        return;
      }
      i := i + 1;
    }
  }

  /** Contents that a string token in the middle of a statement can have. */
  predicate Lexable(s: string) {
    (s != "" ==> s[|s| - 1] != BACKSLASH) && forall i :: 0 <= i < |s| && s[i] == QUOTE ==>
      i > 0 && s[i - 1] == BACKSLASH
  }

  /** The lexer ends a token behind `"` + s + `"` if and only if `s` is such a content. */
  lemma TokenIsLexable(s: string, rest: string)
    requires rest != ""
    ensures EndsAt([QUOTE] + s + [QUOTE] + rest, |s| + 2) <==> Lexable(s)
  {
    var sql, n := [QUOTE] + s + [QUOTE] + rest, |s| + 2;
    assert sql[n - 1] == QUOTE && (s != "" ==> sql[n - 2] == s[|s| - 1]);
    forall i | 0 <= i < |s| ensures Closes(sql, i + 1) <==> s[i] == QUOTE && (i > 0 ==> s[i - 1] != BACKSLASH) {
      assert sql[i + 1] == s[i] && (i > 0 ==> sql[i] == s[i - 1]);
    }
    if Lexable(s) {
      forall i | 1 <= i < n - 1 ensures !Closes(sql, i) { assert Closes(sql, i - 1 + 1) <==> Closes(sql, i); }
    }
    if EndsAt(sql, n) {
      forall i | 0 <= i < |s| && s[i] == QUOTE ensures i > 0 && s[i - 1] == BACKSLASH { assert !Closes(sql, i + 1); }
    }
  }

  // ---------- one after the other ----------

  lemma {:induction false} QuotedShape(s: string)
    ensures (s == "") == (Quoted(s) == "") && |Quoted(s)| >= |s|
    ensures s != "" ==> Quoted(s)[|Quoted(s)| - 1] == s[|s| - 1]
    ensures forall i :: 0 <= i < |Quoted(s)| && Quoted(s)[i] == QUOTE ==> i > 0 && Quoted(s)[i - 1] == BACKSLASH
    ensures |Quoted(s)| == |s| <==> BACKSLASH !in s && QUOTE !in s
    ensures |Quoted(s)| == |s| ==> Quoted(s) == s
  {
    if s != "" {
      var n := |s| - 1;
      QuotedShape(s[..n]);
      assert s == s[..n] + [s[n]];
    }
  }

  /** A node reads a rendered string, whatever follows it, as one token; its content is the string with a backslash
      before every backslash and every quote, so it is the string itself if and only if it contains neither. */
  lemma RenderedReads(s: string, rest: string)
    requires Lexable(s) && rest != ""
    ensures EndsAt(Rendered(s) + rest, |Rendered(s)|)
    ensures Quoted(s) == s <==> BACKSLASH !in s
  {
    QuotedShape(s);
    TokenIsLexable(Quoted(s), rest);
    if BACKSLASH !in s {
      forall i | 0 <= i < |s| ensures s[i] != QUOTE {}
    }
  }

  /** A literal as a node reads what a coordinator has rendered. */
  function Reread(v: Value): Value {
    if v.Str? then Str(Quoted(v.s)) else v
  }

  predicate Unescaped(v: Value) {
    v.Str? ==> BACKSLASH !in v.s && QUOTE !in v.s
  }

  lemma RereadExact(v: Value)
    ensures Reread(v) == v <==> Unescaped(v)
  {
    if v.Str? { QuotedShape(v.s); }
  }
}
