/** The fields of a saved record: tab-separated, `key=value`, with escaped strings and decimal numbers. */
module RecordText {
  import opened Wrappers
  import opened Values
  import opened Predicates
  import opened TextLines

  // ---------- tab-separated fields ----------

  datatype Fields = Fields(parts: seq<string>, current: string, escaped: bool)

  function SplitChar(f: Fields, c: char): Fields {
    if f.escaped then Fields(f.parts, f.current + [c], false)
    else if c == '\\' then Fields(f.parts, f.current + [c], true)
    else if c == '\t' then Fields(f.parts + [f.current], "", false)
    else Fields(f.parts, f.current + [c], false)
  }

  function SplitFrom(f: Fields, s: string): Fields {
    if s == "" then f else SplitChar(SplitFrom(f, s[..|s| - 1]), s[|s| - 1])
  }

  const NO_FIELDS := Fields([], "", false)

  function Split(line: string): (parts: seq<string>)
    ensures parts != []
  {
    var f := SplitFrom(NO_FIELDS, line);
    f.parts + [f.current]
  }

  lemma SplitMore(f: Fields, s: string, c: char)
    ensures SplitFrom(f, s + [c]) == SplitChar(SplitFrom(f, s), c)
  {
    assert (s + [c])[..|s|] == s;
  }

  lemma {:induction false} SplitConcat(f: Fields, a: string, b: string)
    ensures SplitFrom(f, a + b) == SplitFrom(SplitFrom(f, a), b)
  {
    if b == "" {
      assert a + b == a;
    } else {
      var n := |b| - 1;
      SplitConcat(f, a, b[..n]);
      assert (a + b)[..|a + b| - 1] == a + b[..n];
    }
  }

  method SplitByTab(line: string) returns (parts: seq<string>)
    ensures parts == Split(line)
  {
    parts := [];
    var current, escaped := "", false;
    var i := 0;
    while i < |line|
      invariant i <= |line| && SplitFrom(NO_FIELDS, line[..i]) == Fields(parts, current, escaped)
    {
      assert line[..i + 1][..i] == line[..i];
      if escaped {
        current, escaped := current + [line[i]], false;
      } else if line[i] == '\\' {
        current, escaped := current + [line[i]], true;
      } else if line[i] == '\t' {
        parts, current := parts + [current], "";
      } else {
        current := current + [line[i]];
      }
      i := i + 1;
    }
    assert line[..|line|] == line;
    parts := parts + [current];
  }

  /** Text that stays within its field. */
  ghost predicate Tame(s: string) {
    forall f: Fields :: !f.escaped ==> SplitFrom(f, s) == Fields(f.parts, f.current + s, false)
  }

  predicate Bare(s: string) {
    '\\' !in s && '\t' !in s && '\n' !in s
  }

  lemma {:induction false} BareSplit(f: Fields, s: string)
    requires Bare(s) && !f.escaped
    ensures SplitFrom(f, s) == Fields(f.parts, f.current + s, false)
  {
    if s == "" {
      assert f.current + s == f.current;
    } else {
      var n := |s| - 1;
      BareSplit(f, s[..n]);
      assert f.current + s == f.current + s[..n] + [s[n]];
    }
  }

  lemma BareIsTame(s: string)
    requires Bare(s)
    ensures Tame(s)
  {
    forall f: Fields | !f.escaped ensures SplitFrom(f, s) == Fields(f.parts, f.current + s, false) { BareSplit(f, s); }
  }

  lemma EscapeCharSplit(f: Fields, c: char)
    requires !f.escaped
    ensures SplitFrom(f, EscapeChar(c)) == Fields(f.parts, f.current + EscapeChar(c), false)
  {
    if Special(c) {
      SplitMore(f, "", '\\');
      SplitMore(f, ['\\'], c);
      assert "" + ['\\'] == ['\\'] && ['\\'] + [c] == ['\\', c];
      assert f.current + ['\\', c] == f.current + ['\\'] + [c];
    } else {
      SplitMore(f, "", c);
      assert "" + [c] == [c];
    }
  }

  lemma {:induction false} EscapedSplit(f: Fields, s: string)
    requires !f.escaped
    ensures SplitFrom(f, Escaped(s)) == Fields(f.parts, f.current + Escaped(s), false)
  {
    hide SplitFrom, Escaped;
    if s == "" {
      NothingEscaped();
      NothingSplit(f);
      assert f.current + "" == f.current;
    } else {
      var n := |s| - 1;
      EscapedSplit(f, s[..n]);
      EscapedStep(s);
      var g := Fields(f.parts, f.current + Escaped(s[..n]), false);
      SplitConcat(f, Escaped(s[..n]), EscapeChar(s[n]));
      EscapeCharSplit(g, s[n]);
      assert f.current + Escaped(s) == f.current + Escaped(s[..n]) + EscapeChar(s[n]);
    }
  }

  lemma NothingSplit(f: Fields)
    ensures SplitFrom(f, "") == f
  {
  }

  lemma EscapedIsTame(s: string)
    ensures Tame(Escaped(s))
  {
    hide Escaped, SplitFrom;
    forall f: Fields | !f.escaped ensures SplitFrom(f, Escaped(s)) == Fields(f.parts, f.current + Escaped(s), false) {
      EscapedSplit(f, s);
    }
  }

  lemma TameConcat(a: string, b: string)
    requires Tame(a) && Tame(b)
    ensures Tame(a + b)
  {
    hide SplitFrom;
    forall f: Fields | !f.escaped ensures SplitFrom(f, a + b) == Fields(f.parts, f.current + (a + b), false) {
      TameConcatAt(f, a, b);
    }
  }

  lemma TameConcatAt(f: Fields, a: string, b: string)
    requires Tame(a) && Tame(b) && !f.escaped
    ensures SplitFrom(f, a + b) == Fields(f.parts, f.current + (a + b), false)
  {
    hide SplitFrom, Tame;
    SplitConcat(f, a, b);
    TameSplits(f, a);
    TameSplits(Fields(f.parts, f.current + a, false), b);
    assert f.current + (a + b) == f.current + a + b;
  }

  function Tabbed(fields: seq<string>): string
    requires fields != []
  {
    if |fields| == 1 then fields[0] else Tabbed(fields[..|fields| - 1]) + "\t" + fields[|fields| - 1]
  }

  ghost predicate AllTame(fields: seq<string>) {
    forall i :: 0 <= i < |fields| ==> Tame(fields[i])
  }

  /** Splitting a line gives back the fields it was made of. */
  lemma {:induction false} SplitTabbed(fields: seq<string>)
    requires fields != [] && AllTame(fields)
    ensures Split(Tabbed(fields)) == fields
    ensures SplitFrom(NO_FIELDS, Tabbed(fields)) == Fields(fields[..|fields| - 1], fields[|fields| - 1], false)
  {
    hide SplitFrom, Tame;
    var n := |fields| - 1;
    if n == 0 {
      TameSplits(NO_FIELDS, fields[0]);
      assert "" + fields[0] == fields[0];
    } else {
      SplitTabbed(fields[..n]);
      var t := Tabbed(fields[..n]);
      SplitMore(NO_FIELDS, t, '\t');
      assert t + "\t" == t + ['\t'];
      SplitConcat(NO_FIELDS, t + "\t", fields[n]);
      assert fields[..n] == fields[..n][..n - 1] + [fields[..n][n - 1]];
      TameSplits(Fields(fields[..n], "", false), fields[n]);
      assert "" + fields[n] == fields[n];
    }
    assert fields == fields[..n] + [fields[n]];
  }

  lemma TameSplits(f: Fields, s: string)
    requires Tame(s) && !f.escaped
    ensures SplitFrom(f, s) == Fields(f.parts, f.current + s, false)
  {
  }

  // ---------- key=value ----------

  /** The position of the first `=`. */
  function EqualsAt(s: string): (i: nat)
    ensures i <= |s| && '=' !in s[..i] && (i < |s| ==> s[i] == '=')
  {
    if s == "" || s[0] == '=' then 0 else
      var i := EqualsAt(s[1..]) + 1;
      assert s[..i] == [s[0]] + s[1..][..i - 1];
      i
  }

  datatype Token = Token(key: string, value: string)

  function ParseKeyValue(token: string): Option<Token> {
    var i := EqualsAt(token);
    if i == |token| || i == 0 then None else Some(Token(token[..i], token[i + 1..]))
  }

  function Pair(key: string, value: string): string {
    key + "=" + value
  }

  lemma {:induction false} EqualsAtPair(key: string, value: string)
    requires '=' !in key
    ensures EqualsAt(Pair(key, value)) == |key|
  {
    var token := Pair(key, value);
    if key == "" {
      assert token[0] == '=';
    } else {
      assert token[0] == key[0] && token[1..] == Pair(key[1..], value);
      EqualsAtPair(key[1..], value);
    }
  }

  lemma PairParses(key: string, value: string)
    requires key != "" && '=' !in key
    ensures ParseKeyValue(Pair(key, value)) == Some(Token(key, value))
  {
    hide EqualsAt;
    EqualsAtPair(key, value);
    assert Pair(key, value)[..|key|] == key && Pair(key, value)[|key| + 1..] == value;
  }

  /** The value of the first token with this key, after the record's tag. */
  function FindFrom(parts: seq<string>, index: nat, name: string): Option<string>
    decreases |parts| - index
  {
    if index >= |parts| then None
    else
      match ParseKeyValue(parts[index])
      case Some(Token(key, value)) => if key == name then Some(value) else FindFrom(parts, index + 1, name)
      case None => FindFrom(parts, index + 1, name)
  }

  function FindField(parts: seq<string>, name: string): Option<string> {
    FindFrom(parts, 1, name)
  }

  method FindFieldValue(parts: seq<string>, name: string) returns (value: Option<string>)
    ensures value == FindField(parts, name)
  {
    var index := 1;
    while index < |parts|
      invariant 1 <= index && FindField(parts, name) == FindFrom(parts, index, name)
    {
      var token := ParseKeyValue(parts[index]);
      if token.Some? && token.value.key == name { return Some(token.value.value); }
      index := index + 1;
    }
    return None;
  }

  // ---------- numbers ----------

  function DecimalDigit(d: nat): char
    requires d < 10
  {
    '0' + d as char
  }

  function Decimal(n: nat): string {
    if n < 10 then [DecimalDigit(n)] else Decimal(n / 10) + [DecimalDigit(n % 10)]
  }

  function IntText(i: int): string {
    if i < 0 then "-" + Decimal(-i) else Decimal(i)
  }

  predicate IsDigit(c: char) {
    '0' <= c <= '9'
  }

  predicate AllDigits(s: string) {
    forall i :: 0 <= i < |s| ==> IsDigit(s[i])
  }

  function DigitsValue(s: string): nat
    requires AllDigits(s)
  {
    if s == "" then 0 else DigitsValue(s[..|s| - 1]) * 10 + (s[|s| - 1] - '0') as int
  }

  lemma {:induction false} DecimalReads(n: nat)
    ensures Decimal(n) != "" && AllDigits(Decimal(n)) && DigitsValue(Decimal(n)) == n
  {
    if n >= 10 {
      DecimalReads(n / 10);
      assert Decimal(n)[..|Decimal(n)| - 1] == Decimal(n / 10);
    } else {
      assert Decimal(n)[..0] == "";
    }
  }

  predicate IsSpace(c: char) {
    c == ' ' || c == '\t' || c == '\n' || c == 11 as char || c == 12 as char || c == '\r'
  }

  function SkipSpaces(s: string): string {
    if s != "" && IsSpace(s[0]) then SkipSpaces(s[1..]) else s
  }

  /** The digits that a text starts with. */
  function LeadingDigits(s: string): (ds: string)
    ensures ds <= s && AllDigits(ds) && (|ds| < |s| ==> !IsDigit(s[|ds|]))
  {
    if s != "" && IsDigit(s[0]) then
      var ds := [s[0]] + LeadingDigits(s[1..]);
      assert forall i :: 0 < i < |ds| ==> ds[i] == LeadingDigits(s[1..])[i - 1];
      ds
    else ""
  }

  /** A number as the standard library reads it: spaces, a sign, digits; then the text that is left over. */
  datatype Reading = NoNumber | Number(negative: bool, magnitude: nat, rest: string)

  function ReadNumber(s: string): Reading {
    var t := SkipSpaces(s);
    var signed := t != "" && (t[0] == '-' || t[0] == '+');
    var u := if signed then t[1..] else t;
    var ds := LeadingDigits(u);
    if ds == "" then NoNumber else Number(signed && t[0] == '-', DigitsValue(ds), u[|ds|..])
  }

  lemma {:induction false} LeadingDigitsAll(s: string)
    requires AllDigits(s)
    ensures LeadingDigits(s) == s
  {
    if s != "" {
      assert IsDigit(s[0]);
      LeadingDigitsAll(s[1..]);
      assert s == [s[0]] + s[1..];
    }
  }

  lemma ReadsDigits(ds: string)
    requires AllDigits(ds) && ds != ""
    ensures ReadNumber(ds) == Number(false, DigitsValue(ds), "")
    ensures ReadNumber("-" + ds) == Number(true, DigitsValue(ds), "")
  {
    hide LeadingDigits, DigitsValue;
    assert IsDigit(ds[0]);
    LeadingDigitsAll(ds);
    assert ("-" + ds)[1..] == ds && ("-" + ds)[0] == '-';
    assert ds[|ds|..] == "";
  }

  lemma ReadsInt(i: int)
    ensures ReadNumber(IntText(i)) == Number(i < 0, if i < 0 then -i else i, "")
  {
    hide ReadNumber, Decimal, DigitsValue;
    var n: nat := if i < 0 then -i else i;
    DecimalReads(n);
    ReadsDigits(Decimal(n));
  }

  /** A text as the number reader sees it: spaces, a sign or none, digits, and whatever follows the last digit. */
  predicate Reads(spaces: string, sign: string, ds: string, rest: string) {
    && (forall i :: 0 <= i < |spaces| ==> IsSpace(spaces[i])) && sign in {"", "-", "+"}
    && ds != "" && AllDigits(ds) && (rest != "" ==> !IsDigit(rest[0]))
  }

  lemma {:induction false} SpacesSkipped(spaces: string, t: string)
    requires (forall i :: 0 <= i < |spaces| ==> IsSpace(spaces[i])) && (t != "" ==> !IsSpace(t[0]))
    ensures SkipSpaces(spaces + t) == t
  {
    if spaces == "" {
      assert spaces + t == t;
    } else {
      assert (spaces + t)[0] == spaces[0] && (spaces + t)[1..] == spaces[1..] + t;
      SpacesSkipped(spaces[1..], t);
    }
  }

  lemma {:induction false} LeadingDigitsOf(ds: string, rest: string)
    requires AllDigits(ds) && (rest != "" ==> !IsDigit(rest[0]))
    ensures LeadingDigits(ds + rest) == ds
  {
    if ds == "" {
      assert ds + rest == rest;
    } else {
      assert (ds + rest)[0] == ds[0] && (ds + rest)[1..] == ds[1..] + rest;
      LeadingDigitsOf(ds[1..], rest);
      assert ds == [ds[0]] + ds[1..];
    }
  }

  /** Such a text is read as the number that its digits are the decimal form of. */
  lemma ReadsNumber(spaces: string, sign: string, ds: string, rest: string)
    requires Reads(spaces, sign, ds, rest)
    ensures ReadNumber(spaces + (sign + (ds + rest))) == Number(sign == "-", DigitsValue(ds), rest)
  {
    hide LeadingDigits, DigitsValue, SkipSpaces;
    var u := ds + rest;
    var t := sign + u;
    assert IsDigit(u[0]) && u[|ds|..] == rest;
    assert if sign == "" then t == u else t[0] == sign[0] && t[1..] == u;
    SpacesSkipped(spaces, t);
    LeadingDigitsOf(ds, rest);
  }

  lemma {:induction false} SkippedSpaces(s: string) returns (n: nat)
    ensures n <= |s| && SkipSpaces(s) == s[n..] && forall i :: 0 <= i < n ==> IsSpace(s[i])
  {
    n := 0;
    if s != "" && IsSpace(s[0]) {
      n := SkippedSpaces(s[1..]);
      assert s[1..][n..] == s[n + 1..] && forall i :: 0 < i < n + 1 ==> s[i] == s[1..][i - 1];
      n := n + 1;
    }
  }

  lemma SignSplit(t: string) returns (sign: string, u: string)
    ensures sign in {"", "-", "+"} && t == sign + u
    ensures u == if t != "" && (t[0] == '-' || t[0] == '+') then t[1..] else t
  {
    if t != "" && (t[0] == '-' || t[0] == '+') {
      sign, u := [t[0]], t[1..];
      assert sign == "-" || sign == "+";
    } else {
      sign, u := "", t;
    }
  }

  lemma DigitsSplit(u: string) returns (ds: string, rest: string)
    ensures ds == LeadingDigits(u) && AllDigits(ds) && rest == u[|ds|..] && u == ds + rest
    ensures rest != "" ==> !IsDigit(rest[0])
  {
    hide LeadingDigits;
    ds := LeadingDigits(u);
    rest := u[|ds|..];
  }

  /** And no other text is read as a number. */
  lemma NumberReads(s: string) returns (spaces: string, sign: string, ds: string)
    requires ReadNumber(s).Number?
    ensures Reads(spaces, sign, ds, ReadNumber(s).rest) && s == spaces + (sign + (ds + ReadNumber(s).rest))
  {
    hide DigitsValue, SkipSpaces, LeadingDigits, IsDigit, IsSpace;
    var n := SkippedSpaces(s);
    spaces := s[..n];
    assert s == spaces + s[n..];
    var u, rest;
    sign, u := SignSplit(s[n..]);
    ds, rest := DigitsSplit(u);
    assert ReadNumber(s).rest == rest;
  }

  const WORD64 := 0x1_0000_0000_0000_0000

  /** `stoll` on the whole text. */
  function ParseInt64(s: string): Option<Int64> {
    match ReadNumber(s)
    case NoNumber => None
    case Number(negative, magnitude, rest) =>
      var i := if negative then -(magnitude as int) else magnitude as int;
      if rest != "" || !InInt64(i) then None else Some(i)
  }

  /** `stoull`: whatever follows the digits is ignored, and a minus sign wraps around. */
  function ParseRowId(s: string): Option<RowId> {
    match ReadNumber(s)
    case NoNumber => None
    case Number(negative, magnitude, _) =>
      if magnitude >= WORD64 then None
      else Some(if negative then (WORD64 - magnitude) % WORD64 else magnitude)
  }

  // ---------- values ----------

  function EncodeValue(v: Value): string {
    match v
    case Null => "Null"
    case Int(i) => "Int:" + IntText(i)
    case Str(s) => "String:" + Escaped(s)
  }

  function TryDecodeValue(encoded: string): Option<Value> {
    if encoded == "N" || encoded == "Null" then Some(Null)
    else if "I:" <= encoded || "Int:" <= encoded then
      match ParseInt64(encoded[if "Int:" <= encoded then 4 else 2..])
      case Some(i) => Some(Int(i))
      case None => None
    else if "S:" <= encoded || "String:" <= encoded then
      Some(Str(Unescaped(encoded[if "String:" <= encoded then 7 else 2..])))
    else None
  }

  /** Decoding undoes encoding, for every value. */
  lemma DecodeEncode(v: Value)
    ensures TryDecodeValue(EncodeValue(v)) == Some(v)
  {
    hide Escaped, Scanned, ReadNumber, IntText;
    match v
    case Null =>
    case Int(i) => {
      var e := EncodeValue(v);
      assert e[0] == 'I' && "Int:" <= e && e[4..] == IntText(i);
      ReadsInt(i);
      assert ParseInt64(e[4..]) == Some(i);
    }
    case Str(s) => {
      var e := EncodeValue(v);
      assert e[0] == 'S' && "String:" <= e && e[7..] == Escaped(s);
      UnescapeEscape(s);
    }
  }

  // ---------- what is read from a line holds no newline ----------

  lemma {:induction false} SplitFromPlain(f: Fields, s: string)
    requires Plain(s) && AllPlain(f.parts) && Plain(f.current)
    ensures AllPlain(SplitFrom(f, s).parts) && Plain(SplitFrom(f, s).current)
  {
    if s != "" { SplitFromPlain(f, s[..|s| - 1]); }
  }

  lemma SplitPlain(line: string)
    requires Plain(line)
    ensures AllPlain(Split(line))
  {
    hide SplitFrom;
    SplitFromPlain(NO_FIELDS, line);
  }

  lemma ValuePlain(token: string)
    requires Plain(token) && ParseKeyValue(token).Some?
    ensures Plain(ParseKeyValue(token).value.value)
  {
    hide EqualsAt;
  }

  lemma {:induction false} FindPlain(parts: seq<string>, index: nat, name: string)
    requires AllPlain(parts) && FindFrom(parts, index, name).Some?
    ensures Plain(FindFrom(parts, index, name).value)
    decreases |parts| - index
  {
    hide ParseKeyValue, Plain;
    var pair := ParseKeyValue(parts[index]);
    if pair.Some? { ValuePlain(parts[index]); }
    if pair.None? || pair.value.key != name { FindPlain(parts, index + 1, name); }
  }

  /** A field's value, unescaped, holds no newline. */
  lemma FieldPlain(parts: seq<string>, name: string)
    requires AllPlain(parts) && FindField(parts, name).Some?
    ensures Plain(FindField(parts, name).value) && Plain(Unescaped(FindField(parts, name).value))
  {
    hide FindFrom, Scanned;
    FindPlain(parts, 1, name);
    UnescapeKeepsLines(FindField(parts, name).value);
  }
}
