/** Columns, rows and change kinds as fields of saved records. */
module RecordFields {
  import opened Wrappers
  import opened Values
  import opened Predicates
  import opened History
  import opened TextLines
  import opened RecordText

  // ---------- records ----------

  /** A record: its tag and its tokens. */
  datatype Record = Record(tag: string, tokens: seq<Token>) {
    function Parts(): (parts: seq<string>)
      ensures |parts| == |tokens| + 1 && parts[0] == tag
    {
      [tag] + seq(|tokens|, i requires 0 <= i < |tokens| => Pair(tokens[i].key, tokens[i].value))
    }

    function Line(): string {
      Tabbed(Parts())
    }

    /** Keys can be told from values, and fields from each other. */
    ghost predicate Readable() {
      Bare(tag) && tag != "" && '=' !in tag && GoodTokens(tokens)
    }
  }

  ghost predicate GoodTokens(tokens: seq<Token>) {
    forall i :: 0 <= i < |tokens| ==> GoodKey(tokens[i].key) && Tame(tokens[i].value) && Plain(tokens[i].value)
  }

  lemma GoodTogether(a: seq<Token>, b: seq<Token>)
    requires GoodTokens(a) && GoodTokens(b)
    ensures GoodTokens(a + b)
  {
  }

  predicate GoodKey(key: string) {
    key != "" && Bare(key) && '=' !in key
  }

  lemma PartTame(t: Token)
    requires GoodKey(t.key) && Tame(t.value)
    ensures Tame(Pair(t.key, t.value))
  {
    hide Tame;
    BareIsTame(t.key + "=");
    TameConcat(t.key + "=", t.value);
  }

  /** Splitting a record's line gives back its fields. */
  lemma RecordSplits(r: Record)
    requires r.Readable()
    ensures Split(r.Line()) == r.Parts()
  {
    hide Tame, SplitFrom, Tabbed;
    var parts := r.Parts();
    BareIsTame(r.tag);
    forall i | 0 <= i < |parts| ensures Tame(parts[i]) {
      if i > 0 { PartTame(r.tokens[i - 1]); }
    }
    SplitTabbed(parts);
  }

  lemma {:induction false} TabbedPlain(fields: seq<string>)
    requires fields != [] && AllPlain(fields)
    ensures Plain(Tabbed(fields)) && fields[0] <= Tabbed(fields)
  {
    if |fields| > 1 { TabbedPlain(fields[..|fields| - 1]); }
  }

  /** A record is one line, and starts with its tag. */
  lemma RecordIsLine(r: Record)
    requires r.Readable()
    ensures Plain(r.Line()) && r.tag <= r.Line() && r.Line() != ""
  {
    hide Tame, Tabbed;
    var parts := r.Parts();
    forall i | 0 <= i < |parts| ensures Plain(parts[i]) {
    }
    TabbedPlain(parts);
  }

  function FindToken(tokens: seq<Token>, from: nat, name: string): Option<string>
    decreases |tokens| - from
  {
    if from >= |tokens| then None
    else if tokens[from].key == name then Some(tokens[from].value)
    else FindToken(tokens, from + 1, name)
  }

  lemma {:induction false} FieldsFound(r: Record, i: nat, name: string)
    requires r.Readable() && i <= |r.tokens|
    ensures FindFrom(r.Parts(), i + 1, name) == FindToken(r.tokens, i, name)
    decreases |r.tokens| - i
  {
    hide Tame, ParseKeyValue;
    if i < |r.tokens| {
      PairParses(r.tokens[i].key, r.tokens[i].value);
      FieldsFound(r, i + 1, name);
    }
  }

  /** The first token of that name. */
  lemma {:induction false} TokenFound(tokens: seq<Token>, from: nat, k: nat, name: string)
    requires from <= k < |tokens| && tokens[k].key == name && forall j :: from <= j < k ==> tokens[j].key != name
    ensures FindToken(tokens, from, name) == Some(tokens[k].value)
    decreases k - from
  {
    if from < k { TokenFound(tokens, from + 1, k, name); }
  }

  lemma FieldAt(r: Record, k: nat, name: string)
    requires r.Readable() && k < |r.tokens| && r.tokens[k].key == name && forall j :: 0 <= j < k ==>
      r.tokens[j].key != name
    ensures FindField(r.Parts(), name) == Some(r.tokens[k].value)
  {
    hide Tame, FindFrom, FindToken;
    FieldsFound(r, 0, name);
    TokenFound(r.tokens, 0, k, name);
  }

  // ---------- names ----------

  function TypeName(t: ValueType): string {
    match t
    case NullType => "NULL"
    case IntType => "INT"
    case StringType => "STRING"
  }

  function ParseTypeName(s: string): Option<ValueType> {
    if s == "INT" then Some(IntType)
    else if s == "STRING" then Some(StringType)
    else if s == "NULL" then Some(NullType)
    else None
  }

  function ConstraintName(c: Constraint): string {
    match c
    case Free => "NONE"
    case NotNull => "NOT_NULL"
    case Indexed => "INDEXED"
  }

  function ParseConstraintName(s: string): Option<Constraint> {
    if s == "NONE" then Some(Free)
    else if s == "NOT_NULL" then Some(NotNull)
    else if s == "INDEXED" then Some(Indexed)
    else None
  }

  function ChangeKindName(kind: ChangeKind): string {
    match kind
    case CreateDatabase => "CREATE_DATABASE"
    case DropDatabase => "DROP_DATABASE"
    case CreateTable => "CREATE_TABLE"
    case DropTable => "DROP_TABLE"
    case InsertRow => "INSERT_ROW"
    case UpdateRow => "UPDATE_ROW"
    case DeleteRow => "DELETE_ROW"
  }

  function ParseChangeKind(s: string): Option<ChangeKind> {
    if s == "CREATE_DATABASE" then Some(CreateDatabase)
    else if s == "DROP_DATABASE" then Some(DropDatabase)
    else if s == "CREATE_TABLE" then Some(CreateTable)
    else if s == "DROP_TABLE" then Some(DropTable)
    else if s == "INSERT_ROW" then Some(InsertRow)
    else if s == "UPDATE_ROW" then Some(UpdateRow)
    else if s == "DELETE_ROW" then Some(DeleteRow)
    else None
  }

  /** Every name is read back as what it names. */
  lemma TypeNameReads(t: ValueType)
    ensures ParseTypeName(TypeName(t)) == Some(t) && Bare(TypeName(t))
  {
    match t
    case NullType => assert TypeName(t)[0] == 'N';
    case IntType => assert TypeName(t)[0] == 'I';
    case StringType => assert TypeName(t)[0] == 'S';
  }

  lemma ConstraintNameReads(c: Constraint)
    ensures ParseConstraintName(ConstraintName(c)) == Some(c) && Bare(ConstraintName(c))
  {
    match c
    case Free => assert |ConstraintName(c)| == 4;
    case NotNull => assert |ConstraintName(c)| == 8;
    case Indexed => assert |ConstraintName(c)| == 7;
  }

  lemma KindReads(kind: ChangeKind)
    ensures ParseChangeKind(ChangeKindName(kind)) == Some(kind) && Bare(ChangeKindName(kind))
  {
    var s := ChangeKindName(kind);
    assert s[0] == 'C' || s[0] == 'D' || s[0] == 'I' || s[0] == 'U';
  }

  // ---------- field values ----------

  predicate PlainValue(v: Value) {
    v.Str? ==> Plain(v.s)
  }

  lemma BareField(s: string)
    requires Bare(s)
    ensures Tame(s) && Plain(s)
  {
    BareIsTame(s);
  }

  lemma EscapedField(s: string)
    requires Plain(s)
    ensures Tame(Escaped(s)) && Plain(Escaped(s))
  {
    EscapedIsTame(s);
    EscapeKeepsLines(s);
  }

  lemma {:induction false} DecimalBare(n: nat)
    ensures Bare(Decimal(n))
  {
    if n >= 10 { DecimalBare(n / 10); }
  }

  lemma DecimalField(n: nat)
    ensures Tame(Decimal(n)) && Plain(Decimal(n))
  {
    DecimalBare(n);
    BareField(Decimal(n));
  }

  lemma ValueField(v: Value)
    requires PlainValue(v)
    ensures Tame(EncodeValue(v)) && Plain(EncodeValue(v))
  {
    hide Tame, Escaped, Decimal;
    match v
    case Null => BareField("Null");
    case Int(i) => {
      DecimalBare(if i < 0 then -(i as int) else i);
      BareField(EncodeValue(v));
    }
    case Str(s) => {
      EscapedField(s);
      BareField("String:");
      TameConcat("String:", Escaped(s));
    }
  }

  // ---------- columns ----------

  function DefaultText(c: Column): string {
    if c.default.Some? then EncodeValue(c.default.value) else "Null"
  }

  function ColumnTokens(c: Column): seq<Token> {
    [Token("name", Escaped(c.name)), Token("type", TypeName(c.typ)),
     Token("constraint", ConstraintName(c.constraint)), Token("default", DefaultText(c))]
  }

  /** A column as it is read back: a default of NULL is no default. */
  function Normal(c: Column): Column {
    if c.default == Some(Null) then c.(default := None) else c
  }

  predicate PlainColumn(c: Column) {
    Plain(c.name) && (c.default.Some? ==> PlainValue(c.default.value))
  }

  function ParseColumn(parts: seq<string>): Option<Column> {
    var name, typ := FindField(parts, "name"), FindField(parts, "type");
    var constraint, default := FindField(parts, "constraint"), FindField(parts, "default");
    if name.None? || typ.None? || constraint.None? || default.None? then None
    else
      match ParseTypeName(typ.value)
      case None => None
      case Some(t) =>
        match ParseConstraintName(constraint.value)
        case None => None
        case Some(c) =>
          match TryDecodeValue(default.value)
          case None => None
          case Some(v) => Some(Column(Unescaped(name.value), t, c, if v.Null? then None else Some(v)))
  }

  lemma ColumnKeys()
    ensures GoodKey("name") && GoodKey("type") && GoodKey("constraint") && GoodKey("default")
  {
  }

  lemma NullIsBare()
    ensures Bare("Null")
  {
  }

  lemma ColumnTokensReadable(c: Column)
    requires PlainColumn(c)
    ensures GoodTokens(ColumnTokens(c))
  {
    hide Tame, Escaped, EncodeValue, TypeName, ConstraintName, GoodKey, Bare;
    ColumnKeys();
    EscapedField(c.name);
    TypeNameReads(c.typ);
    ConstraintNameReads(c.constraint);
    NullIsBare();
    BareField(TypeName(c.typ));
    BareField(ConstraintName(c.constraint));
    BareField("Null");
    if c.default.Some? { ValueField(c.default.value); }
  }

  /** A column is read back from its tokens, whatever other tokens come before them. */
  lemma ColumnReads(r: Record, k: nat, c: Column)
    requires r.Readable() && PlainColumn(c) && |r.tokens| == k + 4 && r.tokens[k..] == ColumnTokens(c)
    requires forall j :: 0 <= j < k ==> r.tokens[j].key !in {"name", "type", "constraint", "default"}
    ensures ParseColumn(r.Parts()) == Some(Normal(c))
  {
    hide Tame, FindFrom, Escaped, Scanned, EncodeValue, TryDecodeValue, TypeName, ConstraintName, ParseTypeName,
      ParseConstraintName;
    forall i | 0 <= i < 4 ensures r.tokens[k + i] == ColumnTokens(c)[i] {
      assert r.tokens[k..][i] == r.tokens[k + i];
    }
    FieldAt(r, k, "name");
    FieldAt(r, k + 1, "type");
    FieldAt(r, k + 2, "constraint");
    FieldAt(r, k + 3, "default");
    TypeNameReads(c.typ);
    ConstraintNameReads(c.constraint);
    UnescapeEscape(c.name);
    DefaultReads(c);
  }

  lemma DefaultReads(c: Column)
    ensures TryDecodeValue(DefaultText(c)) == Some(if c.default.Some? then c.default.value else Null)
  {
    hide Escaped, TryDecodeValue;
    DecodeEncode(if c.default.Some? then c.default.value else Null);
  }

  // ---------- rows ----------

  const INVALID_ROW_ID: RowId := WORD64 - 1

  function ValueToken(v: Value): Token {
    Token("value", EncodeValue(v))
  }

  function RowTokens(id: RowId, values: seq<Value>): seq<Token> {
    [Token("row_id", Decimal(id))] + seq(|values|, i requires 0 <= i < |values| => ValueToken(values[i]))
  }

  predicate PlainValues(values: seq<Value>) {
    forall i :: 0 <= i < |values| ==> PlainValue(values[i])
  }

  predicate PlainRow(row: Row) {
    row.id < WORD64 && PlainValues(row.values)
  }

  /** A row without an id has the invalid one; None if the id is no number. */
  function ParseId(parts: seq<string>): Option<RowId> {
    match FindField(parts, "row_id")
    case None => Some(INVALID_ROW_ID)
    case Some(text) => ParseRowId(text)
  }

  /** The values among the fields.  A field that is no key and value is a value itself (`bare`) or skipped. */
  function ParseValues(parts: seq<string>, bare: bool): Option<seq<Value>> {
    if parts == [] then Some([])
    else
      var before, last := ParseValues(parts[..|parts| - 1], bare), parts[|parts| - 1];
      if before.None? then None
      else
        match ParseKeyValue(last)
        case None => if bare then Decoded(before.value, last) else before
        case Some(Token(key, value)) => if key == "value" then Decoded(before.value, value) else before
  }

  function Decoded(values: seq<Value>, encoded: string): Option<seq<Value>> {
    match TryDecodeValue(encoded)
    case None => None
    case Some(v) => Some(values + [v])
  }

  lemma RowKeys()
    ensures GoodKey("row_id") && GoodKey("value")
  {
  }

  lemma RowTokensReadable(row: Row)
    requires PlainRow(row)
    ensures GoodTokens(RowTokens(row.id, row.values))
  {
    hide Tame, EncodeValue, Decimal, GoodKey;
    RowKeys();
    var tokens := RowTokens(row.id, row.values);
    forall i | 0 <= i < |tokens| ensures GoodKey(tokens[i].key) && Tame(tokens[i].value) && Plain(tokens[i].value) {
      if i == 0 { DecimalField(row.id); } else { ValueField(row.values[i - 1]); }
    }
  }

  lemma IdReads(id: RowId)
    requires id < WORD64
    ensures ParseRowId(Decimal(id)) == Some(id)
  {
    hide ReadNumber, Decimal;
    ReadsInt(id);
  }

  /** A row's id is read back from its tokens, whatever other tokens come before them. */
  lemma RowIdReads(r: Record, k: nat, row: Row)
    requires r.Readable() && PlainRow(row) && k < |r.tokens| && r.tokens[k..] == RowTokens(row.id, row.values)
    requires forall j :: 0 <= j < k ==> r.tokens[j].key != "row_id"
    ensures ParseId(r.Parts()) == Some(row.id)
  {
    hide Tame, FindFrom, Decimal, ParseRowId, EncodeValue;
    assert r.tokens[k] == r.tokens[k..][0];
    FieldAt(r, k, "row_id");
    IdReads(row.id);
  }

  /** Fields that hold no value. */
  predicate NoValue(part: string) {
    match ParseKeyValue(part)
    case None => true
    case Some(Token(key, _)) => key != "value"
  }

  lemma {:induction false} ValuesSkip(parts: seq<string>, bare: bool)
    requires forall i :: 0 <= i < |parts| ==> NoValue(parts[i]) && (bare ==> ParseKeyValue(parts[i]).Some?)
    ensures ParseValues(parts, bare) == Some([])
  {
    hide ParseKeyValue;
    if parts != [] {
      var n := |parts| - 1;
      assert NoValue(parts[n]);
      ValuesSkip(parts[..n], bare);
    }
  }

  function ValueFields(values: seq<Value>): seq<string> {
    seq(|values|, i requires 0 <= i < |values| => Pair("value", EncodeValue(values[i])))
  }

  /** The values are read back, after fields that hold none. */
  lemma {:induction false} ValuesRead(first: seq<string>, values: seq<Value>, bare: bool)
    requires forall i :: 0 <= i < |first| ==> NoValue(first[i]) && (bare ==> ParseKeyValue(first[i]).Some?)
    ensures ParseValues(first + ValueFields(values), bare) == Some(values)
  {
    hide ParseKeyValue, EncodeValue, TryDecodeValue, NoValue;
    var more := ValueFields(values);
    if values == [] {
      assert first + more == first;
      ValuesSkip(first, bare);
    } else {
      var n := |values| - 1;
      ValuesRead(first, values[..n], bare);
      assert (first + more)[..|first + more| - 1] == first + ValueFields(values[..n]);
      PairParses("value", EncodeValue(values[n]));
      DecodeEncode(values[n]);
      assert values == values[..n] + [values[n]];
    }
  }

  // ---------- what is read from fields holds no newline ----------

  lemma DecodedPlain(encoded: string)
    requires Plain(encoded) && TryDecodeValue(encoded).Some?
    ensures PlainValue(TryDecodeValue(encoded).value)
  {
    hide ReadNumber, Scanned;
    if |encoded| >= 7 { UnescapeKeepsLines(encoded[7..]); }
    if |encoded| >= 2 { UnescapeKeepsLines(encoded[2..]); }
  }

  lemma ParsedColumnPlain(parts: seq<string>)
    requires AllPlain(parts) && ParseColumn(parts).Some?
    ensures PlainColumn(ParseColumn(parts).value)
  {
    hide FindFrom, Scanned, TryDecodeValue, Plain;
    FieldPlain(parts, "name");
    FieldPlain(parts, "default");
    DecodedPlain(FindField(parts, "default").value);
  }

  lemma {:induction false} ParsedValuesPlain(parts: seq<string>, bare: bool)
    requires AllPlain(parts) && ParseValues(parts, bare).Some?
    ensures PlainValues(ParseValues(parts, bare).value)
  {
    hide ParseKeyValue, TryDecodeValue, Plain, PlainValue;
    if parts != [] {
      var last := parts[|parts| - 1];
      ParsedValuesPlain(parts[..|parts| - 1], bare);
      if ParseKeyValue(last).Some? {
        ValuePlain(last);
        OneDecodedPlain(ParseKeyValue(last).value.value);
      } else {
        OneDecodedPlain(last);
      }
    }
  }

  lemma OneDecodedPlain(encoded: string)
    requires Plain(encoded)
    ensures TryDecodeValue(encoded).Some? ==> PlainValue(TryDecodeValue(encoded).value)
  {
    hide TryDecodeValue;
    if TryDecodeValue(encoded).Some? { DecodedPlain(encoded); }
  }
}
