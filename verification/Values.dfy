/** Typed values, the order predicates use on them, and their encoding as index keys. */
module Values {
  import opened Keys

  type Int64 = x: int | -0x8000_0000_0000_0000 <= x < 0x8000_0000_0000_0000

  datatype ValueType = NullType | IntType | StringType

  datatype Value = Null | Int(i: Int64) | Str(s: string)

  function TypeOf(v: Value): ValueType {
    match v
    case Null => NullType
    case Int(_) => IntType
    case Str(_) => StringType
  }

  // ---------- comparison ----------

  predicate InInt64(x: int) {
    -0x8000_0000_0000_0000 <= x < 0x8000_0000_0000_0000
  }

  /** Subtraction of 64-bit integers, which wraps around. */
  function Wrap64(x: int): int {
    if x >= 0x8000_0000_0000_0000 then x - 0x1_0000_0000_0000_0000
    else if x < -0x8000_0000_0000_0000 then x + 0x1_0000_0000_0000_0000
    else x
  }

  /** `CompareValues`: only the sign matters. */
  function CompareValues(a: Value, b: Value): int
    requires TypeOf(a) == TypeOf(b)
  {
    match a
    case Null => 0
    case Int(i) => Wrap64(i - b.i)
    case Str(s) => if Less(s, b.s) then -1 else if s == b.s then 0 else 1
  }

  /** The order that a comparison is meant to decide. */
  predicate Before(a: Value, b: Value)
    requires TypeOf(a) == TypeOf(b)
  {
    match a
    case Null => false
    case Int(i) => i < b.i
    case Str(s) => Less(s, b.s)
  }

  predicate NoOverflow(a: Value, b: Value) {
    a.Int? && b.Int? ==> InInt64(a.i - b.i)
  }

  /** Between values whose difference fits, the sign is right. */
  lemma CompareIsOrder(a: Value, b: Value)
    requires TypeOf(a) == TypeOf(b) && NoOverflow(a, b)
    ensures CompareValues(a, b) < 0 <==> Before(a, b)
    ensures CompareValues(a, b) == 0 <==> a == b
    ensures CompareValues(a, b) > 0 <==> Before(b, a)
  {
    if a.Str? { RankOrdersLexicographically(a.s, b.s); }
  }

  /** Equality never suffers from the wrap-around. */
  lemma CompareEqual(a: Value, b: Value)
    requires TypeOf(a) == TypeOf(b)
    ensures CompareValues(a, b) == 0 <==> a == b
  {
    if a.Str? { RankOrdersLexicographically(a.s, b.s); }
  }

  /** For integers the order comes out right exactly if the difference fits in 64 bits. */
  lemma CompareSignExact(a: Value, b: Value)
    requires a.Int? && b.Int?
    ensures (CompareValues(a, b) < 0 <==> Before(a, b)) <==> NoOverflow(a, b)
  {
  }

  lemma CompareOverflows()
    ensures var least, one := Int(-0x8000_0000_0000_0000), Int(1);
      Before(least, one) && CompareValues(least, one) > 0
  {
  }

  // ---------- index keys ----------

  function HexDigit(d: nat): char
    requires d < 16
  {
    if d < 10 then '0' + d as char else 'a' + (d - 10) as char
  }

  /** `width` hexadecimal digits, padded with zeros. */
  function Hex(n: nat, width: nat): (s: string)
    ensures |s| == width
  {
    if width == 0 then "" else Hex(n / 16, width - 1) + [HexDigit(n % 16)]
  }

  /** Flipping the sign bit of the two's complement form adds 2^63. */
  function EncodeIndexKey(v: Value, t: ValueType): Key
    requires v.Null? || (t == IntType <==> v.Int?)
  {
    match v
    case Null => "N"
    case Int(i) => "I" + Hex(i + 0x8000_0000_0000_0000, 16)
    case Str(s) => "S" + s
  }

  lemma {:induction false} LessAppend(x: string, y: string, c: char, d: char)
    requires |x| == |y|
    ensures LessBytes(x + [c], y + [d]) <==> LessBytes(x, y) || (x == y && c < d)
  {
    if x != [] {
      LessAppend(x[1..], y[1..], c, d);
      assert (x + [c])[1..] == x[1..] + [c] && (y + [d])[1..] == y[1..] + [d];
      assert x == [x[0]] + x[1..] && y == [y[0]] + y[1..];
    }
  }

  function Pow16(n: nat): nat {
    if n == 0 then 1 else 16 * Pow16(n - 1)
  }

  /** Hexadecimal digits of one width order as the numbers do. */
  lemma {:induction false} HexOrder(a: nat, b: nat, width: nat)
    requires a < Pow16(width) && b < Pow16(width)
    ensures LessBytes(Hex(a, width), Hex(b, width)) <==> a < b
    ensures Hex(a, width) == Hex(b, width) <==> a == b
  {
    if width > 0 {
      HexOrder(a / 16, b / 16, width - 1);
      var x, y, c, d := Hex(a / 16, width - 1), Hex(b / 16, width - 1), HexDigit(a % 16), HexDigit(b % 16);
      LessAppend(x, y, c, d);
      assert x + [c] == y + [d] <==> x == y && c == d by {
        assert (x + [c])[..width - 1] == x && (y + [d])[..width - 1] == y;
        assert (x + [c])[width - 1] == c && (y + [d])[width - 1] == d;
      }
    }
  }

  lemma PrefixedLess(c: char, x: string, y: string)
    ensures LessBytes([c] + x, [c] + y) <==> LessBytes(x, y)
    ensures [c] + x == [c] + y <==> x == y
  {
    assert ([c] + x)[1..] == x && ([c] + y)[1..] == y;
  }

  lemma IntKeysKeepOrder(i: Int64, j: Int64)
    ensures LessBytes(EncodeIndexKey(Int(i), IntType), EncodeIndexKey(Int(j), IntType)) <==> i < j
    ensures EncodeIndexKey(Int(i), IntType) == EncodeIndexKey(Int(j), IntType) <==> i == j
  {
    hide Hex, Pow16, LessBytes;
    var m, n: nat := i + 0x8000_0000_0000_0000, j + 0x8000_0000_0000_0000;
    SixteenDigits();
    HexOrder(m, n, 16);
    PrefixedLess('I', Hex(m, 16), Hex(n, 16));
  }

  /** The encoding is injective and keeps the order of the values. */
  lemma EncodeKeepsOrder(a: Value, b: Value, t: ValueType)
    requires TypeOf(a) == t && TypeOf(b) == t && t != NullType
    ensures Rank(EncodeIndexKey(a, t)) < Rank(EncodeIndexKey(b, t)) <==> Before(a, b)
    ensures EncodeIndexKey(a, t) == EncodeIndexKey(b, t) <==> a == b
  {
    hide Rank, Hex, LessBytes;
    RankOrdersLexicographically(EncodeIndexKey(a, t), EncodeIndexKey(b, t));
    if a.Int? {
      IntKeysKeepOrder(a.i, b.i);
    } else {
      PrefixedLess('S', a.s, b.s);
      RankOrdersLexicographically(a.s, b.s);
    }
  }

  lemma SixteenDigits()
    ensures Pow16(16) == 0x1_0000_0000_0000_0000
  {
    assert Pow16(4) == 0x1_0000;
    assert Pow16(8) == 0x1_0000_0000;
    assert Pow16(12) == 0x1_0000_0000_0000;
  }

  /** The bounds of the one-sided scans: the empty key is below every key, `key + "\xFF"` is above `key`, and
      "\xFF\xFF\xFF\xFF" is above every key of a value. */
  lemma ScanBounds(v: Value, t: ValueType)
    requires TypeOf(v) == t && t != NullType
    ensures Rank("") <= Rank(EncodeIndexKey(v, t))
    ensures Rank(EncodeIndexKey(v, t)) < Rank(EncodeIndexKey(v, t) + "\U{FF}")
    ensures Rank(EncodeIndexKey(v, t)) < Rank("\U{FF}\U{FF}\U{FF}\U{FF}")
  {
    hide Rank;
    var k := EncodeIndexKey(v, t);
    RankOrdersLexicographically(k, "");
    RankOrdersLexicographically(k, k + "\U{FF}");
    RankOrdersLexicographically(k, "\U{FF}\U{FF}\U{FF}\U{FF}");
    PrefixLess(k, '\U{FF}');
  }

  lemma {:induction false} PrefixLess(k: string, c: char)
    ensures LessBytes(k, k + [c])
  {
    if k != [] {
      PrefixLess(k[1..], c);
      assert (k + [c])[1..] == k[1..] + [c];
    }
  }
}
