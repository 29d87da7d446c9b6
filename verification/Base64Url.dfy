/** Base64url without padding (section 5 of RFC 4648), as the access controller writes and reads it. */
module Base64Url {
  import opened Wrappers

  newtype Byte = x: int | 0 <= x < 256

  type Digit = d: nat | d < 64 witness 0

  const WORD := 0x1_0000_0000 // the accumulator has 32 bits

  /** The alphabet: A-Z, a-z, 0-9, '-' and '_'. */
  function CharOf(d: Digit): char {
    if d < 26 then 'A' + d as char
    else if d < 52 then 'a' + (d - 26) as char
    else if d < 62 then '0' + (d - 52) as char
    else if d == 62 then '-' else '_'
  }

  /** The reverse table: -1 for characters outside the alphabet. */
  function DigitOf(c: char): (d: int)
    ensures -1 <= d < 64
    ensures d >= 0 ==> CharOf(d) == c
    ensures d < 0 ==> forall e: Digit :: CharOf(e) != c
  {
    if 'A' <= c <= 'Z' then (c - 'A') as int
    else if 'a' <= c <= 'z' then (c - 'a') as int + 26
    else if '0' <= c <= '9' then (c - '0') as int + 52
    else if c == '-' then 62
    else if c == '_' then 63
    else -1
  }

  const CAPITALS := "ABCDEFGHIJKLMNOPQRSTUVWXYZ"
  const SMALLS := "abcdefghijklmnopqrstuvwxyz"
  const OTHERS := "0123456789-_"

  /** The alphabet is the one of table 2 in section 5 of RFC 4648. */
  lemma CharOfIsAlphabet(d: Digit)
    ensures d < 26 ==> CharOf(d) == CAPITALS[d]
    ensures 26 <= d < 52 ==> CharOf(d) == SMALLS[d - 26]
    ensures 52 <= d ==> CharOf(d) == OTHERS[d - 52]
  {
    if d < 26 {
      assert d in {0, 1, 2, 3, 4, 5, 6, 7, 8, 9, 10, 11, 12, 13, 14, 15, 16, 17, 18, 19, 20, 21, 22, 23, 24, 25};
    } else if d < 52 {
      assert d - 26 in {0, 1, 2, 3, 4, 5, 6, 7, 8, 9, 10, 11, 12, 13, 14, 15, 16, 17, 18, 19, 20, 21, 22, 23, 24, 25};
    } else {
      assert d - 52 in {0, 1, 2, 3, 4, 5, 6, 7, 8, 9, 10, 11};
    }
  }

  lemma DigitOfChar(d: Digit)
    ensures DigitOf(CharOf(d)) == d
  {
  }

  function Chars(ds: seq<Digit>): string {
    seq(|ds|, i requires 0 <= i < |ds| => CharOf(ds[i]))
  }

  // ---------- writing ----------

  /** The digits of a byte string: four for three bytes, two for a last one, three for a last two. */
  function Digits(data: seq<Byte>): seq<Digit> {
    if |data| >= 3 then Block(data[0] as nat * 65536 + data[1] as nat * 256 + data[2] as nat) + Digits(data[3..])
    else if |data| == 2 then Block(data[0] as nat * 65536 + data[1] as nat * 256)[..3]
    else if |data| == 1 then Block(data[0] as nat * 65536)[..2]
    else []
  }

  /** The four digits of a 24-bit word. */
  function Block(w: nat): (ds: seq<Digit>)
    ensures |ds| == 4
  {
    [w / 262144 % 64, w / 4096 % 64, w / 64 % 64, w % 64]
  }

  function Encoded(data: seq<Byte>): string {
    Chars(Digits(data))
  }

  /** The vectors of section 10 of RFC 4648 that show each length of the tail, and the two characters in which this
      alphabet differs from the plain one. */
  lemma Vectors()
    ensures Encoded([]) == ""
    ensures Encoded([102]) == "Zg" && Encoded([102, 111]) == "Zm8" && Encoded([102, 111, 111]) == "Zm9v"
    ensures Encoded([251, 255]) == "-_8"
  {
    hide Digits;
    VectorDigits();
  }

  lemma VectorDigits()
    ensures Digits([]) == [] && Digits([102]) == [25, 32] && Digits([102, 111]) == [25, 38, 60]
    ensures Digits([102, 111, 111]) == [25, 38, 61, 47] && Digits([251, 255]) == [62, 63, 60]
  {
    assert [102, 111, 111][3..] == [];
  }

  method Base64UrlEncode(data: seq<Byte>) returns (output: string)
    ensures output == Chars(Digits(data))
  {
    hide Block, CharOf, Chars, Digits;
    output := "";
    var index := 0;
    assert data[0..] == data;
    while index + 3 <= |data|
      invariant index <= |data| && output + Chars(Digits(data[index..])) == Chars(Digits(data))
    {
      var block := Block(data[index] as nat * 65536 + data[index + 1] as nat * 256 + data[index + 2] as nat);
      DigitsStep(data, index);
      FourChars(block);
      Regrouped(output, Chars(block), Chars(Digits(data[index + 3..])));
      output := output + [CharOf(block[0]), CharOf(block[1]), CharOf(block[2]), CharOf(block[3])];
      index := index + 3;
    }
    DigitsEnd(data, index);
    var rem := |data| - index;
    if rem == 1 {
      var block := Block(data[index] as nat * 65536);
      output := output + [CharOf(block[0]), CharOf(block[1])];
    } else if rem == 2 {
      var block := Block(data[index] as nat * 65536 + data[index + 1] as nat * 256);
      output := output + [CharOf(block[0]), CharOf(block[1]), CharOf(block[2])];
    }
  }

  lemma FourChars(ds: seq<Digit>)
    requires |ds| == 4
    ensures Chars(ds) == [CharOf(ds[0]), CharOf(ds[1]), CharOf(ds[2]), CharOf(ds[3])]
  {
  }

  lemma Regrouped(a: string, b: string, c: string)
    ensures a + b + c == a + (b + c)
  {
  }

  /** The last one or two bytes. */
  lemma DigitsEnd(data: seq<Byte>, index: nat)
    requires index <= |data| < index + 3
    ensures var rem, rest := |data| - index, Chars(Digits(data[index..]));
      && (rem == 0 ==> rest == "")
      && (rem == 1 ==> var block := Block(data[index] as nat * 65536); rest == [CharOf(block[0]), CharOf(block[1])])
      && (rem == 2 ==>
            var block := Block(data[index] as nat * 65536 + data[index + 1] as nat * 256);
            rest == [CharOf(block[0]), CharOf(block[1]), CharOf(block[2])])
  {
    hide CharOf;
  }

  lemma DigitsStep(data: seq<Byte>, index: nat)
    requires index + 3 <= |data|
    ensures var block := Block(data[index] as nat * 65536 + data[index + 1] as nat * 256 + data[index + 2] as nat);
      Chars(Digits(data[index..])) == Chars(block) + Chars(Digits(data[index + 3..]))
  {
    assert data[index..][3..] == data[index + 3..];
  }

  // ---------- reading ----------

  /** The decoder's state: the bytes so far, the accumulator and how many of its low bits are still to be used. */
  datatype Decoder = Decoder(bytes: seq<Byte>, value: nat, bits: nat)

  /** One digit: six more bits, and a byte as soon as there are eight. */
  function Feed(s: Decoder, d: Digit): (s': Decoder)
    requires s.bits < 8
    ensures s'.bits < 8
  {
    Drained(s.bytes, (s.value * 64 + d) % WORD, s.bits + 6)
  }

  function Drained(bytes: seq<Byte>, value: nat, bits: nat): (s: Decoder)
    requires bits < 14
    ensures s.bits < 8
  {
    if bits >= 8 then Decoder(bytes + [(value / Pow2(bits - 8) % 256) as Byte], value, bits - 8)
    else Decoder(bytes, value, bits)
  }

  function Pow2(n: nat): (p: nat)
    ensures p > 0
  {
    if n == 0 then 1 else 2 * Pow2(n - 1)
  }

  function FeedAll(s: Decoder, ds: seq<Digit>): (s': Decoder)
    requires s.bits < 8
    ensures s'.bits < 8
    decreases |ds|
  {
    if ds == [] then s else FeedAll(Feed(s, ds[0]), ds[1..])
  }

  /** What the decoder makes of a string. */
  function Decoded(data: string): Option<seq<Byte>> {
    if exists i :: 0 <= i < |data| && DigitOf(data[i]) < 0 then None
    else
      var s := FeedAll(Decoder([], 0, 0), seq(|data|, i requires 0 <= i < |data| => DigitOf(data[i])));
      if s.bits == 1 || s.bits == 3 || s.bits == 5 then None else Some(s.bytes)
  }

  method Base64UrlDecode(data: string) returns (r: Option<seq<Byte>>)
    ensures r == Decoded(data)
  {
    var bytes: seq<Byte> := [];
    var value := 0;
    var bits := 0;
    ghost var ds: seq<Digit> := [];
    var i := 0;
    while i < |data|
      invariant i <= |data| && 0 <= bits < 8 && 0 <= value
      invariant forall j :: 0 <= j < i ==> DigitOf(data[j]) >= 0
      invariant |ds| == i && forall j :: 0 <= j < i ==> ds[j] == DigitOf(data[j])
      invariant FeedAll(Decoder([], 0, 0), ds) == Decoder(bytes, value, bits)
    {
      var decoded := DigitOf(data[i]);
      if decoded < 0 { return None; }
      FeedLast(Decoder([], 0, 0), ds, decoded);
      value := (value * 64 + decoded) % WORD;
      bits := bits + 6;
      while bits >= 8
        invariant 0 <= bits < 14
        invariant FeedAll(Decoder([], 0, 0), ds + [decoded]) == Drained(bytes, value, bits)
      {
        bits := bits - 8;
        bytes := bytes + [(value / Pow2(bits) % 256) as Byte];
      }
      ds := ds + [decoded];
      i := i + 1;
    }
    assert ds == seq(|data|, i requires 0 <= i < |data| => DigitOf(data[i]));
    if bits == 1 || bits == 3 || bits == 5 { return None; }
    return Some(bytes);
  }

  lemma {:induction false} FeedLast(s: Decoder, ds: seq<Digit>, d: Digit)
    requires s.bits < 8
    ensures FeedAll(s, ds + [d]) == Feed(FeedAll(s, ds), d)
    decreases |ds|
  {
    if ds == [] {
      assert [d][1..] == [];
    } else {
      FeedLast(Feed(s, ds[0]), ds[1..], d);
      assert (ds + [d])[0] == ds[0] && (ds + [d])[1..] == ds[1..] + [d];
    }
  }

  // ---------- reading back what was written ----------

  /** Quotient and remainder are determined by their sum. */
  lemma Divided(q: nat, r: nat, m: nat)
    requires r < m
    ensures (q * m + r) / m == q && (q * m + r) % m == r
  {
    var x := q * m + r;
    var q', r' := x / m, x % m;
    assert (q - q') * m == r' - r;
    if q > q' {
      Multiple(q - q', m);
    } else if q < q' {
      Multiple(q' - q, m);
    }
  }

  lemma Multiple(k: nat, m: nat)
    requires k > 0
    ensures k * m >= m
  {
  }

  /** Wrapping around at 32 bits does not disturb the low bits. */
  lemma LowBits(x: nat, m: nat, k: nat)
    requires m > 0 && k * m == WORD
    ensures x % WORD % m == x % m
  {
    var q, r := x / WORD, x % WORD;
    assert x == (q * k + r / m) * m + r % m by {
      assert x == q * WORD + r && r == r / m * m + r % m;
      assert q * (k * m) == q * k * m;
    }
    Divided(q * k + r / m, r % m, m);
  }

  lemma Quotient16(x: nat)
    ensures x / 16 % 256 == x % 4096 / 16
  {
    var q, r := x / 4096, x % 4096;
    var a, b := r / 16, r % 16;
    assert x == (q * 256 + a) * 16 + b;
  }

  lemma Quotient4(x: nat)
    ensures x / 4 % 256 == x % 1024 / 4
  {
    var q, r := x / 1024, x % 1024;
    var a, b := r / 4, r % 4;
    assert x == (q * 256 + a) * 4 + b;
  }

  /** Six bits pushed in below the low bits kept. */
  lemma Pushed(v: nat, d: Digit, m: nat)
    requires m > 0
    ensures (v * 64 + d) % (m * 64) == v % m * 64 + d
  {
    var q, r := v / m, v % m;
    assert v * 64 + d == q * (m * 64) + (r * 64 + d) by {
      assert v == q * m + r;
      assert q * m * 64 == q * (m * 64);
    }
    Divided(q, r * 64 + d, m * 64);
  }

  lemma Regroup(v: nat, k: nat, m: nat, q: nat)
    ensures v * (k * m) + q * m == (v * k + q) * m
  {
  }

  lemma PushedLow(v: nat, d: Digit, m: nat, k: nat)
    requires m > 0 && k * m == 64
    ensures (v * 64 + d) % m == d % m
  {
    var q, r := d / m, d % m;
    assert d == q * m + r;
    Regroup(v, k, m, q);
    Divided(v * k + q, r, m);
  }

  lemma SecondDigit(v: nat, d: Digit)
    ensures (v * 64 + d) % WORD / 16 % 256 == (v % 64 * 64 + d) / 16
    ensures (v * 64 + d) % WORD % 16 == d % 16
  {
    var x := (v * 64 + d) % WORD;
    assert x / 16 % 256 == x % 4096 / 16 by { Quotient16(x); }
    assert x % 4096 == (v * 64 + d) % 4096 && x % 16 == (v * 64 + d) % 16 by {
      LowBits(v * 64 + d, 4096, 0x10_0000);
      LowBits(v * 64 + d, 16, 0x1000_0000);
    }
    Pushed(v, d, 64);
    PushedLow(v, d, 16, 4);
  }

  lemma ThirdDigit(v: nat, d: Digit)
    ensures (v * 64 + d) % WORD / 4 % 256 == (v % 16 * 64 + d) / 4
    ensures (v * 64 + d) % WORD % 4 == d % 4
  {
    var x := (v * 64 + d) % WORD;
    assert x / 4 % 256 == x % 1024 / 4 by { Quotient4(x); }
    assert x % 1024 == (v * 64 + d) % 1024 && x % 4 == (v * 64 + d) % 4 by {
      LowBits(v * 64 + d, 1024, 0x40_0000);
      LowBits(v * 64 + d, 4, 0x4000_0000);
    }
    Pushed(v, d, 16);
    PushedLow(v, d, 4, 16);
  }

  lemma FourthDigit(v: nat, d: Digit)
    ensures (v * 64 + d) % WORD % 256 == v % 4 * 64 + d
  {
    assert (v * 64 + d) % WORD % 256 == (v * 64 + d) % 256 by { LowBits(v * 64 + d, 256, 0x100_0000); }
    Pushed(v, d, 4);
  }

  lemma FirstDigitOf(a: nat, rest: nat)
    requires a < 256 && rest < 65536
    ensures (a * 65536 + rest) / 262144 % 64 == a / 4
  {
    assert a * 65536 + rest == a / 4 * 262144 + (a % 4 * 65536 + rest);
  }

  lemma SecondDigitOf(a: nat, b: nat, c: nat)
    requires a < 256 && b < 256 && c < 256
    ensures (a * 65536 + b * 256 + c) / 4096 % 64 == a % 4 * 16 + b / 16
  {
    assert a * 65536 + b * 256 + c == (a / 4 * 64 + (a % 4 * 16 + b / 16)) * 4096 + (b % 16 * 256 + c);
  }

  lemma ThirdDigitOf(a: nat, b: nat, c: nat)
    requires a < 256 && b < 256 && c < 256
    ensures (a * 65536 + b * 256 + c) / 64 % 64 == b % 16 * 4 + c / 64
  {
    assert a * 65536 + b * 256 + c == ((a * 16 + b / 16) * 64 + (b % 16 * 4 + c / 64)) * 64 + c % 64;
  }

  lemma FourthDigitOf(a: nat, b: nat, c: nat)
    ensures (a * 65536 + b * 256 + c) % 64 == c % 64
  {
    assert a * 65536 + b * 256 + c == (a * 1024 + b * 4 + c / 64) * 64 + c % 64;
  }

  /** The digits of three bytes, read off the bytes. */
  lemma BlockDigits(a: nat, b: nat, c: nat)
    requires a < 256 && b < 256 && c < 256
    ensures Block(a * 65536 + b * 256 + c) == [a / 4, a % 4 * 16 + b / 16, b % 16 * 4 + c / 64, c % 64]
  {
    FirstDigitOf(a, b * 256 + c);
    SecondDigitOf(a, b, c);
    ThirdDigitOf(a, b, c);
    FourthDigitOf(a, b, c);
  }

  /** The first digit leaves six bits, the second completes a byte. */
  lemma FirstTwoDigits(value: nat, n: nat, d: Digit)
    requires n < 256 && d / 16 == n % 4
    ensures var v := (value * 64 + n / 4) % WORD;
      (v * 64 + d) % WORD / 16 % 256 == n && (v * 64 + d) % WORD % 16 == d % 16
  {
    var v := (value * 64 + n / 4) % WORD;
    assert v % 64 == n / 4 by {
      LowBits(value * 64 + n / 4, 64, 0x400_0000);
      PushedLow(value, n / 4, 64, 1);
    }
    SecondDigit(v, d);
    assert n / 4 * 64 + d == n * 16 + d % 16;
    Divided(n, d % 16, 16);
  }

  /** One byte from the first two digits. */
  lemma ReadsOne(s: Decoder, a: Byte, d: Digit)
    requires s.bits == 0 && d / 16 == a as nat % 4
    ensures var s' := Feed(Feed(s, a as nat / 4), d);
      s'.bits == 4 && s'.bytes == s.bytes + [a] && s'.value % 16 == d % 16
  {
    FirstTwoDigits(s.value, a as nat, d);
    assert Feed(s, a as nat / 4).bits == 6;
    assert Pow2(4) == 16;
  }

  lemma ReadsTwo(s: Decoder, b: Byte, d: Digit)
    requires s.bits == 4 && s.value % 16 == b as nat / 16 && d / 4 == b as nat % 16
    ensures var s' := Feed(s, d); s'.bits == 2 && s'.bytes == s.bytes + [b] && s'.value % 4 == d % 4
  {
    var n := b as nat;
    ThirdDigit(s.value, d);
    assert Pow2(2) == 4;
    assert (n / 16 * 64 + d) / 4 == n;
  }

  lemma ReadsThree(s: Decoder, c: Byte, d: Digit)
    requires s.bits == 2 && s.value % 4 == c as nat / 64 && d == c as nat % 64
    ensures var s' := Feed(s, d); s'.bits == 0 && s'.bytes == s.bytes + [c]
  {
    var n := c as nat;
    FourthDigit(s.value, d);
    assert Pow2(0) == 1;
    assert n / 64 * 64 + d == n;
  }

  lemma FeedPrefix(s: Decoder, ds: seq<Digit>)
    requires s.bits < 8
    ensures |ds| == 2 ==> FeedAll(s, ds) == Feed(Feed(s, ds[0]), ds[1])
    ensures |ds| == 3 ==> FeedAll(s, ds) == Feed(Feed(Feed(s, ds[0]), ds[1]), ds[2])
    ensures |ds| == 4 ==> FeedAll(s, ds) == Feed(Feed(Feed(Feed(s, ds[0]), ds[1]), ds[2]), ds[3])
  {
    hide Feed;
    if |ds| == 2 || |ds| == 3 || |ds| == 4 {
      var a := Feed(s, ds[0]);
      var b := Feed(a, ds[1]);
      assert FeedAll(s, ds) == FeedAll(a, ds[1..]) && ds[1..][1..] == ds[2..];
      assert FeedAll(a, ds[1..]) == FeedAll(b, ds[2..]);
      if |ds| > 2 {
        var c := Feed(b, ds[2]);
        assert ds[2..][1..] == ds[3..];
        assert FeedAll(b, ds[2..]) == FeedAll(c, ds[3..]);
        if |ds| == 4 { assert FeedAll(c, ds[3..]) == FeedAll(Feed(c, ds[3]), ds[3..][1..]); }
      }
    }
  }

  /** Four digits after a byte boundary give back the three bytes, whatever the accumulator holds. */
  lemma BlockReadsBack(s: Decoder, a: Byte, b: Byte, c: Byte)
    requires s.bits == 0
    ensures var s' := FeedAll(s, Block(a as nat * 65536 + b as nat * 256 + c as nat));
      s'.bits == 0 && s'.bytes == s.bytes + [a, b, c]
  {
    hide Feed, Block, FeedAll, Pow2;
    var x, y, z := a as nat, b as nat, c as nat;
    var d1, d2 := x % 4 * 16 + y / 16, y % 16 * 4 + z / 64;
    BlockDigits(x, y, z);
    FeedPrefix(s, [x / 4, d1, d2, z % 64]);
    ReadsOne(s, a, d1);
    var s1 := Feed(Feed(s, x / 4), d1);
    ReadsTwo(s1, b, d2);
    ReadsThree(Feed(s1, d2), c, z % 64);
  }

  /** Three digits give back a last two bytes, two digits a last one. */
  lemma TailReadsBack(s: Decoder, a: Byte, b: Byte)
    requires s.bits == 0
    ensures var s' := FeedAll(s, Block(a as nat * 65536 + b as nat * 256)[..3]);
      s'.bits == 2 && s'.bytes == s.bytes + [a, b]
    ensures var s' := FeedAll(s, Block(a as nat * 65536)[..2]); s'.bits == 4 && s'.bytes == s.bytes + [a]
  {
    hide Feed, Block, FeedAll, Pow2;
    var x, y := a as nat, b as nat;
    var d1, d2 := x % 4 * 16 + y / 16, y % 16 * 4;
    BlockDigits(x, y, 0);
    BlockDigits(x, 0, 0);
    assert Block(x * 65536 + y * 256)[..3] == [x / 4, d1, d2];
    assert Block(x * 65536)[..2] == [x / 4, x % 4 * 16];
    FeedPrefix(s, [x / 4, d1, d2]);
    FeedPrefix(s, [x / 4, x % 4 * 16]);
    ReadsOne(s, a, d1);
    ReadsOne(s, a, x % 4 * 16);
    ReadsTwo(Feed(Feed(s, x / 4), d1), b, d2);
  }

  lemma {:induction false} FeedConcat(s: Decoder, a: seq<Digit>, b: seq<Digit>)
    requires s.bits < 8
    ensures FeedAll(s, a + b) == FeedAll(FeedAll(s, a), b)
    decreases |a|
  {
    if a == [] {
      assert a + b == b;
    } else {
      FeedConcat(Feed(s, a[0]), a[1..], b);
      assert (a + b)[0] == a[0] && (a + b)[1..] == a[1..] + b;
    }
  }

  lemma {:induction false} DigitsReadBack(s: Decoder, data: seq<Byte>)
    requires s.bits == 0
    ensures FeedAll(s, Digits(data)).bytes == s.bytes + data
    ensures FeedAll(s, Digits(data)).bits in {0, 2, 4}
    decreases |data|
  {
    hide Feed, Block, FeedAll;
    if |data| >= 3 {
      var w := data[0] as nat * 65536 + data[1] as nat * 256 + data[2] as nat;
      BlockReadsBack(s, data[0], data[1], data[2]);
      var s' := FeedAll(s, Block(w));
      DigitsReadBack(s', data[3..]);
      FeedConcat(s, Block(w), Digits(data[3..]));
      assert data == [data[0], data[1], data[2]] + data[3..];
      assert s'.bytes + data[3..] == s.bytes + data;
    } else if |data| == 2 {
      TailReadsBack(s, data[0], data[1]);
      assert data == [data[0], data[1]];
    } else if |data| == 1 {
      TailReadsBack(s, data[0], 0);
      assert data == [data[0]];
    } else {
      assert s.bytes + data == s.bytes;
      FeedNothing(s);
    }
  }

  lemma FeedNothing(s: Decoder)
    requires s.bits < 8
    ensures FeedAll(s, []) == s
  {
  }

  /** Decoding the encoding of any byte string gives it back. */
  lemma RoundTrip(data: seq<Byte>)
    ensures Decoded(Chars(Digits(data))) == Some(data)
  {
    hide Digits, FeedAll, CharOf, DigitOf;
    var ds, text := Digits(data), Chars(Digits(data));
    forall i | 0 <= i < |text| ensures DigitOf(text[i]) == ds[i] { DigitOfChar(ds[i]); }
    assert ds == seq(|text|, i requires 0 <= i < |text| => DigitOf(text[i]));
    DigitsReadBack(Decoder([], 0, 0), data);
    assert [] + data == data;
  }

  /** The number of unused bits is always even, so the decoder's test for one, three or five of them never fires: the
      only strings it rejects are those with a character outside the alphabet. */
  lemma {:induction false} BitsStayEven(s: Decoder, ds: seq<Digit>)
    requires s.bits < 8 && s.bits % 2 == 0
    ensures FeedAll(s, ds).bits % 2 == 0
    decreases |ds|
  {
    if ds != [] { BitsStayEven(Feed(s, ds[0]), ds[1..]); }
  }

  lemma RejectsOnlyForeignCharacters(text: string)
    ensures Decoded(text).None? <==> exists i :: 0 <= i < |text| && forall d: Digit :: CharOf(d) != text[i]
  {
    hide CharOf, DigitOf, FeedAll;
    forall i | 0 <= i < |text| ensures DigitOf(text[i]) < 0 <==> forall d: Digit :: CharOf(d) != text[i] {
      ForeignCharacter(text[i]);
    }
    if forall i :: 0 <= i < |text| ==> DigitOf(text[i]) >= 0 {
      BitsStayEven(Decoder([], 0, 0), seq(|text|, i requires 0 <= i < |text| => DigitOf(text[i])));
    }
  }

  lemma ForeignCharacter(c: char)
    ensures DigitOf(c) < 0 <==> forall d: Digit :: CharOf(d) != c
  {
    if DigitOf(c) >= 0 { assert CharOf(DigitOf(c)) == c; }
  }
}
