/** Pagination cursors: an offset printed in decimal and encoded in base64 (section 4 of RFC 4648). */
module Cursor {
  import opened Wrappers

  type Byte = b: nat | b < 256

  const MAX_INT: int := 0x7FFF_FFFF_FFFF_FFFF
  const MIN_INT: int := -0x8000_0000_0000_0000

  datatype CursorError = CorruptBase64 | NotANumber | OutOfRange | InvalidCursor

  // ---------- Base64 ----------

  /** n / d, known to the proofs by QuotientRemainder alone. */
  function Quotient(n: nat, d: nat): nat
    requires d > 0
  {
    if n < d then 0 else 1 + Quotient(n - d, d)
  }

  /** n % d, known to the proofs by QuotientRemainder alone. */
  function Remainder(n: nat, d: nat): (r: nat)
    requires d > 0
    ensures r < d
  {
    if n < d then n else Remainder(n - d, d)
  }

  lemma {:induction false} QuotientRemainder(n: nat, d: nat, q: nat, r: nat)
    requires d > 0 && n == d * q + r && r < d
    ensures Quotient(n, d) == q && Remainder(n, d) == r
    decreases q
  {
    if q > 0 {
      assert d * q == d * (q - 1) + d && d * (q - 1) >= 0;
      QuotientRemainder(n - d, d, q - 1, r);
    }
  }

  lemma QuotientIsDivision(n: nat, d: nat)
    requires d > 0
    ensures Quotient(n, d) == n / d && Remainder(n, d) == n % d
  {
    QuotientRemainder(n, d, n / d, n % d);
  }

  function Symbol(v: nat): char
    requires v < 64
  {
    if v < 26 then 'A' + v as char
    else if v < 52 then 'a' + (v - 26) as char
    else if v < 62 then '0' + (v - 52) as char
    else if v == 62 then '+'
    else '/'
  }

  function SymbolValue(c: char): (v: Option<nat>)
    ensures v.Some? ==> v.value < 64
  {
    if 'A' <= c <= 'Z' then Some((c - 'A') as nat)
    else if 'a' <= c <= 'z' then Some((c - 'a') as nat + 26)
    else if '0' <= c <= '9' then Some((c - '0') as nat + 52)
    else if c == '+' then Some(62)
    else if c == '/' then Some(63)
    else None
  }

  /** Four groups of six bits. */
  datatype Sextets = Sextets(v0: nat, v1: nat, v2: nat, v3: nat) {
    predicate Valid() { v0 < 64 && v1 < 64 && v2 < 64 && v3 < 64 }

    function Byte0(): Byte requires Valid() { QuotientIsDivision(v1, 16); v0 * 4 + Quotient(v1, 16) }

    function Byte1(): Byte requires Valid() { QuotientIsDivision(v2, 4); Remainder(v1, 16) * 16 + Quotient(v2, 4) }

    function Byte2(): Byte requires Valid() { Remainder(v2, 4) * 64 + v3 }
  }

  /** Three bytes as four groups of six bits. */
  function Split(a: Byte, b: Byte, c: Byte): (q: Sextets)
    ensures q.Valid()
  {
    QuotientIsDivision(a, 4);
    QuotientIsDivision(b, 16);
    QuotientIsDivision(c, 64);
    Sextets(Quotient(a, 4), Remainder(a, 4) * 16 + Quotient(b, 16), Remainder(b, 16) * 4 + Quotient(c, 64),
            Remainder(c, 64))
  }

  function Encode(bs: seq<Byte>): string
    decreases |bs|
  {
    if bs == [] then ""
    else if |bs| == 1 then
      var q := Split(bs[0], 0, 0);
      [Symbol(q.v0), Symbol(q.v1), '=', '=']
    else if |bs| == 2 then
      var q := Split(bs[0], bs[1], 0);
      [Symbol(q.v0), Symbol(q.v1), Symbol(q.v2), '=']
    else
      var q := Split(bs[0], bs[1], bs[2]);
      [Symbol(q.v0), Symbol(q.v1), Symbol(q.v2), Symbol(q.v3)] + Encode(bs[3..])
  }

  /** Line breaks are skipped wherever they are. */
  function SkipLineBreaks(s: string): string {
    if s == "" then ""
    else if s[0] == '\r' || s[0] == '\n' then SkipLineBreaks(s[1..])
    else [s[0]] + SkipLineBreaks(s[1..])
  }

  /** Groups of four symbols; padding only in the last group, whose unused bits are not checked. */
  function DecodeGroups(s: string): Result<seq<Byte>, CursorError>
    decreases |s|
  {
    if s == "" then Ok([])
    else if |s| < 4 then Err(CorruptBase64)
    else
      var v0, v1, v2, v3 := SymbolValue(s[0]), SymbolValue(s[1]), SymbolValue(s[2]), SymbolValue(s[3]);
      if v0.None? || v1.None? then Err(CorruptBase64)
      else if s[2] == '=' then
        if s[3..] == "=" then Ok([Sextets(v0.value, v1.value, 0, 0).Byte0()]) else Err(CorruptBase64)
      else if v2.None? then Err(CorruptBase64)
      else if s[3] == '=' then
        var q := Sextets(v0.value, v1.value, v2.value, 0);
        if |s| == 4 then Ok([q.Byte0(), q.Byte1()]) else Err(CorruptBase64)
      else if v3.None? then Err(CorruptBase64)
      else
        var q := Sextets(v0.value, v1.value, v2.value, v3.value);
        match DecodeGroups(s[4..])
        case Ok(rest) => Ok([q.Byte0(), q.Byte1(), q.Byte2()] + rest)
        case Err(e) => Err(e)
  }

  function Decode(s: string): Result<seq<Byte>, CursorError> { DecodeGroups(SkipLineBreaks(s)) }

  lemma SymbolRoundTrip(v: nat)
    requires v < 64
    ensures SymbolValue(Symbol(v)) == Some(v) && Symbol(v) != '=' && Symbol(v) != '\r' && Symbol(v) != '\n'
  {
  }

  lemma SymbolRoundTrips()
    ensures forall v: nat :: v < 64 ==>
              SymbolValue(Symbol(v)) == Some(v) && Symbol(v) != '=' && Symbol(v) != '\r' && Symbol(v) != '\n'
  {
    forall v: nat | v < 64
      ensures SymbolValue(Symbol(v)) == Some(v) && Symbol(v) != '=' && Symbol(v) != '\r' && Symbol(v) != '\n'
    {
      SymbolRoundTrip(v);
    }
  }

  lemma SplitJoins(a: Byte, b: Byte, c: Byte)
    ensures var q := Split(a, b, c); q.Byte0() == a && q.Byte1() == b && q.Byte2() == c
  {
    var q := Split(a, b, c);
    QuotientIsDivision(a, 4);
    QuotientIsDivision(b, 16);
    QuotientIsDivision(c, 64);
    QuotientRemainder(q.v1, 16, Remainder(a, 4), Quotient(b, 16));
    QuotientRemainder(q.v2, 4, Remainder(b, 16), Quotient(c, 64));
  }

  lemma FullGroup(q: Sextets, rest: string, bs: seq<Byte>)
    requires q.Valid() && DecodeGroups(rest) == Ok(bs)
    ensures DecodeGroups([Symbol(q.v0), Symbol(q.v1), Symbol(q.v2), Symbol(q.v3)] + rest) ==
            Ok([q.Byte0(), q.Byte1(), q.Byte2()] + bs)
  {
    SymbolRoundTrip(q.v0);
    SymbolRoundTrip(q.v1);
    SymbolRoundTrip(q.v2);
    SymbolRoundTrip(q.v3);
    var s := [Symbol(q.v0), Symbol(q.v1), Symbol(q.v2), Symbol(q.v3)] + rest;
    assert s[0] == Symbol(q.v0) && s[1] == Symbol(q.v1) && s[2] == Symbol(q.v2) && s[3] == Symbol(q.v3) &&
        s[4..] == rest;
  }

  lemma LastGroups(q: Sextets)
    requires q.Valid()
    ensures q.v2 == 0 ==> DecodeGroups([Symbol(q.v0), Symbol(q.v1), '=', '=']) == Ok([q.Byte0()])
    ensures q.v3 == 0 ==> DecodeGroups([Symbol(q.v0), Symbol(q.v1), Symbol(q.v2), '=']) == Ok([q.Byte0(), q.Byte1()])
  {
    SymbolRoundTrip(q.v0);
    SymbolRoundTrip(q.v1);
    SymbolRoundTrip(q.v2);
  }

  lemma OneByte(bs: seq<Byte>)
    requires |bs| == 1
    ensures DecodeGroups(Encode(bs)) == Ok(bs)
  {
    SplitJoins(bs[0], 0, 0);
    LastGroups(Split(bs[0], 0, 0));
    assert bs == [bs[0]];
  }

  lemma TwoBytes(bs: seq<Byte>)
    requires |bs| == 2
    ensures DecodeGroups(Encode(bs)) == Ok(bs)
  {
    SplitJoins(bs[0], bs[1], 0);
    LastGroups(Split(bs[0], bs[1], 0));
    assert bs == [bs[0], bs[1]];
  }

  lemma SplitRebuilds(bs: seq<Byte>)
    requires |bs| > 2
    ensures var q := Split(bs[0], bs[1], bs[2]); [q.Byte0(), q.Byte1(), q.Byte2()] + bs[3..] == bs
  {
    SplitJoins(bs[0], bs[1], bs[2]);
  }

  lemma ThreeBytes(bs: seq<Byte>, rest: string)
    requires |bs| > 2 && DecodeGroups(rest) == Ok(bs[3..])
    ensures var q := Split(bs[0], bs[1], bs[2]);
            DecodeGroups([Symbol(q.v0), Symbol(q.v1), Symbol(q.v2), Symbol(q.v3)] + rest) == Ok(bs)
  {
    SplitRebuilds(bs);
    FullGroup(Split(bs[0], bs[1], bs[2]), rest, bs[3..]);
  }

  lemma {:induction false} GroupsRoundTrip(bs: seq<Byte>)
    ensures DecodeGroups(Encode(bs)) == Ok(bs)
    decreases |bs|
  {
    if |bs| == 1 { OneByte(bs); }
    if |bs| == 2 { TwoBytes(bs); }
    if |bs| > 2 {
      GroupsRoundTrip(bs[3..]);
      ThreeBytes(bs, Encode(bs[3..]));
    }
  }

  predicate NoLineBreaks(s: string) { forall i :: 0 <= i < |s| ==> s[i] != '\r' && s[i] != '\n' }

  lemma {:induction false} NothingToSkip(s: string)
    requires NoLineBreaks(s)
    ensures SkipLineBreaks(s) == s
    decreases |s|
  {
    if s != "" { NothingToSkip(s[1..]); }
  }

  lemma {:induction false} EncodeOnOneLine(bs: seq<Byte>)
    ensures NoLineBreaks(Encode(bs))
    decreases |bs|
  {
    SymbolRoundTrips();
    if |bs| >= 3 {
      EncodeOnOneLine(bs[3..]);
    }
  }

  /** Line breaks anywhere in a text do not matter. */
  lemma {:induction false} LineBreaksAreSkipped(a: string, c: char, b: string)
    requires c == '\r' || c == '\n'
    ensures Decode(a + [c] + b) == Decode(a + b)
  {
    SkipIsTheSame(a, c, b);
  }

  lemma {:induction false} SkipIsTheSame(a: string, c: char, b: string)
    requires c == '\r' || c == '\n'
    ensures SkipLineBreaks(a + [c] + b) == SkipLineBreaks(a + b)
    decreases |a|
  {
    if a == "" {
      assert a + [c] + b == [c] + b && ([c] + b)[1..] == b && a + b == b;
    } else {
      assert (a + [c] + b)[0] == a[0] && (a + [c] + b)[1..] == a[1..] + [c] + b;
      assert (a + b)[0] == a[0] && (a + b)[1..] == a[1..] + b;
      SkipIsTheSame(a[1..], c, b);
    }
  }

  /** Decoding undoes encoding for every sequence of bytes. */
  lemma Base64RoundTrip(bs: seq<Byte>)
    ensures Decode(Encode(bs)) == Ok(bs)
  {
    GroupsRoundTrip(bs);
    EncodeOnOneLine(bs);
    NothingToSkip(Encode(bs));
  }

  /** Three bytes and their four groups of six bits are the same 24-bit number, the first byte highest. */
  lemma SplitIsBigEndian(a: Byte, b: Byte, c: Byte)
    ensures var q := Split(a, b, c);
            (a * 256 + b) * 256 + c == ((q.v0 * 64 + q.v1) * 64 + q.v2) * 64 + q.v3
  {
    QuotientIsDivision(a, 4);
    QuotientIsDivision(b, 16);
    QuotientIsDivision(c, 64);
  }

  /** Some of the test vectors in section 10 of RFC 4648: f, fo, foo and foobar. */
  lemma StandardVectors()
    ensures Encode([102]) == "Zg==" && Encode([102, 111]) == "Zm8=" && Encode([102, 111, 111]) == "Zm9v"
    ensures Encode([102, 111, 111, 98, 97, 114]) == "Zm9vYmFy"
  {
    ShortVectors();
    LongVectors();
  }

  lemma ShortVectors()
    ensures Encode([102]) == "Zg==" && Encode([102, 111]) == "Zm8=" && Encode([251, 255]) == "+/8="
  {
    SplitByDivision(251, 255, 0);
    SplitByDivision(102, 0, 0);
    SplitByDivision(102, 111, 0);
  }

  lemma FooVector(rest: seq<Byte>)
    ensures Encode([102, 111, 111] + rest) == "Zm9v" + Encode(rest)
  {
    ThreeByteVector([102, 111, 111], "Zm9v", rest);
  }

  lemma BarVector(rest: seq<Byte>)
    ensures Encode([98, 97, 114] + rest) == "YmFy" + Encode(rest)
  {
    ThreeByteVector([98, 97, 114], "YmFy", rest);
  }

  lemma LongVectors()
    ensures Encode([102, 111, 111]) == "Zm9v" && Encode([102, 111, 111, 98, 97, 114]) == "Zm9vYmFy"
  {
    var foo: seq<Byte>, bar: seq<Byte> := [102, 111, 111], [98, 97, 114];
    FooVector([]);
    BarVector([]);
    FooVector(bar);
    assert foo + [] == foo && bar + [] == bar && foo + bar == [102, 111, 111, 98, 97, 114];
  }

  lemma ThreeByteVector(bs: seq<Byte>, code: string, rest: seq<Byte>)
    requires |bs| == 3
    requires code == [Symbol(bs[0] / 4), Symbol(bs[0] % 4 * 16 + bs[1] / 16), Symbol(bs[1] % 16 * 4 + bs[2] / 64),
                      Symbol(bs[2] % 64)]
    ensures Encode(bs + rest) == code + Encode(rest)
  {
    SplitByDivision(bs[0], bs[1], bs[2]);
    assert (bs + rest)[3..] == rest;
  }

  lemma SplitByDivision(a: Byte, b: Byte, c: Byte)
    ensures Split(a, b, c) == Sextets(a / 4, a % 4 * 16 + b / 16, b % 16 * 4 + c / 64, c % 64)
  {
    QuotientIsDivision(a, 4);
    QuotientIsDivision(b, 16);
    QuotientIsDivision(c, 64);
  }

  predicate IsSymbol(c: char) {
    'A' <= c <= 'Z' || 'a' <= c <= 'z' || '0' <= c <= '9' || c == '+' || c == '/'
  }

  /** Groups of four symbols, the last one or two of which may be padding. */
  predicate WellPadded(s: string) {
    var n := |s|;
    && n % 4 == 0
    && (forall i :: 0 <= i < n - 2 ==> IsSymbol(s[i]))
    && (n > 0 ==> (IsSymbol(s[n - 2]) && (IsSymbol(s[n - 1]) || s[n - 1] == '=')) || s[n - 2..] == "==")
  }

  predicate FourSymbols(s: string)
    requires |s| >= 4
  {
    IsSymbol(s[0]) && IsSymbol(s[1]) && IsSymbol(s[2]) && IsSymbol(s[3])
  }

  lemma FirstGroup(s: string)
    requires |s| > 4
    ensures match DecodeGroups(s)
            case Err(e) => (!FourSymbols(s) && e == CorruptBase64) || DecodeGroups(s[4..]) == Err(e)
            case Ok(bs) =>
              FourSymbols(s) && DecodeGroups(s[4..]).Ok? && |bs| == 3 + |DecodeGroups(s[4..]).value|
  {
    assert s[3..] != "=";
  }

  lemma WellPaddedBehind(s: string)
    requires |s| > 4
    ensures WellPadded(s) <==> FourSymbols(s) && WellPadded(s[4..])
  {
    var rest := s[4..];
    assert |s| % 4 == |rest| % 4;
    if |rest| % 4 == 0 {
      assert |rest| >= 4 && rest[|rest| - 2..] == s[|s| - 2..];
      assert forall i :: 0 <= i < |rest| ==> rest[i] == s[i + 4];
      assert forall i :: 4 <= i < |s| ==> s[i] == rest[i - 4];
    }
  }

  lemma OneGroup(s: string)
    requires |s| <= 4
    ensures DecodeGroups(s).Ok? <==> WellPadded(s)
    ensures DecodesToLength(s)
  {
    if |s| == 4 {
      assert s[4..] == "" && s[3..] == [s[3]] && s[2..] == [s[2], s[3]];
      assert s[3..] == "=" <==> s[3] == '=';
      assert s[2..] == "==" <==> s[2] == '=' && s[3] == '=';
    }
  }

  predicate DecodesToLength(s: string) {
    match DecodeGroups(s)
    case Err(e) => e == CorruptBase64
    case Ok(bs) =>
      && |s| % 4 == 0
      && |bs| == |s| / 4 * 3 - if s == "" || s[|s| - 1] != '=' then 0 else if s[|s| - 2] != '=' then 1 else 2
  }

  /** Text decodes if and only if it is well padded, to three bytes for each group, less one for each padding; any other
      is refused as corrupt. */
  lemma {:induction false} DecodesIff(s: string)
    ensures DecodeGroups(s).Ok? <==> WellPadded(s)
    ensures DecodesToLength(s)
    decreases |s|
  {
    if |s| > 4 {
      DecodesIff(s[4..]);
      FirstGroup(s);
      WellPaddedBehind(s);
    } else {
      OneGroup(s);
    }
  }

  // ---------- Decimal numbers ----------

  const MINUS: Byte := 45
  const PLUS: Byte := 43

  function Digits(n: nat): (bs: seq<Byte>)
    ensures |bs| > 0 && forall i :: 0 <= i < |bs| ==> 48 <= bs[i] <= 57
  {
    if n < 10 then [48 + n] else Digits(n / 10) + [48 + n % 10]
  }

  function Print(n: int): seq<Byte> { if n < 0 then [MINUS] + Digits(-n) else Digits(n) }

  function ParseDigits(bs: seq<Byte>): Option<nat>
    decreases |bs|
  {
    if bs == [] then Some(0)
    else
      var last := bs[|bs| - 1];
      match ParseDigits(bs[..|bs| - 1])
      case Some(n) => if 48 <= last <= 57 then Some(n * 10 + (last - 48)) else None
      case None => None
  }

  /** A sign is optional, at least one digit is not, and the value has to fit 64 bits. */
  function Atoi(bs: seq<Byte>): Result<int, CursorError> {
    var signed := bs != [] && (bs[0] == MINUS || bs[0] == PLUS);
    var digits := if signed then bs[1..] else bs;
    var n := ParseDigits(digits);
    if digits == [] || n.None? then Err(NotANumber)
    else
      var k: int := n.value;
      var v := if signed && bs[0] == MINUS then -k else k;
      if MIN_INT <= v <= MAX_INT then Ok(v) else Err(OutOfRange)
  }

  lemma {:induction false} DigitsRoundTrip(n: nat)
    ensures ParseDigits(Digits(n)) == Some(n)
  {
    if n < 10 {
      assert Digits(n)[..0] == [];
    } else {
      DigitsRoundTrip(n / 10);
      assert Digits(n)[..|Digits(n)| - 1] == Digits(n / 10);
    }
  }

  lemma DecimalRoundTrip(n: int)
    requires MIN_INT <= n <= MAX_INT
    ensures Atoi(Print(n)) == Ok(n)
  {
    DigitsRoundTrip(if n < 0 then -n else n);
    if n < 0 { assert Print(n)[1..] == Digits(-n); }
  }

  /** A sign in front of the digits is read, and a number without digits is refused. */
  lemma SignsAreRead(n: nat)
    requires n <= MAX_INT
    ensures Atoi([PLUS] + Digits(n)) == Ok(n) && Atoi([MINUS] + Digits(n)) == Ok(-(n as int))
    ensures Atoi([]) == Atoi([PLUS]) == Atoi([MINUS]) == Err(NotANumber)
  {
    DigitsRoundTrip(n);
    assert ([PLUS] + Digits(n))[1..] == Digits(n) && ([MINUS] + Digits(n))[1..] == Digits(n);
  }

  /** A number that does not fit 64 bits is refused as such. */
  lemma LargeNumbersAreRefused(n: nat)
    requires n > 9223372036854775807
    ensures Atoi(Digits(n)) == Err(OutOfRange)
  {
    DigitsRoundTrip(n);
  }

  // ---------- Cursors ----------

  function EncodeCursor(offset: int): string { Encode(Print(offset)) }

  function DecodeCursor(cursor: string, total: int): Result<int, CursorError> {
    match Decode(cursor)
    case Err(e) => Err(e)
    case Ok(bs) =>
      match Atoi(bs)
      case Err(e) => Err(e)
      case Ok(offset) => if offset < 0 || offset >= total then Err(InvalidCursor) else Ok(offset)
  }

  /** The cursor of an offset decodes to that offset when it is one of the total rows, and is refused otherwise. */
  lemma CursorRoundTrip(n: int, total: int)
    requires MIN_INT <= n <= MAX_INT
    ensures DecodeCursor(EncodeCursor(n), total) == if 0 <= n < total then Ok(n) else Err(InvalidCursor)
  {
    DecimalRoundTrip(n);
    Base64RoundTrip(Print(n));
  }

  // ---------- A cursor code as a value ----------

  /** How offsets become cursors and cursors offsets. Page computation and walks are stated over any such pair. */
  datatype Code = Code(encode: nat -> string, decode: (string, int) -> Result<int, CursorError>)

  /** Accepted cursors name one of the total rows, and the cursor of a row is accepted as that row. */
  ghost predicate Sound(code: Code) {
    && (forall s, total :: code.decode(s, total).Ok? ==> 0 <= code.decode(s, total).value < total)
    && (forall n: nat, total :: n < total <= MAX_INT ==> code.decode(code.encode(n), total) == Ok(n))
  }

  /** The code the program uses. */
  const BASE64 := Code(n => EncodeCursor(n), (s, total) => DecodeCursor(s, total))

  lemma Base64IsSound()
    ensures Sound(BASE64)
  {
    forall n: nat, total | n < total <= MAX_INT
      ensures BASE64.decode(BASE64.encode(n), total) == Ok(n)
    {
      CursorRoundTrip(n, total);
    }
  }
}
