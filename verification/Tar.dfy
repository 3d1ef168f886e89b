/** Reading one file out of a tar archive, and the archives of the ustar interchange format of POSIX.1 (IEEE Std 1003.1,
    pax utility). */
module Tar {
  import opened Wrappers

  type Byte = x: int | 0 <= x < 256

  const BLOCK: nat := 512

  const NUL: char := '\0'

  // ---------- The pieces of the JavaScript runtime that the reader uses ----------

  /** Buffer.slice and subarray: a negative bound counts from the end, and bounds are clamped. */
  function Clamp(bound: int, length: nat): (r: nat)
    ensures r <= length
  {
    if bound < 0 then (if bound + length < 0 then 0 else bound + length) else if bound > length then length else bound
  }

  function Slice<T>(b: seq<T>, start: int, end: int): seq<T> {
    var lo, hi := Clamp(start, |b|), Clamp(end, |b|);
    if lo <= hi then b[lo..hi] else []
  }

  const TWO_31: int := 0x8000_0000
  const TWO_32: int := 0x1_0000_0000

  /** The conversion to a signed 32-bit integer in front of a bitwise operator. */
  function ToInt32(x: int): int
    decreases if x >= 0 then 2 * x + 1 else -2 * x
  {
    if x >= TWO_31 then ToInt32(x - TWO_32) else if x < -TWO_31 then ToInt32(x + TWO_32) else x
  }

  /** x & ~511 */
  function MaskBlock(x: int): int { ToInt32(x) / BLOCK * BLOCK }

  predicate IsLineTerminator(c: char) { c == '\n' || c == '\r' || c == '\U{2028}' || c == '\U{2029}' }

  function DropLine(s: string): (r: string)
    ensures |r| <= |s| && (s != "" && !IsLineTerminator(s[0]) ==> |r| < |s|)
  {
    if s == "" || IsLineTerminator(s[0]) then s else DropLine(s[1..])
  }

  // s.replace(/\0.*/g, ""): a dot matches no line terminator, so what follows one is kept.
  function StripNul(s: string): string
    decreases |s|
  {
    if s == "" then ""
    else if s[0] == NUL then StripNul(DropLine(s))
    else [s[0]] + StripNul(s[1..])
  }

  predicate IsSpace(c: char) {
    || '\t' <= c <= '\r' || c == ' ' || c == '\U{00A0}' || c == '\U{1680}' || '\U{2000}' <= c <= '\U{200A}'
    || IsLineTerminator(c) || c == '\U{202F}' || c == '\U{205F}' || c == '\U{3000}' || c == '\U{FEFF}'
  }

  function SkipSpaces(s: string): string {
    if s != "" && IsSpace(s[0]) then SkipSpaces(s[1..]) else s
  }

  predicate IsOctal(c: char) { '0' <= c <= '7' }

  function OctalValue(s: string, acc: nat): nat {
    if s != "" && IsOctal(s[0]) then OctalValue(s[1..], 8 * acc + (s[0] as int - '0' as int)) else acc
  }

  datatype Number = NaN | Value(n: int)

  /** parseInt(s, 8): the value of the longest beginning of octal digits, after white space and a sign. */
  function ParseOctal(s: string): Number {
    var t := SkipSpaces(s);
    var signed := t != "" && (t[0] == '-' || t[0] == '+');
    var digits := if signed then t[1..] else t;
    if digits == "" || !IsOctal(digits[0]) then NaN
    else Value(if signed && t[0] == '-' then -(OctalValue(digits, 0) as int) else OctalValue(digits, 0))
  }

  /** The line terminators and the white space of ECMAScript. */
  const LINE_ENDS := "\n\r\U{2028}\U{2029}"
  const SPACES := "\t\U{000B}\U{000C} \U{00A0}\U{1680}\U{2000}\U{2001}\U{2002}\U{2003}\U{2004}\U{2005}\U{2006}\U{2007}"
                  + "\U{2008}\U{2009}\U{200A}\U{202F}\U{205F}\U{3000}\U{FEFF}"

  lemma LineEndsAreListed(c: char)
    ensures IsLineTerminator(c) <==> c in LINE_ENDS
  {
    assert LINE_ENDS == ['\n', '\r', '\U{2028}', '\U{2029}'];
  }

  lemma SpacesAreListed(c: char)
    ensures IsSpace(c) <==> c in SPACES || c in LINE_ENDS
  {
  }

  lemma {:induction false} DropToLineEnd(b: string, t: char, c: string)
    requires (forall i :: 0 <= i < |b| ==> b[i] !in LINE_ENDS) && t in LINE_ENDS
    ensures DropLine(b + [t] + c) == [t] + c
    decreases |b|
  {
    if b == "" {
      assert b + [t] + c == [t] + c;
    } else {
      assert (b + [t] + c)[0] == b[0] && (b + [t] + c)[1..] == b[1..] + [t] + c;
      DropToLineEnd(b[1..], t, c);
    }
  }

  /** A NUL takes what follows it up to the end of its line; what comes before it stays, and the next line is read on.
      */
  lemma {:induction false} NulEndsLine(a: string, b: string, t: char, c: string)
    requires NUL !in a && (forall i :: 0 <= i < |b| ==> b[i] !in LINE_ENDS) && t in LINE_ENDS
    ensures StripNul(a + [NUL] + b + [t] + c) == a + [t] + StripNul(c)
    decreases |a|
  {
    var s := a + [NUL] + b + [t] + c;
    if a == "" {
      assert s == ([NUL] + b) + [t] + c && s[0] == NUL;
      DropToLineEnd([NUL] + b, t, c);
      assert ([t] + c)[0] == t && ([t] + c)[1..] == c;
    } else {
      assert s[0] == a[0] && s[1..] == a[1..] + [NUL] + b + [t] + c;
      NulEndsLine(a[1..], b, t, c);
    }
  }

  /** A number ends before the first character that is no octal digit. */
  lemma NumberEnds(digits: string, end: string)
    requires digits != "" && (forall i :: 0 <= i < |digits| ==> IsOctal(digits[i]))
    requires end == "" || !IsOctal(end[0])
    ensures ParseOctal(digits + end) == Value(OctalValue(digits, 0))
  {
    var t := digits + end;
    assert t[0] == digits[0];
    assert SkipSpaces(t) == t;
    assert ParseOctal(t) == Value(OctalValue(t, 0));
    OctalValueJoin(digits, end, 0);
  }

  /** It may stand behind a space and a sign. */
  lemma NumberIsSigned(t: string)
    requires t != "" && IsOctal(t[0])
    ensures ParseOctal(" " + t) == ParseOctal("+" + t) == ParseOctal(" " + ("+" + t)) == Value(OctalValue(t, 0))
    ensures ParseOctal("-" + t) == Value(-(OctalValue(t, 0) as int))
  {
    SpaceIsSkipped(t);
    SpaceIsSkipped("+" + t);
    SignIsRead('+', t);
    SignIsRead('-', t);
    PlainNumber(t);
  }

  lemma PlainNumber(t: string)
    requires t != "" && IsOctal(t[0])
    ensures ParseOctal(t) == Value(OctalValue(t, 0))
  {
    assert SkipSpaces(t) == t;
  }

  lemma SpaceIsSkipped(t: string)
    ensures ParseOctal(" " + t) == ParseOctal(t)
  {
    assert (" " + t)[1..] == t;
    assert SkipSpaces(" " + t) == SkipSpaces(t);
  }

  lemma SignIsRead(sign: char, t: string)
    requires (sign == '+' || sign == '-') && t != "" && IsOctal(t[0])
    ensures ParseOctal([sign] + t) == Value(if sign == '-' then -(OctalValue(t, 0) as int) else OctalValue(t, 0))
  {
    assert ([sign] + t)[1..] == t;
    assert SkipSpaces([sign] + t) == [sign] + t;
  }

  lemma ToInt32Wraps(x: int) returns (k: int)
    ensures ToInt32(x) == x + TWO_32 * k && -TWO_31 <= ToInt32(x) < TWO_31
    decreases if x >= 0 then 2 * x + 1 else -2 * x
  {
    if x >= TWO_31 {
      k := ToInt32Wraps(x - TWO_32);
      k := k - 1;
    } else if x < -TWO_31 {
      k := ToInt32Wraps(x + TWO_32);
      k := k + 1;
    } else {
      k := 0;
    }
  }

  lemma BlocksAdd(x: int, m: int)
    ensures (x + 512 * m) / 512 * 512 == x - x % 512 + 512 * m
  {
  }

  /** Masking rounds down to a multiple of the block size, and wraps around to a signed 32-bit integer. */
  lemma MaskWraps(x: int) returns (k: int)
    ensures MaskBlock(x) == x - x % BLOCK + TWO_32 * k && -TWO_31 <= MaskBlock(x) < TWO_31
  {
    k := ToInt32Wraps(x);
    BlocksAdd(x, 8_388_608 * k);
    BlocksAdd(ToInt32(x), 0);
  }

  // ---------- The reader ----------

  /** How the bytes of a header field become text. */
  type Decoder = seq<Byte> -> string

  datatype Outcome = Found(content: seq<Byte>) | Undefined | At(offset: int)

  function FileName(decode: Decoder, header: seq<Byte>): string { StripNul(decode(Slice(header, 0, 100))) }

  function FileSize(decode: Decoder, header: seq<Byte>): Number {
    ParseOctal(StripNul(decode(Slice(header, 124, 136))))
  }

  /** One round of the loop, entered with the header at `offset`. */
  function Look(decode: Decoder, tarball: seq<Byte>, filepath: string, offset: int): Outcome {
    var header := Slice(tarball, offset, offset + BLOCK);
    var start := offset + BLOCK;
    var fileName := FileName(decode, header);
    var fileSize := FileSize(decode, header);
    if fileName == filepath then Found(Slice(tarball, start, if fileSize.Value? then start + fileSize.n else 0))
    else At(if fileSize.Value? then MaskBlock(start + fileSize.n + 511) else 0)
  }

  /** At most `rounds` rounds of a loop over offsets. */
  function Loop(round: int -> Outcome, length: nat, offset: int, rounds: nat): Outcome
    decreases rounds
  {
    if offset >= length then Undefined
    else if rounds == 0 then At(offset)
    else
      match round(offset)
      case At(next) => Loop(round, length, next, rounds - 1)
      case done => done
  }

  function Round(decode: Decoder, tarball: seq<Byte>, filepath: string): int -> Outcome {
    offset => Look(decode, tarball, filepath, offset)
  }

  function Extract(decode: Decoder, tarball: seq<Byte>, filepath: string, rounds: nat): Outcome {
    Loop(Round(decode, tarball, filepath), |tarball|, 0, rounds)
  }

  /** The source has no bound on the rounds; At says that the bound was reached and the loop would go on. */
  method ExtractFileFromTarball(decode: Decoder, tarball: seq<Byte>, filepath: string, rounds: nat) returns (r: Outcome)
    ensures r == Extract(decode, tarball, filepath, rounds)
  {
    var offset := 0;
    var left := rounds;
    while offset < |tarball|
      invariant Loop(Round(decode, tarball, filepath), |tarball|, offset, left) ==
          Extract(decode, tarball, filepath, rounds)
      decreases left
    {
      if left == 0 { return At(offset); }
      ghost var look := Look(decode, tarball, filepath, offset);
      left := left - 1;
      var header := Slice(tarball, offset, offset + BLOCK);
      var start := offset + BLOCK;
      var fileName := FileName(decode, header);
      var fileSize := FileSize(decode, header);
      if fileName == filepath {
        var content := Slice(tarball, start, if fileSize.Value? then start + fileSize.n else 0);
        assert look == Found(content);
        return Found(content);
      }
      offset := if fileSize.Value? then MaskBlock(start + fileSize.n + 511) else 0;
      assert look == At(offset);
    }
    r := Undefined;
  }

  /** A header whose size is no number: the file is empty when it is the one asked for, and otherwise the reader goes
      back to the start. */
  lemma UnreadableSize(decode: Decoder, tarball: seq<Byte>, filepath: string, offset: nat)
    requires FileSize(decode, Slice(tarball, offset, offset + BLOCK)).NaN?
    ensures Look(decode, tarball, filepath, offset) ==
            if FileName(decode, Slice(tarball, offset, offset + BLOCK)) == filepath then Found([]) else At(0)
  {
  }

  /** An archive that starts with such a header of another file keeps the reader there. */
  lemma {:induction false} UnreadableSizeLoops(decode: Decoder, tarball: seq<Byte>, filepath: string, rounds: nat)
    requires tarball != [] && FileSize(decode, Slice(tarball, 0, BLOCK)).NaN?
    requires FileName(decode, Slice(tarball, 0, BLOCK)) != filepath
    ensures Extract(decode, tarball, filepath, rounds) == At(0)
    decreases rounds
  {
    if rounds > 0 {
      UnreadableSize(decode, tarball, filepath, 0);
      UnreadableSizeLoops(decode, tarball, filepath, rounds - 1);
    }
  }

  /** A negative size yields nothing, unless it reaches in front of the archive: what follows the header is then cut off
      at the end by as many bytes. */
  lemma NegativeSize(decode: Decoder, tarball: seq<Byte>, filepath: string, offset: nat, size: int)
    requires FileName(decode, Slice(tarball, offset, offset + BLOCK)) == filepath
    requires FileSize(decode, Slice(tarball, offset, offset + BLOCK)) == Value(size) && size < 0
    ensures var start := offset + BLOCK;
            var end := if start + size < 0 then |tarball| + start + size else start + size;
            Look(decode, tarball, filepath, offset) == Found(if start <= end then tarball[start..end] else [])
  {
  }

  /** On any bytes whatever, every header is read from an offset that is a multiple of the block size. */
  lemma {:induction false} OffsetsStayAligned(decode: Decoder, tarball: seq<Byte>, filepath: string, offset: int,
                                              rounds: nat)
    requires offset % BLOCK == 0
    ensures var r := Loop(Round(decode, tarball, filepath), |tarball|, offset, rounds); r.At? ==> r.offset % BLOCK == 0
    decreases rounds
  {
    if offset < |tarball| && rounds > 0 {
      var r := Round(decode, tarball, filepath)(offset);
      if r.At? { OffsetsStayAligned(decode, tarball, filepath, r.offset, rounds - 1); }
    }
  }

  // ---------- Archives ----------

  /** A member of an archive. `attributes` are the bytes of its header between name and size, `rest` those behind. */
  datatype Entry = Entry(name: string, attributes: seq<Byte>, terminator: Byte, rest: seq<Byte>, content: seq<Byte>)

  const MAX_SIZE: nat := 8589934591 // eleven octal digits

  predicate WellFormed(e: Entry) {
    && 0 < |e.name| <= 100 && (forall i :: 0 <= i < |e.name| ==> 0 < e.name[i] as int < 128)
    && |e.attributes| == 24
    && (e.terminator == 0 || e.terminator == 32)
    && |e.rest| == 376
    && |e.content| <= MAX_SIZE
  }

  function Zeros(n: nat): seq<Byte> { seq(n, _ => 0) }

  function Bytes(s: string): (r: seq<Byte>)
    requires forall i :: 0 <= i < |s| ==> s[i] as int < 128
    ensures |r| == |s| && forall i :: 0 <= i < |s| ==> r[i] == s[i] as int
  {
    seq(|s|, i requires 0 <= i < |s| => s[i] as int)
  }

  /** n in `width` octal digits with leading zeros. */
  function Octal(n: nat, width: nat): (r: string)
    ensures |r| == width && forall i :: 0 <= i < |r| ==> IsOctal(r[i])
  {
    if width == 0 then "" else Octal(n / 8, width - 1) + [(n % 8 + '0' as int) as char]
  }

  function Header(e: Entry): (r: seq<Byte>)
    requires WellFormed(e)
    ensures |r| == BLOCK
  {
    Bytes(e.name) + Zeros(100 - |e.name|) + e.attributes + Bytes(Octal(|e.content|, 11)) + [e.terminator] + e.rest
  }

  /** The content is filled up with zeros to whole blocks. */
  function Padding(size: nat): nat { BLOCK * ((size + 511) / BLOCK) - size }

  function SizeInBlocks(e: Entry): nat { 1 + (|e.content| + 511) / BLOCK }

  function Size(e: Entry): (r: nat)
    ensures r == BLOCK + |e.content| + Padding(|e.content|) && r >= BLOCK
  {
    BLOCK * SizeInBlocks(e)
  }

  predicate AllWellFormed(es: seq<Entry>) { forall i :: 0 <= i < |es| ==> WellFormed(es[i]) }

  function Member(e: Entry): (r: seq<Byte>)
    requires WellFormed(e)
    ensures |r| == Size(e)
  {
    Header(e) + e.content + Zeros(Padding(|e.content|))
  }

  function Archive(es: seq<Entry>): seq<Byte>
    requires AllWellFormed(es)
  {
    if es == [] then [] else Archive(es[..|es| - 1]) + Member(es[|es| - 1])
  }

  /** The position of member i; the one after the last member is where the archive is closed. */
  function Position(es: seq<Entry>, i: nat): nat
    requires AllWellFormed(es) && i <= |es|
  {
    |Archive(es[..i])|
  }

  function PositionInBlocks(es: seq<Entry>, i: nat): nat
    requires AllWellFormed(es) && i <= |es|
  {
    if i == 0 then 0 else PositionInBlocks(es, i - 1) + SizeInBlocks(es[i - 1])
  }

  lemma {:induction false} PositionIsAligned(es: seq<Entry>, i: nat)
    requires AllWellFormed(es) && i <= |es|
    ensures Position(es, i) == BLOCK * PositionInBlocks(es, i)
  {
    if i > 0 {
      PositionIsAligned(es, i - 1);
      NextPosition(es, i - 1);
    }
  }

  lemma NextPosition(es: seq<Entry>, i: nat)
    requires AllWellFormed(es) && i < |es|
    ensures Archive(es[..i + 1]) == Archive(es[..i]) + Member(es[i])
    ensures Position(es, i + 1) == Position(es, i) + Size(es[i])
  {
    assert es[..i + 1][..i] == es[..i];
  }

  /** The header and the content of a member stand at position p. */
  ghost predicate MemberAt(tarball: seq<Byte>, p: nat, e: Entry) {
    && WellFormed(e)
    && p + Size(e) <= |tarball|
    && tarball[p..p + BLOCK] == Header(e)
    && tarball[p + BLOCK..p + BLOCK + |e.content|] == e.content
  }

  lemma MemberStandsBehind(before: seq<Byte>, e: Entry, tarball: seq<Byte>)
    requires WellFormed(e) && before + Member(e) <= tarball
    ensures MemberAt(tarball, |before|, e)
  {
    var p := |before|;
    var tail := e.content + Zeros(Padding(|e.content|));
    assert Member(e) == Header(e) + tail;
    assert tarball[p..p + Size(e)] == Member(e);
    assert tarball[p..p + BLOCK] == Member(e)[..BLOCK] == Header(e);
    assert tarball[p + BLOCK..p + BLOCK + |e.content|] == Member(e)[BLOCK..BLOCK + |e.content|] == tail[..|e.content|];
  }

  lemma {:induction false} ArchiveBegins(es: seq<Entry>, i: nat)
    requires AllWellFormed(es) && i <= |es|
    ensures Archive(es[..i]) <= Archive(es)
    decreases |es| - i
  {
    if i < |es| {
      ArchiveBegins(es, i + 1);
      NextPosition(es, i);
    } else {
      assert es[..i] == es;
    }
  }

  lemma MemberFollows(es: seq<Entry>, i: nat)
    requires AllWellFormed(es) && i < |es|
    ensures Archive(es[..i]) + Member(es[i]) <= Archive(es)
  {
    ArchiveBegins(es, i + 1);
    NextPosition(es, i);
  }

  lemma MembersAreInPlace(es: seq<Entry>, behind: seq<Byte>, i: nat)
    requires AllWellFormed(es) && i < |es|
    ensures MemberAt(Archive(es) + behind, Position(es, i), es[i])
  {
    var archive, before := Archive(es), Archive(es[..i]);
    MemberFollows(es, i);
    var tarball := archive + behind;
    assert before + Member(es[i]) <= tarball by { assert archive == tarball[..|archive|]; }
    MemberStandsBehind(before, es[i], tarball);
  }

  // ---------- The fields of a header are read back ----------

  predicate IsAscii(bs: seq<Byte>) { forall i :: 0 <= i < |bs| ==> bs[i] < 128 }

  function Chars(bs: seq<Byte>): (r: string)
    ensures |r| == |bs| && forall i :: 0 <= i < |bs| ==> r[i] == bs[i] as char
  {
    seq(|bs|, i requires 0 <= i < |bs| => bs[i] as char)
  }

  /** UTF-8 leaves ASCII as it is; nothing else is needed of the decoder. */
  ghost predicate KeepsAscii(decode: Decoder) {
    forall bs: seq<Byte> :: IsAscii(bs) ==> decode(bs) == Chars(bs)
  }

  lemma {:induction false} StripPadding(s: string, n: nat)
    requires NUL !in s
    ensures StripNul(s + seq(n, _ => NUL)) == s
    decreases |s| + n
  {
    var t := s + seq(n, _ => NUL);
    if s != "" {
      assert t[0] == s[0] && t[1..] == s[1..] + seq(n, _ => NUL);
      StripPadding(s[1..], n);
    } else if n > 0 {
      assert t == seq(n, _ => NUL);
      DropAll(t);
    }
  }

  lemma {:induction false} DropAll(s: string)
    requires forall i :: 0 <= i < |s| ==> s[i] == NUL
    ensures DropLine(s) == ""
  {
    if s != "" { DropAll(s[1..]); }
  }

  lemma {:induction false} OctalValueJoin(s: string, t: string, acc: nat)
    requires forall i :: 0 <= i < |s| ==> IsOctal(s[i])
    ensures OctalValue(s + t, acc) == OctalValue(t, OctalValue(s, acc))
  {
    if s == "" {
      assert s + t == t;
    } else {
      assert (s + t)[0] == s[0] && (s + t)[1..] == s[1..] + t;
      OctalValueJoin(s[1..], t, 8 * acc + (s[0] as int - '0' as int));
    }
  }

  function Pow8(width: nat): nat { if width == 0 then 1 else 8 * Pow8(width - 1) }

  /** Octal digits are read back: printing and parsing a size are inverse. */
  lemma {:induction false} OctalRoundTrip(n: nat, width: nat)
    requires n < Pow8(width)
    ensures OctalValue(Octal(n, width), 0) == n
  {
    if width > 0 {
      OctalRoundTrip(n / 8, width - 1);
      var last := [(n % 8 + '0' as int) as char];
      OctalValueJoin(Octal(n / 8, width - 1), last, 0);
      assert last[1..] == "";
      assert OctalValue(last, n / 8) == OctalValue("", 8 * (n / 8) + n % 8);
    }
  }

  lemma SizeField(e: Entry)
    requires WellFormed(e)
    ensures ParseOctal(StripNul(Octal(|e.content|, 11) + [e.terminator as char])) == Value(|e.content|)
  {
    var digits := Octal(|e.content|, 11);
    assert Pow8(11) == 8589934592 by {
      assert Pow8(5) == 32768;
      assert Pow8(10) == 8 * 8 * 8 * 8 * 8 * Pow8(5);
    }
    OctalRoundTrip(|e.content|, 11);
    if e.terminator == 0 {
      assert digits + [NUL] == digits + seq(1, _ => NUL);
      StripPadding(digits, 1);
    } else {
      assert digits + [' '] == (digits + " ") + seq(0, _ => NUL);
      StripPadding(digits + " ", 0);
      OctalValueJoin(digits, " ", 0);
    }
  }

  lemma NameField(decode: Decoder, e: Entry)
    requires WellFormed(e) && KeepsAscii(decode)
    ensures FileName(decode, Header(e)) == e.name
  {
    var name := Bytes(e.name) + Zeros(100 - |e.name|);
    assert Slice(Header(e), 0, 100) == name;
    assert Chars(name) == e.name + seq(100 - |e.name|, _ => NUL);
    StripPadding(e.name, 100 - |e.name|);
  }

  lemma HeaderFields(decode: Decoder, e: Entry)
    requires WellFormed(e) && KeepsAscii(decode)
    ensures FileName(decode, Header(e)) == e.name
    ensures FileSize(decode, Header(e)) == Value(|e.content|)
  {
    NameField(decode, e);
    var size := Bytes(Octal(|e.content|, 11)) + [e.terminator];
    assert Slice(Header(e), 124, 136) == size;
    assert Chars(size) == Octal(|e.content|, 11) + [e.terminator as char];
    SizeField(e);
  }

  // ---------- Walking over an archive ----------

  /** Rounding up behind the content leads to the next member. */
  lemma RoundsUp(e: Entry, p: nat, blocks: nat)
    requires p == BLOCK * blocks && p + Size(e) < TWO_31
    ensures MaskBlock(p + BLOCK + |e.content| + 511) == p + Size(e)
  {
    var sum := BLOCK * (blocks + 1) + (|e.content| + 511);
    assert sum / BLOCK == blocks + 1 + (|e.content| + 511) / BLOCK;
    assert ToInt32(sum) == sum;
  }

  lemma HeaderInPlace(decode: Decoder, tarball: seq<Byte>, e: Entry, p: nat)
    requires MemberAt(tarball, p, e) && KeepsAscii(decode)
    ensures FileName(decode, Slice(tarball, p, p + BLOCK)) == e.name
    ensures FileSize(decode, Slice(tarball, p, p + BLOCK)) == Value(|e.content|)
    ensures Slice(tarball, p + BLOCK, p + BLOCK + |e.content|) == e.content
  {
    assert Slice(tarball, p, p + BLOCK) == Header(e);
    HeaderFields(decode, e);
  }

  /** A round decides by name and size only. */
  lemma FieldsDecide(decode: Decoder, tarball: seq<Byte>, name: string, content: seq<Byte>, p: nat, filepath: string)
    requires FileName(decode, Slice(tarball, p, p + BLOCK)) == name
    requires FileSize(decode, Slice(tarball, p, p + BLOCK)) == Value(|content|)
    requires Slice(tarball, p + BLOCK, p + BLOCK + |content|) == content
    ensures Look(decode, tarball, filepath, p) ==
            if name == filepath then Found(content) else At(MaskBlock(p + BLOCK + |content| + 511))
  {
  }

  /** The first member with the name asked for, if any. */
  function IndexOf(es: seq<Entry>, filepath: string): (r: Option<nat>)
    ensures r.Some? ==> r.value < |es| && es[r.value].name == filepath
    ensures r.Some? ==> forall k :: 0 <= k < r.value ==> es[k].name != filepath
    ensures r.None? ==> forall k :: 0 <= k < |es| ==> es[k].name != filepath
  {
    if es == [] then None
    else if es[0].name == filepath then Some(0)
    else
      var rest := IndexOf(es[1..], filepath);
      assert forall k :: 0 < k < |es| ==> es[k] == es[1..][k - 1];
      if rest.Some? then Some(rest.value + 1) else None
  }

  ghost predicate PassesAt(round: int -> Outcome, length: nat, es: seq<Entry>, filepath: string, i: nat)
    requires AllWellFormed(es) && i < |es|
  {
    && Position(es, i) < length
    && round(Position(es, i)) == if es[i].name == filepath then Found(es[i].content) else At(Position(es, i + 1))
  }

  ghost predicate Passes(round: int -> Outcome, length: nat, es: seq<Entry>, filepath: string)
    requires AllWellFormed(es)
  {
    forall i :: 0 <= i < |es| ==> PassesAt(round, length, es, filepath, i)
  }

  lemma MaskLeadsOn(es: seq<Entry>, p: nat, i: nat)
    requires AllWellFormed(es) && i < |es| && p == Position(es, i) && p + Size(es[i]) < TWO_31
    ensures MaskBlock(p + BLOCK + |es[i].content| + 511) == p + Size(es[i])
  {
    PositionIsAligned(es, i);
    RoundsUp(es[i], p, PositionInBlocks(es, i));
  }

  /** The name, the size and the content of e are read at position p. */
  ghost predicate Reads(decode: Decoder, tarball: seq<Byte>, e: Entry, p: nat) {
    && p + Size(e) <= |tarball|
    && FileName(decode, Slice(tarball, p, p + BLOCK)) == e.name
    && FileSize(decode, Slice(tarball, p, p + BLOCK)) == Value(|e.content|)
    && Slice(tarball, p + BLOCK, p + BLOCK + |e.content|) == e.content
  }

  lemma PlacedIsRead(decode: Decoder, tarball: seq<Byte>, e: Entry, p: nat)
    requires MemberAt(tarball, p, e) && KeepsAscii(decode)
    ensures Reads(decode, tarball, e, p)
  {
    HeaderInPlace(decode, tarball, e, p);
  }

  lemma MemberIsRead(decode: Decoder, es: seq<Entry>, behind: seq<Byte>, i: nat)
    requires AllWellFormed(es) && KeepsAscii(decode) && i < |es|
    ensures Reads(decode, Archive(es) + behind, es[i], Position(es, i))
  {
    MembersAreInPlace(es, behind, i);
    PlacedIsRead(decode, Archive(es) + behind, es[i], Position(es, i));
  }

  lemma RoundPasses(decode: Decoder, tarball: seq<Byte>, es: seq<Entry>, p: nat, filepath: string, i: nat)
    requires AllWellFormed(es) && i < |es| && p == Position(es, i) && Reads(decode, tarball, es[i], p)
    requires |tarball| < TWO_31
    ensures PassesAt(Round(decode, tarball, filepath), |tarball|, es, filepath, i)
  {
    assert MaskBlock(p + BLOCK + |es[i].content| + 511) == Position(es, i + 1) by {
      MaskLeadsOn(es, p, i);
      NextPosition(es, i);
    }
    assert p < |tarball|;
    FieldsDecide(decode, tarball, es[i].name, es[i].content, p, filepath);
  }

  lemma RoundsPass(decode: Decoder, es: seq<Entry>, behind: seq<Byte>, filepath: string)
    requires AllWellFormed(es) && KeepsAscii(decode) && |Archive(es) + behind| < TWO_31
    ensures Passes(Round(decode, Archive(es) + behind, filepath), |Archive(es) + behind|, es, filepath)
  {
    var tarball := Archive(es) + behind;
    forall i | 0 <= i < |es| ensures PassesAt(Round(decode, tarball, filepath), |tarball|, es, filepath, i) {
      MemberIsRead(decode, es, behind, i);
      RoundPasses(decode, tarball, es, Position(es, i), filepath, i);
    }
  }

  /** The reader passes the members with other names in one round each. */
  lemma {:induction false} PassOthers(round: int -> Outcome, length: nat, es: seq<Entry>, filepath: string, i: nat,
                                      rounds: nat)
    requires AllWellFormed(es) && Passes(round, length, es, filepath)
    requires i <= |es| && i <= rounds && forall k :: 0 <= k < i ==> es[k].name != filepath
    ensures Loop(round, length, 0, rounds) == Loop(round, length, Position(es, i), rounds - i)
  {
    if i > 0 {
      PassOthers(round, length, es, filepath, i - 1, rounds);
      assert PassesAt(round, length, es, filepath, i - 1);
    }
  }

  lemma LoopFinds(round: int -> Outcome, length: nat, es: seq<Entry>, filepath: string, i: nat, rounds: nat)
    requires AllWellFormed(es) && Passes(round, length, es, filepath)
    requires i < |es| && i < rounds && es[i].name == filepath && forall k :: 0 <= k < i ==> es[k].name != filepath
    ensures Loop(round, length, 0, rounds) == Found(es[i].content)
  {
    PassOthers(round, length, es, filepath, i, rounds);
    assert PassesAt(round, length, es, filepath, i);
  }

  /** Whatever follows the members of an archive, the reader returns the content of the first one with the name asked
      for, after one round for each member up to it. */
  lemma FirstNamesakeIsExtracted(decode: Decoder, es: seq<Entry>, behind: seq<Byte>, filepath: string, rounds: nat)
    requires AllWellFormed(es) && KeepsAscii(decode) && |Archive(es) + behind| < TWO_31
    requires IndexOf(es, filepath).Some? && rounds > IndexOf(es, filepath).value
    ensures Extract(decode, Archive(es) + behind, filepath, rounds) == Found(es[IndexOf(es, filepath).value].content)
  {
    var tarball := Archive(es) + behind;
    RoundsPass(decode, es, behind, filepath);
    LoopFinds(Round(decode, tarball, filepath), |tarball|, es, filepath, IndexOf(es, filepath).value, rounds);
  }

  // ---------- When the name is missing ----------

  /** A round at the zero bytes that end an archive goes back to its beginning: their size field is not a number. */
  lemma LookAtEnd(decode: Decoder, tarball: seq<Byte>, p: nat, filepath: string)
    requires KeepsAscii(decode) && filepath != "" && p < |tarball| && forall k :: p <= k < |tarball| ==> tarball[k] == 0
    ensures Look(decode, tarball, filepath, p) == At(0)
  {
    var header := Slice(tarball, p, p + BLOCK);
    assert forall k :: 0 <= k < |header| ==> header[k] == 0;
    var name, size := Slice(header, 0, 100), Slice(header, 124, 136);
    assert Chars(name) == "" + seq(|name|, _ => NUL);
    StripPadding("", |name|);
    assert Chars(size) == "" + seq(|size|, _ => NUL);
    StripPadding("", |size|);
  }

  lemma {:induction false} LoopsForever(round: int -> Outcome, length: nat, es: seq<Entry>, filepath: string,
                                        rounds: nat)
    requires AllWellFormed(es) && Passes(round, length, es, filepath) && IndexOf(es, filepath).None?
    requires Position(es, |es|) < length && round(Position(es, |es|)) == At(0)
    ensures Loop(round, length, 0, rounds).At?
    decreases rounds
  {
    var i := if rounds < |es| then rounds else |es|;
    PassOthers(round, length, es, filepath, i, rounds);
    if i < |es| { assert PassesAt(round, length, es, filepath, i); }
    if rounds > |es| { LoopsForever(round, length, es, filepath, rounds - |es| - 1); }
  }

  /** From the beginning of an archive without the name, closed by zero bytes, the loop is still running after any
      number of rounds. */
  lemma MissingNameLoops(decode: Decoder, es: seq<Entry>, zeros: nat, filepath: string, rounds: nat)
    requires AllWellFormed(es) && KeepsAscii(decode) && |Archive(es)| + zeros < TWO_31
    requires IndexOf(es, filepath).None? && filepath != "" && zeros > 0
    ensures Extract(decode, Archive(es) + Zeros(zeros), filepath, rounds).At?
  {
    var tarball := Archive(es) + Zeros(zeros);
    RoundsPass(decode, es, Zeros(zeros), filepath);
    assert es[..|es|] == es;
    LookAtEnd(decode, tarball, |Archive(es)|, filepath);
    LoopsForever(Round(decode, tarball, filepath), |tarball|, es, filepath, rounds);
  }

  /** On an archive closed by any number of zero bytes the reader ends if and only if the name is there or there are
      no zero bytes. The format closes an archive with at least two blocks of them. */
  lemma TerminatesIff(decode: Decoder, es: seq<Entry>, zeros: nat, filepath: string)
    requires AllWellFormed(es) && KeepsAscii(decode) && |Archive(es)| + zeros < TWO_31 && filepath != ""
    ensures (exists rounds: nat :: !Extract(decode, Archive(es) + Zeros(zeros), filepath, rounds).At?) <==>
            IndexOf(es, filepath).Some? || zeros == 0
  {
    var tarball := Archive(es) + Zeros(zeros);
    if IndexOf(es, filepath).Some? {
      FirstNamesakeIsExtracted(decode, es, Zeros(zeros), filepath, |es|);
    } else if zeros == 0 {
      RoundsPass(decode, es, Zeros(zeros), filepath);
      PassOthers(Round(decode, tarball, filepath), |tarball|, es, filepath, |es|, |es|);
      assert es[..|es|] == es && tarball == Archive(es);
      assert Extract(decode, tarball, filepath, |es|) == Undefined;
    } else {
      forall rounds: nat ensures Extract(decode, tarball, filepath, rounds).At? {
        MissingNameLoops(decode, es, zeros, filepath, rounds);
      }
    }
  }
}
