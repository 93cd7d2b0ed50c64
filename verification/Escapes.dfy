/** String directives: the escaping of the printer and its inverse. */
module Escapes {
  import opened Common

  function ByteChar(b: Byte): char {
    b as char
  }

  /** Replaces every occurrence of c in s. The replacement itself is not scanned again. */
  function ReplaceAll(s: string, c: char, with: string): string {
    if s == "" then ""
    else (if s[0] == c then with else [s[0]]) + ReplaceAll(s[1..], c, with)
  }

  const BACKSLASH: char := 92 as char
  const QUOTE: char := 34 as char
  const APOSTROPHE: char := 39 as char
  const NEWLINE: char := 10 as char

  /** The characters to escape, in the order in which they are replaced, and their letters. */
  const TABLE: seq<(char, char)> := [
    (BACKSLASH, BACKSLASH), (QUOTE, QUOTE), (NEWLINE, 'n'), (9 as char, 't'), (11 as char, 'v'),
    (8 as char, 'b'), (13 as char, 'r'), (7 as char, 'a'), (APOSTROPHE, APOSTROPHE)]

  /** The replacements from position k of the table on, one after the other. */
  function CleanFrom(s: string, k: nat): string
    requires k <= |TABLE|
    decreases |TABLE| - k
  {
    if k == |TABLE| then s
    else CleanFrom(ReplaceAll(s, TABLE[k].0, [BACKSLASH, TABLE[k].1]), k + 1)
  }

  function CleanByte(b: Byte): string {
    CleanFrom([ByteChar(b)], 0)
  }

  function CleanBytes(bytes: seq<Byte>): string {
    if bytes == [] then ""
    else (if bytes[0] != 0 then CleanByte(bytes[0]) else "") + CleanBytes(bytes[1..])
  }

  function Literal(bytes: seq<Byte>): string {
    [QUOTE] + CleanBytes(bytes) + [QUOTE]
  }

  // ---- reading a literal ----

  /** The byte a C escape sequence stands for, by the letter after the backslash. */
  function Unescape(c: char): Option<Byte> {
    if c == BACKSLASH then Some(92)
    else if c == QUOTE then Some(34)
    else if c == APOSTROPHE then Some(39)
    else if c == 'n' then Some(10)
    else if c == 't' then Some(9)
    else if c == 'v' then Some(11)
    else if c == 'b' then Some(8)
    else if c == 'r' then Some(13)
    else if c == 'a' then Some(7)
    else None
  }

  /** The contents of a C string literal; an unescaped quote or a raw newline is an error. */
  function Decode(s: string): Option<seq<Byte>> {
    if s == "" then Some([])
    else if s[0] == BACKSLASH then
      if |s| < 2 || Unescape(s[1]) == None then None
      else match Decode(s[2..])
        case None => None
        case Some(rest) => Some([Unescape(s[1]).value] + rest)
    else if s[0] == QUOTE || s[0] == NEWLINE || s[0] as int >= 256 then None
    else match Decode(s[1..])
      case None => None
      case Some(rest) => Some([s[0] as int] + rest)
  }

  function DecodeLiteral(s: string): Option<seq<Byte>> {
    if |s| >= 2 && s[0] == QUOTE && s[|s| - 1] == QUOTE then Decode(s[1..|s| - 1]) else None
  }

  function NonZero(bytes: seq<Byte>): seq<Byte> {
    if bytes == [] then []
    else (if bytes[0] != 0 then [bytes[0]] else []) + NonZero(bytes[1..])
  }

  /** An escape sequence survives the replacements after the one that made it. */
  lemma {:induction false} EscapeSurvives(y: char, k: nat)
    requires k <= |TABLE| && forall j :: k <= j < |TABLE| ==> TABLE[j].0 != BACKSLASH && TABLE[j].0 != y
    ensures CleanFrom([BACKSLASH, y], k) == [BACKSLASH, y]
    decreases |TABLE| - k
  {
    if k < |TABLE| {
      assert [BACKSLASH, y][1..] == [y];
      assert ReplaceAll([y], TABLE[k].0, [BACKSLASH, TABLE[k].1]) == [y];
      EscapeSurvives(y, k + 1);
    }
  }

  lemma TableIsOrdered(k: nat)
    requires k < |TABLE|
    ensures forall j :: k < j < |TABLE| ==> TABLE[j].0 !in [BACKSLASH, TABLE[k].1, TABLE[k].0]
    ensures TABLE[k].0 as int < 256 && Unescape(TABLE[k].1) == Some(TABLE[k].0 as int)
  {
  }

  lemma {:induction false} CleanFromOne(c: char, k: nat)
    requires k <= |TABLE| && c as int < 256
    ensures var s := CleanFrom([c], k);
      if exists j :: k <= j < |TABLE| && TABLE[j].0 == c
      then |s| == 2 && s[0] == BACKSLASH && Unescape(s[1]) == Some(c as int)
      else s == [c]
    decreases |TABLE| - k
  {
    if k < |TABLE| {
      TableIsOrdered(k);
      if TABLE[k].0 == c {
        EscapeSurvives(TABLE[k].1, k + 1);
        assert ReplaceAll([c], c, [BACKSLASH, TABLE[k].1]) == [BACKSLASH, TABLE[k].1];
      } else {
        CleanFromOne(c, k + 1);
        assert ReplaceAll([c], TABLE[k].0, [BACKSLASH, TABLE[k].1]) == [c];
      }
    }
  }

  /** Backslash, quotes, and the control characters that have a letter of their own. */
  predicate NeedsEscape(b: Byte) {
    b in {92, 34, 39, 10, 9, 11, 8, 13, 7}
  }

  /** The nine replacements do not interfere: a byte becomes its one escape sequence if it has one. */
  lemma CleanByteEscapesOnce(b: Byte)
    ensures var s := CleanByte(b);
      if NeedsEscape(b) then |s| == 2 && s[0] == BACKSLASH && Unescape(s[1]) == Some(b) else s == [ByteChar(b)]
  {
    CleanFromOne(ByteChar(b), 0);
    InTable(b);
  }

  lemma InTable(b: Byte)
    ensures NeedsEscape(b) <==> exists j :: 0 <= j < |TABLE| && TABLE[j].0 == ByteChar(b)
  {
    assert TABLE[0].0 == 92 as char && TABLE[1].0 == 34 as char && TABLE[2].0 == 10 as char;
    assert TABLE[3].0 == 9 as char && TABLE[4].0 == 11 as char && TABLE[5].0 == 8 as char;
    assert TABLE[6].0 == 13 as char && TABLE[7].0 == 7 as char && TABLE[8].0 == 39 as char;
  }

  lemma DecodeClean(b: Byte, t: string)
    ensures Decode(CleanByte(b) + t) ==
      match Decode(t) case None => None case Some(rest) => Some([b] + rest)
  {
    CleanByteEscapesOnce(b);
    var s := CleanByte(b);
    if |s| == 2 {
      assert (s + t)[2..] == t;
    } else {
      assert (s + t)[1..] == t;
    }
  }

  /** Decoding the cleaned bytes gives them back, without the NULs. */
  lemma {:induction false} DecodeCleanBytes(bytes: seq<Byte>)
    ensures Decode(CleanBytes(bytes)) == Some(NonZero(bytes))
  {
    if bytes != [] {
      DecodeCleanBytes(bytes[1..]);
      if bytes[0] != 0 {
        DecodeClean(bytes[0], CleanBytes(bytes[1..]));
      } else {
        assert "" + CleanBytes(bytes[1..]) == CleanBytes(bytes[1..]);
        assert [] + NonZero(bytes[1..]) == NonZero(bytes[1..]);
      }
    }
  }

  /** For every byte sequence, the string literal is well formed and means its non-NUL bytes. */
  lemma LiteralRoundTrip(bytes: seq<Byte>)
    ensures DecodeLiteral(Literal(bytes)) == Some(NonZero(bytes))
  {
    DecodeCleanBytes(bytes);
    var s := Literal(bytes);
    assert s[1..|s| - 1] == CleanBytes(bytes);
  }

  predicate AllZero(bytes: seq<Byte>) {
    forall k :: 0 <= k < |bytes| ==> bytes[k] == 0
  }

  /** Some bytes other than NUL, then one NUL. */
  predicate IsCString(bytes: seq<Byte>) {
    bytes != [] && bytes[|bytes| - 1] == 0 && forall k :: 0 <= k < |bytes| - 1 ==> bytes[k] != 0
  }

  lemma {:induction false} NonZeroKeeps(bytes: seq<Byte>)
    ensures |NonZero(bytes)| <= |bytes|
    ensures |NonZero(bytes)| == |bytes| <==> NonZero(bytes) == bytes
    ensures NonZero(bytes) == bytes <==> forall k :: 0 <= k < |bytes| ==> bytes[k] != 0
    ensures forall k :: 0 <= k < |NonZero(bytes)| ==> NonZero(bytes)[k] != 0
  {
    if bytes != [] {
      NonZeroKeeps(bytes[1..]);
      if bytes[0] != 0 {
        assert bytes == [bytes[0]] + bytes[1..];
      } else {
        assert NonZero(bytes) == NonZero(bytes[1..]);
      }
    }
  }

  lemma {:induction false} NonZeroLast(bytes: seq<Byte>)
    requires bytes != []
    ensures NonZero(bytes) ==
      NonZero(bytes[..|bytes| - 1]) + (if bytes[|bytes| - 1] != 0 then [bytes[|bytes| - 1]] else [])
  {
    if |bytes| > 1 {
      NonZeroLast(bytes[1..]);
      assert bytes[1..][..|bytes| - 2] == bytes[..|bytes| - 1][1..];
    }
  }

  /** A ".string" directive, which adds a NUL, restores exactly the C strings. */
  lemma StringRestores(bytes: seq<Byte>)
    ensures NonZero(bytes) + [0] == bytes <==> IsCString(bytes)
  {
    NonZeroKeeps(bytes);
    if bytes != [] {
      var init, last := bytes[..|bytes| - 1], bytes[|bytes| - 1];
      NonZeroLast(bytes);
      NonZeroKeeps(init);
      assert bytes == init + [last];
      if IsCString(bytes) {
        assert NonZero(bytes) == init;
      }
    }
  }
}
