/** Numbers as an output stream writes them, and as an assembler reads them back. */
module Numerals {
  import opened Common

  /** The formatting state of a stream. */
  datatype Flags = Flags(hex: bool, showbase: bool)

  const PLAIN: Flags := Flags(false, false)

  function DigitChar(d: nat): char
    requires d < 16
  {
    "0123456789abcdef"[d]
  }

  predicate IsDigit(c: char, hex: bool) {
    '0' <= c <= '9' || (hex && 'a' <= c <= 'f')
  }

  function DigitValue(c: char): nat {
    if '0' <= c <= '9' then c as nat - '0' as nat
    else if 'a' <= c <= 'f' then 10 + (c as nat - 'a' as nat)
    else 0
  }

  lemma DigitRoundTrip(d: nat, hex: bool)
    requires d < if hex then 16 else 10
    ensures IsDigit(DigitChar(d), hex) && DigitValue(DigitChar(d)) == d
  {
  }

  function ShowNat(n: nat, hex: bool): (r: string)
    ensures r != ""
  {
    if hex then
      if n < 16 then [DigitChar(n)] else ShowNat(n / 16, hex) + [DigitChar(n % 16)]
    else
      if n < 10 then [DigitChar(n)] else ShowNat(n / 10, hex) + [DigitChar(n % 10)]
  }

  predicate AllDigits(s: string, hex: bool) {
    forall k :: 0 <= k < |s| ==> IsDigit(s[k], hex)
  }

  function ReadNat(s: string, hex: bool): nat {
    if s == "" then 0
    else ReadNat(s[..|s| - 1], hex) * (if hex then 16 else 10) + DigitValue(s[|s| - 1])
  }

  lemma {:induction false} ReadShow(n: nat, hex: bool)
    ensures ReadNat(ShowNat(n, hex), hex) == n
    ensures AllDigits(ShowNat(n, hex), hex)
  {
    var base := if hex then 16 else 10;
    var s := ShowNat(n, hex);
    DigitRoundTrip(n % base, hex);
    if n >= base {
      ReadShow(n / base, hex);
      assert s[..|s| - 1] == ShowNat(n / base, hex);
    } else {
      assert s[..|s| - 1] == "";
    }
  }

  /** Two numbers written alike are equal. */
  lemma ShowNatInjective(a: nat, b: nat, hex: bool)
    requires ShowNat(a, hex) == ShowNat(b, hex)
    ensures a == b
  {
    ReadShow(a, hex);
    ReadShow(b, hex);
  }

  // ---- a number is written in one way ----

  /** The digits of the number, without leading zeros. */
  predicate IsNumeral(t: string, n: nat, hex: bool) {
    t != "" && AllDigits(t, hex) && ReadNat(t, hex) == n && (t[0] == '0' ==> t == "0")
  }

  lemma {:induction false} NoLeadingZero(n: nat, hex: bool)
    ensures ShowNat(n, hex)[0] == '0' ==> n == 0
  {
    var base := if hex then 16 else 10;
    if n >= base {
      NoLeadingZero(n / base, hex);
    }
  }

  lemma ShownNumeral(n: nat, hex: bool)
    ensures IsNumeral(ShowNat(n, hex), n, hex)
  {
    ReadShow(n, hex);
    NoLeadingZero(n, hex);
  }

  lemma {:induction false} NumeralIsLarge(t: string, hex: bool)
    requires t != "" && AllDigits(t, hex) && t[0] != '0'
    ensures ReadNat(t, hex) > 0
  {
    if |t| > 1 {
      var u := t[..|t| - 1];
      assert u[0] == t[0];
      NumeralIsLarge(u, hex);
    } else {
      assert t[..0] == "";
    }
  }

  lemma DigitIsShown(c: char, hex: bool)
    requires IsDigit(c, hex)
    ensures DigitValue(c) < (if hex then 16 else 10) && DigitChar(DigitValue(c)) == c
  {
  }

  lemma ShowMore(n: nat, q: nat, v: nat, hex: bool)
    requires q > 0 && v < (if hex then 16 else 10) && n == if hex then q * 16 + v else q * 10 + v
    ensures ShowNat(n, hex) == ShowNat(q, hex) + [DigitChar(v)]
  {
    if hex {
      assert n / 16 == q && n % 16 == v;
    } else {
      assert n / 10 == q && n % 10 == v;
    }
  }

  lemma ReadMore(u: string, c: char, hex: bool)
    ensures ReadNat(u + [c], hex) ==
      if hex then ReadNat(u, hex) * 16 + DigitValue(c) else ReadNat(u, hex) * 10 + DigitValue(c)
  {
    assert (u + [c])[..|u|] == u;
  }

  lemma NumeralPrefix(t: string, n: nat, hex: bool) returns (u: string, c: char)
    requires IsNumeral(t, n, hex) && |t| > 1
    ensures t == u + [c] && IsDigit(c, hex) && IsNumeral(u, ReadNat(u, hex), hex) && ReadNat(u, hex) > 0
  {
    u, c := t[..|t| - 1], t[|t| - 1];
    assert u[0] == t[0];
    NumeralIsLarge(u, hex);
  }

  lemma OneDigit(t: string, n: nat, hex: bool)
    requires IsNumeral(t, n, hex) && |t| == 1
    ensures t == ShowNat(n, hex)
  {
    DigitIsShown(t[0], hex);
    assert t[..|t| - 1] == "" && ReadNat("", hex) == 0;
    if hex {
      assert n == DigitValue(t[0]);
    } else {
      assert n == DigitValue(t[0]);
    }
  }

  lemma {:induction false} NumeralIsShown(t: string, n: nat, hex: bool)
    requires IsNumeral(t, n, hex)
    ensures t == ShowNat(n, hex)
    decreases |t|
  {
    if |t| == 1 {
      OneDigit(t, n, hex);
    } else {
      var u, c := NumeralPrefix(t, n, hex);
      var q := ReadNat(u, hex);
      NumeralIsShown(u, q, hex);
      ReadMore(u, c, hex);
      DigitIsShown(c, hex);
      ShowMore(n, q, DigitValue(c), hex);
    }
  }

  /** What "stream << n" appends, for a 64-bit n: hexadecimal numbers are written unsigned. */
  function FormatInt(flags: Flags, n: int): string {
    if flags.hex then
      if flags.showbase && n != 0 then "0x" + ShowNat(Wrap(n), true) else ShowNat(Wrap(n), true)
    else if n < 0 then "-" + ShowNat(-n, false)
    else ShowNat(n, false)
  }

  // ---- reading numbers ----

  /** The 64-bit two's complement value of an unsigned number. */
  function Signed64(n: nat): int {
    if n < ADDRESS_SPACE / 2 then n else n - ADDRESS_SPACE
  }

  predicate IsInt64(n: int) {
    -(ADDRESS_SPACE / 2) <= n < ADDRESS_SPACE / 2
  }

  lemma SignedWrap(n: int)
    requires IsInt64(n)
    ensures Signed64(Wrap(n)) == n
  {
  }

  /** Reads a decimal number with an optional sign, or an unsigned hexadecimal one after 0x, and nothing else. */
  function ReadNumber(s: string): Option<int> {
    if |s| > 2 && s[..2] == "0x" then
      if AllDigits(s[2..], true) then Some(Signed64(ReadNat(s[2..], true))) else None
    else if |s| > 1 && s[0] == '-' then
      if AllDigits(s[1..], false) then Some(-(ReadNat(s[1..], false) as int)) else None
    else if s != "" && AllDigits(s, false) then Some(ReadNat(s, false))
    else None
  }

  /** A number to be added; without a sign if it comes first, and nothing at all for zero after something else. */
  function Addend(n: int, first: bool): string {
    if n < 0 || first then FormatInt(PLAIN, n)
    else if n == 0 then ""
    else "+" + FormatInt(PLAIN, n)
  }

  lemma ReadDecimal(n: int)
    ensures ReadNumber(FormatInt(PLAIN, n)) == Some(n)
  {
    var s := ShowNat(if n < 0 then -n else n, false);
    ReadShow(if n < 0 then -n else n, false);
    if n < 0 {
      assert ("-" + s)[1..] == s;
    } else {
      assert IsDigit(s[0], false);
      if |s| >= 2 {
        assert IsDigit(s[1], false);
        assert s[..2][1] == s[1];
      }
    }
  }

  lemma ReadHex(n: int)
    requires IsInt64(n)
    ensures ReadNumber("0x" + ShowNat(Wrap(n), true)) == Some(n)
  {
    ReadShow(Wrap(n), true);
    SignedWrap(n);
    var s := "0x" + ShowNat(Wrap(n), true);
    assert s[..2] == "0x" && s[2..] == ShowNat(Wrap(n), true);
  }

  // ---- what a number looks like ----

  /** The decimal digits of the number, after a minus sign if it is negative. */
  predicate IsDecimal(t: string, n: int) {
    if n < 0 then t != "" && t[0] == '-' && IsNumeral(t[1..], -n, false) else IsNumeral(t, n, false)
  }

  lemma DecimalExactly(t: string, n: int)
    ensures t == FormatInt(PLAIN, n) <==> IsDecimal(t, n)
  {
    var m := if n < 0 then -n else n;
    ShownNumeral(m, false);
    if n < 0 {
      assert ("-" + ShowNat(m, false))[1..] == ShowNat(m, false);
      if IsDecimal(t, n) {
        NumeralIsShown(t[1..], m, false);
        assert t == "-" + t[1..];
      }
    } else if IsDecimal(t, n) {
      NumeralIsShown(t, m, false);
    }
  }

  /** A distance from what stands before it: nothing for zero, else a sign and digits. */
  predicate IsDistance(t: string, n: int) {
    if n == 0 then t == ""
    else if n > 0 then t != "" && t[0] == '+' && IsNumeral(t[1..], n, false)
    else IsDecimal(t, n)
  }

  lemma DistanceExactly(t: string, n: int)
    ensures t == Addend(n, false) <==> IsDistance(t, n)
  {
    if n < 0 {
      DecimalExactly(t, n);
    } else if n > 0 {
      DecimalExactly(FormatInt(PLAIN, n), n);
      assert ("+" + FormatInt(PLAIN, n))[1..] == FormatInt(PLAIN, n);
      if IsDistance(t, n) {
        DecimalExactly(t[1..], n);
        assert t == "+" + t[1..];
      }
    }
  }

  /** The hexadecimal digits of the number modulo the address space. */
  lemma HexadecimalExactly(t: string, n: int)
    ensures t == FormatInt(PLAIN.(hex := true), n) <==> IsNumeral(t, n % ADDRESS_SPACE, true)
  {
    WrapIsRemainder(n);
    ShownNumeral(Wrap(n), true);
    if IsNumeral(t, Wrap(n), true) {
      NumeralIsShown(t, Wrap(n), true);
    }
  }
}
