/**
  The two conversions the storefront applies to stock numbers: Python's
  `int(text)` in base 10 (the stock field of the add-product form) and
  `str(n)` (the stock shown in a menu option's description). Only ASCII text
  is modelled: Python also accepts non-ASCII decimal digits and whitespace.
 */
module Decimal {
  import opened Wrappers

  predicate IsDigit(ch: char) {
    '0' <= ch <= '9'
  }

  /**
    The ASCII characters `int()` skips around the digits: space and \t \n \v \f \r.
    The separators \x1c-\x1f are not among them, although `str.isspace` holds of them.
   */
  predicate IsSpace(ch: char) {
    ch == ' ' || ('\t' <= ch <= '\r')
  }

  function DigitValue(ch: char): (d: nat)
    requires IsDigit(ch)
    ensures d < 10
  {
    ch as int - '0' as int
  }

  function DigitChar(d: nat): (ch: char)
    requires d < 10
    ensures IsDigit(ch) && DigitValue(ch) == d
  {
    ('0' as int + d) as char
  }

  /** `s` without its leading whitespace. */
  function TrimStart(s: string): (r: string)
    ensures |r| <= |s| && r == s[|s| - |r|..]
    ensures r == [] || !IsSpace(r[0])
  {
    if |s| > 0 && IsSpace(s[0]) then TrimStart(s[1..]) else s
  }

  /** `s` without its trailing whitespace. */
  function TrimEnd(s: string): (r: string)
    ensures |r| <= |s| && r == s[..|r|]
    ensures r == [] || !IsSpace(r[|r| - 1])
  {
    if |s| > 0 && IsSpace(s[|s| - 1]) then TrimEnd(s[..|s| - 1]) else s
  }

  function Strip(s: string): string {
    TrimEnd(TrimStart(s))
  }

  /** Characters that may appear in the digit part of a base-10 literal. */
  predicate DigitsOrUnderscores(s: string) {
    forall i :: 0 <= i < |s| ==> IsDigit(s[i]) || s[i] == '_'
  }

  /**
    The digit part `int()` accepts: at least one digit, starting and ending
    with a digit, every underscore followed by a digit ("1_000", not "1__0",
    "_1" or "1_").
   */
  predicate IsDigitRun(s: string) {
    && |s| > 0
    && IsDigit(s[0])
    && IsDigit(s[|s| - 1])
    && DigitsOrUnderscores(s)
    && (forall i :: 0 <= i < |s| - 1 && s[i] == '_' ==> IsDigit(s[i + 1]))
  }

  /** The number spelled by the digits of `s`, underscores ignored. */
  function RunValue(s: string): nat
    requires DigitsOrUnderscores(s)
  {
    if s == [] then 0
    else if s[|s| - 1] == '_' then RunValue(s[..|s| - 1])
    else RunValue(s[..|s| - 1]) * 10 + DigitValue(s[|s| - 1])
  }

  /** The digit part of stripped text, after an optional sign. */
  function Unsigned(t: string): string {
    if |t| > 0 && (t[0] == '-' || t[0] == '+') then t[1..] else t
  }

  /**
    Python's `int(text)`: None where it raises ValueError. Surrounding
    whitespace is ignored, one sign is allowed, nothing may stand between the
    sign and the digits, and negative values are accepted.
   */
  function Parse(text: string): (r: Option<int>)
    ensures r.Some? ==> |Strip(text)| > 0
    ensures r.Some? && r.value < 0 ==> Strip(text)[0] == '-'
  {
    var t := Strip(text);
    var body := Unsigned(t);
    if IsDigitRun(body) then
      var n: int := RunValue(body);
      Some(if |t| > 0 && t[0] == '-' then -n else n)
    else
      None
  }

  /** Python's `str(n)` for a natural number: its decimal digits. */
  function NatText(n: nat): (s: string)
    ensures |s| > 0
    ensures forall i :: 0 <= i < |s| ==> IsDigit(s[i])
  {
    if n < 10 then [DigitChar(n)] else NatText(n / 10) + [DigitChar(n % 10)]
  }

  /** Python's `str(n)` for an int: a minus sign before the digits of a negative number. */
  function Show(n: int): (s: string)
    ensures |s| > 0 && (|s| == 1 ==> IsDigit(s[0]))
    ensures s[0] == '-' <==> n < 0
    ensures IsDigit(s[|s| - 1])
  {
    if n < 0 then "-" + NatText(-n) else NatText(n)
  }

  lemma {:induction false} NatTextValue(n: nat)
    ensures DigitsOrUnderscores(NatText(n))
    ensures RunValue(NatText(n)) == n
  {
    var s := NatText(n);
    if n >= 10 {
      NatTextValue(n / 10);
      assert s[..|s| - 1] == NatText(n / 10);
    } else {
      assert s[..|s| - 1] == [];
    }
  }

  /** `str(n)` has no surrounding whitespace to strip. */
  lemma StripShow(n: int)
    ensures Strip(Show(n)) == Show(n)
  {
    var s := Show(n);
    assert !IsSpace(s[0]) && !IsSpace(s[|s| - 1]);
    assert TrimStart(s) == s;
  }

  /** The digits of a natural number form a digit run `int()` accepts. */
  lemma NatTextIsRun(k: nat)
    ensures IsDigitRun(NatText(k))
  {
  }

  /** `int(str(n)) == n`: every stock number the menu shows reads back as itself. */
  lemma {:induction false} ParseShow(n: int)
    ensures Parse(Show(n)) == Some(n)
  {
    var k: nat := if n < 0 then -n else n;
    StripShow(n);
    UnsignedShow(n);
    NatTextIsRun(k);
    NatTextValue(k);
  }

  /** After its sign, `str(n)` holds the digits of the magnitude. */
  lemma UnsignedShow(n: int)
    ensures Unsigned(Show(n)) == NatText(if n < 0 then -n else n)
  {
    if n < 0 {
      assert Show(n)[1..] == NatText(-n);
    }
  }

  /** `int()` accepts negative numbers: "-1" parses to -1. */
  lemma NegativeAccepted()
    ensures Parse("-1") == Some(-1)
  {
    ParseShow(-1);
    assert Show(-1) == "-1";
  }

  /** A file separator before the digits is not skipped: `int("\x1c5")` raises. */
  lemma SeparatorRejected()
    ensures Parse("\U{1C}5") == None
  {
  }

  /** Text with no digit at all (the empty field, a word) raises. */
  lemma NoDigitRejected(text: string)
    requires forall i :: 0 <= i < |text| ==> !IsDigit(text[i])
    ensures Parse(text) == None
  {
  }
}
