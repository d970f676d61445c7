/** `BigInt(value)` applied to a string: the StringToBigInt operation of
    ECMA-262 (ECMAScript). Surrounding white space and line terminators are
    ignored; an empty or all-blank string is `0n`; otherwise the text is an
    optionally signed run of decimal digits or an unsigned `0x`/`0o`/`0b`
    literal; anything else throws a `SyntaxError` (here `None`). */
module JsBigInt {
  import opened Wrappers
  import opened JsStrings

  /** ECMAScript's LineTerminator: LF, CR, LS and PS. */
  const LineTerminators: set<char> := {'\n', '\r', '\U{2028}', '\U{2029}'}

  /** WhiteSpace: tab, VT, FF, ZWNBSP and every space separator. */
  const WhiteSpace: set<char> := {
    '\t', '\U{000B}', '\U{000C}', '\U{FEFF}', ' ', '\U{00A0}', '\U{1680}',
    '\U{2000}', '\U{2001}', '\U{2002}', '\U{2003}', '\U{2004}', '\U{2005}',
    '\U{2006}', '\U{2007}', '\U{2008}', '\U{2009}', '\U{200A}',
    '\U{202F}', '\U{205F}', '\U{3000}'
  }

  /** StrWhiteSpaceChar: WhiteSpace or LineTerminator. */
  const Blanks: set<char> := WhiteSpace + LineTerminators

  /** The number of blanks `s` starts with. */
  function LeadingBlanks(s: string): (k: nat)
    ensures k <= |s|
    ensures forall i :: 0 <= i < k ==> s[i] in Blanks
    ensures k < |s| ==> s[k] !in Blanks
  {
    if s != [] && s[0] in Blanks then 1 + LeadingBlanks(s[1..]) else 0
  }

  /** The number of blanks `s` ends with. */
  function TrailingBlanks(s: string): (k: nat)
    ensures k <= |s|
    ensures forall i :: |s| - k <= i < |s| ==> s[i] in Blanks
    ensures k < |s| ==> s[|s| - k - 1] !in Blanks
  {
    if s != [] && s[|s| - 1] in Blanks then 1 + TrailingBlanks(s[..|s| - 1]) else 0
  }

  /** `s.trim()`, as StringToBigInt applies it. */
  function Trim(s: string): string {
    var u := s[LeadingBlanks(s)..];
    u[..|u| - TrailingBlanks(u)]
  }

  /** The value of a hexadecimal-or-lower digit character. */
  function DigitValue(c: char): (r: Option<nat>)
    ensures r.Some? ==> r.value < 16
  {
    if '0' <= c <= '9' then Some(c as nat - '0' as nat)
    else if 'a' <= c <= 'f' then Some(c as nat - 'a' as nat + 10)
    else if 'A' <= c <= 'F' then Some(c as nat - 'A' as nat + 10)
    else None
  }

  /** The value of a run of digits in `base`, or `None` if some character is
      not a digit of that base. */
  function DigitsValue(ds: string, base: nat): Option<nat>
    requires 2 <= base <= 16
  {
    if ds == [] then Some(0)
    else match (DigitsValue(ds[..|ds| - 1], base), DigitValue(ds[|ds| - 1]))
      case (Some(v), Some(d)) => if d < base then Some(v * base + d) else None
      case _ => None
  }

  /** At least one digit is required after a sign or radix prefix. */
  function Digits(ds: string, base: nat): Option<nat>
    requires 2 <= base <= 16
  {
    if ds == [] then None else DigitsValue(ds, base)
  }

  /** `BigInt(s)` for a string `s`; `None` is the thrown `SyntaxError`. */
  function ParseBigInt(s: string): Option<int> {
    ParseLiteral(Trim(s))
  }

  /** The radix a `0x`, `0o` or `0b` prefix selects, if `t` has one. */
  function RadixPrefix(t: string): Option<nat> {
    if |t| < 2 || t[0] != '0' then None
    else if t[1] == 'x' || t[1] == 'X' then Some(16)
    else if t[1] == 'o' || t[1] == 'O' then Some(8)
    else if t[1] == 'b' || t[1] == 'B' then Some(2)
    else None
  }

  /** StringIntegerLiteral without the surrounding blanks. */
  function ParseLiteral(t: string): Option<int> {
    if t == [] then Some(0)
    else match RadixPrefix(t)
      case Some(base) =>
        if 2 <= base <= 16 then FromNat(Digits(t[2..], base)) else None
      case None =>
        if t[0] == '-' then
          match Digits(t[1..], 10)
          case Some(v) => Some(0 - v)
          case None => None
        else if t[0] == '+' then FromNat(Digits(t[1..], 10))
        else FromNat(Digits(t, 10))
  }

  function FromNat(v: Option<nat>): Option<int> {
    match v
    case Some(n) => Some(n)
    case None => None
  }

  /** How the plugin's own integers look as text: optional `-`, then the
      decimal digits. */
  function IntText(n: int): string {
    if n < 0 then "-" + Decimal(-n) else Decimal(n)
  }

  /** A rendered digit reads back as its value. */
  lemma DigitCharValue(d: nat)
    requires d < 10
    ensures DigitValue(DigitChar(d)) == Some(d)
  {
    assert "0123456789"[d] as nat - '0' as nat == d by {
      if d < 5 {
        assert d == 0 || d == 1 || d == 2 || d == 3 || d == 4;
      } else {
        assert d == 5 || d == 6 || d == 7 || d == 8 || d == 9;
      }
    }
  }

  lemma {:induction false} DecimalDigitsValue(n: nat)
    ensures DigitsValue(Decimal(n), 10) == Some(n)
  {
    var ds := Decimal(n);
    assert ds[|ds| - 1] == DigitChar(n % 10);
    DigitCharValue(n % 10);
    if n >= 10 {
      DecimalDigitsValue(n / 10);
      assert ds[..|ds| - 1] == Decimal(n / 10);
      assert DigitsValue(ds, 10) == Some((n / 10) * 10 + n % 10);
    } else {
      assert ds[..|ds| - 1] == [];
      assert DigitsValue(ds, 10) == Some(0 * 10 + n % 10);
    }
  }

  /** Text without blanks at either end is its own trim. */
  lemma TrimUnblanked(t: string)
    requires t != [] && t[0] !in Blanks && t[|t| - 1] !in Blanks
    ensures Trim(t) == t
  {
    assert LeadingBlanks(t) == 0;
    assert t[0..] == t;
    assert TrailingBlanks(t) == 0;
  }

  lemma DecimalUnblanked(m: nat)
    ensures Decimal(m)[0] !in Blanks && Decimal(m)[|Decimal(m)| - 1] !in Blanks
    ensures |Decimal(m)| >= 2 ==> Decimal(m)[1] != 'x' && Decimal(m)[1] != 'X'
    ensures |Decimal(m)| >= 2 ==> Decimal(m)[1] != 'o' && Decimal(m)[1] != 'O'
    ensures |Decimal(m)| >= 2 ==> Decimal(m)[1] != 'b' && Decimal(m)[1] != 'B'
  {
    var d := Decimal(m);
    assert '0' <= d[0] <= '9';
    assert '0' <= d[|d| - 1] <= '9';
  }

  lemma DecimalLiteral(m: nat)
    ensures ParseLiteral(Decimal(m)) == Some(m)
    ensures ParseLiteral("-" + Decimal(m)) == Some(0 - m)
  {
    UnsignedLiteral(m);
    NegatedLiteral(m);
  }

  lemma UnsignedLiteral(m: nat)
    ensures ParseLiteral(Decimal(m)) == Some(m)
  {
    DecimalUnblanked(m);
    DecimalDigitsValue(m);
    var d := Decimal(m);
    assert RadixPrefix(d) == None;
    assert d[0] != '-' && d[0] != '+';
    assert Digits(d, 10) == Some(m);
  }

  lemma NegatedLiteral(m: nat)
    ensures ParseLiteral("-" + Decimal(m)) == Some(0 - m)
  {
    DecimalDigitsValue(m);
    var d := Decimal(m);
    var t := "-" + d;
    assert RadixPrefix(t) == None;
    assert t[1..] == d;
    assert Digits(d, 10) == Some(m);
  }

  /** Parsing the decimal rendering of any integer gives that integer back. */
  lemma IntTextRoundTrip(n: int)
    ensures ParseBigInt(IntText(n)) == Some(n)
  {
    var t := IntText(n);
    var m: nat := if n < 0 then -n else n;
    var d := Decimal(m);
    DecimalUnblanked(m);
    DecimalLiteral(m);
    if n < 0 {
      assert t == "-" + d;
      assert t[|t| - 1] == d[|d| - 1];
    }
    TrimUnblanked(t);
  }

  /** An empty or blank input converts to zero rather than failing. */
  lemma BlankIsZero(s: string)
    requires forall i :: 0 <= i < |s| ==> s[i] in Blanks
    ensures ParseBigInt(s) == Some(0)
  {
    assert LeadingBlanks(s) == |s|;
  }

  /** Blanks in front of text that starts with a non-blank are all skipped. */
  lemma {:induction false} LeadingBlanksOf(pre: string, t: string)
    requires forall i :: 0 <= i < |pre| ==> pre[i] in Blanks
    requires t != [] && t[0] !in Blanks
    ensures LeadingBlanks(pre + t) == |pre|
  {
    if pre != [] {
      LeadingBlanksOf(pre[1..], t);
      assert (pre + t)[1..] == pre[1..] + t;
    }
  }

  /** Blanks after text that ends with a non-blank are all skipped. */
  lemma {:induction false} TrailingBlanksOf(t: string, post: string)
    requires forall i :: 0 <= i < |post| ==> post[i] in Blanks
    requires t != [] && t[|t| - 1] !in Blanks
    ensures TrailingBlanks(t + post) == |post|
  {
    if post != [] {
      TrailingBlanksOf(t, post[..|post| - 1]);
      assert (t + post)[..|t + post| - 1] == t + post[..|post| - 1];
    }
  }

  /** `BigInt` ignores any blanks around an integer's decimal text. */
  lemma SurroundingBlanksIgnored(pre: string, n: int, post: string)
    requires forall i :: 0 <= i < |pre| ==> pre[i] in Blanks
    requires forall i :: 0 <= i < |post| ==> post[i] in Blanks
    ensures ParseBigInt(pre + IntText(n) + post) == Some(n)
  {
    var t := IntText(n);
    var m: nat := if n < 0 then -n else n;
    DecimalUnblanked(m);
    if n < 0 {
      assert t == "-" + Decimal(m);
      assert t[|t| - 1] == Decimal(m)[|Decimal(m)| - 1];
    }
    var s := pre + t + post;
    assert s == pre + (t + post);
    LeadingBlanksOf(pre, t + post);
    assert s[|pre|..] == t + post;
    TrailingBlanksOf(t, post);
    assert (t + post)[..|t + post| - |post|] == t;
    assert Trim(s) == t;
    IntTextRoundTrip(n);
    TrimUnblanked(t);
  }

  /** No digit run holding a `.` has a value, in any base. */
  lemma {:induction false} DotIsNoDigit(ds: string, base: nat)
    requires 2 <= base <= 16
    requires '.' in ds
    ensures DigitsValue(ds, base) == None
  {
    if ds[|ds| - 1] != '.' {
      assert '.' in ds[..|ds| - 1] by {
        var i :| 0 <= i < |ds| && ds[i] == '.';
        assert ds[..|ds| - 1][i] == '.';
      }
      DotIsNoDigit(ds[..|ds| - 1], base);
    }
  }

  /** The `.` of a fraction is not blank, so it survives the trim. */
  lemma DotSurvivesTrim(s: string)
    requires '.' in s
    ensures '.' in Trim(s)
  {
    var i :| 0 <= i < |s| && s[i] == '.';
    var l := LeadingBlanks(s);
    var u := s[l..];
    var k := TrailingBlanks(u);
    assert l <= i;
    assert u[i - l] == '.';
    assert i - l < |u| - k;
    assert Trim(s)[i - l] == '.';
  }

  /** `BigInt` throws on any text holding a `.`: a fraction such as `1.5`
      is not an integer literal, whatever surrounds it. */
  lemma FractionRejected(s: string)
    requires '.' in s
    ensures ParseBigInt(s) == None
  {
    DotSurvivesTrim(s);
    var t := Trim(s);
    var i :| 0 <= i < |t| && t[i] == '.';
    match RadixPrefix(t)
    case Some(base) =>
      assert t[1] != '.';
      assert t[2..][i - 2] == '.';
      DotIsNoDigit(t[2..], base);
    case None =>
      if t[0] == '-' || t[0] == '+' {
        assert t[1..][i - 1] == '.';
        DotIsNoDigit(t[1..], 10);
      } else {
        DotIsNoDigit(t, 10);
      }
  }
}
