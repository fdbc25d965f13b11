/**
 * The JavaScript string built-ins the game relies on, over `seq<char>`:
 * `String.prototype.trim`, `String.prototype.split` with a one-character
 * separator, `String(n)` for a natural number and `Number(s)` restricted to
 * integers written in decimal.
 */
module Text {
  import opened Wrappers

  /** A code point that `trim` removes: ECMAScript WhiteSpace or LineTerminator. */
  predicate IsWhitespace(c: char) {
    var n := c as int;
    n == 0x09 || n == 0x0A || n == 0x0B || n == 0x0C || n == 0x0D || n == 0x20
    || n == 0xA0 || n == 0x1680 || (0x2000 <= n <= 0x200A) || n == 0x2028
    || n == 0x2029 || n == 0x202F || n == 0x205F || n == 0x3000 || n == 0xFEFF
  }

  /** Drops the leading white space. */
  function TrimStart(s: string): (r: string)
    ensures |r| <= |s| && r == s[|s| - |r|..]
    ensures forall k :: 0 <= k < |s| - |r| ==> IsWhitespace(s[k])
    ensures r == [] || !IsWhitespace(r[0])
  {
    if s != [] && IsWhitespace(s[0]) then TrimStart(s[1..]) else s
  }

  /** Drops the trailing white space. */
  function TrimEnd(s: string): (r: string)
    ensures |r| <= |s| && r == s[..|r|]
    ensures forall k :: |r| <= k < |s| ==> IsWhitespace(s[k])
    ensures r == [] || !IsWhitespace(r[|r| - 1])
  {
    if s != [] && IsWhitespace(s[|s| - 1]) then TrimEnd(s[..|s| - 1]) else s
  }

  /** `s.trim()`: `s` without the white space at either end. */
  function Trim(s: string): (r: string)
    ensures |r| <= |s|
    ensures r == [] || (!IsWhitespace(r[0]) && !IsWhitespace(r[|r| - 1]))
  {
    TrimEnd(TrimStart(s))
  }

  /**
   * The trim is a slice of `s`: what precedes it and what follows it is
   * white space.
   */
  lemma TrimSlice(s: string)
    ensures var i := |s| - |TrimStart(s)|;
      i + |Trim(s)| <= |s| && Trim(s) == s[i..i + |Trim(s)|] &&
      (forall k :: 0 <= k < i ==> IsWhitespace(s[k])) &&
      (forall k :: i + |Trim(s)| <= k < |s| ==> IsWhitespace(s[k]))
  {
  }

  /** A string with no white space at either end is its own trim. */
  lemma TrimFixed(s: string)
    requires s == [] || (!IsWhitespace(s[0]) && !IsWhitespace(s[|s| - 1]))
    ensures Trim(s) == s
  {
  }

  /** The index of the first `c` in `s`, or `|s|` when there is none. */
  function IndexOf(s: string, c: char): (i: nat)
    ensures i <= |s|
    ensures i < |s| ==> s[i] == c
    ensures forall k :: 0 <= k < i ==> s[k] != c
  {
    if s == [] then 0
    else if s[0] == c then 0
    else 1 + IndexOf(s[1..], c)
  }

  /** The pieces joined back together, `sep` between neighbours: `pieces.join(sep)`. */
  function Join(pieces: seq<string>, sep: char): string {
    if |pieces| == 0 then ""
    else if |pieces| == 1 then pieces[0]
    else pieces[0] + [sep] + Join(pieces[1..], sep)
  }

  /**
   * `s.split(sep)`: the maximal runs of `s` between separators. There is
   * always at least one piece (the empty string splits into `[""]`), no piece
   * contains the separator, and joining the pieces gives `s` back.
   */
  function Split(s: string, sep: char): (r: seq<string>)
    ensures |r| >= 1
    ensures forall k :: 0 <= k < |r| ==> sep !in r[k]
    ensures Join(r, sep) == s
    decreases |s|
  {
    var i := IndexOf(s, sep);
    if i == |s| then
      assert sep !in s;
      [s]
    else
      var rest := Split(s[i + 1..], sep);
      assert s == s[..i] + [sep] + s[i + 1..];
      [s[..i]] + rest
  }

  /** Splitting a join of separator-free pieces gives the pieces back. */
  lemma {:induction false} SplitJoin(pieces: seq<string>, sep: char)
    requires |pieces| >= 1
    requires forall k :: 0 <= k < |pieces| ==> sep !in pieces[k]
    ensures Split(Join(pieces, sep), sep) == pieces
    decreases |pieces|
  {
    var p := pieces[0];
    if |pieces| == 1 {
      assert IndexOf(p, sep) == |p|;
    } else {
      var s := Join(pieces, sep);
      assert s == p + [sep] + Join(pieces[1..], sep);
      assert s[|p|] == sep;
      assert forall k :: 0 <= k < |p| ==> s[k] == p[k];
      assert IndexOf(s, sep) == |p|;
      assert s[|p| + 1..] == Join(pieces[1..], sep);
      assert s[..|p|] == p;
      SplitJoin(pieces[1..], sep);
    }
  }

  predicate IsDigit(c: char) {
    '0' <= c <= '9'
  }

  function DigitValue(c: char): nat
    requires IsDigit(c)
  {
    (c as int) - ('0' as int)
  }

  function DigitChar(d: nat): (c: char)
    requires d < 10
    ensures IsDigit(c) && DigitValue(c) == d
  {
    ('0' as int + d) as char
  }

  predicate AllDigits(s: string) {
    forall k :: 0 <= k < |s| ==> IsDigit(s[k])
  }

  /** The value of a run of decimal digits, most significant first. */
  function DigitsValue(s: string): nat
    requires AllDigits(s)
  {
    if s == [] then 0 else 10 * DigitsValue(s[..|s| - 1]) + DigitValue(s[|s| - 1])
  }

  /** `String(n)` for a natural number: its shortest decimal form. */
  function NatToString(n: nat): (s: string)
    ensures s != [] && AllDigits(s)
    ensures DigitsValue(s) == n
    ensures |s| > 1 ==> s[0] != '0'
  {
    if n < 10 then [DigitChar(n)]
    else
      var s := NatToString(n / 10) + [DigitChar(n % 10)];
      assert s[..|s| - 1] == NatToString(n / 10);
      s
  }

  /** A sign `Number` accepts in front of the digits. */
  predicate IsSign(c: char) {
    c == '-' || c == '+'
  }

  /** A decimal integer numeral: one or more digits, optionally after one sign. */
  predicate IsNumeral(t: string) {
    (t != [] && AllDigits(t)) || (|t| >= 2 && IsSign(t[0]) && AllDigits(t[1..]))
  }

  /**
   * `Number(s)` on the strings this model gives meaning to: after trimming,
   * an optional sign and one or more decimal digits. A blank string is 0, as in
   * JavaScript; anything else is not a number (`NaN`), here `None`.
   */
  function ParseNum(s: string): (r: Option<int>)
    ensures r.Some? <==> Trim(s) == [] || IsNumeral(Trim(s))
    ensures Trim(s) == [] ==> r == Some(0)
    ensures AllDigits(Trim(s)) && Trim(s) != [] ==> r == Some(DigitsValue(Trim(s)))
    ensures |Trim(s)| >= 2 && Trim(s)[0] == '-' && AllDigits(Trim(s)[1..]) ==>
      r == Some(-(DigitsValue(Trim(s)[1..]) as int))
    ensures |Trim(s)| >= 2 && Trim(s)[0] == '+' && AllDigits(Trim(s)[1..]) ==>
      r == Some(DigitsValue(Trim(s)[1..]))
    ensures r.Some? && r.value < 0 ==> Trim(s)[0] == '-'
  {
    var t := Trim(s);
    if t == [] then Some(0) else SignedDigits(t)
  }

  /**
   * A non-blank trimmed string as a number: a numeral reads as its signed
   * decimal value, and anything else is rejected.
   */
  function SignedDigits(t: string): (r: Option<int>)
    ensures r.Some? <==> IsNumeral(t)
    ensures AllDigits(t) && t != [] ==> r == Some(DigitsValue(t))
    ensures |t| >= 2 && t[0] == '-' && AllDigits(t[1..]) ==> r == Some(-(DigitsValue(t[1..]) as int))
    ensures |t| >= 2 && t[0] == '+' && AllDigits(t[1..]) ==> r == Some(DigitsValue(t[1..]))
    ensures r.Some? && r.value < 0 ==> t != [] && t[0] == '-'
  {
    if t != [] && IsSign(t[0]) then
      var digits := t[1..];
      if digits != [] && AllDigits(digits) then
        Some(if t[0] == '-' then -(DigitsValue(digits) as int) else DigitsValue(digits))
      else None
    else if t != [] && AllDigits(t) then Some(DigitsValue(t))
    else None
  }

  /** `Number(String(n)) == n`: the decimal form of a natural number parses back to it. */
  lemma NumberOfString(n: nat)
    ensures ParseNum(NatToString(n)) == Some(n)
  {
    var s := NatToString(n);
    assert !IsWhitespace(s[0]) && !IsWhitespace(s[|s| - 1]);
    TrimFixed(s);
  }

  /** A minus sign in front of digits gives the negated value. */
  lemma NumberOfNegative(n: nat)
    requires n > 0
    ensures ParseNum("-" + NatToString(n)) == Some(-(n as int))
  {
    var d := NatToString(n);
    var s := "-" + d;
    assert s[1..] == d;
    assert SignedDigits(s) == Some(-(n as int));
    assert s[|s| - 1] == d[|d| - 1];
    TrimFixed(s);
  }
}
