/** JavaScript's `parseInt(string)` with no radix argument (ECMAScript section
    19.2.5, "parseInt ( string, radix )"), and the decimal spelling of an
    integer that it reads back. */
module Numbers {
  import opened Json

  /** StrWhiteSpaceChar: the white space and line terminator code units that
      `parseInt` skips at the start of its argument. */
  predicate IsWhite(c: char) {
    c == '\t' || c == '\n' || c == '\U{000B}' || c == '\U{000C}' || c == '\r' ||
    c == ' ' || c == '\U{00A0}' || c == '\U{1680}' ||
    ('\U{2000}' <= c <= '\U{200A}') || c == '\U{2028}' || c == '\U{2029}' ||
    c == '\U{202F}' || c == '\U{205F}' || c == '\U{3000}' || c == '\U{FEFF}'
  }

  /** The value of `c` as a digit in radix 36; 36 when `c` is no digit at all. */
  function DigitValue(c: char): (d: nat)
    ensures d <= 36
  {
    if '0' <= c <= '9' then (c as int) - ('0' as int)
    else if 'a' <= c <= 'z' then (c as int) - ('a' as int) + 10
    else if 'A' <= c <= 'Z' then (c as int) - ('A' as int) + 10
    else 36
  }

  predicate IsDigitIn(c: char, radix: nat) {
    DigitValue(c) < radix
  }

  /** `s` without its leading white space. */
  function TrimStart(s: string): (r: string)
    ensures |r| <= |s| && r == s[|s| - |r|..]
    ensures r == [] || !IsWhite(r[0])
    ensures forall i :: 0 <= i < |s| - |r| ==> IsWhite(s[i])
  {
    if s != [] && IsWhite(s[0]) then TrimStart(s[1..]) else s
  }

  /** The longest prefix of `s` made of digits of the given radix. */
  function DigitPrefix(s: string, radix: nat): (d: string)
    ensures |d| <= |s| && d == s[..|d|]
    ensures forall i :: 0 <= i < |d| ==> IsDigitIn(d[i], radix)
    ensures |d| < |s| ==> !IsDigitIn(s[|d|], radix)
  {
    if s == [] || !IsDigitIn(s[0], radix) then [] else [s[0]] + DigitPrefix(s[1..], radix)
  }

  /** The number the digit string `ds` denotes in the given radix. */
  function ValueOf(ds: string, radix: nat): nat
    decreases |ds|
  {
    if ds == [] then 0
    else ValueOf(ds[..|ds| - 1], radix) * radix + DigitValue(ds[|ds| - 1])
  }

  /** Starts with the prefix `0x` or `0X` that switches `parseInt` to radix 16. */
  predicate HasHexPrefix(u: string) {
    |u| >= 2 && u[0] == '0' && (u[1] == 'x' || u[1] == 'X')
  }

  /** The unsigned part of `parseInt`: radix 16 after a `0x`/`0X` prefix and
      radix 10 otherwise, reading up to the first character that is not a
      digit; None when no digit was read. */
  function Magnitude(u: string): (r: Option<nat>)
    ensures r.None? <==> DigitPrefix(if HasHexPrefix(u) then u[2..] else u, if HasHexPrefix(u) then 16 else 10) == []
  {
    var hex := HasHexPrefix(u);
    var radix := if hex then 16 else 10;
    var ds := DigitPrefix(if hex then u[2..] else u, radix);
    if ds == [] then None else Some(ValueOf(ds, radix))
  }

  /** `parseInt` after the white space: one optional sign, then the
      magnitude; NaN when no digit was read. */
  function ParseTrimmed(t: string): (r: Number)
    ensures r.Integer? || r.NaN?
  {
    var negative := t != [] && t[0] == '-';
    var u := if t != [] && (t[0] == '-' || t[0] == '+') then t[1..] else t;
    match Magnitude(u)
    case None => NaN
    case Some(v) => Integer(if negative then 0 - v else v)
  }

  /** `parseInt(s)`: skip leading white space, then read a signed magnitude. */
  function ParseInt(s: string): (r: Number)
    ensures r.Integer? || r.NaN?
  {
    ParseTrimmed(TrimStart(s))
  }

  /** The decimal digits of `n`, most significant first, without leading zeros. */
  function NatDigits(n: nat): (r: string)
    ensures |r| >= 1
    ensures forall i :: 0 <= i < |r| ==> IsDigitIn(r[i], 10)
    ensures r[0] == '0' <==> n == 0
  {
    var last := ('0' as int + n % 10) as char;
    if n < 10 then [last] else NatDigits(n / 10) + [last]
  }

  /** `String(n)` for an integer `n`. */
  function Decimal(n: int): string {
    if n < 0 then "-" + NatDigits(-n) else NatDigits(n)
  }

  lemma {:induction false} ValueOfNatDigits(n: nat)
    ensures ValueOf(NatDigits(n), 10) == n
    decreases n
  {
    var d := NatDigits(n);
    if n >= 10 {
      ValueOfNatDigits(n / 10);
      assert d[..|d| - 1] == NatDigits(n / 10);
    }
  }

  /** Reading digits stops exactly where the digits of `d` end. */
  lemma {:induction false} DigitPrefixStopsAfter(d: string, rest: string, radix: nat)
    requires forall i :: 0 <= i < |d| ==> IsDigitIn(d[i], radix)
    requires rest == [] || !IsDigitIn(rest[0], radix)
    ensures DigitPrefix(d + rest, radix) == d
    decreases |d|
  {
    if d != [] {
      DigitPrefixStopsAfter(d[1..], rest, radix);
      assert (d + rest)[1..] == d[1..] + rest;
    }
  }

  /** The digits of `m` followed by non-digit text (and, for 0, by anything but
      the `x` of a hex prefix) have magnitude `m`. */
  lemma MagnitudeNatDigits(m: nat, rest: string)
    requires rest == [] || !IsDigitIn(rest[0], 10)
    requires m == 0 ==> rest == [] || (rest[0] != 'x' && rest[0] != 'X')
    ensures Magnitude(NatDigits(m) + rest) == Some(m)
  {
    var d := NatDigits(m);
    var u := d + rest;
    assert !HasHexPrefix(u);
    DigitPrefixStopsAfter(d, rest, 10);
    ValueOfNatDigits(m);
  }

  /** Text starting with a digit is read as its magnitude. */
  lemma ParseIntUnsigned(u: string)
    requires u != [] && IsDigitIn(u[0], 10)
    ensures ParseInt(u) == if Magnitude(u).Some? then Integer(Magnitude(u).value) else NaN
  {
    assert TrimStart(u) == u;
    assert ParseTrimmed(u) == if Magnitude(u).Some? then Integer(Magnitude(u).value) else NaN;
  }

  /** Text starting with `-` is read as the negated magnitude of the rest, and
      as NaN when no digit follows the sign. */
  lemma ParseIntMinus(u: string)
    ensures ParseInt("-" + u) == if Magnitude(u).Some? then Integer(0 - Magnitude(u).value) else NaN
  {
    var s := "-" + u;
    assert !IsWhite(s[0]);
    assert TrimStart(s) == s;
    assert s[1..] == u;
  }

  lemma ParseIntNatDigits(m: nat, rest: string, s: string)
    requires rest == [] || !IsDigitIn(rest[0], 10)
    requires m == 0 ==> rest == [] || (rest[0] != 'x' && rest[0] != 'X')
    requires s == NatDigits(m) + rest
    ensures ParseInt(s) == Integer(m)
  {
    MagnitudeNatDigits(m, rest);
    ParseIntUnsigned(NatDigits(m) + rest);
  }

  lemma ParseIntMinusNatDigits(m: nat, rest: string, s: string)
    requires rest == [] || !IsDigitIn(rest[0], 10)
    requires m == 0 ==> rest == [] || (rest[0] != 'x' && rest[0] != 'X')
    requires s == "-" + (NatDigits(m) + rest)
    ensures ParseInt(s) == Integer(0 - m)
  {
    MagnitudeNatDigits(m, rest);
    ParseIntMinus(NatDigits(m) + rest);
  }

  /** `parseInt` reads back the decimal spelling of every integer, whatever
      non-digit text follows it. The one exception is JavaScript's hex prefix:
      "0" followed by "x" or "X" is read in radix 16. */
  lemma ParseIntDecimal(n: int, rest: string)
    requires rest == [] || !IsDigitIn(rest[0], 10)
    requires n == 0 ==> rest == [] || (rest[0] != 'x' && rest[0] != 'X')
    ensures ParseInt(Decimal(n) + rest) == Integer(n)
  {
    var s := Decimal(n) + rest;
    if n < 0 {
      assert s == "-" + (NatDigits(-n) + rest);
      ParseIntMinusNatDigits(-n, rest, s);
    } else {
      ParseIntNatDigits(n, rest, s);
    }
  }

  /** Text holding no decimal digit is NaN, whatever signs, letters or white
      space it holds: after the white space and one optional sign no digit
      follows, and there is no hex prefix because `0` is itself a digit. */
  lemma ParseIntNoDigits(s: string)
    requires forall i :: 0 <= i < |s| ==> !IsDigitIn(s[i], 10)
    ensures ParseInt(s) == NaN
  {
    var t := TrimStart(s);
    assert forall i :: 0 <= i < |t| ==> t[i] == s[|s| - |t| + i];
    var u := if t != [] && (t[0] == '-' || t[0] == '+') then t[1..] else t;
    assert forall i :: 0 <= i < |u| ==> !IsDigitIn(u[i], 10) by {
      forall i | 0 <= i < |u| ensures !IsDigitIn(u[i], 10) {
        if t != [] && (t[0] == '-' || t[0] == '+') { assert u[i] == t[i + 1]; }
      }
    }
    assert !HasHexPrefix(u) by {
      if u != [] { assert !IsDigitIn(u[0], 10); }
    }
    var d := DigitPrefix(u, 10);
    assert d == [];
    assert Magnitude(u) == None;
  }

  lemma {:induction false} TrimStartWhite(w: string, s: string)
    requires forall i :: 0 <= i < |w| ==> IsWhite(w[i])
    ensures TrimStart(w + s) == TrimStart(s)
    decreases |w|
  {
    if w != [] {
      assert (w + s)[0] == w[0];
      assert (w + s)[1..] == w[1..] + s;
      TrimStartWhite(w[1..], s);
    } else {
      assert w + s == s;
    }
  }

  /** Leading white space is skipped: `parseInt` reads `w + s` as it reads `s`. */
  lemma ParseIntLeadingWhite(w: string, s: string)
    requires forall i :: 0 <= i < |w| ==> IsWhite(w[i])
    ensures ParseInt(w + s) == ParseInt(s)
  {
    TrimStartWhite(w, s);
  }

  /** Text without digits is NaN: `parseInt("abc")`. */
  lemma ParseIntLettersExample()
    ensures ParseInt("abc") == NaN
  {
    ParseIntNoDigits("abc");
  }

  /** The hex prefix is honoured: `parseInt("0x1A")` is 26. */
  lemma ParseIntHexExample()
    ensures ParseInt("0x1A") == Integer(26)
  {
    var s := "0x1A";
    assert !IsWhite(s[0]);
    assert TrimStart(s) == s;
    assert HasHexPrefix(s);
    var ds := "1A";
    assert s[2..] == ds;
    assert DigitPrefix(ds, 16) == ds by {
      DigitPrefixStopsAfter(ds, "", 16);
      assert ds + "" == ds;
    }
    assert ValueOf(ds, 16) == 26 by {
      assert ds[..1] == "1";
      assert ValueOf("1", 16) == 1 by { assert "1"[..0] == ""; }
    }
    assert Magnitude(s) == Some(26);
  }
}
