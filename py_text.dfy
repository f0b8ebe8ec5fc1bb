/** Python built-ins the DRARDT core relies on, stated over Dafny strings:
    exceptions as a Result, `str.isspace`, `str.strip`, `str.startswith`,
    `str.split()` (whitespace runs), `str.split(sep)` for a one-character
    separator, `str.splitlines()`, `int()` and `float()` on strings, and the
    decimal rendering of an integer (`str(n)`). */
module PyText {

  /** The exceptions the modelled code can raise. */
  datatype Exception = ValueError | KeyError | IndexError

  /** A Python call either returns a value or raises. */
  datatype Result<T> = Ok(value: T) | Raises(exc: Exception)

  datatype Option<T> = None | Some(value: T)

  // ---------------------------------------------------------------------
  // Character classes

  /** The characters for which Python's `str.isspace()` is true. */
  predicate IsSpace(c: char)
  {
    ('\t' <= c <= '\r') || ('\U{001C}' <= c <= ' ') || c == '\U{0085}' || c == '\U{00A0}' ||
    c == '\U{1680}' || ('\U{2000}' <= c <= '\U{200A}') || c == '\U{2028}' || c == '\U{2029}' ||
    c == '\U{202F}' || c == '\U{205F}' || c == '\U{3000}'
  }

  /** The characters at which Python's `str.splitlines()` breaks a line. */
  predicate IsLineBreak(c: char)
  {
    ('\n' <= c <= '\r') || ('\U{001C}' <= c <= '\U{001E}') || c == '\U{0085}' ||
    c == '\U{2028}' || c == '\U{2029}'
  }

  predicate NoSpace(s: string)
  {
    forall i :: 0 <= i < |s| ==> !IsSpace(s[i])
  }

  predicate IsDigit(c: char)
  {
    '0' <= c <= '9'
  }

  predicate AllDigits(s: string)
  {
    forall i :: 0 <= i < |s| ==> IsDigit(s[i])
  }

  /** `s.startswith(p)` */
  predicate StartsWith(s: string, p: string)
  {
    |p| <= |s| && s[..|p|] == p
  }

  /** Number of occurrences of `c` in `s` (`s.count(c)`). */
  function CountChar(s: string, c: char): nat
  {
    if s == [] then 0 else (if s[0] == c then 1 else 0) + CountChar(s[1..], c)
  }

  // ---------------------------------------------------------------------
  // strip()

  function TrimLeft(s: string): (r: string)
    ensures |r| <= |s|
  {
    if s != [] && IsSpace(s[0]) then TrimLeft(s[1..]) else s
  }

  function TrimRight(s: string): (r: string)
    ensures |r| <= |s|
  {
    if s != [] && IsSpace(s[|s| - 1]) then TrimRight(s[..|s| - 1]) else s
  }

  /** `s.strip()` */
  function Strip(s: string): string
  {
    TrimRight(TrimLeft(s))
  }

  lemma {:induction false} TrimLeftAllSpace(s: string)
    requires TrimLeft(s) == []
    ensures forall i :: 0 <= i < |s| ==> IsSpace(s[i])
  {
    if s != [] {
      TrimLeftAllSpace(s[1..]);
      assert forall i :: 1 <= i < |s| ==> s[i] == s[1..][i - 1];
    }
  }

  lemma {:induction false} TrimRightAllSpace(s: string)
    requires TrimRight(s) == []
    ensures forall i :: 0 <= i < |s| ==> IsSpace(s[i])
  {
    if s != [] {
      TrimRightAllSpace(s[..|s| - 1]);
      assert forall i :: 0 <= i < |s| - 1 ==> s[i] == s[..|s| - 1][i];
    }
  }

  lemma {:induction false} TrimLeftNonSpace(s: string)
    requires exists i :: 0 <= i < |s| && !IsSpace(s[i])
    ensures TrimLeft(s) != [] && !IsSpace(TrimLeft(s)[0])
  {
    if IsSpace(s[0]) {
      var i :| 0 <= i < |s| && !IsSpace(s[i]);
      assert s[1..][i - 1] == s[i];
      TrimLeftNonSpace(s[1..]);
    }
  }

  lemma {:induction false} TrimRightNonSpaceStart(s: string)
    requires s != [] && !IsSpace(s[0])
    ensures TrimRight(s) != []
  {
    if IsSpace(s[|s| - 1]) {
      assert |s| > 1;
      TrimRightNonSpaceStart(s[..|s| - 1]);
    }
  }

  /** `not s.strip()` holds exactly for strings made only of whitespace. */
  lemma StripBlank(s: string)
    ensures Strip(s) == [] <==> forall i :: 0 <= i < |s| ==> IsSpace(s[i])
  {
    if Strip(s) == [] {
      if exists i :: 0 <= i < |s| && !IsSpace(s[i]) {
        TrimLeftNonSpace(s);
        TrimRightNonSpaceStart(TrimLeft(s));
      }
    } else if forall i :: 0 <= i < |s| ==> IsSpace(s[i]) {
      TrimLeftOfSpaces(s);
      assert false;
    }
  }

  lemma {:induction false} TrimLeftOfSpaces(s: string)
    requires forall i :: 0 <= i < |s| ==> IsSpace(s[i])
    ensures TrimLeft(s) == []
  {
    if s != [] {
      assert forall i :: 0 <= i < |s[1..]| ==> s[1..][i] == s[i + 1];
      TrimLeftOfSpaces(s[1..]);
    }
  }

  lemma StripNoSpace(s: string)
    requires NoSpace(s)
    ensures Strip(s) == s
  {
    if s != [] {
      assert TrimLeft(s) == s;
      assert TrimRight(s) == s;
    }
  }

  // ---------------------------------------------------------------------
  // split() on whitespace

  /** The longest prefix of `s` holding no whitespace. */
  function Token(s: string): (t: string)
    ensures |t| <= |s|
    ensures s != [] && !IsSpace(s[0]) ==> t != []
  {
    if s == [] || IsSpace(s[0]) then [] else [s[0]] + Token(s[1..])
  }

  /** `s.split()`: the maximal runs of non-whitespace characters, in order. */
  function Fields(s: string): seq<string>
    decreases |s|
  {
    if s == [] then []
    else if IsSpace(s[0]) then Fields(s[1..])
    else
      var t := Token(s);
      [t] + Fields(s[|t|..])
  }

  /** `" ".join(ts)` */
  function JoinSpaces(ts: seq<string>): string
  {
    if ts == [] then "" else if |ts| == 1 then ts[0] else ts[0] + " " + JoinSpaces(ts[1..])
  }

  lemma TokenOfPrefix(t: string, rest: string)
    requires NoSpace(t)
    requires rest == [] || IsSpace(rest[0])
    ensures Token(t + rest) == t
  {
    if t != [] {
      assert (t + rest)[1..] == t[1..] + rest;
      TokenOfPrefix(t[1..], rest);
    } else {
      assert t + rest == rest;
    }
  }

  lemma FieldsOfToken(t: string)
    requires t != [] && NoSpace(t)
    ensures Fields(t) == [t]
  {
    TokenOfPrefix(t, []);
    assert t + [] == t;
    assert t[|t|..] == [];
  }

  /** Splitting a space-joined line gives back its tokens. */
  lemma {:induction false} FieldsOfJoin(ts: seq<string>)
    requires forall i :: 0 <= i < |ts| ==> ts[i] != [] && NoSpace(ts[i])
    ensures Fields(JoinSpaces(ts)) == ts
  {
    if |ts| == 1 {
      FieldsOfToken(ts[0]);
    } else if |ts| > 1 {
      var rest := JoinSpaces(ts[1..]);
      var s := ts[0] + " " + rest;
      TokenOfPrefix(ts[0], " " + rest);
      assert s == ts[0] + (" " + rest);
      assert s[|ts[0]|..] == " " + rest;
      assert (" " + rest)[1..] == rest;
      FieldsOfJoin(ts[1..]);
      assert Fields(s) == [ts[0]] + Fields(rest);
    }
  }

  // ---------------------------------------------------------------------
  // split(sep) for a one-character separator

  /** `s.split(sep)`: the pieces between the occurrences of `sep`. */
  function SplitOn(s: string, sep: char): (r: seq<string>)
    ensures |r| >= 1
  {
    if s == [] then [""]
    else if s[0] == sep then [""] + SplitOn(s[1..], sep)
    else
      var rest := SplitOn(s[1..], sep);
      [[s[0]] + rest[0]] + rest[1..]
  }

  /** `s.split(sep)` has one more piece than `s` has separators. */
  lemma {:induction false} SplitOnLength(s: string, sep: char)
    ensures |SplitOn(s, sep)| == CountChar(s, sep) + 1
  {
    if s != [] {
      SplitOnLength(s[1..], sep);
    }
  }

  lemma {:induction false} SplitOnNoSep(s: string, sep: char)
    requires sep !in s
    ensures SplitOn(s, sep) == [s]
  {
    if s != [] {
      assert sep !in s[1..];
      SplitOnNoSep(s[1..], sep);
      assert [s[0]] + s[1..] == s;
    }
  }

  lemma {:induction false} SplitOnConcat(a: string, sep: char, b: string)
    requires sep !in a
    ensures SplitOn(a + [sep] + b, sep) == [a] + SplitOn(b, sep)
  {
    if a == [] {
      assert a + [sep] + b == [sep] + b;
      assert ([sep] + b)[1..] == b;
    } else {
      assert (a + [sep] + b)[1..] == a[1..] + [sep] + b;
      assert sep !in a[1..];
      SplitOnConcat(a[1..], sep, b);
      assert [a[0]] + a[1..] == a;
    }
  }

  // ---------------------------------------------------------------------
  // splitlines()

  /** Index of the first line break in `s`, or `|s|`. */
  function LineEnd(s: string): (k: nat)
    ensures k <= |s|
    ensures forall i :: 0 <= i < k ==> !IsLineBreak(s[i])
    ensures k < |s| ==> IsLineBreak(s[k])
  {
    if s == [] || IsLineBreak(s[0]) then 0 else 1 + LineEnd(s[1..])
  }

  /** `s.splitlines()`: lines without their terminators; "\r\n" is one
      terminator and a final terminator does not open an empty line. */
  function SplitLines(s: string): seq<string>
    decreases |s|
  {
    if s == [] then []
    else
      var k := LineEnd(s);
      if k == |s| then [s]
      else
        var width := if s[k] == '\r' && k + 1 < |s| && s[k + 1] == '\n' then 2 else 1;
        [s[..k]] + SplitLines(s[k + width..])
  }

  // ---------------------------------------------------------------------
  // int()

  function DigitValue(c: char): nat
    requires IsDigit(c)
  {
    (c as int - '0' as int) as nat
  }

  function DigitChar(d: nat): (c: char)
    requires d < 10
    ensures IsDigit(c) && DigitValue(c) == d
  {
    ('0' as int + d) as char
  }

  /** The number a run of decimal digits denotes (0 for the empty run), or
      `None` when some character is not a digit. */
  function DecimalValue(s: string): Option<nat>
  {
    if s == [] then Some(0)
    else if !IsDigit(s[|s| - 1]) then None
    else
      match DecimalValue(s[..|s| - 1])
      case Some(v) => Some(v * 10 + DigitValue(s[|s| - 1]))
      case None => None
  }

  lemma {:induction false} DecimalValueDigits(s: string)
    ensures DecimalValue(s).Some? <==> AllDigits(s)
  {
    if s != [] {
      DecimalValueDigits(s[..|s| - 1]);
      assert forall i :: 0 <= i < |s| - 1 ==> s[..|s| - 1][i] == s[i];
    }
  }

  /** `int(s)` for a string without surrounding whitespace: an optional sign
      and at least one decimal digit. */
  function ParseInt(s: string): Option<int>
  {
    var signed := |s| > 0 && (s[0] == '-' || s[0] == '+');
    var digits := if signed then s[1..] else s;
    match DecimalValue(digits)
    case Some(v) =>
      if digits == [] then None else Some(if signed && s[0] == '-' then -(v as int) else v)
    case None => None
  }

  /** Python's `int(s)`; `None` stands for the ValueError it raises. */
  function PyInt(s: string): Option<int>
  {
    ParseInt(Strip(s))
  }

  /** `str(n)` for a natural number. */
  function NatToString(n: nat): (s: string)
    ensures s != [] && AllDigits(s)
  {
    if n < 10 then [DigitChar(n)] else NatToString(n / 10) + [DigitChar(n % 10)]
  }

  /** `str(n)` */
  function IntToString(n: int): (s: string)
    ensures s != []
  {
    if n < 0 then "-" + NatToString(-n) else NatToString(n)
  }

  lemma DigitsNoSpace(s: string)
    requires AllDigits(s)
    ensures NoSpace(s)
  {
    assert forall i :: 0 <= i < |s| ==> IsDigit(s[i]);
  }

  lemma IntToStringNoSpace(n: int)
    ensures NoSpace(IntToString(n))
  {
    var s := IntToString(n);
    if n < 0 {
      DigitsNoSpace(NatToString(-n));
      assert forall i :: 1 <= i < |s| ==> s[i] == NatToString(-n)[i - 1];
    } else {
      DigitsNoSpace(s);
    }
  }

  lemma {:induction false} DigitsOfNat(n: nat)
    ensures DecimalValue(NatToString(n)) == Some(n)
  {
    if n >= 10 {
      var s := NatToString(n);
      assert s[..|s| - 1] == NatToString(n / 10);
      DigitsOfNat(n / 10);
    }
  }

  lemma NegativeRoundTrip(n: int)
    requires n < 0
    ensures ParseInt(IntToString(n)) == Some(n)
  {
    var s := IntToString(n);
    assert s[0] == '-' && s[1..] == NatToString(-n);
    DigitsOfNat(-n);
  }

  /** `int(str(n)) == n` */
  lemma IntRoundTrip(n: int)
    ensures PyInt(IntToString(n)) == Some(n)
  {
    IntToStringNoSpace(n);
    StripNoSpace(IntToString(n));
    if n < 0 {
      NegativeRoundTrip(n);
    } else {
      DigitsOfNat(n);
    }
  }


  // ---------------------------------------------------------------------
  // float()

  /** Index of the first occurrence of `c` in `s`, or `|s|`. */
  function Find(s: string, c: char): (k: nat)
    ensures k <= |s|
  {
    if s == [] || s[0] == c then 0 else 1 + Find(s[1..], c)
  }

  /** Index of the first exponent marker `e` or `E`, or `|s|`. */
  function FindExponent(s: string): (k: nat)
    ensures k <= |s|
  {
    if s == [] || s[0] == 'e' || s[0] == 'E' then 0 else 1 + FindExponent(s[1..])
  }

  /** The value of an unsigned mantissa `digits[.digits]` or `.digits`. */
  function Mantissa(m: string): Option<real>
  {
    var p := Find(m, '.');
    var whole := m[..p];
    var frac := if p < |m| then m[p + 1..] else [];
    match DecimalValue(whole + frac)
    case Some(v) => if |whole| + |frac| > 0 then Some(Scale(v as real, -|frac|)) else None
    case None => None
  }

  /** `x * 10^e`, one decimal place at a time. */
  function Scale(x: real, e: int): real
    decreases if e >= 0 then e else -e
  {
    if e == 0 then x else if e > 0 then Scale(x * 10.0, e - 1) else Scale(x / 10.0, e + 1)
  }

  /** `float(s)` for a string without surrounding whitespace, in decimal
      notation with an optional sign and an optional exponent. */
  function ParseFloat(s: string): Option<real>
  {
    var negative := |s| > 0 && s[0] == '-';
    var body := if |s| > 0 && (s[0] == '-' || s[0] == '+') then s[1..] else s;
    var k := FindExponent(body);
    var exponent := if k < |body| then ParseInt(body[k + 1..]) else Some(0);
    match (Mantissa(body[..k]), exponent)
    case (Some(m), Some(e)) =>
      var x := Scale(m, e);
      Some(if negative then -x else x)
    case _ => None
  }

  /** Python's `float(s)`; `None` stands for the ValueError it raises. */
  function PyFloat(s: string): Option<real>
  {
    ParseFloat(Strip(s))
  }

  lemma {:induction false} AllDigitsNoExponent(s: string)
    requires AllDigits(s)
    ensures FindExponent(s) == |s| && Find(s, '.') == |s|
  {
    if s != [] {
      AllDigitsNoExponent(s[1..]);
    }
  }

  /** `float(str(n)) == n` */
  lemma FloatOfNat(n: nat)
    ensures PyFloat(NatToString(n)) == Some(n as real)
  {
    var s := NatToString(n);
    DigitsNoSpace(s);
    StripNoSpace(s);
    AllDigitsNoExponent(s);
    DigitsOfNat(n);
    assert s[0] != '-' && s[0] != '+';
    assert s[..|s|] == s;
    assert s + [] == s;
    assert Mantissa(s) == Some(n as real);
    assert Scale(n as real, 0) == n as real;
  }
}
