/** Python's `int(s)` for a `str` in base 10: surrounding white space, an
    optional sign, and ASCII digits with single underscores between them. */
module PyNumbers {
  import opened Wrappers
  import opened Text

  predicate IsDigit(c: char)
  {
    '0' <= c <= '9'
  }

  function DigitValue(c: char): (d: nat)
    requires IsDigit(c)
    ensures d < 10
  {
    (c as int) - ('0' as int)
  }

  function DigitChar(d: nat): (c: char)
    requires d < 10
    ensures IsDigit(c) && DigitValue(c) == d
  {
    ((('0' as int) + d) as char)
  }

  /** The literal grammar: a digit, then digits each optionally preceded by
      one underscore. */
  predicate DigitString(s: string)
  {
    |s| > 0 && IsDigit(s[0]) &&
    (|s| == 1 || DigitString(s[1..]) || (s[1] == '_' && DigitString(s[2..])))
  }

  /** Digits alone form a literal. */
  lemma {:induction false} AllDigitsIsDigitString(s: string)
    requires |s| > 0 && forall i :: 0 <= i < |s| ==> IsDigit(s[i])
    ensures DigitString(s)
  {
    if |s| > 1 {
      assert forall i :: 0 <= i < |s| - 1 ==> s[1..][i] == s[i + 1];
      AllDigitsIsDigitString(s[1..]);
    }
  }

  /** The number the digits spell; anything else (the underscores) is skipped. */
  function DecimalValue(s: string): nat
  {
    if s == [] then 0
    else if IsDigit(s[|s| - 1]) then DecimalValue(s[..|s| - 1]) * 10 + DigitValue(s[|s| - 1])
    else DecimalValue(s[..|s| - 1])
  }

  /** The white space `int()` skips around a literal. CPython hands an ASCII
      string to its C parser unchanged, and that parser skips only the six C
      spaces; a non-ASCII character that `str.isspace` accepts is turned into a
      space first. The separators U+001C to U+001F, which `str.isspace` also
      accepts, therefore are not skipped. */
  predicate IsIntSpace(c: char)
  {
    IsPySpace(c) && !(0x1C <= c as int <= 0x1F)
  }

  function StripLeft(s: string): (r: string)
    ensures |r| <= |s| && r == s[|s| - |r|..]
    ensures r == [] || !IsIntSpace(r[0])
    ensures forall i :: 0 <= i < |s| - |r| ==> IsIntSpace(s[i])
  {
    if s != [] && IsIntSpace(s[0]) then StripLeft(s[1..]) else s
  }

  function StripRight(s: string): (r: string)
    ensures |r| <= |s| && r == s[..|r|]
    ensures r == [] || !IsIntSpace(r[|r| - 1])
    ensures forall i :: |r| <= i < |s| ==> IsIntSpace(s[i])
  {
    if s != [] && IsIntSpace(s[|s| - 1]) then StripRight(s[..|s| - 1]) else s
  }

  /** The surrounding white space `int()` ignores removed. */
  function Strip(s: string): string
  {
    StripRight(StripLeft(s))
  }

  /** `int(s)`, or None where it raises ValueError. */
  function PyInt(s: string): (r: Option<int>)
    ensures r.Some? ==> |Strip(s)| > 0
  {
    ParseSigned(Strip(s))
  }

  /** A stripped literal: an optional sign, then the digit string. */
  function ParseSigned(t: string): Option<int>
  {
    var signed := |t| > 0 && (t[0] == '+' || t[0] == '-');
    var body := if signed then t[1..] else t;
    if DigitString(body) then
      var n: int := DecimalValue(body);
      Some(if signed && t[0] == '-' then -n else n)
    else None
  }

  /** The canonical spelling of a natural number. */
  function Decimal(n: nat): (r: string)
    ensures |r| > 0 && DecimalValue(r) == n
    ensures forall i :: 0 <= i < |r| ==> IsDigit(r[i])
  {
    if n < 10 then [DigitChar(n)]
    else
      var r := Decimal(n / 10) + [DigitChar(n % 10)];
      assert r[..|r| - 1] == Decimal(n / 10);
      r
  }

  /** `str(v)`. */
  function Repr(v: int): string
  {
    if v < 0 then "-" + Decimal(-v) else Decimal(v)
  }

  lemma StripUnchanged(s: string)
    requires s != [] && !IsIntSpace(s[0]) && !IsIntSpace(s[|s| - 1])
    ensures Strip(s) == s
  {
  }

  /** A value without surrounding white space is parsed as it stands. */
  lemma PyIntUnstripped(s: string)
    requires s != [] && !IsIntSpace(s[0]) && !IsIntSpace(s[|s| - 1])
    ensures PyInt(s) == ParseSigned(s)
  {
    StripUnchanged(s);
  }

  /** `int(str(v)) == v`. */
  lemma PyIntRepr(v: int)
    ensures PyInt(Repr(v)) == Some(v)
  {
    var s := Repr(v);
    AllDigitsIsDigitString(Decimal(if v < 0 then -v else v));
    StripUnchanged(s);
    if v < 0 {
      assert s[1..] == Decimal(-v);
    }
  }

  /** White space that `int()` skips, around a number, is ignored. */
  lemma {:induction false} PyIntIgnoresSpace(before: string, t: string, after: string)
    requires forall i :: 0 <= i < |before| ==> IsIntSpace(before[i])
    requires forall i :: 0 <= i < |after| ==> IsIntSpace(after[i])
    requires t != [] && !IsIntSpace(t[0]) && !IsIntSpace(t[|t| - 1])
    ensures PyInt(before + t + after) == PyInt(t)
  {
    StripLeftSpaces(before, t + after);
    assert before + t + after == before + (t + after);
    StripRightSpaces(t, after);
    StripUnchanged(t);
    assert Strip(before + t + after) == Strip(t);
  }

  lemma {:induction false} StripLeftSpaces(spaces: string, s: string)
    requires forall i :: 0 <= i < |spaces| ==> IsIntSpace(spaces[i])
    requires s != [] && !IsIntSpace(s[0])
    ensures StripLeft(spaces + s) == s
  {
    if spaces != [] {
      assert (spaces + s)[1..] == spaces[1..] + s;
      StripLeftSpaces(spaces[1..], s);
    } else {
      assert spaces + s == s;
    }
  }

  lemma {:induction false} StripRightSpaces(s: string, spaces: string)
    requires forall i :: 0 <= i < |spaces| ==> IsIntSpace(spaces[i])
    requires s != [] && !IsIntSpace(s[0]) && !IsIntSpace(s[|s| - 1])
    ensures StripLeft(s + spaces) == s + spaces
    ensures StripRight(s + spaces) == s
    decreases |spaces|
  {
    if spaces != [] {
      var w := s + spaces;
      assert w[..|w| - 1] == s + spaces[..|spaces| - 1];
      StripRightSpaces(s, spaces[..|spaces| - 1]);
    } else {
      assert s + spaces == s;
    }
  }

  /** A value that does not start with skipped white space keeps its first character. */
  lemma StripKeepsHead(s: string)
    requires s != [] && !IsIntSpace(s[0])
    ensures Strip(s) != [] && Strip(s)[0] == s[0]
  {
    assert StripLeft(s) == s;
  }

  /** A leading information separator (U+001C to U+001F) makes `int()` fail,
      although `str.isspace` counts it as white space. */
  lemma PyIntRejectsSeparator(c: char, t: string)
    requires 0x1C <= c as int <= 0x1F
    ensures PyInt([c] + t) == None
  {
    StripKeepsHead([c] + t);
    var r := Strip([c] + t);
    assert !IsDigit(r[0]) && r[0] != '+' && r[0] != '-';
  }
}
