/**
 * The string handling the dice parsers and the combat dispatch rely on:
 * ASCII lower-casing, character removal, splitting on a separator and the two
 * integer readers (Python's int() and JavaScript's parseInt()).
 */
module Text {
  import opened Common

  function LowerChar(c: char): char
  {
    if 'A' <= c <= 'Z' then (c as int - 'A' as int + 'a' as int) as char else c
  }

  /** Lower-casing of ASCII letters; every other character is kept. */
  function Lower(s: string): (r: string)
    ensures |r| == |s|
    ensures forall i :: 0 <= i < |s| ==> r[i] == LowerChar(s[i])
  {
    if s == [] then [] else [LowerChar(s[0])] + Lower(s[1..])
  }

  /** `s` with every occurrence of the characters in `drop` removed. */
  function Remove(s: string, drop: set<char>): (r: string)
    ensures forall c :: c in r <==> c in s && c !in drop
    ensures |r| <= |s|
  {
    if s == [] then []
    else if s[0] in drop then Remove(s[1..], drop)
    else [s[0]] + Remove(s[1..], drop)
  }

  /** Lower-casing leaves a string without upper-case letters alone. */
  lemma {:induction false} LowerFixed(s: string)
    requires forall i :: 0 <= i < |s| ==> !('A' <= s[i] <= 'Z')
    ensures Lower(s) == s
  {
    if s != [] {
      assert forall i :: 0 <= i < |s| - 1 ==> s[1..][i] == s[i + 1];
      LowerFixed(s[1..]);
    }
  }

  /** Removing characters the string does not hold leaves it alone. */
  lemma {:induction false} RemoveFixed(s: string, drop: set<char>)
    requires forall i :: 0 <= i < |s| ==> s[i] !in drop
    ensures Remove(s, drop) == s
  {
    if s != [] {
      assert s[0] !in drop;
      assert forall i :: 0 <= i < |s| - 1 ==> s[1..][i] == s[i + 1];
      RemoveFixed(s[1..], drop);
      assert s == [s[0]] + s[1..];
    }
  }

  function Count(s: string, c: char): nat
  {
    if s == [] then 0 else (if s[0] == c then 1 else 0) + Count(s[1..], c)
  }

  /** The separator occurs exactly when it is counted. */
  lemma {:induction false} CountPositive(s: string, c: char)
    ensures Count(s, c) > 0 <==> c in s
  {
    if s != [] {
      CountPositive(s[1..], c);
      assert s == [s[0]] + s[1..];
    }
  }

  /** Splitting on one separator character, as `str.split(sep)` and `String.split(sep)` do. */
  function Split(s: string, sep: char): (parts: seq<string>)
    ensures |parts| == Count(s, sep) + 1
    ensures forall i :: 0 <= i < |parts| ==> sep !in parts[i]
  {
    if s == [] then [""]
    else
      var rest := Split(s[1..], sep);
      if s[0] == sep then [""] + rest else [[s[0]] + rest[0]] + rest[1..]
  }

  /** Joining with the separator; the inverse of Split. */
  function Join(parts: seq<string>, sep: char): string
  {
    if |parts| <= 1 then (if parts == [] then "" else parts[0])
    else parts[0] + [sep] + Join(parts[1..], sep)
  }

  lemma {:induction false} JoinSplit(s: string, sep: char)
    ensures Join(Split(s, sep), sep) == s
  {
    if s != [] {
      var rest := Split(s[1..], sep);
      JoinSplit(s[1..], sep);
      if s[0] == sep {
        assert Split(s, sep) == [""] + rest;
      } else {
        var parts := Split(s, sep);
        assert parts == [[s[0]] + rest[0]] + rest[1..];
        if |rest| == 1 {
          assert Join(parts, sep) == [s[0]] + rest[0];
        } else {
          assert parts[1..] == rest[1..];
          assert Join(parts, sep) == [s[0]] + rest[0] + [sep] + Join(rest[1..], sep);
        }
      }
    }
  }

  lemma {:induction false} SplitJoin(parts: seq<string>, sep: char)
    requires |parts| >= 1
    requires forall i :: 0 <= i < |parts| ==> sep !in parts[i]
    ensures Split(Join(parts, sep), sep) == parts
  {
    if |parts| == 1 {
      NoSepSplit(parts[0], sep);
    } else {
      SplitJoin(parts[1..], sep);
      SplitAppend(parts[0], Join(parts[1..], sep), sep);
      assert [parts[0]] + parts[1..] == parts;
    }
  }

  lemma {:induction false} NoSepSplit(s: string, sep: char)
    requires sep !in s
    ensures Split(s, sep) == [s]
  {
    if s != [] {
      NoSepSplit(s[1..], sep);
      assert s[0] != sep;
      assert [s[0]] + s[1..] == s;
    }
  }

  /** Splitting `a + [sep] + b` when `a` holds no separator. */
  lemma {:induction false} SplitAppend(a: string, b: string, sep: char)
    requires sep !in a
    ensures Split(a + [sep] + b, sep) == [a] + Split(b, sep)
  {
    if a == [] {
      assert a + [sep] + b == [sep] + b;
    } else {
      var s := a + [sep] + b;
      SplitAppend(a[1..], b, sep);
      assert s[1..] == a[1..] + [sep] + b;
      assert s[0] == a[0] && a[0] != sep;
      var rest := Split(s[1..], sep);
      assert rest == [a[1..]] + Split(b, sep);
      assert Split(s, sep) == [[a[0]] + rest[0]] + rest[1..];
      assert [a[0]] + a[1..] == a;
    }
  }

  predicate IsDigit(c: char)
  {
    '0' <= c <= '9'
  }

  predicate AllDigits(s: string)
  {
    forall i :: 0 <= i < |s| ==> IsDigit(s[i])
  }

  /** The value of a string of decimal digits. */
  function DigitsValue(s: string): (v: nat)
    requires AllDigits(s)
  {
    if s == [] then 0 else DigitsValue(s[..|s| - 1]) * 10 + (s[|s| - 1] as int - '0' as int)
  }

  /** The decimal digits of a natural number, without leading zeros. */
  function Decimal(n: nat): (s: string)
    ensures |s| >= 1 && AllDigits(s)
    ensures DigitsValue(s) == n
  {
    if n < 10 then [('0' as int + n) as char]
    else
      var s := Decimal(n / 10) + [('0' as int + n % 10) as char];
      assert s[..|s| - 1] == Decimal(n / 10);
      s
  }

  /** Python's whitespace characters in the ASCII range. */
  const PyWhitespace: set<char> := {' ', '\t', '\n', '\r', '\U{0B}', '\U{0C}'}

  function TrimStart(s: string, ws: set<char>): (r: string)
    ensures |r| <= |s| && r == s[|s| - |r|..]
    ensures r == [] || r[0] !in ws
  {
    if s != [] && s[0] in ws then TrimStart(s[1..], ws) else s
  }

  /** Nothing is trimmed from a string that does not start with whitespace. */
  lemma TrimStartNothing(s: string, ws: set<char>)
    requires s == [] || s[0] !in ws
    ensures TrimStart(s, ws) == s
  {
  }

  function TrimEnd(s: string, ws: set<char>): (r: string)
    ensures |r| <= |s| && r == s[..|r|]
    ensures r == [] || r[|r| - 1] !in ws
  {
    if s != [] && s[|s| - 1] in ws then TrimEnd(s[..|s| - 1], ws) else s
  }

  /** Python's str.strip() with no argument, on the ASCII whitespace characters. */
  function Strip(s: string): (r: string)
    ensures |r| <= |s|
    ensures r == [] || (r[0] !in PyWhitespace && r[|r| - 1] !in PyWhitespace)
  {
    var t := TrimStart(s, PyWhitespace);
    TrimEnd(t, PyWhitespace)
  }

  /** Python's str() of an int: a minus sign for negatives, then the decimal digits. */
  function IntString(i: int): (s: string)
    ensures |s| >= 1
  {
    if i < 0 then "-" + Decimal(-i) else Decimal(i)
  }

  /** A sign followed by at least one digit, read as an integer. */
  function SignedDigits(s: string): Option<int>
  {
    if s != [] && (s[0] == '+' || s[0] == '-') then
      if |s| > 1 && AllDigits(s[1..]) then
        var v: int := DigitsValue(s[1..]);
        Some(if s[0] == '-' then -v else v)
      else None
    else if s != [] && AllDigits(s) then Some(DigitsValue(s))
    else None
  }

  /**
   * Python's int() on a string: optional surrounding whitespace, an optional
   * sign and decimal digits; anything else raises ValueError (None here).
   */
  function PyInt(s: string): Option<int>
  {
    SignedDigits(Strip(s))
  }

  lemma {:induction false} PyIntDecimal(n: nat)
    ensures PyInt(Decimal(n)) == Some(n)
  {
    var d := Decimal(n);
    assert d[0] !in PyWhitespace;
    assert d[|d| - 1] !in PyWhitespace;
    assert TrimStart(d, PyWhitespace) == d;
    assert TrimEnd(d, PyWhitespace) == d;
    assert Strip(d) == d;
  }

  /** The longest prefix of `s` made of digits. */
  function LeadingDigits(s: string): (r: string)
    ensures |r| <= |s| && AllDigits(r) && r == s[..|r|]
    ensures |r| < |s| ==> !IsDigit(s[|r|])
  {
    if s != [] && IsDigit(s[0]) then [s[0]] + LeadingDigits(s[1..]) else []
  }

  /** A JavaScript number that is either an integer or NaN. */
  datatype JsNum = Num(n: int) | NaN

  /** JavaScript's whitespace characters in the ASCII range. */
  const JsWhitespace: set<char> := {' ', '\t', '\n', '\r', '\U{0B}', '\U{0C}'}

  /**
   * JavaScript's parseInt(s) with no radix on decimal input: leading
   * whitespace, an optional sign, then the longest run of digits; NaN when that
   * run is empty. Trailing characters are ignored.
   */
  function ParseInt(s: string): (r: JsNum)
  {
    ParseSigned(TrimStart(s, JsWhitespace))
  }

  /** parseInt after the leading whitespace: an optional sign, then the digits. */
  function ParseSigned(t: string): (r: JsNum)
  {
    var neg := t != [] && t[0] == '-';
    var body := if t != [] && (t[0] == '-' || t[0] == '+') then t[1..] else t;
    var digits := LeadingDigits(body);
    if digits == [] then NaN
    else
      var v: int := DigitsValue(digits);
      Num(if neg then -v else v)
  }

  lemma ParseIntDecimal(n: nat, tail: string)
    requires tail == [] || !IsDigit(tail[0])
    ensures ParseInt(Decimal(n) + tail) == Num(n)
  {
    ParseIntDigits(Decimal(n), tail);
  }

  lemma DigitNotSpace(c: char)
    requires IsDigit(c)
    ensures c !in JsWhitespace && c != '-' && c != '+'
  {
  }

  /** parseInt reads back a run of digits followed by a non-digit. */
  lemma ParseIntDigits(d: string, tail: string)
    requires |d| >= 1 && AllDigits(d)
    requires tail == [] || !IsDigit(tail[0])
    ensures ParseInt(d + tail) == Num(DigitsValue(d))
  {
    DigitNotSpace(d[0]);
    assert (d + tail)[0] == d[0];
    TrimStartNothing(d + tail, JsWhitespace);
    ParseSignedDigits(d, tail);
  }

  lemma ParseSignedDigits(d: string, tail: string)
    requires |d| >= 1 && AllDigits(d)
    requires tail == [] || !IsDigit(tail[0])
    ensures ParseSigned(d + tail) == Num(DigitsValue(d))
  {
    var s := d + tail;
    assert s[0] == d[0] && IsDigit(d[0]);
    LeadingDigitsAppend(d, tail);
  }

  lemma {:induction false} LeadingDigitsAppend(d: string, tail: string)
    requires AllDigits(d)
    requires tail == [] || !IsDigit(tail[0])
    ensures LeadingDigits(d + tail) == d
  {
    if d != [] {
      LeadingDigitsAppend(d[1..], tail);
      assert (d + tail)[1..] == d[1..] + tail;
    } else {
      assert d + tail == tail;
    }
  }
}
