/**
 * The string operations of the JavaScript runtime that the client relies on:
 * `String.prototype.trim`, `String.prototype.split` and `Array.prototype.join`
 * with a one-character separator, and `Number.prototype.toString` on integers.
 */
module Strings {

  import opened Wrappers

  /** The ECMAScript WhiteSpace and LineTerminator code points, which `trim` removes. */
  predicate IsWhitespace(c: char)
  {
    c == '\t' || c == '\n' || c == '\U{000B}' || c == '\U{000C}' || c == '\r' || c == ' '
    || c == '\U{00A0}' || c == '\U{1680}' || ('\U{2000}' <= c <= '\U{200A}')
    || c == '\U{2028}' || c == '\U{2029}' || c == '\U{202F}' || c == '\U{205F}'
    || c == '\U{3000}' || c == '\U{FEFF}'
  }

  /** The number of whitespace characters `s` starts with. */
  function LeadingWhitespace(s: string): (n: nat)
    ensures n <= |s|
    ensures forall k :: 0 <= k < n ==> IsWhitespace(s[k])
    ensures n < |s| ==> !IsWhitespace(s[n])
  {
    if s != [] && IsWhitespace(s[0]) then 1 + LeadingWhitespace(s[1..]) else 0
  }

  /** The index at which the whitespace that `s` ends with begins. */
  function TrailingWhitespaceStart(s: string): (j: nat)
    ensures j <= |s|
    ensures forall k :: j <= k < |s| ==> IsWhitespace(s[k])
    ensures j > 0 ==> !IsWhitespace(s[j - 1])
  {
    if s != [] && IsWhitespace(s[|s| - 1]) then TrailingWhitespaceStart(s[..|s| - 1]) else |s|
  }

  /**
   * `String.prototype.trim`: the result is the slice of `s` that starts after
   * the leading whitespace, everything after it is whitespace, and it neither
   * starts nor ends with whitespace.
   */
  function Trim(s: string): (r: string)
    ensures LeadingWhitespace(s) + |r| <= |s|
    ensures r == s[LeadingWhitespace(s)..LeadingWhitespace(s) + |r|]
    ensures forall k :: LeadingWhitespace(s) + |r| <= k < |s| ==> IsWhitespace(s[k])
    ensures r != [] ==> !IsWhitespace(r[0]) && !IsWhitespace(r[|r| - 1])
  {
    var i := LeadingWhitespace(s);
    var j := i + TrailingWhitespaceStart(s[i..]);
    assert forall k :: j <= k < |s| ==> IsWhitespace(s[k]) by {
      forall k | j <= k < |s| ensures IsWhitespace(s[k]) {
        assert s[k] == s[i..][k - i];
      }
    }
    assert j > i ==> s[j - 1] == s[i..][j - i - 1];
    s[i..j]
  }

  /** A string that neither starts nor ends with whitespace is left alone by `trim`. */
  lemma TrimUnchanged(s: string)
    requires s != [] ==> !IsWhitespace(s[0]) && !IsWhitespace(s[|s| - 1])
    ensures Trim(s) == s
  {
  }

  /** Trimming twice is trimming once. */
  lemma TrimIdempotent(s: string)
    ensures Trim(Trim(s)) == Trim(s)
  {
    TrimUnchanged(Trim(s));
  }

  /** `parts.join(sep)`; the empty array joins to the empty string. */
  function Join(parts: seq<string>, sep: char): string
  {
    if parts == [] then ""
    else if |parts| == 1 then parts[0]
    else parts[0] + [sep] + Join(parts[1..], sep)
  }

  /** `s.split(sep)`: the pieces between the separators, in order; the empty string splits into `[""]`. */
  function Split(s: string, sep: char): (parts: seq<string>)
    ensures |parts| >= 1
    decreases |s|
  {
    if s == [] then [""]
    else
      var rest := Split(s[1..], sep);
      if s[0] == sep then [""] + rest else [[s[0]] + rest[0]] + rest[1..]
  }

  /** No piece of a split holds the separator, and joining the pieces gives the string back. */
  lemma {:induction false} SplitRejoins(s: string, sep: char)
    ensures forall i :: 0 <= i < |Split(s, sep)| ==> sep !in Split(s, sep)[i]
    ensures Join(Split(s, sep), sep) == s
    decreases |s|
  {
    if s != [] {
      var rest := Split(s[1..], sep);
      SplitRejoins(s[1..], sep);
      if s[0] == sep {
        assert s == [sep] + s[1..];
        assert Split(s, sep) == [""] + rest;
        assert ([""] + rest)[1..] == rest;
      } else {
        var parts := [[s[0]] + rest[0]] + rest[1..];
        assert Split(s, sep) == parts;
        assert s == [s[0]] + s[1..];
        assert sep !in parts[0];
        if |rest| > 1 {
          assert parts[1..] == rest[1..];
        }
        assert Join(parts, sep) == [s[0]] + Join(rest, sep);
      }
    }
  }

  /** Splitting at a separator splits the two sides independently. */
  lemma {:induction false} SplitAround(a: string, b: string, sep: char)
    ensures Split(a + [sep] + b, sep) == Split(a, sep) + Split(b, sep)
    decreases |a|
  {
    if a == [] {
      assert a + [sep] + b == [sep] + b;
      assert ([sep] + b)[1..] == b;
    } else {
      var t := a + [sep] + b;
      assert t[0] == a[0] && t[1..] == a[1..] + [sep] + b;
      SplitAround(a[1..], b, sep);
    }
  }

  /** A string without the separator splits into itself. */
  lemma {:induction false} SplitNoSeparator(s: string, sep: char)
    requires sep !in s
    ensures Split(s, sep) == [s]
    decreases |s|
  {
    if s != [] {
      assert sep !in s[1..] by {
        forall k | 0 <= k < |s[1..]| ensures s[1..][k] != sep {
          assert s[1..][k] == s[k + 1];
        }
      }
      SplitNoSeparator(s[1..], sep);
      assert [s[0]] + s[1..] == s;
    }
  }

  /** `split` undoes `join` when no part holds the separator and there is a part. */
  lemma {:induction false} SplitJoin(parts: seq<string>, sep: char)
    requires |parts| >= 1
    requires forall i :: 0 <= i < |parts| ==> sep !in parts[i]
    ensures Split(Join(parts, sep), sep) == parts
  {
    SplitNoSeparator(parts[0], sep);
    if |parts| > 1 {
      SplitJoin(parts[1..], sep);
      SplitAround(parts[0], Join(parts[1..], sep), sep);
      assert [parts[0]] + parts[1..] == parts;
    }
  }

  /** Joining anything but no parts or one empty part gives a non-empty string. */
  lemma JoinNotEmpty(parts: seq<string>, sep: char)
    requires parts != [] && parts != [""]
    ensures Join(parts, sep) != ""
  {
    if |parts| == 1 {
      assert parts == [parts[0]];
    } else {
      assert |Join(parts, sep)| >= |parts[0] + [sep]|;
    }
  }

  /** The digit character for `d`. */
  function DigitChar(d: nat): (c: char)
    requires d < 10
    ensures '0' <= c <= '9' && c as int - '0' as int == d
  {
    (48 + d) as char
  }

  /** The decimal digits of `n`, most significant first, without leading zeros. */
  function NatToDecimal(n: nat): (s: string)
    ensures |s| >= 1
    ensures forall i :: 0 <= i < |s| ==> '0' <= s[i] <= '9'
    ensures s[0] == '0' ==> n == 0
  {
    if n < 10 then [DigitChar(n)] else NatToDecimal(n / 10) + [DigitChar(n % 10)]
  }

  /** `Number.prototype.toString()` of an integer: optional minus sign, then the digits. */
  function IntToDecimal(n: int): string
  {
    if n < 0 then "-" + NatToDecimal(-n) else NatToDecimal(n)
  }

  lemma SmallDecimals()
    ensures IntToDecimal(1) == "1" && IntToDecimal(10) == "10"
  {
    assert NatToDecimal(10) == NatToDecimal(1) + [DigitChar(0)];
  }

  predicate AllDigits(s: string)
  {
    forall i :: 0 <= i < |s| ==> '0' <= s[i] <= '9'
  }

  /** The value of a string of decimal digits. */
  function DigitsValue(s: string): nat
    requires AllDigits(s)
  {
    if s == [] then 0 else 10 * DigitsValue(s[..|s| - 1]) + (s[|s| - 1] as int - '0' as int)
  }

  /** Reads a decimal integer with an optional leading minus sign; `None` if it is not one. */
  function ParseDecimal(s: string): (v: Option<int>)
  {
    if s == [] then None
    else if s[0] == '-' then
      var digits := s[1..];
      if digits != [] && AllDigits(digits) then Some(0 - DigitsValue(digits)) else None
    else if AllDigits(s) then Some(DigitsValue(s))
    else None
  }

  lemma {:induction false} NatToDecimalValue(n: nat)
    ensures DigitsValue(NatToDecimal(n)) == n
  {
    if n >= 10 {
      NatToDecimalValue(n / 10);
      var s := NatToDecimal(n);
      assert s[..|s| - 1] == NatToDecimal(n / 10);
    }
  }

  /** Reading back the decimal string of an integer gives the integer. */
  lemma DecimalRoundTrip(n: int)
    ensures ParseDecimal(IntToDecimal(n)) == Some(n)
  {
    var m: nat := if n < 0 then -n else n;
    var d := NatToDecimal(m);
    NatToDecimalValue(m);
    assert AllDigits(d);
    if n < 0 {
      var t := "-" + d;
      assert IntToDecimal(n) == t;
      assert t[0] == '-' && t[1..] == d;
      assert ParseDecimal(t) == Some(0 - DigitsValue(d));
    } else {
      assert IntToDecimal(n) == d && d[0] != '-';
      assert ParseDecimal(d) == Some(DigitsValue(d));
    }
  }
}
