/**
 * The two percent-encoders that shape the request URL:
 *  - the value encoder that `qs.stringify` applies to every filter value: it
 *    keeps the unreserved characters of section 2.3 of RFC 3986 and writes
 *    every other character as the percent-escaped bytes of its UTF-8 form
 *    (section 2.1 of RFC 3986, upper-case hexadecimal);
 *  - the application/x-www-form-urlencoded serializer of the WHATWG URL
 *    Standard, which `URLSearchParams.toString` applies to both the names and
 *    the values: it keeps the ASCII alphanumerics and `*-._`, writes a space as
 *    `+` and percent-escapes everything else the same way.
 * Both emit `name=value` pairs joined by `&`.
 */
module Encoding {

  import opened Wrappers
  import opened Strings

  /** The UTF-8 bytes of one Unicode scalar value. */
  function Utf8(c: char): (bytes: seq<nat>)
    ensures 1 <= |bytes| <= 4
    ensures forall i :: 0 <= i < |bytes| ==> bytes[i] < 256
    ensures (|bytes| == 1) == (c as int < 0x80)
    ensures c as int < 0x80 ==> bytes == [c as int]
  {
    var n := c as int;
    if n < 0x80 then [n]
    else if n < 0x800 then [0xC0 + n / 0x40, 0x80 + n % 0x40]
    else if n < 0x10000 then [0xE0 + n / 0x1000, 0x80 + n / 0x40 % 0x40, 0x80 + n % 0x40]
    else [0xF0 + n / 0x40000, 0x80 + n / 0x1000 % 0x40, 0x80 + n / 0x40 % 0x40, 0x80 + n % 0x40]
  }

  /** The UTF-8 bytes of a whole string. */
  function Utf8Bytes(s: string): seq<nat>
  {
    if s == [] then [] else Utf8(s[0]) + Utf8Bytes(s[1..])
  }

  predicate IsContinuation(b: nat)
  {
    0x80 <= b < 0xC0
  }

  /** The character whose scalar value is `n`, if `n` is one. */
  function ScalarChar(n: int): Option<char>
  {
    if 0 <= n < 0xD800 || 0xE000 <= n < 0x110000 then Some(n as char) else None
  }

  /**
   * Decodes the first UTF-8 sequence of `bytes`: the character and how many
   * bytes it took. Overlong forms, surrogates and values past U+10FFFF are
   * refused.
   */
  function Utf8First(bytes: seq<nat>): (r: Option<(char, nat)>)
    ensures r.Some? ==> 1 <= r.value.1 <= |bytes|
  {
    if bytes == [] then None
    else
      var b0 := bytes[0];
      if b0 < 0x80 then Some((b0 as char, 1))
      else if 0xC2 <= b0 < 0xE0 && |bytes| >= 2 && IsContinuation(bytes[1]) then
        Some((((b0 - 0xC0) * 0x40 + (bytes[1] - 0x80)) as char, 2))
      else if 0xE0 <= b0 < 0xF0 && |bytes| >= 3 && IsContinuation(bytes[1]) && IsContinuation(bytes[2]) then
        var n := (b0 - 0xE0) * 0x1000 + (bytes[1] - 0x80) * 0x40 + (bytes[2] - 0x80);
        if n < 0x800 then None
        else match ScalarChar(n)
          case None => None
          case Some(c) => Some((c, 3))
      else if 0xF0 <= b0 < 0xF5 && |bytes| >= 4 && IsContinuation(bytes[1]) && IsContinuation(bytes[2]) && IsContinuation(bytes[3]) then
        var n := (b0 - 0xF0) * 0x40000 + (bytes[1] - 0x80) * 0x1000 + (bytes[2] - 0x80) * 0x40 + (bytes[3] - 0x80);
        if n < 0x10000 then None
        else match ScalarChar(n)
          case None => None
          case Some(c) => Some((c, 4))
      else None
  }

  /** Decodes a whole byte sequence as UTF-8; `None` when it is not well formed. */
  function Utf8Decode(bytes: seq<nat>): Option<string>
    decreases |bytes|
  {
    if bytes == [] then Some("")
    else match Utf8First(bytes)
      case None => None
      case Some((c, k)) =>
        match Utf8Decode(bytes[k..])
        case None => None
        case Some(rest) => Some([c] + rest)
  }

  /** The two 6-bit groups of a value below 0x800 put it back together. */
  lemma TwoGroups(n: int)
    requires 0x80 <= n < 0x800
    ensures 2 <= n / 0x40 < 0x20
    ensures (n / 0x40) * 0x40 + n % 0x40 == n
  {
  }

  /** The three groups of a value below 0x10000 put it back together. */
  lemma ThreeGroups(n: int)
    requires 0x800 <= n < 0x10000
    ensures n / 0x1000 < 0x10
    ensures (n / 0x1000) * 0x1000 + (n / 0x40 % 0x40) * 0x40 + n % 0x40 == n
  {
    var q := n / 0x40;
    assert n == q * 0x40 + n % 0x40;
    assert q == (q / 0x40) * 0x40 + q % 0x40;
    assert n / 0x1000 == q / 0x40;
  }

  /** The four groups of a value below 0x110000 put it back together. */
  lemma FourGroups(n: int)
    requires 0x10000 <= n < 0x110000
    ensures n / 0x40000 < 5
    ensures (n / 0x40000) * 0x40000 + (n / 0x1000 % 0x40) * 0x1000 + (n / 0x40 % 0x40) * 0x40 + n % 0x40 == n
  {
    var q := n / 0x40;
    var r := q / 0x40;
    assert n == q * 0x40 + n % 0x40;
    assert q == r * 0x40 + q % 0x40;
    assert r == (r / 0x40) * 0x40 + r % 0x40;
    assert n / 0x1000 == r;
    assert n / 0x40000 == r / 0x40;
  }

  lemma Utf8FirstOfTwo(c: char, rest: seq<nat>)
    requires 0x80 <= c as int < 0x800
    ensures Utf8First(Utf8(c) + rest) == Some((c, 2))
  {
    var n := c as int;
    var bytes := Utf8(c) + rest;
    TwoGroups(n);
    assert bytes[0] == 0xC0 + n / 0x40 && bytes[1] == 0x80 + n % 0x40;
  }

  lemma Utf8FirstOfThree(c: char, rest: seq<nat>)
    requires 0x800 <= c as int < 0x10000
    ensures Utf8First(Utf8(c) + rest) == Some((c, 3))
  {
    var n := c as int;
    var bytes := Utf8(c) + rest;
    ThreeGroups(n);
    assert bytes[0] == 0xE0 + n / 0x1000 && bytes[1] == 0x80 + n / 0x40 % 0x40 && bytes[2] == 0x80 + n % 0x40;
    assert ScalarChar(n) == Some(c);
  }

  lemma Utf8FirstOfFour(c: char, rest: seq<nat>)
    requires 0x10000 <= c as int
    ensures Utf8First(Utf8(c) + rest) == Some((c, 4))
  {
    var n := c as int;
    var bytes := Utf8(c) + rest;
    FourGroups(n);
    assert bytes[0] == 0xF0 + n / 0x40000 && bytes[1] == 0x80 + n / 0x1000 % 0x40;
    assert bytes[2] == 0x80 + n / 0x40 % 0x40 && bytes[3] == 0x80 + n % 0x40;
    assert ScalarChar(n) == Some(c);
  }

  /** The decoder reads back exactly the bytes `Utf8` wrote for one character. */
  lemma Utf8FirstOf(c: char, rest: seq<nat>)
    ensures Utf8First(Utf8(c) + rest) == Some((c, |Utf8(c)|))
  {
    var n := c as int;
    if n < 0x80 {
    } else if n < 0x800 {
      Utf8FirstOfTwo(c, rest);
    } else if n < 0x10000 {
      Utf8FirstOfThree(c, rest);
    } else {
      Utf8FirstOfFour(c, rest);
    }
  }

  /** UTF-8 decoding inverts UTF-8 encoding, so no two strings share their bytes. */
  lemma {:induction false} Utf8RoundTrip(s: string)
    ensures Utf8Decode(Utf8Bytes(s)) == Some(s)
  {
    if s != [] {
      var tail := Utf8Bytes(s[1..]);
      Utf8FirstOf(s[0], tail);
      assert (Utf8(s[0]) + tail)[|Utf8(s[0])|..] == tail;
      Utf8RoundTrip(s[1..]);
      assert [s[0]] + s[1..] == s;
    }
  }

  lemma Utf8BytesInjective(s: string, t: string)
    requires Utf8Bytes(s) == Utf8Bytes(t)
    ensures s == t
  {
    Utf8RoundTrip(s);
    Utf8RoundTrip(t);
  }

  predicate IsHexDigit(c: char)
  {
    '0' <= c <= '9' || 'A' <= c <= 'F' || 'a' <= c <= 'f'
  }

  /** The upper-case hexadecimal digit for `d`. */
  function HexDigit(d: nat): (c: char)
    requires d < 16
    ensures IsHexDigit(c) && ('0' <= c <= '9' || 'A' <= c <= 'F')
  {
    if d < 10 then (48 + d) as char else (55 + d) as char
  }

  function HexValue(c: char): nat
    requires IsHexDigit(c)
  {
    if c <= '9' then c as int - 48 else if c <= 'F' then c as int - 55 else c as int - 87
  }

  lemma HexValueOfDigit(d: nat)
    requires d < 16
    ensures HexValue(HexDigit(d)) == d
  {
  }

  /** `%XY` for one byte. */
  function PercentByte(b: nat): string
    requires b < 256
  {
    ['%', HexDigit(b / 16), HexDigit(b % 16)]
  }

  function PercentBytes(bytes: seq<nat>): (r: string)
    requires forall i :: 0 <= i < |bytes| ==> bytes[i] < 256
    ensures |r| == 3 * |bytes|
    ensures forall i :: 0 <= i < |r| ==> r[i] == '%' || '0' <= r[i] <= '9' || 'A' <= r[i] <= 'F'
  {
    if bytes == [] then [] else PercentByte(bytes[0]) + PercentBytes(bytes[1..])
  }

  /** The unreserved characters of section 2.3 of RFC 3986. */
  predicate Unreserved(c: char)
  {
    'A' <= c <= 'Z' || 'a' <= c <= 'z' || '0' <= c <= '9' || c == '-' || c == '.' || c == '_' || c == '~'
  }

  /** How the value encoder writes one character. */
  function EncodeValueChar(c: char): (r: string)
    ensures forall i :: 0 <= i < |r| ==> Unreserved(r[i]) || r[i] == '%'
    ensures Unreserved(c) ==> r == [c]
    ensures !Unreserved(c) ==> |r| >= 3 && r[0] == '%'
  {
    if Unreserved(c) then [c] else PercentBytes(Utf8(c))
  }

  /**
   * The value encoder: the result holds only unreserved characters and `%`
   * (so never `&`, `=`, `[`, `]`, `+` or `#`), and it is never shorter than
   * its input.
   */
  function EncodeValue(s: string): (r: string)
    ensures forall i :: 0 <= i < |r| ==> Unreserved(r[i]) || r[i] == '%'
    ensures |r| >= |s|
  {
    if s == [] then [] else EncodeValueChar(s[0]) + EncodeValue(s[1..])
  }

  lemma {:induction false} EncodeValueAppend(a: string, b: string)
    ensures EncodeValue(a + b) == EncodeValue(a) + EncodeValue(b)
  {
    if a != [] {
      assert (a + b)[0] == a[0] && (a + b)[1..] == a[1..] + b;
      EncodeValueAppend(a[1..], b);
    } else {
      assert a + b == b;
    }
  }

  /** The value encoder leaves a string alone exactly when all its characters are unreserved. */
  lemma {:induction false} EncodeValueUnchanged(s: string)
    ensures EncodeValue(s) == s <==> forall i :: 0 <= i < |s| ==> Unreserved(s[i])
  {
    if s != [] {
      EncodeValueUnchanged(s[1..]);
      assert s == [s[0]] + s[1..];
      if Unreserved(s[0]) {
        assert (forall i :: 0 <= i < |s| ==> Unreserved(s[i]))
           <==> (forall i :: 0 <= i < |s[1..]| ==> Unreserved(s[1..][i])) by {
          forall i | 0 <= i < |s[1..]| ensures s[1..][i] == s[i + 1] { }
        }
      } else {
        assert |EncodeValue(s)| >= 3 + |s[1..]| > |s|;
      }
    }
  }

  /**
   * Percent-decoding: every `%XY` escape becomes the byte XY and every
   * other character its UTF-8 bytes.
   */
  function PercentDecode(t: string): seq<nat>
    decreases |t|
  {
    if t == [] then []
    else if |t| >= 3 && t[0] == '%' && IsHexDigit(t[1]) && IsHexDigit(t[2]) then
      [16 * HexValue(t[1]) + HexValue(t[2])] + PercentDecode(t[3..])
    else Utf8(t[0]) + PercentDecode(t[1..])
  }

  lemma DecodePercentByte(b: nat, rest: string)
    requires b < 256
    ensures PercentDecode(PercentByte(b) + rest) == [b] + PercentDecode(rest)
  {
    var t := PercentByte(b) + rest;
    HexValueOfDigit(b / 16);
    HexValueOfDigit(b % 16);
    assert 16 * (b / 16) + b % 16 == b;
    assert t[0] == '%' && t[1] == HexDigit(b / 16) && t[2] == HexDigit(b % 16);
    assert t[3..] == rest;
  }

  lemma {:induction false} DecodePercentBytes(bytes: seq<nat>, rest: string)
    requires forall i :: 0 <= i < |bytes| ==> bytes[i] < 256
    ensures PercentDecode(PercentBytes(bytes) + rest) == bytes + PercentDecode(rest)
  {
    if bytes == [] {
      assert PercentBytes(bytes) + rest == rest;
    } else {
      var b, more := bytes[0], bytes[1..];
      var tail := PercentBytes(more) + rest;
      assert PercentBytes(bytes) == PercentByte(b) + PercentBytes(more);
      assert PercentBytes(bytes) + rest == PercentByte(b) + tail;
      DecodePercentByte(b, tail);
      DecodePercentBytes(more, rest);
      assert [b] + (more + PercentDecode(rest)) == ([b] + more) + PercentDecode(rest);
      assert [b] + more == bytes;
    }
  }

  /** Percent-decoding an encoded value gives back the UTF-8 bytes of the value. */
  lemma {:induction false} DecodeEncodeValue(s: string)
    ensures PercentDecode(EncodeValue(s)) == Utf8Bytes(s)
  {
    if s != [] {
      var c := s[0];
      var rest := EncodeValue(s[1..]);
      DecodeEncodeValue(s[1..]);
      if Unreserved(c) {
        assert ([c] + rest)[0] == c && ([c] + rest)[1..] == rest;
      } else {
        DecodePercentBytes(Utf8(c), rest);
      }
    }
  }

  /** The characters the form-urlencoded serializer leaves alone. */
  predicate FormSafe(c: char)
  {
    'A' <= c <= 'Z' || 'a' <= c <= 'z' || '0' <= c <= '9' || c == '*' || c == '-' || c == '.' || c == '_'
  }

  function FormEncodeChar(c: char): (r: string)
    ensures forall i :: 0 <= i < |r| ==> FormSafe(r[i]) || r[i] == '%' || r[i] == '+'
    ensures FormSafe(c) ==> r == [c]
  {
    if FormSafe(c) then [c] else if c == ' ' then "+" else PercentBytes(Utf8(c))
  }

  /**
   * The form-urlencoded serializer of one name or value: the result holds
   * only form-safe characters, `%` and `+` (so never `&`, `=`, `[` or `]`).
   */
  function FormEncode(s: string): (r: string)
    ensures forall i :: 0 <= i < |r| ==> FormSafe(r[i]) || r[i] == '%' || r[i] == '+'
  {
    if s == [] then [] else FormEncodeChar(s[0]) + FormEncode(s[1..])
  }

  lemma {:induction false} FormEncodeAppend(a: string, b: string)
    ensures FormEncode(a + b) == FormEncode(a) + FormEncode(b)
  {
    if a != [] {
      assert (a + b)[0] == a[0] && (a + b)[1..] == a[1..] + b;
      FormEncodeAppend(a[1..], b);
    } else {
      assert a + b == b;
    }
  }

  /** A string of form-safe characters is serialized as itself. */
  lemma {:induction false} FormEncodeUnchanged(s: string)
    requires forall i :: 0 <= i < |s| ==> FormSafe(s[i])
    ensures FormEncode(s) == s
  {
    if s != [] {
      assert forall i :: 0 <= i < |s[1..]| ==> FormSafe(s[1..][i]) by {
        forall i | 0 <= i < |s[1..]| ensures s[1..][i] == s[i + 1] { }
      }
      FormEncodeUnchanged(s[1..]);
      assert s == [s[0]] + s[1..];
    }
  }

  lemma FormEncodeBrackets()
    ensures FormEncode("[") == "%5B" && FormEncode("]") == "%5D"
  {
  }

  /** `URLSearchParams` writes a bracketed name `name[sub]` as `name%5Bsub%5D`. */
  lemma FormEncodeBracketed(name: string, sub: string)
    requires forall i :: 0 <= i < |name| ==> FormSafe(name[i])
    requires forall i :: 0 <= i < |sub| ==> FormSafe(sub[i])
    ensures FormEncode(name + "[" + sub + "]") == name + "%5B" + sub + "%5D"
  {
    FormEncodeAppend(name + "[" + sub, "]");
    FormEncodeAppend(name + "[", sub);
    FormEncodeAppend(name, "[");
    FormEncodeUnchanged(name);
    FormEncodeUnchanged(sub);
    FormEncodeBrackets();
  }

  /** Every `+` read back as a space, the first step of the form-urlencoded parser. */
  function PlusToSpace(t: string): string
  {
    seq(|t|, i requires 0 <= i < |t| => if t[i] == '+' then ' ' else t[i])
  }

  /**
   * The bytes of one form-urlencoded name or value, as the
   * application/x-www-form-urlencoded parser of the WHATWG URL Standard reads
   * them: every `+` becomes a space, then every `%XY` the byte XY and every
   * other character its UTF-8 bytes.
   */
  function FormDecode(t: string): seq<nat>
  {
    PercentDecode(PlusToSpace(t))
  }

  lemma PlusToSpaceAppend(a: string, b: string)
    ensures PlusToSpace(a + b) == PlusToSpace(a) + PlusToSpace(b)
  {
  }

  /** Only the `+` written for a space is read back as a space; escapes hold no `+`. */
  lemma PlusToSpaceOfEncodedChar(c: char)
    ensures PlusToSpace(FormEncodeChar(c)) == if FormSafe(c) || c == ' ' then [c] else FormEncodeChar(c)
  {
    if !FormSafe(c) && c != ' ' {
      var r := FormEncodeChar(c);
      assert r == PercentBytes(Utf8(c));
      assert forall i :: 0 <= i < |r| ==> r[i] != '+';
    }
  }

  /** Form-decoding a serialized name or value gives the UTF-8 bytes of the original. */
  lemma {:induction false} FormDecodeEncode(s: string)
    ensures FormDecode(FormEncode(s)) == Utf8Bytes(s)
  {
    if s != [] {
      var c := s[0];
      var tail := PlusToSpace(FormEncode(s[1..]));
      PlusToSpaceAppend(FormEncodeChar(c), FormEncode(s[1..]));
      PlusToSpaceOfEncodedChar(c);
      FormDecodeEncode(s[1..]);
      if FormSafe(c) || c == ' ' {
        assert PlusToSpace(FormEncode(s)) == [c] + tail;
        assert ([c] + tail)[0] == c && ([c] + tail)[1..] == tail;
      } else {
        assert PlusToSpace(FormEncode(s)) == PercentBytes(Utf8(c)) + tail;
        DecodePercentBytes(Utf8(c), tail);
      }
    }
  }

  /** The form serializer loses nothing: decoding gives back the original text. */
  lemma FormRoundTrip(s: string)
    ensures Utf8Decode(FormDecode(FormEncode(s))) == Some(s)
  {
    FormDecodeEncode(s);
    Utf8RoundTrip(s);
  }

  /** Distinct names or values stay distinct once serialized. */
  lemma FormEncodeInjective(s: string, t: string)
    requires FormEncode(s) == FormEncode(t)
    ensures s == t
  {
    FormRoundTrip(s);
    FormRoundTrip(t);
  }

  /** One `name=value` segment of a query. */
  function Segment(pair: (string, string)): string
  {
    pair.0 + "=" + pair.1
  }

  function Segments(pairs: seq<(string, string)>): seq<string>
  {
    seq(|pairs|, i requires 0 <= i < |pairs| => Segment(pairs[i]))
  }

  /** The pairs written as `name=value`, joined by `&`; no pairs make the empty string. */
  function JoinPairs(pairs: seq<(string, string)>): string
  {
    Join(Segments(pairs), '&')
  }

  /** The parameters with their names and values form-urlencoded. */
  function FormPairs(params: seq<(string, string)>): seq<(string, string)>
  {
    seq(|params|, i requires 0 <= i < |params| => (FormEncode(params[i].0), FormEncode(params[i].1)))
  }

  /** `URLSearchParams.toString()`: names and values form-urlencoded, then joined. */
  function FormSerialize(params: seq<(string, string)>): string
  {
    JoinPairs(FormPairs(params))
  }

  /** The `&`-separated pieces of a joined query: its segments, or one empty piece when there are no pairs. */
  function QueryPieces(pairs: seq<(string, string)>): seq<string>
  {
    if pairs == [] then [""] else Segments(pairs)
  }

  /** Splitting a joined query at `&` gives back its segments when no name or value holds `&`. */
  lemma SplitJoinPairs(pairs: seq<(string, string)>)
    requires forall i :: 0 <= i < |pairs| ==> '&' !in pairs[i].0 && '&' !in pairs[i].1
    ensures Split(JoinPairs(pairs), '&') == QueryPieces(pairs)
  {
    if pairs != [] {
      SplitJoin(Segments(pairs), '&');
    }
  }

  lemma EncodedValueHasNoAmpersand(s: string)
    ensures '&' !in EncodeValue(s)
  {
  }

  lemma FormPairsHaveNoAmpersand(params: seq<(string, string)>)
    ensures forall i :: 0 <= i < |params| ==> '&' !in FormPairs(params)[i].0 && '&' !in FormPairs(params)[i].1
  {
  }

  lemma SegmentSplit(name: string, value: string)
    requires '=' !in name && '=' !in value
    ensures Split(Segment((name, value)), '=') == [name, value]
  {
    assert Join([name, value], '=') == name + "=" + value;
    SplitJoin([name, value], '=');
  }

  /**
   * `URLSearchParams.toString()` read back: splitting at `&`, each piece at
   * `=`, and decoding both halves gives the parameters, in order.
   */
  lemma FormSerializeRoundTrip(params: seq<(string, string)>)
    ensures params == [] ==> FormSerialize(params) == ""
    ensures params != [] ==>
      var pieces := Split(FormSerialize(params), '&');
      && |pieces| == |params|
      && forall i :: 0 <= i < |params| ==>
           var kv := Split(pieces[i], '=');
           && |kv| == 2
           && Utf8Decode(FormDecode(kv[0])) == Some(params[i].0)
           && Utf8Decode(FormDecode(kv[1])) == Some(params[i].1)
  {
    var pairs := FormPairs(params);
    FormPairsHaveNoAmpersand(params);
    SplitJoinPairs(pairs);
    if params != [] {
      var pieces := Split(FormSerialize(params), '&');
      assert pieces == Segments(pairs);
      forall i | 0 <= i < |params|
        ensures Split(pieces[i], '=') == [FormEncode(params[i].0), FormEncode(params[i].1)]
        ensures Utf8Decode(FormDecode(FormEncode(params[i].0))) == Some(params[i].0)
        ensures Utf8Decode(FormDecode(FormEncode(params[i].1))) == Some(params[i].1)
      {
        SegmentSplit(pairs[i].0, pairs[i].1);
        FormRoundTrip(params[i].0);
        FormRoundTrip(params[i].1);
      }
    }
  }
}
