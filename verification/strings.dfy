/** The few string operations of the JavaScript runtime that the emitter
    relies on: `String.prototype.split` with a string separator, the
    decimal rendering of an integer in a template literal, and
    `Number.parseInt(s, 10)`. */
module Strings {
  import opened Wrappers

  /** `s.split(sep)`: for a non-empty separator, the pieces between
      non-overlapping left-to-right occurrences; for the empty separator,
      one piece per character. With `SplitJoin` the second clause pins the
      pieces down for a one-character separator. */
  function Split(s: string, sep: string): (r: seq<string>)
    ensures sep != [] ==> |r| >= 1
    ensures |sep| == 1 ==> forall i :: 0 <= i < |r| ==> sep[0] !in r[i]
  {
    if sep == [] then seq(|s|, i requires 0 <= i < |s| => [s[i]])
    else SplitFrom(s, sep, [])
  }

  /** Splits `s`, where `cur` is the part of the current piece already read. */
  function SplitFrom(s: string, sep: string, cur: string): (r: seq<string>)
    requires sep != []
    ensures |r| >= 1
    ensures |sep| == 1 && sep[0] !in cur ==> forall i :: 0 <= i < |r| ==> sep[0] !in r[i]
    decreases |s|
  {
    if |s| < |sep| then [cur + s]
    else if s[..|sep|] == sep then [cur] + SplitFrom(s[|sep|..], sep, [])
    else SplitFrom(s[1..], sep, cur + [s[0]])
  }

  /** `pieces.join(sep)`. */
  function Join(pieces: seq<string>, sep: string): string {
    if pieces == [] then []
    else if |pieces| == 1 then pieces[0]
    else pieces[0] + sep + Join(pieces[1..], sep)
  }

  lemma {:induction false} SplitFromJoin(s: string, sep: string, cur: string)
    requires sep != []
    ensures Join(SplitFrom(s, sep, cur), sep) == cur + s
    decreases |s|
  {
    if |s| < |sep| {
    } else if s[..|sep|] == sep {
      var rest := SplitFrom(s[|sep|..], sep, []);
      SplitFromJoin(s[|sep|..], sep, []);
      assert s == sep + s[|sep|..];
    } else {
      SplitFromJoin(s[1..], sep, cur + [s[0]]);
      assert cur + [s[0]] + s[1..] == cur + s;
    }
  }

  /** Splitting on a non-empty separator loses nothing: joining the pieces
      back with the separator gives the original string. */
  lemma SplitJoin(s: string, sep: string)
    requires sep != []
    ensures Join(Split(s, sep), sep) == s
  {
    SplitFromJoin(s, sep, []);
  }

  lemma {:induction false} SplitFromNoSeparator(s: string, c: char, cur: string)
    requires c !in s
    ensures SplitFrom(s, [c], cur) == [cur + s]
    decreases |s|
  {
    if |s| >= 1 {
      assert s[..1] == [s[0]];
      SplitFromNoSeparator(s[1..], c, cur + [s[0]]);
      assert cur + [s[0]] + s[1..] == cur + s;
    }
  }

  lemma {:induction false} SplitFromOneSeparator(a: string, c: char, b: string, cur: string)
    requires c !in a && c !in b
    ensures SplitFrom(a + [c] + b, [c], cur) == [cur + a, b]
    decreases |a|
  {
    var s := a + [c] + b;
    if a == [] {
      assert s[..1] == [c] && s[1..] == b;
      SplitFromNoSeparator(b, c, []);
      assert SplitFrom(s, [c], cur) == [cur] + SplitFrom(b, [c], []);
      assert cur + a == cur && [] + b == b;
    } else {
      assert s[..1] == [a[0]] && a[0] != c;
      assert s[1..] == a[1..] + [c] + b;
      SplitFromOneSeparator(a[1..], c, b, cur + [a[0]]);
      assert cur + [a[0]] + a[1..] == cur + a;
    }
  }

  /** A string with exactly one occurrence of a one-character separator
      splits into the two sides of it. */
  lemma SplitOneSeparator(a: string, c: char, b: string)
    requires c !in a && c !in b
    ensures Split(a + [c] + b, [c]) == [a, b]
  {
    SplitFromOneSeparator(a, c, b, []);
    assert [] + a == a;
  }

  /** A name that starts with a non-empty separator splits into an empty
      first piece followed by the pieces of the rest. */
  lemma SplitLeadingSeparator(s: string, sep: string)
    requires sep != []
    ensures Split(sep + s, sep) == [[]] + Split(s, sep)
  {
    var t := sep + s;
    assert t[..|sep|] == sep && t[|sep|..] == s;
  }

  predicate IsDigit(c: char) {
    '0' <= c <= '9'
  }

  predicate AllDigits(s: string) {
    forall i :: 0 <= i < |s| ==> IsDigit(s[i])
  }

  function DigitChar(d: nat): (c: char)
    requires d < 10
    ensures IsDigit(c) && (c as int) - ('0' as int) == d
  {
    (('0' as int) + d) as char
  }

  /** The numeric value of a string of decimal digits, most significant first. */
  function DigitsValue(s: string): nat
    requires AllDigits(s)
  {
    if s == [] then 0
    else 10 * DigitsValue(s[..|s| - 1]) + ((s[|s| - 1] as int) - ('0' as int))
  }

  /** The decimal rendering of a natural number, without leading zeros. */
  function NatToDecimal(n: nat): (s: string)
    ensures s != [] && AllDigits(s)
    ensures DigitsValue(s) == n
    ensures n > 0 ==> s[0] != '0'
    ensures n == 0 ==> s == "0"
  {
    if n < 10 then [DigitChar(n)]
    else
      var s := NatToDecimal(n / 10) + [DigitChar(n % 10)];
      assert s[..|s| - 1] == NatToDecimal(n / 10);
      s
  }

  /** The decimal rendering of an integer, as a template literal prints a
      safe integer (magnitude at most 2^53 - 1); JavaScript switches to
      exponent form from 1e21 on, which this rendering does not follow. */
  function IntToDecimal(i: int): (s: string)
    ensures s != [] && '.' !in s
  {
    if i < 0 then "-" + NatToDecimal(-i) else NatToDecimal(i)
  }

  /** The rendering is a `-` exactly for a negative integer, followed by
      the digits of its magnitude without leading zeros. */
  lemma IntToDecimalDigits(i: int)
    ensures var s := IntToDecimal(i);
      (i < 0 <==> s[0] == '-') &&
      var m := if i < 0 then s[1..] else s;
      m != [] && AllDigits(m) && DigitsValue(m) == (if i < 0 then -i else i) && (m[0] == '0' ==> m == "0")
  {
    var s := IntToDecimal(i);
    if i < 0 {
      assert s[1..] == NatToDecimal(-i);
    }
  }

  /** The number of leading decimal digits of `s`. */
  function LeadingDigits(s: string): (k: nat)
    ensures k <= |s| && AllDigits(s[..k])
    ensures k < |s| ==> !IsDigit(s[k])
  {
    if s == [] || !IsDigit(s[0]) then 0
    else
      var k := 1 + LeadingDigits(s[1..]);
      assert s[..k] == [s[0]] + s[1..][..k - 1];
      k
  }

  /** The characters `Number.parseInt` skips before the number: the
      white space of ECMAScript (tab, vertical tab, form feed, the
      byte order mark and the space separators of Unicode) and its line
      terminators. */
  predicate IsJsWhiteSpace(c: char) {
    || c == '\t' || c == '\n' || c == '\U{000B}' || c == '\U{000C}' || c == '\r'
    || c == ' ' || c == '\U{00A0}' || c == '\U{1680}' || ('\U{2000}' <= c <= '\U{200A}')
    || c == '\U{2028}' || c == '\U{2029}' || c == '\U{202F}' || c == '\U{205F}'
    || c == '\U{3000}' || c == '\U{FEFF}'
  }

  /** `s` without its leading white space. */
  function TrimStart(s: string): (t: string)
    ensures |t| <= |s| && t == s[|s| - |t|..]
    ensures forall i :: 0 <= i < |s| - |t| ==> IsJsWhiteSpace(s[i])
    ensures t == [] || !IsJsWhiteSpace(t[0])
  {
    if s != [] && IsJsWhiteSpace(s[0]) then TrimStart(s[1..]) else s
  }

  /** The part after an optional leading sign. */
  function Unsigned(t: string): string {
    if t != [] && (t[0] == '-' || t[0] == '+') then t[1..] else t
  }

  /** `Number.parseInt(s, 10)`: leading white space is skipped, then an
      optional sign, then the longest run of digits is read; `None` is `NaN`
      (no digit after the white space and the sign). */
  function ParseInt(s: string): (r: Option<int>)
    ensures r.None? <==> LeadingDigits(Unsigned(TrimStart(s))) == 0
  {
    ParseSigned(TrimStart(s))
  }

  /** The sign and digits `Number.parseInt` reads once white space is skipped. */
  function ParseSigned(t: string): (r: Option<int>)
    ensures r.None? <==> LeadingDigits(Unsigned(t)) == 0
  {
    var negative := t != [] && t[0] == '-';
    var digits := Unsigned(t);
    var k := LeadingDigits(digits);
    if k == 0 then None
    else if negative then Some(-(DigitsValue(digits[..k]) as int))
    else Some(DigitsValue(digits[..k]))
  }

  lemma LeadingDigitsOfDigits(s: string)
    requires AllDigits(s)
    ensures LeadingDigits(s) == |s|
  {
  }

  /** Leading white space does not change what `Number.parseInt` reads. */
  lemma ParseIntSkipsWhiteSpace(w: string, s: string)
    requires forall i :: 0 <= i < |w| ==> IsJsWhiteSpace(w[i])
    ensures ParseInt(w + s) == ParseInt(s)
  {
    TrimStartSkips(w, s);
  }

  lemma {:induction false} TrimStartSkips(w: string, s: string)
    requires forall i :: 0 <= i < |w| ==> IsJsWhiteSpace(w[i])
    ensures TrimStart(w + s) == TrimStart(s)
    decreases |w|
  {
    if w != [] {
      assert (w + s)[1..] == w[1..] + s;
      TrimStartSkips(w[1..], s);
    } else {
      assert w + s == s;
    }
  }

  /** Parsing the decimal rendering of an integer gives the integer back. */
  lemma ParseIntToDecimal(i: int)
    ensures ParseInt(IntToDecimal(i)) == Some(i)
  {
    var s := IntToDecimal(i);
    assert !IsJsWhiteSpace(s[0]);
    assert TrimStart(s) == s;
    ParseSignedToDecimal(i);
  }

  lemma ParseSignedToDecimal(i: int)
    ensures ParseSigned(IntToDecimal(i)) == Some(i)
  {
    var s := IntToDecimal(i);
    var n: nat := if i < 0 then -i else i;
    var d := NatToDecimal(n);
    LeadingDigitsOfDigits(d);
    if i < 0 {
      assert s[1..] == d;
      assert d[..|d|] == d;
    } else {
      assert s == d && d[..|d|] == d;
      assert IsDigit(d[0]);
    }
  }
}
