/**
 * The handful of Python text operations the controller and the metadata
 * generator rely on: `str.startswith`, `str.strip()`, `str.split()` with no
 * argument, `str.split(sep, 1)`, `int(s)` and `str(n)` / f-string formatting of
 * an integer, and `bytes.split(sep)` with the ASCII part of
 * `bytes.decode("utf-8", errors="replace")`.
 */
module Text {
  import opened Wrappers

  newtype byte = x: int | 0 <= x < 256

  predicate StartsWith<T(==)>(s: seq<T>, prefix: seq<T>) {
    |prefix| <= |s| && s[..|prefix|] == prefix
  }

  // ---------------------------------------------------------------------
  // Whitespace, strip() and split()
  // ---------------------------------------------------------------------

  /** The ASCII-range characters for which Python's `str.isspace()` holds. */
  predicate IsSpace(c: char) {
    c == ' ' || '\t' <= c <= '\r' || '\U{1C}' <= c <= '\U{1F}'
  }

  predicate NoSpace(s: string) {
    forall i :: 0 <= i < |s| ==> !IsSpace(s[i])
  }

  predicate AllSpace(s: string) {
    forall i :: 0 <= i < |s| ==> IsSpace(s[i])
  }

  /** `s.lstrip()`: the suffix of `s` left after dropping leading whitespace. */
  function StripLeading(s: string): (r: string)
    ensures |r| <= |s| && r == s[|s| - |r|..]
    ensures r == [] || !IsSpace(r[0])
    ensures AllSpace(s[..|s| - |r|])
  {
    if |s| == 0 || !IsSpace(s[0]) then s
    else
      var r := StripLeading(s[1..]);
      assert s[1..][..|s| - 1 - |r|] == s[1..|s| - |r|];
      r
  }

  /** `s.rstrip()`: the prefix of `s` left after dropping trailing whitespace. */
  function StripTrailing(s: string): (r: string)
    ensures |r| <= |s| && r == s[..|r|]
    ensures r == [] || !IsSpace(r[|r| - 1])
    ensures AllSpace(s[|r|..])
  {
    if |s| == 0 || !IsSpace(s[|s| - 1]) then s
    else
      var r := StripTrailing(s[..|s| - 1]);
      assert s[..|s| - 1][|r|..] == s[|r|..|s| - 1];
      r
  }

  /** `s.strip()` with no argument. */
  function Strip(s: string): string {
    StripTrailing(StripLeading(s))
  }

  /** The longest prefix of `s` without whitespace. */
  function WordPrefix(s: string): (w: string)
    ensures |w| <= |s| && w == s[..|w|] && NoSpace(w)
    ensures |w| == |s| || IsSpace(s[|w|])
  {
    if |s| == 0 || IsSpace(s[0]) then []
    else [s[0]] + WordPrefix(s[1..])
  }

  lemma WordPrefixNonEmpty(s: string)
    requires |s| > 0 && !IsSpace(s[0])
    ensures |WordPrefix(s)| > 0
  {
  }

  /** `s.split()` with no argument: the maximal runs of non-whitespace characters, in order. */
  function Words(s: string): seq<string>
    decreases |s|
  {
    var t := StripLeading(s);
    if t == [] then []
    else
      var w := WordPrefix(t);
      WordPrefixNonEmpty(t);
      [w] + Words(t[|w|..])
  }

  /** Every string in `ws` is a non-empty run of non-whitespace characters. */
  predicate AllWords(ws: seq<string>) {
    |ws| == 0 || (|ws[0]| > 0 && NoSpace(ws[0]) && AllWords(ws[1..]))
  }

  /** Every piece `split()` returns is a non-empty run of non-whitespace characters. */
  lemma {:induction false} WordsAreWords(s: string)
    ensures AllWords(Words(s))
    decreases |s|
  {
    var t := StripLeading(s);
    if t != [] {
      var w := WordPrefix(t);
      WordPrefixNonEmpty(t);
      WordsAreWords(t[|w|..]);
      var rest := Words(t[|w|..]);
      assert Words(s) == [w] + rest;
      assert ([w] + rest)[1..] == rest;
    }
  }

  /** `s.split()` is empty exactly when `s` holds nothing but whitespace. */
  lemma {:induction false} WordsEmpty(s: string)
    ensures Words(s) == [] <==> AllSpace(s)
  {
    var t := StripLeading(s);
    if t == [] {
      assert s[..|s| - |t|] == s;
    } else {
      assert s[|s| - |t|] == t[0];
      assert !IsSpace(s[|s| - |t|]);
    }
  }

  /** `s.strip()` is empty exactly when `s` holds nothing but whitespace. */
  lemma StripEmpty(s: string)
    ensures Strip(s) == [] <==> AllSpace(s)
  {
    var t := StripLeading(s);
    if t != [] {
      assert t[0] == s[|s| - |t|];
      assert t[0..] == t;
    } else {
      assert s[..|s| - |t|] == s;
    }
  }

  /** The position of the first occurrence of `c` in `s`. */
  function IndexOf(s: string, c: char): (i: nat)
    requires c in s
    ensures i < |s| && s[i] == c && c !in s[..i]
  {
    if s[0] == c then 0
    else
      var i := IndexOf(s[1..], c);
      assert s[..i + 1] == [s[0]] + s[1..][..i];
      i + 1
  }

  /** `s.split(c, 1)[1]`: the text after the first occurrence of `c`. */
  function AfterFirst(s: string, c: char): string
    requires c in s
  {
    s[IndexOf(s, c) + 1..]
  }

  /** When `s` starts with `p` and the only `c` in `p` is its last character, the text after the first `c` is what follows `p`. */
  lemma AfterFirstPrefix(s: string, p: string, c: char)
    requires StartsWith(s, p) && |p| > 0 && p[|p| - 1] == c && c !in p[..|p| - 1]
    ensures c in s && AfterFirst(s, c) == s[|p|..]
  {
    assert s[|p| - 1] == p[|p| - 1];
    var i := IndexOf(s, c);
    assert forall k :: 0 <= k < |p| - 1 ==> s[k] == p[..|p| - 1][k];
    assert forall k :: 0 <= k < i ==> s[k] == s[..i][k];
  }

  // ---------------------------------------------------------------------
  // Decimal integers: str(n) and int(s)
  // ---------------------------------------------------------------------

  predicate IsDigit(c: char) {
    '0' <= c <= '9'
  }

  predicate AllDigits(s: string) {
    forall i :: 0 <= i < |s| ==> IsDigit(s[i])
  }

  function DigitChar(d: nat): (c: char)
    requires d < 10
    ensures IsDigit(c)
  {
    ('0' as int + d) as char
  }

  /** The value of a string of decimal digits. */
  function DigitsValue(s: string): nat
    requires AllDigits(s)
  {
    if |s| == 0 then 0
    else DigitsValue(s[..|s| - 1]) * 10 + (s[|s| - 1] as int - '0' as int)
  }

  /** The decimal digits of `n` with no leading zero, as `str(n)` prints a non-negative int. */
  function NatToString(n: nat): (s: string)
    ensures |s| > 0 && AllDigits(s)
    ensures s[0] == '0' ==> s == "0"
  {
    if n < 10 then [DigitChar(n)]
    else NatToString(n / 10) + [DigitChar(n % 10)]
  }

  /** `str(n)` and `f"{n}"` for a Python int. */
  function IntToString(n: int): string {
    if n < 0 then "-" + NatToString(-n) else NatToString(n)
  }

  lemma {:induction false} DigitsValueOfNatToString(n: nat)
    ensures DigitsValue(NatToString(n)) == n
  {
    if n >= 10 {
      var s := NatToString(n);
      assert s[..|s| - 1] == NatToString(n / 10);
      DigitsValueOfNatToString(n / 10);
    }
  }

  /**
   * The digit part Python's `int()` accepts: digits, with single underscores
   * allowed between two digits.
   */
  predicate DigitGroups(b: string) {
    && |b| > 0 && IsDigit(b[0]) && IsDigit(b[|b| - 1])
    && (forall i :: 0 <= i < |b| ==> IsDigit(b[i]) || b[i] == '_')
    && (forall i :: 0 <= i < |b| - 1 && b[i] == '_' ==> b[i + 1] != '_')
  }

  /** `b` with its underscores removed. */
  function DropUnderscores(b: string): (r: string)
    requires forall i :: 0 <= i < |b| ==> IsDigit(b[i]) || b[i] == '_'
    ensures AllDigits(r)
    ensures AllDigits(b) ==> r == b
  {
    if |b| == 0 then []
    else if b[0] == '_' then DropUnderscores(b[1..])
    else [b[0]] + DropUnderscores(b[1..])
  }

  /**
   * CPython's default limit on decimal conversion (`sys.int_info.default_max_str_digits`):
   * `int()` refuses text with more digits than this, underscores not counted.
   */
  const MaxStrDigits: nat := 4300

  /** An int whose decimal digits, sign not counted, are within `MaxStrDigits`: below 10^4300 in magnitude. */
  predicate WithinDigitLimit(n: int) {
    |NatToString(if n < 0 then -n else n)| <= MaxStrDigits
  }

  /** The digit part of `int()`, with its limit on the number of digits. */
  function ParseDigits(b: string): Option<nat> {
    if DigitGroups(b) && |DropUnderscores(b)| <= MaxStrDigits then Some(DigitsValue(DropUnderscores(b))) else None
  }

  /**
   * The ASCII whitespace `int()` skips around a number: only `" \t\n\v\f\r"`.
   * The separators U+001C..U+001F count for `str.isspace()` but not here.
   */
  predicate IsIntSpace(c: char) {
    c == ' ' || '\t' <= c <= '\r'
  }

  /** The suffix of `s` left after dropping the leading whitespace `int()` skips. */
  function IntStripLeading(s: string): (r: string)
    ensures |r| <= |s| && r == s[|s| - |r|..]
    ensures r == [] || !IsIntSpace(r[0])
    ensures forall i :: 0 <= i < |s| - |r| ==> IsIntSpace(s[i])
  {
    if |s| == 0 || !IsIntSpace(s[0]) then s
    else
      var r := IntStripLeading(s[1..]);
      assert forall i :: 1 <= i < |s| - |r| ==> s[i] == s[1..][i - 1];
      r
  }

  /** The prefix of `s` left after dropping the trailing whitespace `int()` skips. */
  function IntStripTrailing(s: string): (r: string)
    ensures |r| <= |s| && r == s[..|r|]
    ensures r == [] || !IsIntSpace(r[|r| - 1])
    ensures forall i :: |r| <= i < |s| ==> IsIntSpace(s[i])
  {
    if |s| == 0 || !IsIntSpace(s[|s| - 1]) then s
    else
      var r := IntStripTrailing(s[..|s| - 1]);
      assert forall i :: |r| <= i < |s| - 1 ==> s[i] == s[..|s| - 1][i];
      r
  }

  /** The text `int()` parses: `s` without the surrounding whitespace it skips. */
  function IntStrip(s: string): string {
    IntStripTrailing(IntStripLeading(s))
  }

  /** Text without whitespace is what `int()` parses, unchanged. */
  lemma IntStripNoSpace(s: string)
    requires NoSpace(s)
    ensures IntStrip(s) == s
  {
    if |s| > 0 {
      assert !IsIntSpace(s[0]) && !IsIntSpace(s[|s| - 1]);
    }
  }

  /**
   * Python's `int(s)` on a str: the whitespace `IsIntSpace` names is ignored
   * around the number, one optional sign is allowed, and the rest must be
   * digit groups; anything else raises ValueError, here `None`.
   */
  function ParseInt(s: string): (r: Option<int>)
    // whitespace-only text, in the wider sense of `str.isspace()`, never parses
    ensures r.Some? ==> !AllSpace(s)
    // a separator character U+001C..U+001F at either end makes it fail
    ensures |s| > 0 && '\U{1C}' <= s[0] <= '\U{1F}' ==> r.None?
    ensures |s| > 0 && '\U{1C}' <= s[|s| - 1] <= '\U{1F}' ==> r.None?
  {
    var l := IntStripLeading(s);
    var t := IntStripTrailing(l);
    var r := ParseSigned(t);
    if r.Some? then
      assert s[|s| - |l| + |t| - 1] == t[|t| - 1];
      r
    else r
  }

  /** The part of `int()` after stripping: one optional sign, then digit groups. */
  function ParseSigned(t: string): (r: Option<int>)
    ensures r.Some? ==> |t| > 0 && IsDigit(t[|t| - 1])
    ensures r.Some? ==> IsDigit(t[0]) || t[0] == '-' || t[0] == '+'
  {
    if |t| > 0 && (t[0] == '-' || t[0] == '+') then
      match ParseDigits(t[1..])
      case None => None
      case Some(n) => Some(if t[0] == '-' then -(n as int) else n)
    else
      match ParseDigits(t)
      case None => None
      case Some(n) => Some(n)
  }

  /**
   * Reading back what `str(n)` prints gives `n` exactly when `n` is within
   * the digit limit; beyond it `int()` raises ValueError.
   */
  lemma ParseIntOfIntToString(n: int)
    ensures ParseInt(IntToString(n)) == if WithinDigitLimit(n) then Some(n) else None
  {
    var m: nat := if n < 0 then -n else n;
    var d := NatToString(m);
    ParseDigitsOfNatToString(m);
    ParseIntOfDigits(d, n < 0);
    assert IntToString(n) == (if n < 0 then "-" + d else d);
  }

  /** `int()` of a digit string, optionally preceded by a minus sign, is the digit part's value with that sign. */
  lemma ParseIntOfDigits(d: string, negative: bool)
    requires |d| > 0 && IsDigit(d[0]) && NoSpace(d)
    ensures ParseInt(if negative then "-" + d else d) ==
      match ParseDigits(d)
      case None => None
      case Some(m) => Some(if negative then -(m as int) else m)
  {
    var s := if negative then "-" + d else d;
    if negative {
      NegativeNoSpace(d);
    }
    IntStripNoSpace(s);
    ParseSignedOfDigits(d, negative);
    assert ParseInt(s) == ParseSigned(s);
  }

  /** The sign-and-digits part of `int()` on text starting with a digit, optionally preceded by a minus sign. */
  lemma ParseSignedOfDigits(d: string, negative: bool)
    requires |d| > 0 && IsDigit(d[0])
    ensures ParseSigned(if negative then "-" + d else d) ==
      match ParseDigits(d)
      case None => None
      case Some(m) => Some(if negative then -(m as int) else m)
  {
    if negative {
      var s := "-" + d;
      assert s[0] == '-' && s[1..] == d;
    }
  }

  lemma NegativeNoSpace(d: string)
    requires NoSpace(d)
    ensures NoSpace("-" + d)
  {
    assert forall i :: 1 <= i < |d| + 1 ==> ("-" + d)[i] == d[i - 1];
  }

  /** `str(n)` has no whitespace in it. */
  lemma IntToStringNoSpace(n: int)
    ensures |IntToString(n)| > 0 && NoSpace(IntToString(n))
  {
    var m: nat := if n < 0 then -n else n;
    ParseDigitsOfNatToString(m);
    if n < 0 {
      NegativeNoSpace(NatToString(m));
    }
  }

  /** One whitespace character after a word is stripped away, and the word is kept. */
  lemma StripTrailingSpace(d: string, c: char)
    requires |d| > 0 && NoSpace(d) && IsSpace(c)
    ensures Strip(d + [c]) == d
  {
    var s := d + [c];
    assert !IsSpace(s[0]);
    assert StripLeading(s) == s;
    assert s[..|s| - 1] == d;
    assert !IsSpace(d[|d| - 1]);
    assert StripTrailing(s) == StripTrailing(d) == d;
  }

  /** The digits `str(m)` prints are read back by the digit part of `int()`, within the digit limit. */
  lemma ParseDigitsOfNatToString(m: nat)
    ensures ParseDigits(NatToString(m)) == if |NatToString(m)| <= MaxStrDigits then Some(m) else None
    ensures NoSpace(NatToString(m))
  {
    var d := NatToString(m);
    DigitsValueOfNatToString(m);
    assert DropUnderscores(d) == d;
    DigitsNoSpace(d);
  }

  lemma DigitsNoSpace(d: string)
    requires AllDigits(d)
    ensures NoSpace(d)
  {
    assert forall i :: 0 <= i < |d| ==> IsDigit(d[i]);
  }

  // ---------------------------------------------------------------------
  // Bytes
  // ---------------------------------------------------------------------

  /** `s.split(sep)` on bytes: the pieces between separators, empty pieces included. */
  function SplitOn(s: seq<byte>, sep: byte): (parts: seq<seq<byte>>)
    ensures |parts| >= 1
    ensures forall k :: 0 <= k < |parts| ==> sep !in parts[k]
  {
    if |s| == 0 then [[]]
    else
      var rest := SplitOn(s[1..], sep);
      if s[0] == sep then [[]] + rest
      else [[s[0]] + rest[0]] + rest[1..]
  }

  /** `sep.join(parts)`. */
  function Join(parts: seq<seq<byte>>, sep: byte): seq<byte>
    requires |parts| >= 1
  {
    if |parts| == 1 then parts[0] else parts[0] + [sep] + Join(parts[1..], sep)
  }

  /** Splitting on a separator and joining back gives the original bytes. */
  lemma {:induction false} JoinSplitOn(s: seq<byte>, sep: byte)
    ensures Join(SplitOn(s, sep), sep) == s
  {
    if |s| > 0 {
      var rest := SplitOn(s[1..], sep);
      JoinSplitOn(s[1..], sep);
      if s[0] != sep {
        if |rest| == 1 {
          assert s == [s[0]] + s[1..];
        } else {
          assert rest == [rest[0]] + rest[1..];
          assert s == [s[0]] + (rest[0] + [sep] + Join(rest[1..], sep));
        }
      }
    }
  }

  /** Splitting pieces that contain no separator, joined with it, gives the pieces back. */
  lemma {:induction false} SplitOnJoin(parts: seq<seq<byte>>, sep: byte)
    requires |parts| >= 1
    requires forall k :: 0 <= k < |parts| ==> sep !in parts[k]
    ensures SplitOn(Join(parts, sep), sep) == parts
  {
    if |parts| == 1 {
      SplitOnNoSep(parts[0], sep);
    } else {
      SplitOnJoin(parts[1..], sep);
      SplitOnAppend(parts[0], sep, Join(parts[1..], sep));
      assert parts == [parts[0]] + parts[1..];
    }
  }

  lemma {:induction false} SplitOnNoSep(s: seq<byte>, sep: byte)
    requires sep !in s
    ensures SplitOn(s, sep) == [s]
  {
    if |s| > 0 {
      SplitOnNoSep(s[1..], sep);
      assert s == [s[0]] + s[1..];
    }
  }

  lemma {:induction false} SplitOnAppend(a: seq<byte>, sep: byte, b: seq<byte>)
    requires sep !in a
    ensures SplitOn(a + [sep] + b, sep) == [a] + SplitOn(b, sep)
  {
    if |a| == 0 {
      assert a + [sep] + b == [sep] + b;
      assert ([sep] + b)[1..] == b;
    } else {
      assert (a + [sep] + b)[1..] == a[1..] + [sep] + b;
      SplitOnAppend(a[1..], sep, b);
      assert a == [a[0]] + a[1..];
    }
  }

  /**
   * `b.decode("utf-8", errors="replace")` for the ASCII range: every byte below
   * 128 becomes the character with that code, any other byte U+FFFD.
   */
  function Decode(b: seq<byte>): (s: string)
    ensures |s| == |b|
  {
    seq(|b|, i requires 0 <= i < |b| => if b[i] < 128 then b[i] as int as char else '\U{FFFD}')
  }

  predicate IsAscii(s: string) {
    forall i :: 0 <= i < |s| ==> s[i] as int < 128
  }

  /** The ASCII encoding of a string, as the kernel stores an argument string. */
  function Encode(s: string): (b: seq<byte>)
    requires IsAscii(s)
    ensures |b| == |s|
  {
    seq(|s|, i requires 0 <= i < |s| => s[i] as int as byte)
  }

  lemma DecodeEncode(s: string)
    requires IsAscii(s)
    ensures Decode(Encode(s)) == s
  {
  }
}
