/**
 Text shared by several components: decimal numerals and the two notions of
 white space, JavaScript's and Rust's.
 */
module Text {

  predicate IsDigit(c: char) { '0' <= c <= '9' }

  predicate AllDigits(s: string) { forall i :: 0 <= i < |s| ==> IsDigit(s[i]) }

  function DigitValue(c: char): (d: nat)
    requires IsDigit(c)
    ensures d < 10
  {
    (c - '0') as nat
  }

  function DigitChar(d: nat): (c: char)
    requires d < 10
    ensures IsDigit(c) && DigitValue(c) == d
  {
    '0' + d as char
  }

  // The decimal numeral of `n`, without leading zeros.
  function Print(n: nat): (s: string)
    ensures s != "" && AllDigits(s)
  {
    if n < 10 then [DigitChar(n)] else Print(n / 10) + [DigitChar(n % 10)]
  }

  // The value of a string of digits.
  function Parse(s: string): nat
    requires AllDigits(s)
  {
    if s == "" then 0 else Parse(s[..|s| - 1]) * 10 + DigitValue(s[|s| - 1])
  }

  function Power10(e: nat): nat {
    if e == 0 then 1 else 10 * Power10(e - 1)
  }

  /** A numeral is positional: its first digit counts that many times the power of ten of its place. */
  lemma {:induction false} ParseIsPositional(c: char, s: string)
    requires IsDigit(c) && AllDigits(s)
    ensures Parse([c] + s) == (c as int - '0' as int) * Power10(|s|) + Parse(s)
  {
    if s == "" {
      assert [c] + s == [c] && [c][..0] == "";
    } else {
      var last := |s| - 1;
      ParseIsPositional(c, s[..last]);
      assert ([c] + s)[..|s|] == [c] + s[..last];
      assert Power10(|s|) == 10 * Power10(last);
      Scale(c as int - '0' as int, Power10(last));
    }
  }

  lemma Scale(d: int, p: int)
    ensures d * p * 10 == d * (10 * p)
  {
  }

  // `0|[1-9]\d*`
  predicate IsCanonical(s: string) {
    s != "" && AllDigits(s) && (|s| == 1 || s[0] != '0')
  }

  lemma {:induction false} ParsePrint(n: nat)
    ensures Parse(Print(n)) == n
    ensures IsCanonical(Print(n))
    ensures n > 0 ==> Print(n)[0] != '0'
  {
    if n >= 10 {
      ParsePrint(n / 10);
      assert Print(n)[..|Print(n)| - 1] == Print(n / 10);
    }
  }

  lemma ParseDigit(s: string)
    requires |s| == 1 && AllDigits(s)
    ensures Parse(s) == DigitValue(s[0])
  {
    assert s[..0] == "";
  }

  lemma {:induction false} LeadingDigitCounts(s: string)
    requires s != "" && AllDigits(s) && s[0] != '0'
    ensures Parse(s) > 0
  {
    if |s| == 1 { ParseDigit(s); } else { LeadingDigitCounts(s[..|s| - 1]); }
  }

  lemma PrintAppend(n: nat, d: nat)
    requires n > 0 && d < 10
    ensures Print(n * 10 + d) == Print(n) + [DigitChar(d)]
  {
  }

  lemma {:induction false} PrintParse(s: string)
    requires IsCanonical(s)
    ensures Print(Parse(s)) == s
  {
    if |s| == 1 {
      ParseDigit(s);
    } else {
      var rest, c := s[..|s| - 1], s[|s| - 1];
      LeadingDigitCounts(rest);
      PrintParse(rest);
      PrintAppend(Parse(rest), DigitValue(c));
      assert s == rest + [c];
    }
  }

  // `\s` of a JavaScript regular expression, and what `String.prototype.trim` removes.
  predicate IsJsSpace(c: char) {
    '\t' <= c <= '\r' || c == ' ' || c == '\U{A0}' || c == '\U{1680}' || '\U{2000}' <= c <= '\U{200A}'
    || c in {'\U{2028}', '\U{2029}', '\U{202F}', '\U{205F}', '\U{3000}', '\U{FEFF}'}
  }

  // What `.` of a JavaScript regular expression does not match.
  predicate IsLineTerminator(c: char) { c in {'\n', '\r', '\U{2028}', '\U{2029}'} }

  // `char::is_whitespace`: the Unicode property White_Space.
  predicate IsRustSpace(c: char) {
    '\t' <= c <= '\r' || c == ' ' || c in {'\U{85}', '\U{A0}', '\U{1680}'} || '\U{2000}' <= c <= '\U{200A}'
    || c in {'\U{2028}', '\U{2029}', '\U{202F}', '\U{205F}', '\U{3000}'}
  }

  /** The two notions of white space differ in the next-line character and the byte order mark alone. */
  lemma SpacesDiffer(c: char)
    ensures IsJsSpace(c) <==> (IsRustSpace(c) && c != '\U{85}') || c == '\U{FEFF}'
  {
  }

  // Where the two parts of a text are.
  lemma Parts(a: string, b: string, s: string)
    requires s == a + b
    ensures s[..|a|] == a && s[|a|..] == b
  {
  }

  predicate Lacks(s: string, c: char) { forall k :: 0 <= k < |s| ==> s[k] != c }

  // `s.split(sep)` for a one-character separator.
  function Split(s: string, sep: char): (r: seq<string>)
    ensures r != [] && forall k :: 0 <= k < |r| ==> Lacks(r[k], sep)
  {
    if s == "" then [""]
    else
      var rest := Split(s[1..], sep);
      if s[0] == sep then [""] + rest else [[s[0]] + rest[0]] + rest[1..]
  }

  // `parts.join(sep)`
  function Join(parts: seq<string>, sep: char): string
    requires parts != []
  {
    if |parts| == 1 then parts[0] else parts[0] + [sep] + Join(parts[1..], sep)
  }

  lemma {:induction false} JoinSplit(s: string, sep: char)
    ensures Join(Split(s, sep), sep) == s
  {
    if s != "" {
      var rest := Split(s[1..], sep);
      JoinSplit(s[1..], sep);
      if s[0] == sep {
        assert ([""] + rest)[1..] == rest;
        assert s == "" + [sep] + s[1..];
      } else {
        var parts := [[s[0]] + rest[0]] + rest[1..];
        assert parts[1..] == rest[1..];
        assert s == [s[0]] + s[1..];
        assert |rest| > 1 ==> Join(parts, sep) == [s[0]] + (rest[0] + [sep] + Join(rest[1..], sep));
      }
    }
  }

  lemma {:induction false} SplitPrefix(part: string, s: string, sep: char)
    requires Lacks(part, sep)
    ensures Split(part + [sep] + s, sep) == [part] + Split(s, sep)
  {
    if part == "" {
      assert "" + [sep] + s == [sep] + s && ([sep] + s)[1..] == s;
    } else {
      SplitPrefix(part[1..], s, sep);
      assert (part + [sep] + s)[1..] == part[1..] + [sep] + s;
      assert [part[0]] + part[1..] == part;
    }
  }

  lemma {:induction false} SplitPlain(part: string, sep: char)
    requires Lacks(part, sep)
    ensures Split(part, sep) == [part]
  {
    if part != "" {
      SplitPlain(part[1..], sep);
      assert [part[0]] + part[1..] == part;
    }
  }

  lemma {:induction false} SplitJoin(parts: seq<string>, sep: char)
    requires parts != [] && forall k :: 0 <= k < |parts| ==> Lacks(parts[k], sep)
    ensures Split(Join(parts, sep), sep) == parts
  {
    if |parts| == 1 {
      SplitPlain(parts[0], sep);
      assert parts == [parts[0]];
    } else {
      SplitJoin(parts[1..], sep);
      SplitPrefix(parts[0], Join(parts[1..], sep), sep);
      assert parts == [parts[0]] + parts[1..];
    }
  }
}
