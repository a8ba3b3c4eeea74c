/**
 The lockfile rewriter of the release script: find the workspace blocks of a
 `bun.lock` text by brace depth, and replace only the direct "version" entry of
 each requested block.
 */
module Lockfile {
  import opened Text
  import opened Values

  datatype Error =
    | MissingSection
    | WorkspaceNotFound(dir: string)
    | NoVersionEntry(dir: string)
    | WrongVersion(dir: string, found: string)

  datatype Block = Block(start: nat, end: nat)

  // The three groups of VERSION_LINE_RE.
  datatype VersionEntry = VersionEntry(indent: string, version: string, comma: string)

  const ROOT_WORKSPACE := ""

  // ----- The regular expressions, one line at a time -----

  // `\s*` from position i.
  function SkipSpace(s: string, i: nat): (j: nat)
    requires i <= |s|
    ensures i <= j <= |s|
    decreases |s| - i
  {
    if i < |s| && IsJsSpace(s[i]) then SkipSpace(s, i + 1) else i
  }

  predicate AllSpace(s: string, i: nat, j: nat)
    requires j <= |s|
  {
    forall k :: i <= k < j ==> IsJsSpace(s[k])
  }

  lemma {:induction false} SkipsOnlySpace(s: string, i: nat)
    requires i <= |s|
    ensures AllSpace(s, i, SkipSpace(s, i))
    decreases |s| - i
  {
    if i < |s| && IsJsSpace(s[i]) { SkipsOnlySpace(s, i + 1); }
  }

  // The closing quote of `(?:[^"\\]|\\.)*"`, matched from position i.
  function StringEnd(s: string, i: nat): (r: Option<nat>)
    requires i <= |s|
    ensures r.Some? ==> i <= r.value < |s| && s[r.value] == '"'
    decreases |s| - i
  {
    if i == |s| then None
    else if s[i] == '"' then Some(i)
    else if s[i] != '\\' then StringEnd(s, i + 1)
    else if i + 1 < |s| && !IsLineTerminator(s[i + 1]) then StringEnd(s, i + 2)
    else None
  }

  // `line.replace(/"(?:[^"\\]|\\.)*"/g, '""')`, from position i.
  function StripStrings(s: string, i: nat): string
    requires i <= |s|
    decreases |s| - i
  {
    if i == |s| then ""
    else if s[i] == '"' && StringEnd(s, i + 1).Some? then "\"\"" + StripStrings(s, StringEnd(s, i + 1).value + 1)
    else [s[i]] + StripStrings(s, i + 1)
  }

  // `^\s*"((?:[^"\\]|\\.)*)"\s*:\s*\{\s*$`: the key that opens an object.
  function OpenKey(line: string): Option<string> {
    var i := SkipSpace(line, 0);
    if i == |line| || line[i] != '"' || StringEnd(line, i + 1).None? then None
    else
      var e := StringEnd(line, i + 1).value;
      if OpensObject(line, e + 1) then Some(line[i + 1..e]) else None
  }

  // `\s*:\s*\{\s*$` from position p.
  predicate OpensObject(line: string, p: nat)
    requires p <= |line|
  {
    var j := SkipSpace(line, p);
    j < |line| && line[j] == ':' &&
    var k := SkipSpace(line, j + 1);
    k < |line| && line[k] == '{' && SkipSpace(line, k + 1) == |line|
  }

  // `[^"]*"` from position i.
  function NextQuote(s: string, i: nat): (r: Option<nat>)
    requires i <= |s|
    ensures r.Some? ==> i <= r.value < |s| && s[r.value] == '"'
    decreases |s| - i
  {
    if i == |s| then None else if s[i] == '"' then Some(i) else NextQuote(s, i + 1)
  }

  const VERSION_KEY := "\"version\""

  // `^(\s*)"version"\s*:\s*"([^"]*)"(,?)\s*$`
  function MatchVersion(line: string): Option<VersionEntry> {
    var i := SkipSpace(line, 0);
    if i + 9 > |line| || line[i..i + 9] != VERSION_KEY then None
    else
      var j := SkipSpace(line, i + 9);
      if j == |line| || line[j] != ':' then None else MatchValue(line, i, SkipSpace(line, j + 1))
  }

  // The rest of the match, from the opening quote of the value at position k.
  function MatchValue(line: string, i: nat, k: nat): Option<VersionEntry>
    requires i <= k <= |line|
  {
    if k == |line| || line[k] != '"' || NextQuote(line, k + 1).None? then None
    else
      var q := NextQuote(line, k + 1).value;
      var comma := if q + 1 < |line| && line[q + 1] == ',' then "," else "";
      if SkipSpace(line, q + 1 + |comma|) == |line|
      then Some(VersionEntry(line[..i], line[k + 1..q], comma)) else None
  }

  // The replacement line.
  function Render(entry: VersionEntry, version: string): string {
    entry.indent + VERSION_KEY + ": \"" + version + "\"" + entry.comma
  }

  // ----- Brace depth -----

  function CountBraces(s: string): int {
    if s == "" then 0
    else CountBraces(s[..|s| - 1]) + BraceValue(s[|s| - 1])
  }

  function BraceValue(c: char): int {
    if c == '{' then 1 else if c == '}' then -1 else 0
  }

  function LineDelta(line: string): int {
    CountBraces(StripStrings(line, 0))
  }

  method BraceDepthDelta(line: string) returns (delta: int)
    ensures delta == LineDelta(line)
  {
    var withoutStrings := StripStrings(line, 0);
    delta := 0;
    for i := 0 to |withoutStrings|
      invariant delta == CountBraces(withoutStrings[..i])
    {
      var c := withoutStrings[i];
      if c == '{' {
        delta := delta + 1;
      } else if c == '}' {
        delta := delta - 1;
      }
      assert withoutStrings[..i + 1][..i] == withoutStrings[..i];
    }
    assert withoutStrings[..|withoutStrings|] == withoutStrings;
  }

  // Depth reached before line `end`, counting from line `start`.
  function Depth(lines: seq<string>, start: nat, end: nat): int
    requires end <= |lines|
    decreases end
  {
    if end <= start then 0 else Depth(lines, start, end - 1) + LineDelta(lines[end - 1])
  }

  // ----- The brace count without building the stripped line -----

  function DeltaFrom(s: string, i: nat): int
    requires i <= |s|
    decreases |s| - i
  {
    if i == |s| then 0
    else if s[i] == '"' && StringEnd(s, i + 1).Some? then DeltaFrom(s, StringEnd(s, i + 1).value + 1)
    else BraceValue(s[i]) + DeltaFrom(s, i + 1)
  }

  lemma {:induction false} CountConcat(s: string, t: string)
    ensures CountBraces(s + t) == CountBraces(s) + CountBraces(t)
  {
    if t == "" {
      assert s + t == s;
    } else {
      var last := |t| - 1;
      CountConcat(s, t[..last]);
      assert (s + t)[..|s + t| - 1] == s + t[..last];
    }
  }

  lemma {:induction false} DeltaIsStripped(s: string, i: nat)
    requires i <= |s|
    ensures CountBraces(StripStrings(s, i)) == DeltaFrom(s, i)
    decreases |s| - i
  {
    if i < |s| {
      if s[i] == '"' && StringEnd(s, i + 1).Some? {
        var next := StringEnd(s, i + 1).value + 1;
        DeltaIsStripped(s, next);
        CountConcat("\"\"", StripStrings(s, next));
        CountOne('"', '"');
      } else {
        DeltaIsStripped(s, i + 1);
        CountConcat([s[i]], StripStrings(s, i + 1));
        CountOne(s[i], '"');
      }
    }
  }

  lemma CountOne(c: char, d: char)
    ensures CountBraces([c]) == BraceValue(c)
    ensures CountBraces([c, d]) == BraceValue(c) + BraceValue(d)
  {
    assert [c][..0] == "" && [c, d][..1] == [c];
  }

  predicate IsPlain(c: char) { c != '"' && c != '{' && c != '}' }

  predicate Plain(s: string, i: nat, j: nat)
    requires j <= |s|
  {
    forall k :: i <= k < j ==> IsPlain(s[k])
  }

  lemma {:induction false} PlainDelta(s: string, i: nat, j: nat)
    requires i <= j <= |s| && Plain(s, i, j)
    ensures DeltaFrom(s, i) == DeltaFrom(s, j)
    decreases j - i
  {
    if i < j {
      PlainDelta(s, i + 1, j);
    }
  }

  // A line that opens an object raises the depth by one.
  lemma OpeningRaisesDepth(line: string)
    ensures OpenKey(line).Some? ==> LineDelta(line) == 1
  {
    if OpenKey(line).Some? {
      var i, e, j, k := OpenParts(line);
      OpeningDelta(line, i, e, j, k);
    }
  }

  lemma ObjectParts(line: string, p: nat) returns (j: nat, k: nat)
    requires p <= |line| && OpensObject(line, p)
    ensures p <= j < k < |line| && line[j] == ':' && line[k] == '{'
    ensures AllSpace(line, p, j) && AllSpace(line, j + 1, k) && AllSpace(line, k + 1, |line|)
  {
    j := SkipSpace(line, p);
    k := SkipSpace(line, j + 1);
    SkipsOnlySpace(line, p);
    SkipsOnlySpace(line, j + 1);
    SkipsOnlySpace(line, k + 1);
  }

  lemma OpenParts(line: string) returns (i: nat, e: nat, j: nat, k: nat)
    requires OpenKey(line).Some?
    ensures i < e < j < k < |line| && OpenKey(line) == Some(line[i + 1..e])
    ensures line[i] == '"' && StringEnd(line, i + 1) == Some(e) && line[j] == ':' && line[k] == '{'
    ensures AllSpace(line, 0, i) && AllSpace(line, e + 1, j) && AllSpace(line, j + 1, k)
        && AllSpace(line, k + 1, |line|)
  {
    i := SkipSpace(line, 0);
    SkipsOnlySpace(line, 0);
    e := StringEnd(line, i + 1).value;
    j, k := ObjectParts(line, e + 1);
  }

  lemma OpeningDelta(line: string, i: nat, e: nat, j: nat, k: nat)
    requires i < e < j < k < |line|
    requires line[i] == '"' && StringEnd(line, i + 1) == Some(e) && line[j] == ':' && line[k] == '{'
    requires AllSpace(line, 0, i) && AllSpace(line, e + 1, j) && AllSpace(line, j + 1, k)
        && AllSpace(line, k + 1, |line|)
    ensures LineDelta(line) == 1
  {
    SpaceIsPlain(line, 0, i);
    SpaceIsPlain(line, e + 1, j);
    SpaceIsPlain(line, j + 1, k);
    SpaceIsPlain(line, k + 1, |line|);
    DeltaIsStripped(line, 0);
    PlainDelta(line, 0, i);
    StringDelta(line, i, e);
    PlainDelta(line, e + 1, k);
    OneBrace(line, k);
    PlainDelta(line, k + 1, |line|);
  }

  lemma SpaceIsPlain(s: string, i: nat, j: nat)
    requires i <= j <= |s| && AllSpace(s, i, j)
    ensures Plain(s, i, j)
  {
  }

  lemma OneBrace(s: string, k: nat)
    requires k < |s| && s[k] == '{'
    ensures DeltaFrom(s, k) == 1 + DeltaFrom(s, k + 1)
  {
  }

  // ----- What the line patterns accept -----

  // `(?:[^"\\]|\\.)*`: ordinary characters and escape pairs.
  ghost predicate IsStringBody(s: string) {
    s == ""
    || (s[0] != '"' && s[0] != '\\' && IsStringBody(s[1..]))
    || (s[0] == '\\' && |s| > 1 && !IsLineTerminator(s[1]) && IsStringBody(s[2..]))
  }

  ghost predicate IsSpace(s: string) { forall k :: 0 <= k < |s| ==> IsJsSpace(s[k]) }

  // `^\s*"key"\s*:\s*\{\s*$`
  ghost predicate IsOpening(line: string, key: string) {
    IsStringBody(key) && exists a, b, c, d :: IsOpeningOf(line, key, a, b, c, d)
  }

  ghost predicate IsOpeningOf(line: string, key: string, a: string, b: string, c: string, d: string) {
    IsSpace(a) && IsSpace(b) && IsSpace(c) && IsSpace(d)
    && line == a + "\"" + key + "\"" + b + ":" + c + "{" + d
  }

  lemma {:induction false} StringEndMeaning(s: string, i: nat, e: nat)
    requires i <= e < |s|
    ensures StringEnd(s, i) == Some(e) <==> s[e] == '"' && IsStringBody(s[i..e])
    decreases |s| - i
  {
    if i < e {
      assert s[i..e][0] == s[i] && s[i..e][1..] == s[i + 1..e];
      if s[i] == '\\' && i + 1 < e {
        assert s[i..e][1] == s[i + 1] && s[i..e][2..] == s[i + 2..e];
        if !IsLineTerminator(s[i + 1]) { StringEndMeaning(s, i + 2, e); }
      } else if s[i] != '"' && s[i] != '\\' {
        StringEndMeaning(s, i + 1, e);
      }
    } else {
      assert s[i..e] == "";
    }
  }

  lemma OpeningParts(line: string, key: string)
    requires OpenKey(line) == Some(key)
    ensures IsOpening(line, key)
  {
    var i, e, j, k := OpenParts(line);
    StringEndMeaning(line, i + 1, e);
    PiecesOfOpening(line, key, i, e, j, k);
  }

  lemma PiecesOfOpening(line: string, key: string, i: nat, e: nat, j: nat, k: nat)
    requires i < e < j < k < |line| && line[i] == line[e] == '"' && line[j] == ':' && line[k] == '{'
    requires AllSpace(line, 0, i) && AllSpace(line, e + 1, j) && AllSpace(line, j + 1, k)
    requires AllSpace(line, k + 1, |line|) && line[i + 1..e] == key && IsStringBody(key)
    ensures IsOpening(line, key)
  {
    NineParts(line, i, e, j, k);
    SpaceOf(line, 0, i);
    SpaceOf(line, e + 1, j);
    SpaceOf(line, j + 1, k);
    SpaceOf(line, k + 1, |line|);
    assert line[0..i] == line[..i] && line[k + 1..|line|] == line[k + 1..];
    assert IsOpeningOf(line, key, line[..i], line[e + 1..j], line[j + 1..k], line[k + 1..]);
  }

  lemma SpaceOf(s: string, i: nat, j: nat)
    requires i <= j <= |s| && AllSpace(s, i, j)
    ensures IsSpace(s[i..j])
  {
  }

  lemma NineParts(s: string, i: nat, e: nat, j: nat, k: nat)
    requires i < e < j < k < |s| && s[i] == s[e] == '"' && s[j] == ':' && s[k] == '{'
    ensures s == s[..i] + "\"" + s[i + 1..e] + "\"" + s[e + 1..j] + ":" + s[j + 1..k] + "{" + s[k + 1..]
  {
    assert s == s[..i] + s[i..i + 1] + s[i + 1..e] + s[e..e + 1] + s[e + 1..j] + s[j..j + 1] + s[j + 1..k]
             + s[k..k + 1] + s[k + 1..];
    assert s[i..i + 1] == "\"" && s[e..e + 1] == "\"" && s[j..j + 1] == ":" && s[k..k + 1] == "{";
  }

  lemma OpeningIsFound(line: string, key: string, a: string, b: string, c: string, d: string)
    requires IsStringBody(key) && IsOpeningOf(line, key, a, b, c, d)
    ensures OpenKey(line) == Some(key)
  {
    var i := |a|;
    var e := i + 1 + |key|;
    var j := e + 1 + |b|;
    var k := j + 1 + |c|;
    WhereParts(line, a, key, b, c, d);
    PiecesOpen(line, key, i, e, j, k);
  }

  lemma PiecesOpen(line: string, key: string, i: nat, e: nat, j: nat, k: nat)
    requires i < e < j < k < |line| && IsStringBody(key)
    requires IsSpace(line[..i]) && line[i..i + 1] == "\"" && line[i + 1..e] == key && line[e..e + 1] == "\""
    requires IsSpace(line[e + 1..j]) && line[j..j + 1] == ":" && IsSpace(line[j + 1..k]) && line[k..k + 1] == "{"
    requires IsSpace(line[k + 1..])
    ensures OpenKey(line) == Some(key)
  {
    CharacterAt(line, i, '"');
    CharacterAt(line, e, '"');
    CharacterAt(line, j, ':');
    CharacterAt(line, k, '{');
    SpaceAt(line, 0, i, line[..i]);
    SpaceAt(line, e + 1, j, line[e + 1..j]);
    SpaceAt(line, j + 1, k, line[j + 1..k]);
    SpaceAt(line, k + 1, |line|, line[k + 1..]);
    StringEndMeaning(line, i + 1, e);
    OpensAt(line, i, e, j, k);
  }

  lemma OpensAt(line: string, i: nat, e: nat, j: nat, k: nat)
    requires i < e < j < k < |line|
    requires line[i] == '"' && StringEnd(line, i + 1) == Some(e) && line[j] == ':' && line[k] == '{'
    requires AllSpace(line, 0, i) && AllSpace(line, e + 1, j) && AllSpace(line, j + 1, k)
    requires AllSpace(line, k + 1, |line|)
    ensures OpenKey(line) == Some(line[i + 1..e])
  {
    SkipSpaceStops(line, 0, i);
    ObjectAt(line, e + 1, j, k);
  }

  lemma ObjectAt(line: string, p: nat, j: nat, k: nat)
    requires p <= j < k < |line| && line[j] == ':' && line[k] == '{'
    requires AllSpace(line, p, j) && AllSpace(line, j + 1, k) && AllSpace(line, k + 1, |line|)
    ensures OpensObject(line, p)
  {
    SkipSpaceStops(line, p, j);
    SkipSpaceStops(line, j + 1, k);
    SkipSpaceStops(line, k + 1, |line|);
  }

  // A beginning of `s` without its last part.
  lemma LastPart(p: string, x: string, q: string, s: string)
    requires q == p + x && q <= s
    ensures p <= s && |q| == |p| + |x| && s[|p|..|q|] == x
  {
  }

  lemma WhereParts(s: string, a: string, key: string, b: string, c: string, d: string)
    requires s == a + "\"" + key + "\"" + b + ":" + c + "{" + d
    ensures var i := |a|; var e := i + 1 + |key|; var j := e + 1 + |b|; var k := j + 1 + |c|;
      && k < |s| && s[..i] == a && s[i..i + 1] == "\"" && s[i + 1..e] == key && s[e..e + 1] == "\""
      && s[e + 1..j] == b && s[j..j + 1] == ":" && s[j + 1..k] == c && s[k..k + 1] == "{" && s[k + 1..] == d
  {
    var p1 := a + "\"";
    var p2 := p1 + key;
    var p3 := p2 + "\"";
    var p4 := p3 + b;
    var p5 := p4 + ":";
    var p6 := p5 + c;
    var p7 := p6 + "{";
    LastPart(p7, d, s, s);
    LastPart(p6, "{", p7, s);
    LastPart(p5, c, p6, s);
    LastPart(p4, ":", p5, s);
    LastPart(p3, b, p4, s);
    LastPart(p2, "\"", p3, s);
    LastPart(p1, key, p2, s);
    LastPart(a, "\"", p1, s);
  }

  lemma SpaceAt(s: string, i: nat, j: nat, blank: string)
    requires i <= j <= |s| && s[i..j] == blank && IsSpace(blank)
    ensures AllSpace(s, i, j)
  {
    assert forall m :: i <= m < j ==> s[m] == blank[m - i];
  }

  lemma CharacterAt(s: string, i: nat, c: char)
    requires i < |s| && s[i..i + 1] == [c]
    ensures s[i] == c
  {
    assert s[i] == s[i..i + 1][0];
  }

  /** A line opens an object under a key exactly when it has that shape, with any spaces and any key. */
  lemma OpenKeyMeaning(line: string, key: string)
    ensures OpenKey(line) == Some(key) <==> IsOpening(line, key)
  {
    if OpenKey(line) == Some(key) { OpeningParts(line, key); }
    forall a, b, c, d | IsStringBody(key) && IsOpeningOf(line, key, a, b, c, d) ensures OpenKey(line) == Some(key) {
      OpeningIsFound(line, key, a, b, c, d);
    }
  }

  // ----- What the brace count counts -----

  // A line read from left to right: string literals, and single characters outside of them.
  datatype Piece = Literal(body: string) | Other(c: char)

  function TextOf(pieces: seq<Piece>): string {
    if pieces == [] then ""
    else
      match pieces[0]
      case Literal(body) => "\"" + body + "\"" + TextOf(pieces[1..])
      case Other(c) => [c] + TextOf(pieces[1..])
  }

  ghost predicate StartsLiteral(s: string) {
    exists body, rest :: IsStringBody(body) && s == "\"" + body + "\"" + rest
  }

  // A quote stands alone only where no literal starts.
  ghost predicate IsReading(pieces: seq<Piece>) {
    pieces == []
    || ((match pieces[0]
         case Literal(body) => IsStringBody(body)
         case Other(c) => c == '"' ==> !StartsLiteral(TextOf(pieces)))
        && IsReading(pieces[1..]))
  }

  // Opening minus closing braces outside of literals.
  function BraceSum(pieces: seq<Piece>): int {
    if pieces == [] then 0
    else (if pieces[0] == Other('{') then 1 else if pieces[0] == Other('}') then -1 else 0) + BraceSum(pieces[1..])
  }

  lemma LiteralAt(s: string, i: nat, body: string, rest: string)
    requires i <= |s| && s[i..] == "\"" + body + "\"" + rest && IsStringBody(body)
    ensures i + 1 + |body| < |s| && s[i] == '"' && StringEnd(s, i + 1) == Some(i + 1 + |body|)
    ensures s[i + 2 + |body|..] == rest
  {
    var e := i + 1 + |body|;
    LiteralParts(s[i..], body, rest);
    assert s[i] == s[i..][0] && s[e] == s[i..][1 + |body|];
    assert s[i + 1..e] == s[i..][1..1 + |body|] && s[e + 1..] == s[i..][2 + |body|..];
    StringEndMeaning(s, i + 1, e);
  }

  lemma LiteralParts(t: string, body: string, rest: string)
    requires t == "\"" + body + "\"" + rest
    ensures 1 + |body| < |t| && t[0] == t[1 + |body|] == '"'
    ensures t[1..1 + |body|] == body && t[2 + |body|..] == rest
  {
    LastPart("\"" + body + "\"", rest, t, t);
    LastPart("\"" + body, "\"", "\"" + body + "\"", t);
    LastPart("\"", body, "\"" + body, t);
    CharacterAt(t, 1 + |body|, '"');
  }

  lemma LiteralStarts(s: string, i: nat, e: nat)
    requires i < e < |s| && s[i] == s[e] == '"' && IsStringBody(s[i + 1..e])
    ensures StartsLiteral(s[i..])
  {
    var body, rest := s[i + 1..e], s[e + 1..];
    assert s[i..] == s[i..i + 1] + body + s[e..e + 1] + rest;
    assert s[i..i + 1] == "\"" && s[e..e + 1] == "\"";
    assert s[i..] == "\"" + body + "\"" + rest;
  }

  lemma NoLiteralAt(s: string, i: nat)
    requires i < |s| && s[i] == '"'
    ensures StringEnd(s, i + 1).Some? <==> StartsLiteral(s[i..])
  {
    if StringEnd(s, i + 1).Some? {
      StringEndMeaning(s, i + 1, StringEnd(s, i + 1).value);
      LiteralStarts(s, i, StringEnd(s, i + 1).value);
    }
    if StartsLiteral(s[i..]) {
      var body, rest :| IsStringBody(body) && s[i..] == "\"" + body + "\"" + rest;
      LiteralAt(s, i, body, rest);
    }
  }

  lemma {:induction false} DeltaOfReading(s: string, i: nat, pieces: seq<Piece>)
    requires i <= |s| && s[i..] == TextOf(pieces) && IsReading(pieces)
    ensures DeltaFrom(s, i) == BraceSum(pieces)
    decreases |pieces|
  {
    if pieces != [] {
      match pieces[0]
      case Literal(body) =>
        ReadLiteral(s, i, body, TextOf(pieces[1..]));
        DeltaOfReading(s, i + 2 + |body|, pieces[1..]);
      case Other(c) =>
        ReadOther(s, i, c, TextOf(pieces[1..]));
        DeltaOfReading(s, i + 1, pieces[1..]);
    }
  }

  lemma ReadLiteral(s: string, i: nat, body: string, rest: string)
    requires i <= |s| && s[i..] == "\"" + body + "\"" + rest && IsStringBody(body)
    ensures i + 2 + |body| <= |s| && s[i + 2 + |body|..] == rest
    ensures DeltaFrom(s, i) == DeltaFrom(s, i + 2 + |body|)
  {
    LiteralAt(s, i, body, rest);
  }

  lemma ReadOther(s: string, i: nat, c: char, rest: string)
    requires i <= |s| && s[i..] == [c] + rest && (c == '"' ==> !StartsLiteral(s[i..]))
    ensures i < |s| && s[i + 1..] == rest && DeltaFrom(s, i) == BraceValue(c) + DeltaFrom(s, i + 1)
  {
    assert s[i] == s[i..][0] && s[i + 1..] == s[i..][1..];
    if c == '"' { NoLiteralAt(s, i); }
  }

  lemma {:induction false} ReadingExists(s: string, i: nat) returns (pieces: seq<Piece>)
    requires i <= |s|
    ensures IsReading(pieces) && TextOf(pieces) == s[i..]
    decreases |s| - i
  {
    if i == |s| {
      pieces := [];
    } else if s[i] == '"' && StringEnd(s, i + 1).Some? {
      var e := StringEnd(s, i + 1).value;
      StringEndMeaning(s, i + 1, e);
      var rest := ReadingExists(s, e + 1);
      pieces := [Literal(s[i + 1..e])] + rest;
      assert pieces[1..] == rest && s[i..] == "\"" + s[i + 1..e] + "\"" + s[e + 1..];
    } else {
      var rest := ReadingExists(s, i + 1);
      pieces := [Other(s[i])] + rest;
      assert pieces[1..] == rest && s[i..] == [s[i]] + s[i + 1..];
      if s[i] == '"' { NoLiteralAt(s, i); }
    }
  }

  /**
   The depth change of a line is its opening minus its closing braces outside of
   string literals, literals being found from left to right; every line has such
   a reading.
   */
  lemma LineDeltaMeaning(line: string)
    ensures exists pieces :: IsReading(pieces) && TextOf(pieces) == line
    ensures forall pieces :: IsReading(pieces) && TextOf(pieces) == line ==> LineDelta(line) == BraceSum(pieces)
  {
    var pieces := ReadingExists(line, 0);
    assert line[0..] == line;
    DeltaIsStripped(line, 0);
    forall reading | IsReading(reading) && TextOf(reading) == line ensures LineDelta(line) == BraceSum(reading) {
      DeltaOfReading(line, 0, reading);
    }
  }

  // ----- Workspace blocks -----

  predicate IsHeader(line: string) { OpenKey(line) == Some("workspaces") }

  // `lines.findIndex(...)`
  predicate IsSection(lines: seq<string>, section: nat) {
    section < |lines| && IsHeader(lines[section]) && forall k :: 0 <= k < section ==> !IsHeader(lines[k])
  }

  /**
   The declarative meaning of a block: it opens at depth 1 with the key `dir`,
   stays at depth 2 or more until the line that brings the depth back to 1, and
   the section is still open everywhere before.
   */
  ghost predicate IsBlock(lines: seq<string>, section: nat, dir: string, start: nat, end: nat) {
    && section < start < end < |lines|
    && Depth(lines, section, start) == 1 && OpenKey(lines[start]) == Some(dir)
    && (forall k :: section < k <= start ==> Depth(lines, section, k) > 0)
    && (forall k :: start < k <= end ==> Depth(lines, section, k) >= 2)
    && Depth(lines, section, end + 1) == 1
  }

  // Every block key, each with its last block.
  ghost predicate IsBlockMap(lines: seq<string>, section: nat, blocks: map<string, Block>) {
    && IsSection(lines, section)
    && (forall dir :: dir in blocks ==> IsBlock(lines, section, dir, blocks[dir].start, blocks[dir].end))
    && (forall dir, start: nat, end: nat :: IsBlock(lines, section, dir, start, end) ==>
          dir in blocks && start <= blocks[dir].start)
  }

  // What the loop has found once it has read the lines before `upTo`.
  ghost predicate BlocksSoFar(lines: seq<string>, section: nat, blocks: map<string, Block>, upTo: nat) {
    && (forall dir :: dir in blocks ==>
          IsBlock(lines, section, dir, blocks[dir].start, blocks[dir].end) && blocks[dir].end < upTo)
    && (forall dir, start: nat, end: nat :: IsBlock(lines, section, dir, start, end) && end < upTo ==>
          dir in blocks && start <= blocks[dir].start)
  }

  // A block opened at `start` and not closed before line `i`.
  ghost predicate OpenAt(lines: seq<string>, section: nat, start: nat, i: nat) {
    && section < start < i <= |lines|
    && Depth(lines, section, start) == 1 && OpenKey(lines[start]).Some?
    && forall k :: start < k <= i ==> Depth(lines, section, k) >= 2
  }

  // `current` describes the block that is open before line `i`, if there is one.
  ghost predicate InBlock(lines: seq<string>, section: nat, current: Option<(string, nat)>, i: nat)
    requires i <= |lines|
  {
    && (forall k :: section < k <= i ==> Depth(lines, section, k) > 0)
    && match current
       case None => forall start: nat :: !OpenAt(lines, section, start, i)
       case Some((dir, start)) => OpenAt(lines, section, start, i) && OpenKey(lines[start]) == Some(dir)
  }

  lemma CloseBlock(lines: seq<string>, section: nat, blocks: map<string, Block>, dir: string, start: nat, i: nat)
    requires i < |lines|
    requires InBlock(lines, section, Some((dir, start)), i) && BlocksSoFar(lines, section, blocks, i)
    requires Depth(lines, section, i + 1) == 1
    ensures BlocksSoFar(lines, section, blocks[dir := Block(start, i)], i + 1)
  {
    assert IsBlock(lines, section, dir, start, i);
    var blocks' := blocks[dir := Block(start, i)];
    forall d, s: nat, e: nat | IsBlock(lines, section, d, s, e) && e < i + 1
      ensures d in blocks' && s <= blocks'[d].start
    {
      if e == i {
        assert s == start;
      }
    }
  }

  lemma NoBlockCloses(lines: seq<string>, section: nat, blocks: map<string, Block>, i: nat)
    requires i < |lines| && BlocksSoFar(lines, section, blocks, i)
    requires Depth(lines, section, i + 1) != 1 || forall start: nat :: !OpenAt(lines, section, start, i)
    ensures BlocksSoFar(lines, section, blocks, i + 1)
  {
    forall d, s: nat, e: nat | IsBlock(lines, section, d, s, e) && e < i + 1 ensures e < i {
      var open := OpenAt(lines, section, s, i);
    }
  }

  lemma OpenInsideBlock(lines: seq<string>, section: nat, dir: string, start: nat, end: nat, i: nat)
    requires IsBlock(lines, section, dir, start, end) && section < i < |lines|
    ensures i <= end ==> Depth(lines, section, i) > 0
  {
  }

  lemma ScanIsOver(lines: seq<string>, section: nat, blocks: map<string, Block>, i: nat)
    requires IsSection(lines, section) && section < i <= |lines| && BlocksSoFar(lines, section, blocks, i)
    requires i == |lines| || Depth(lines, section, i) <= 0
    ensures IsBlockMap(lines, section, blocks)
  {
    forall d, s: nat, e: nat | IsBlock(lines, section, d, s, e) ensures e < i {
      if i < |lines| { OpenInsideBlock(lines, section, d, s, e, i); }
    }
  }

  // `current` after line `i` was examined for an opening key.
  function Opened(current: Option<(string, nat)>, depth: int, line: string, i: nat): Option<(string, nat)> {
    if current.None? && depth == 1 && OpenKey(line).Some? then Some((OpenKey(line).value, i)) else current
  }

  lemma Advance(lines: seq<string>, section: nat, current: Option<(string, nat)>, i: nat)
    requires section <= i < |lines| && InBlock(lines, section, current, i)
    requires Depth(lines, section, i + 1) > 0
    ensures var current' := Opened(current, Depth(lines, section, i), lines[i], i);
      if current'.Some? && Depth(lines, section, i + 1) == 1 && i > current'.value.1
      then InBlock(lines, section, current', i) && InBlock(lines, section, None, i + 1)
      else InBlock(lines, section, current', i + 1)
  {
    OpeningRaisesDepth(lines[i]);
    var current' := Opened(current, Depth(lines, section, i), lines[i], i);
    if current'.Some? {
      var start := current'.value.1;
      assert OpenKey(lines[start]) == Some(current'.value.0) && Depth(lines, section, start) == 1;
      assert start > section;
      if Depth(lines, section, i + 1) != 1 {
        assert OpenAt(lines, section, start, i + 1);
      }
    } else {
      NothingOpens(lines, section, i, i + 1);
    }
  }

  lemma NothingOpens(lines: seq<string>, section: nat, i: nat, next: nat)
    requires section <= i < |lines| && next == i + 1
    requires InBlock(lines, section, None, i)
    requires Depth(lines, section, i) != 1 || OpenKey(lines[i]).None?
    ensures forall start: nat :: !OpenAt(lines, section, start, next)
  {
    forall start: nat | OpenAt(lines, section, start, next) && start < i ensures OpenAt(lines, section, start, i) {
    }
  }

  // The open block ends with line `i`, after which the depth is `depth`.
  predicate Closes(current: Option<(string, nat)>, depth: int, i: nat) {
    current.Some? && depth == 1 && i > current.value.1
  }

  // One turn of the loop.
  lemma OneLine(lines: seq<string>, section: nat, blocks: map<string, Block>, before: Option<(string, nat)>, i: nat,
                current: Option<(string, nat)>, depth: int)
    requires section <= i < |lines| && InBlock(lines, section, before, i) && BlocksSoFar(lines, section, blocks, i)
    requires current == Opened(before, Depth(lines, section, i), lines[i], i) && depth == Depth(lines, section, i + 1)
    ensures Closes(current, depth, i) ==>
              && BlocksSoFar(lines, section, blocks[current.value.0 := Block(current.value.1, i)], i + 1)
              && InBlock(lines, section, None, i + 1)
    ensures !Closes(current, depth, i) ==>
              BlocksSoFar(lines, section, blocks, i + 1) && (depth > 0 ==> InBlock(lines, section, current, i + 1))
  {
    if depth > 0 { Advance(lines, section, before, i); }
    if Closes(current, depth, i) {
      CloseBlock(lines, section, blocks, current.value.0, current.value.1, i);
    } else {
      NoBlockCloses(lines, section, blocks, i);
    }
  }

  // `lines.findIndex(...)`, with the number of lines for -1.
  method FindSection(lines: seq<string>) returns (section: nat)
    ensures section <= |lines|
    ensures forall k :: 0 <= k < section ==> !IsHeader(lines[k])
    ensures section < |lines| ==> IsSection(lines, section)
  {
    section := 0;
    while section < |lines| && !IsHeader(lines[section])
      invariant section <= |lines|
      invariant forall k :: 0 <= k < section ==> !IsHeader(lines[k])
    {
      section := section + 1;
    }
  }

  method ScanBlocks(lines: seq<string>, section: nat) returns (blocks: map<string, Block>)
    requires IsSection(lines, section)
    ensures IsBlockMap(lines, section, blocks)
  {
    blocks := map[];
    var depth := 0;
    var current: Option<(string, nat)> := None;
    var i := section;
    while i < |lines|
      invariant section <= i <= |lines|
      invariant depth == Depth(lines, section, i)
      invariant InBlock(lines, section, current, i)
      invariant BlocksSoFar(lines, section, blocks, i)
    {
      ghost var before := current;
      if current.None? && depth == 1 {
        var open := OpenKey(lines[i]);
        if open.Some? {
          current := Some((open.value, i));
        }
      }
      var delta := BraceDepthDelta(lines[i]);
      depth := depth + delta;
      OneLine(lines, section, blocks, before, i, current, depth);
      if Closes(current, depth, i) {
        blocks := blocks[current.value.0 := Block(current.value.1, i)];
        current := None;
      }
      i := i + 1;
      if depth <= 0 {
        break;
      }
    }
    ScanIsOver(lines, section, blocks, i);
  }

  method FindWorkspaceBlocks(lines: seq<string>) returns (r: Result<map<string, Block>, Error>, ghost section: nat)
    ensures r.Success? ==> IsBlockMap(lines, section, r.value)
    ensures r.Failure? <==> forall k :: 0 <= k < |lines| ==> !IsHeader(lines[k])
    ensures r.Failure? ==> r.error == MissingSection
  {
    var sectionStart := FindSection(lines);
    section := sectionStart;
    if sectionStart == |lines| {
      return Failure(MissingSection), section;
    }
    var blocks := ScanBlocks(lines, sectionStart);
    r := Success(blocks);
  }

  // ----- The version entry of a block -----

  predicate IsVersionLine(line: string) { MatchVersion(line).Some? }

  // The inner loop: the first entry at depth 1 of the enclosing object.
  function FindDirect(lines: seq<string>, isEntry: string -> bool, delta: string -> int,
                      i: nat, end: nat, depth: int): (r: Option<nat>)
    requires end <= |lines|
    ensures r.Some? ==> i <= r.value < end && isEntry(lines[r.value])
    decreases end - i
  {
    if i >= end then None
    else if depth == 1 && isEntry(lines[i]) then Some(i)
    else FindDirect(lines, isEntry, delta, i + 1, end, depth + delta(lines[i]))
  }

  function VersionLine(lines: seq<string>, b: Block): (r: Option<nat>)
    requires b.end <= |lines|
    ensures r.Some? ==> b.start < r.value < b.end && IsVersionLine(lines[r.value])
  {
    FindDirect(lines, IsVersionLine, LineDelta, b.start + 1, b.end, 1)
  }

  // The sum of the deltas of lines `i` to `k`, the latter excluded.
  function Total(lines: seq<string>, delta: string -> int, i: nat, k: nat): int
    requires k <= |lines|
    decreases k - i
  {
    if k <= i then 0 else delta(lines[i]) + Total(lines, delta, i + 1, k)
  }

  /** The entry found is the first matching direct member; when none is found there is none. */
  lemma {:induction false} FindDirectMeaning(lines: seq<string>, isEntry: string -> bool, delta: string -> int,
                                             i: nat, end: nat, depth: int)
    requires end <= |lines|
    ensures var r := FindDirect(lines, isEntry, delta, i, end, depth);
      && (r.Some? ==> depth + Total(lines, delta, i, r.value) == 1)
      && forall k :: i <= k < (if r.Some? then r.value else end) ==>
           !(depth + Total(lines, delta, i, k) == 1 && isEntry(lines[k]))
    decreases end - i
  {
    if i < end && !(depth == 1 && isEntry(lines[i])) {
      FindDirectMeaning(lines, isEntry, delta, i + 1, end, depth + delta(lines[i]));
    }
  }

  // The line found does not move when only it is rewritten, into another entry.
  lemma {:induction false} FindDirectFrame(lines: seq<string>, lines': seq<string>,
                                           isEntry: string -> bool, delta: string -> int, i: nat, end: nat, depth: int)
    requires end <= |lines| == |lines'|
    requires var r := FindDirect(lines, isEntry, delta, i, end, depth);
      && (forall k :: i <= k < end && Some(k) != r ==> lines'[k] == lines[k])
      && (r.Some? ==> isEntry(lines'[r.value]))
    ensures FindDirect(lines', isEntry, delta, i, end, depth) == FindDirect(lines, isEntry, delta, i, end, depth)
    decreases end - i
  {
    if i < end && !(depth == 1 && isEntry(lines[i])) {
      FindDirectFrame(lines, lines', isEntry, delta, i + 1, end, depth + delta(lines[i]));
    }
  }

  // ----- Matching a rendered line -----

  // A version string that needs no escaping and fits on one line.
  predicate IsClean(version: string) {
    Lacks(version, '"') && Lacks(version, '\\') && Lacks(version, '\n')
  }

  // Where the parts of a version line are: key at i, colon at j, quotes at k and q.
  ghost predicate Layout(line: string, e: VersionEntry, i: nat, j: nat, k: nat, q: nat) {
    && i + 9 <= j < k < q < |line|
    && AllSpace(line, 0, i) && line[i..i + 9] == VERSION_KEY
    && AllSpace(line, i + 9, j) && line[j] == ':'
    && AllSpace(line, j + 1, k) && line[k] == '"'
    && line[q] == '"'
    && e.indent == line[..i] && e.version == line[k + 1..q] && Lacks(e.version, '"')
    && (e.comma == "" || (e.comma == "," && q + 1 < |line| && line[q + 1] == ','))
    && AllSpace(line, q + 1 + |e.comma|, |line|)
  }

  lemma {:induction false} NextQuoteIsFirst(s: string, i: nat)
    requires i <= |s| && NextQuote(s, i).Some?
    ensures forall k :: i <= k < NextQuote(s, i).value ==> s[k] != '"'
    decreases |s| - i
  {
    if s[i] != '"' { NextQuoteIsFirst(s, i + 1); }
  }

  lemma ValueParts(line: string, i: nat, k: nat) returns (q: nat)
    requires i <= k <= |line| && MatchValue(line, i, k).Some?
    ensures var e := MatchValue(line, i, k).value;
      && k < q < |line| && line[k] == '"' && line[q] == '"'
      && e.indent == line[..i] && e.version == line[k + 1..q] && Lacks(e.version, '"')
      && (e.comma == "" || (e.comma == "," && q + 1 < |line| && line[q + 1] == ','))
      && AllSpace(line, q + 1 + |e.comma|, |line|)
  {
    q := NextQuote(line, k + 1).value;
    NextQuoteIsFirst(line, k + 1);
    SkipsOnlySpace(line, q + 1 + |MatchValue(line, i, k).value.comma|);
  }

  lemma KeyParts(line: string) returns (i: nat, j: nat, k: nat)
    requires IsVersionLine(line)
    ensures i + 9 <= j < k <= |line|
    ensures line[i..i + 9] == VERSION_KEY && line[j] == ':' && MatchVersion(line) == MatchValue(line, i, k)
    ensures AllSpace(line, 0, i) && AllSpace(line, i + 9, j) && AllSpace(line, j + 1, k)
  {
    i, j, k := KeyPositions(line);
    SkipsOnlySpace(line, 0);
    SkipsOnlySpace(line, i + 9);
    SkipsOnlySpace(line, j + 1);
  }

  lemma KeyPositions(line: string) returns (i: nat, j: nat, k: nat)
    requires IsVersionLine(line)
    ensures i + 9 <= j < k <= |line|
    ensures line[i..i + 9] == VERSION_KEY && line[j] == ':' && MatchVersion(line) == MatchValue(line, i, k)
    ensures i == SkipSpace(line, 0) && j == SkipSpace(line, i + 9) && k == SkipSpace(line, j + 1)
  {
    i := SkipSpace(line, 0);
    j := SkipSpace(line, i + 9);
    k := SkipSpace(line, j + 1);
  }

  lemma MatchLayout(line: string) returns (i: nat, j: nat, k: nat, q: nat)
    requires IsVersionLine(line)
    ensures Layout(line, MatchVersion(line).value, i, j, k, q)
  {
    i, j, k := KeyParts(line);
    q := ValueParts(line, i, k);
  }

  lemma LayoutMatches(line: string, e: VersionEntry, i: nat, j: nat, k: nat, q: nat)
    requires Layout(line, e, i, j, k, q)
    ensures MatchVersion(line) == Some(e)
  {
    SpacesSkipped(line, e, i, j, k, q);
    ValueMatches(line, e, i, j, k, q);
  }

  lemma SpacesSkipped(line: string, e: VersionEntry, i: nat, j: nat, k: nat, q: nat)
    requires Layout(line, e, i, j, k, q)
    ensures SkipSpace(line, 0) == i && SkipSpace(line, i + 9) == j && SkipSpace(line, j + 1) == k
  {
    assert line[i] == line[i..i + 9][0] == VERSION_KEY[0];
    SkipSpaceStops(line, 0, i);
    SkipSpaceStops(line, i + 9, j);
    SkipSpaceStops(line, j + 1, k);
  }

  lemma ValueMatches(line: string, e: VersionEntry, i: nat, j: nat, k: nat, q: nat)
    requires Layout(line, e, i, j, k, q)
    ensures MatchValue(line, i, k) == Some(e)
  {
    ValueEnds(line, e.version, k, q);
    TailMatches(line, e.comma, q);
  }

  lemma ValueEnds(line: string, version: string, k: nat, q: nat)
    requires k < q < |line| && line[q] == '"' && version == line[k + 1..q] && Lacks(version, '"')
    ensures NextQuote(line, k + 1) == Some(q)
  {
    forall m | k + 1 <= m < q ensures line[m] != '"' {
      assert line[m] == version[m - (k + 1)];
    }
    NextQuoteIs(line, k + 1, q);
  }

  lemma TailMatches(line: string, comma: string, q: nat)
    requires q < |line| && q + 1 + |comma| <= |line|
    requires comma == "" || (comma == "," && line[q + 1] == ',')
    requires AllSpace(line, q + 1 + |comma|, |line|)
    ensures comma == if q + 1 < |line| && line[q + 1] == ',' then "," else ""
    ensures SkipSpace(line, q + 1 + |comma|) == |line|
  {
    SkipSpaceStops(line, q + 1 + |comma|, |line|);
  }

  lemma KeyCharacters()
    ensures |VERSION_KEY| == 9 && VERSION_KEY[0] == '"' && VERSION_KEY[8] == '"'
    ensures forall m :: 1 <= m < 8 ==> VERSION_KEY[m] != '"' && VERSION_KEY[m] != '\\'
  {
    assert VERSION_KEY[1..8] == "version";
    assert forall m :: 1 <= m < 8 ==> VERSION_KEY[m] == "version"[m - 1];
  }

  lemma {:induction false} SkipSpaceStops(s: string, i: nat, j: nat)
    requires i <= j <= |s| && AllSpace(s, i, j)
    requires j < |s| ==> !IsJsSpace(s[j])
    ensures SkipSpace(s, i) == j
    decreases j - i
  {
    if i < j { SkipSpaceStops(s, i + 1, j); }
  }

  lemma {:induction false} NextQuoteIs(s: string, i: nat, q: nat)
    requires i <= q < |s| && s[q] == '"' && forall k :: i <= k < q ==> s[k] != '"'
    ensures NextQuote(s, i) == Some(q)
    decreases q - i
  {
    if i < q { NextQuoteIs(s, i + 1, q); }
  }

  lemma {:induction false} StringEndIs(s: string, i: nat, q: nat)
    requires i <= q < |s| && s[q] == '"' && forall k :: i <= k < q ==> s[k] != '"' && s[k] != '\\'
    ensures StringEnd(s, i) == Some(q)
    decreases q - i
  {
    if i < q { StringEndIs(s, i + 1, q); }
  }

  /** A rendered line is matched again, with the same indent and comma and the new version. */
  lemma RenderMatches(line: string, version: string)
    requires IsVersionLine(line) && Lacks(version, '"')
    ensures MatchVersion(Render(MatchVersion(line).value, version))
        == Some(MatchVersion(line).value.(version := version))
  {
    var e := MatchVersion(line).value;
    var i, j, k, q := MatchLayout(line);
    RenderLayout(line, e, version, i, j, k, q);
    var i' := |e.indent|;
    LayoutMatches(Render(e, version), e.(version := version), i', i' + 9, i' + 11, i' + 12 + |version|);
  }

  lemma RenderLayout(line: string, e: VersionEntry, version: string, i: nat, j: nat, k: nat, q: nat)
    requires Layout(line, e, i, j, k, q) && Lacks(version, '"')
    ensures Layout(Render(e, version), e.(version := version), |e.indent|, |e.indent| + 9, |e.indent| + 11,
                   |e.indent| + 12 + |version|)
  {
    var r := Render(e, version);
    RenderParts(e, version, r, |e.indent|, |e.indent| + 12 + |version|);
    forall m | 0 <= m < |e.indent| ensures IsJsSpace(r[m]) {
      assert r[m] == r[..|e.indent|][m] == e.indent[m] == line[m];
    }
  }

  lemma RenderParts(e: VersionEntry, version: string, r: string, a: nat, z: nat)
    requires r == Render(e, version) && a == |e.indent| && z == a + 12 + |version|
    ensures z < |r| == z + 1 + |e.comma|
    ensures r[..a] == e.indent && r[a..a + 9] == VERSION_KEY && r[a + 12..z] == version
    ensures r[a + 9] == ':' && r[a + 10] == ' ' && r[a + 11] == '"' && r[z] == '"'
    ensures e.comma != "" ==> r[z + 1] == e.comma[0]
  {
    FiveParts(e.indent, VERSION_KEY, ": \"", version, "\"" + e.comma, r);
    assert r[a + 9] == r[a + 9..a + 12][0] && r[a + 10] == r[a + 9..a + 12][1] && r[a + 11] == r[a + 9..a + 12][2];
    assert r[z] == r[z..][0] && (e.comma != "" ==> r[z + 1] == r[z..][1]);
  }

  lemma FiveParts(a: string, b: string, c: string, d: string, e: string, s: string)
    requires s == a + b + c + d + e
    ensures var i, j, k, l := |a|, |a| + |b|, |a| + |b| + |c|, |a| + |b| + |c| + |d|;
      s[..i] == a && s[i..j] == b && s[j..k] == c && s[k..l] == d && s[l..] == e
  {
    Parts(a + b + c + d, e, s);
    Parts(a + b + c, d, a + b + c + d);
    Parts(a + b, c, a + b + c);
    Parts(a, b, a + b);
  }

  lemma EntryDelta(line: string)
    requires IsVersionLine(line) && Lacks(MatchVersion(line).value.version, '\\')
    ensures LineDelta(line) == 0
  {
    var i, j, k, q := MatchLayout(line);
    LayoutDelta(line, MatchVersion(line).value, i, j, k, q);
  }

  lemma LayoutDelta(line: string, e: VersionEntry, i: nat, j: nat, k: nat, q: nat)
    requires Layout(line, e, i, j, k, q) && Lacks(e.version, '\\')
    ensures LineDelta(line) == 0
  {
    KeyCharacters();
    assert forall m :: i <= m < i + 9 ==> line[m] == line[i..i + 9][m - i];
    assert forall m :: k + 1 <= m < q ==> line[m] == e.version[m - (k + 1)];
    StringEndIs(line, i + 1, i + 8);
    StringEndIs(line, k + 1, q);
    TwoStringsDelta(line, i, i + 8, k, q);
  }

  // Two string literals and nothing else but plain characters.
  lemma TwoStringsDelta(line: string, i: nat, e: nat, k: nat, q: nat)
    requires i < e < k < q < |line|
    requires line[i] == line[k] == '"' && StringEnd(line, i + 1) == Some(e) && StringEnd(line, k + 1) == Some(q)
    requires Plain(line, 0, i) && Plain(line, e + 1, k) && Plain(line, q + 1, |line|)
    ensures LineDelta(line) == 0
  {
    DeltaIsStripped(line, 0);
    PlainDelta(line, 0, i);
    StringDelta(line, i, e);
    PlainDelta(line, e + 1, k);
    StringDelta(line, k, q);
    PlainDelta(line, q + 1, |line|);
  }

  lemma StringDelta(s: string, i: nat, e: nat)
    requires i < e < |s| && s[i] == '"' && StringEnd(s, i + 1) == Some(e)
    ensures DeltaFrom(s, i) == DeltaFrom(s, e + 1)
  {
  }

  // ----- Rewriting the requested workspaces -----

  datatype Synced = Synced(lines: seq<string>, updated: seq<string>)

  predicate Fits(lines: seq<string>, blocks: map<string, Block>) {
    forall dir :: dir in blocks ==> blocks[dir].end <= |lines|
  }

  function Label(dir: string): string {
    if dir == ROOT_WORKSPACE then "(root)" else dir
  }

  // One turn of the outer loop.
  function SyncDir(s: Synced, blocks: map<string, Block>, oldVersion: string, newVersion: string,
                   dir: string): (r: Result<Synced, Error>)
    requires Fits(s.lines, blocks)
    ensures r.Success? ==> |r.value.lines| == |s.lines|
  {
    if dir !in blocks then Failure(WorkspaceNotFound(dir))
    else
      match VersionLine(s.lines, blocks[dir])
      case None => if dir == ROOT_WORKSPACE then Success(s) else Failure(NoVersionEntry(dir))
      case Some(k) =>
        var e := MatchVersion(s.lines[k]).value;
        if e.version != oldVersion then Failure(WrongVersion(dir, e.version))
        else Success(Synced(s.lines[k := Render(e, newVersion)], s.updated + [Label(dir)]))
  }

  function SyncDirs(lines: seq<string>, blocks: map<string, Block>, oldVersion: string, newVersion: string,
                    dirs: seq<string>): (r: Result<Synced, Error>)
    requires Fits(lines, blocks)
    ensures r.Success? ==> |r.value.lines| == |lines|
  {
    if dirs == [] then Success(Synced(lines, []))
    else
      match SyncDirs(lines, blocks, oldVersion, newVersion, dirs[..|dirs| - 1])
      case Failure(e) => Failure(e)
      case Success(s) => SyncDir(s, blocks, oldVersion, newVersion, dirs[|dirs| - 1])
  }

  lemma {:induction false} FailureIsFinal(lines: seq<string>, blocks: map<string, Block>, oldVersion: string,
                                          newVersion: string, dirs: seq<string>, n: nat)
    requires Fits(lines, blocks) && n <= |dirs|
    requires SyncDirs(lines, blocks, oldVersion, newVersion, dirs[..n]).Failure?
    ensures SyncDirs(lines, blocks, oldVersion, newVersion, dirs)
        == SyncDirs(lines, blocks, oldVersion, newVersion, dirs[..n])
    decreases |dirs|
  {
    if n == |dirs| {
      assert dirs[..n] == dirs;
    } else {
      assert dirs[..|dirs| - 1][..n] == dirs[..n];
      FailureIsFinal(lines, blocks, oldVersion, newVersion, dirs[..|dirs| - 1], n);
    }
  }

  // ----- What a successful rewrite did -----

  ghost predicate AreDisjoint(blocks: map<string, Block>) {
    forall d1, d2 :: d1 in blocks && d2 in blocks && d1 != d2 ==>
      blocks[d1].end < blocks[d2].start || blocks[d2].end < blocks[d1].start
  }

  /** Blocks of different workspaces do not overlap, and all lie inside the text. */
  lemma BlocksAreDisjoint(lines: seq<string>, section: nat, blocks: map<string, Block>)
    requires IsBlockMap(lines, section, blocks)
    ensures AreDisjoint(blocks) && Fits(lines, blocks)
  {
    forall d1, d2 | d1 in blocks && d2 in blocks && d1 != d2
      ensures blocks[d1].end < blocks[d2].start || blocks[d2].end < blocks[d1].start
    {
      TwoBlocks(lines, section, d1, blocks[d1].start, blocks[d1].end, d2, blocks[d2].start, blocks[d2].end);
    }
  }

  lemma TwoBlocks(lines: seq<string>, section: nat, d1: string, s1: nat, e1: nat, d2: string, s2: nat, e2: nat)
    requires IsBlock(lines, section, d1, s1, e1) && IsBlock(lines, section, d2, s2, e2) && d1 != d2
    ensures e1 < s2 || e2 < s1
  {
  }

  // Line `k` is the version entry of a requested workspace.
  ghost predicate IsTarget(lines: seq<string>, blocks: map<string, Block>, dirs: seq<string>, k: nat)
    requires Fits(lines, blocks)
  {
    exists dir :: dir in dirs && dir in blocks && VersionLine(lines, blocks[dir]) == Some(k)
  }

  function Renew(line: string, version: string): string
    requires IsVersionLine(line)
  {
    Render(MatchVersion(line).value, version)
  }

  // The lines with every target of `dirs` renewed and nothing else touched.
  ghost predicate IsRenewed(lines: seq<string>, blocks: map<string, Block>, dirs: seq<string>, version: string,
                            out: seq<string>)
    requires Fits(lines, blocks)
  {
    && |out| == |lines|
    && forall k :: 0 <= k < |lines| ==>
         out[k] == if IsTarget(lines, blocks, dirs, k) then Renew(lines[k], version) else lines[k]
  }

  // The inputs that are accepted.  A workspace asked for twice is refused unless
  // it has no entry or the version does not change.
  ghost predicate Acceptable(lines: seq<string>, blocks: map<string, Block>, oldVersion: string, newVersion: string,
                             dirs: seq<string>)
    requires Fits(lines, blocks)
  {
    && (forall dir :: dir in dirs ==>
          dir in blocks
          && match VersionLine(lines, blocks[dir])
             case None => dir == ROOT_WORKSPACE
             case Some(k) => MatchVersion(lines[k]).value.version == oldVersion)
    && (oldVersion != newVersion ==>
          forall i, j :: 0 <= i < j < |dirs| && dirs[i] == dirs[j] ==> VersionLine(lines, blocks[dirs[i]]).None?)
  }

  // A target inside a block is the entry of that block.
  lemma TargetInside(lines: seq<string>, blocks: map<string, Block>, dirs: seq<string>, dir: string, k: nat)
    requires AreDisjoint(blocks) && Fits(lines, blocks)
    requires dir in blocks && blocks[dir].start < k < blocks[dir].end && IsTarget(lines, blocks, dirs, k)
    ensures dir in dirs && VersionLine(lines, blocks[dir]) == Some(k)
  {
  }

  // Inside a block only its own entry is renewed, and it stays an entry.
  lemma OnlyTheEntry(lines: seq<string>, blocks: map<string, Block>, dirs: seq<string>, version: string,
                     out: seq<string>, dir: string)
    requires AreDisjoint(blocks) && Fits(lines, blocks)
    requires IsRenewed(lines, blocks, dirs, version, out) && Lacks(version, '"')
    requires dir in blocks
    ensures var r := VersionLine(lines, blocks[dir]);
      && (forall k :: blocks[dir].start < k < blocks[dir].end && Some(k) != r ==> out[k] == lines[k])
      && (r.Some? ==> IsVersionLine(out[r.value]))
  {
    var r := VersionLine(lines, blocks[dir]);
    forall k | blocks[dir].start < k < blocks[dir].end && Some(k) != r ensures out[k] == lines[k] {
      if IsTarget(lines, blocks, dirs, k) { TargetInside(lines, blocks, dirs, dir, k); }
    }
    if r.Some? {
      RenderMatches(lines[r.value], version);
    }
  }

  // Version lines stay where they are while targets are renewed.
  lemma VersionLineStays(lines: seq<string>, blocks: map<string, Block>, dirs: seq<string>, version: string,
                         out: seq<string>, dir: string)
    requires AreDisjoint(blocks) && Fits(lines, blocks)
    requires IsRenewed(lines, blocks, dirs, version, out) && Lacks(version, '"')
    requires dir in blocks
    ensures VersionLine(out, blocks[dir]) == VersionLine(lines, blocks[dir])
  {
    OnlyTheEntry(lines, blocks, dirs, version, out, dir);
    BlockFrame(lines, out, blocks[dir], VersionLine(lines, blocks[dir]));
  }

  lemma BlockFrame(lines: seq<string>, out: seq<string>, b: Block, entry: Option<nat>)
    requires b.end <= |lines| == |out| && entry == VersionLine(lines, b)
    requires forall k :: b.start < k < b.end && Some(k) != entry ==> out[k] == lines[k]
    requires entry.Some? ==> IsVersionLine(out[entry.value])
    ensures VersionLine(out, b) == entry
  {
    EntryFrame(lines, out, IsVersionLine, LineDelta, b, entry);
  }

  lemma EntryFrame(lines: seq<string>, out: seq<string>, isEntry: string -> bool, delta: string -> int, b: Block,
                   entry: Option<nat>)
    requires b.end <= |lines| == |out| && entry == FindDirect(lines, isEntry, delta, b.start + 1, b.end, 1)
    requires forall k :: b.start < k < b.end && Some(k) != entry ==> out[k] == lines[k]
    requires entry.Some? ==> isEntry(out[entry.value])
    ensures FindDirect(out, isEntry, delta, b.start + 1, b.end, 1) == entry
  {
    FindDirectFrame(lines, out, isEntry, delta, b.start + 1, b.end, 1);
  }

  function Updated(lines: seq<string>, blocks: map<string, Block>, dirs: seq<string>): seq<string>
    requires Fits(lines, blocks)
  {
    if dirs == [] then []
    else
      var dir := dirs[|dirs| - 1];
      Updated(lines, blocks, dirs[..|dirs| - 1])
      + (if dir in blocks && VersionLine(lines, blocks[dir]).Some? then [Label(dir)] else [])
  }

  // The workspace has a version entry.
  predicate HasEntry(lines: seq<string>, blocks: map<string, Block>, dir: string)
    requires Fits(lines, blocks)
  {
    dir in blocks && VersionLine(lines, blocks[dir]).Some?
  }

  function Names(dirs: seq<string>, listed: set<string>): seq<string> {
    if dirs == [] then []
    else Names(dirs[..|dirs| - 1], listed) + (if dirs[|dirs| - 1] in listed then [Label(dirs[|dirs| - 1])] else [])
  }

  lemma {:induction false} NamesMeaning(dirs: seq<string>, listed: set<string>, name: string)
    ensures name in Names(dirs, listed) <==>
            exists dir :: dir in dirs && dir in listed && name == if dir == "" then "(root)" else dir
  {
    if dirs != [] {
      NamesMeaning(dirs[..|dirs| - 1], listed, name);
      assert dirs == dirs[..|dirs| - 1] + [dirs[|dirs| - 1]];
    }
  }

  lemma {:induction false} UpdatedIsNames(lines: seq<string>, blocks: map<string, Block>, dirs: seq<string>,
                                          listed: set<string>)
    requires Fits(lines, blocks) && forall k :: 0 <= k < |dirs| ==>
        (dirs[k] in listed <==> HasEntry(lines, blocks, dirs[k]))
    ensures Updated(lines, blocks, dirs) == Names(dirs, listed)
  {
    if dirs != [] {
      UpdatedIsNames(lines, blocks, dirs[..|dirs| - 1], listed);
      assert dirs[|dirs| - 1] in listed <==> HasEntry(lines, blocks, dirs[|dirs| - 1]);
    }
  }

  /** The names returned are the requested workspaces that have an entry; the root is called `(root)`. */
  lemma UpdatedMeaning(lines: seq<string>, blocks: map<string, Block>, dirs: seq<string>, name: string)
    requires Fits(lines, blocks)
    ensures name in Updated(lines, blocks, dirs) <==>
            exists dir :: dir in dirs && HasEntry(lines, blocks, dir) && name == if dir == "" then "(root)" else dir
  {
    var listed := set dir | dir in dirs && HasEntry(lines, blocks, dir);
    UpdatedIsNames(lines, blocks, dirs, listed);
    NamesMeaning(dirs, listed, name);
  }

  lemma TargetsGrow(lines: seq<string>, blocks: map<string, Block>, dirs: seq<string>, dir: string, k: nat)
    requires Fits(lines, blocks)
    ensures IsTarget(lines, blocks, dirs + [dir], k) <==>
              IsTarget(lines, blocks, dirs, k) || (dir in blocks && VersionLine(lines, blocks[dir]) == Some(k))
  {
  }

  // Renewing a line that was renewed before, or not yet, comes to the same.
  lemma RenewAgain(line: string, current: string, version: string)
    requires IsVersionLine(line) && Lacks(version, '"')
    requires current == line || current == Renew(line, version)
    ensures IsVersionLine(current) && Renew(current, version) == Renew(line, version)
    ensures current == Renew(line, version) ==> MatchVersion(current).value.version == version
  {
    RenderMatches(line, version);
  }

  lemma TargetVersion(lines: seq<string>, blocks: map<string, Block>, dirs: seq<string>, dir: string, version: string,
                      out: seq<string>, k: nat)
    requires AreDisjoint(blocks) && Fits(lines, blocks) && Lacks(version, '"')
    requires IsRenewed(lines, blocks, dirs, version, out)
    requires dir in blocks && VersionLine(lines, blocks[dir]) == Some(k)
    ensures IsVersionLine(out[k]) && Renew(out[k], version) == Renew(lines[k], version)
    ensures MatchVersion(out[k]).value.version == if dir in dirs then version else MatchVersion(lines[k]).value.version
  {
    RenewAgain(lines[k], out[k], version);
    if IsTarget(lines, blocks, dirs, k) { TargetInside(lines, blocks, dirs, dir, k); }
  }

  lemma RenewOneMore(lines: seq<string>, blocks: map<string, Block>, dirs: seq<string>, dir: string, version: string,
                     out: seq<string>, k: nat)
    requires Fits(lines, blocks) && IsRenewed(lines, blocks, dirs, version, out)
    requires dir in blocks && VersionLine(lines, blocks[dir]) == Some(k)
    ensures IsRenewed(lines, blocks, dirs + [dir], version, out[k := Renew(lines[k], version)])
  {
    var out' := out[k := Renew(lines[k], version)];
    var dirs' := dirs + [dir];
    forall j | 0 <= j < |lines|
      ensures out'[j] == if IsTarget(lines, blocks, dirs', j) then Renew(lines[j], version) else lines[j]
    {
      TargetsGrow(lines, blocks, dirs, dir, j);
    }
  }

  lemma RenewNoMore(lines: seq<string>, blocks: map<string, Block>, dirs: seq<string>, dir: string, version: string,
                    out: seq<string>)
    requires Fits(lines, blocks) && IsRenewed(lines, blocks, dirs, version, out)
    requires dir in blocks && VersionLine(lines, blocks[dir]).None?
    ensures IsRenewed(lines, blocks, dirs + [dir], version, out)
  {
    forall j | 0 <= j < |lines|
      ensures out[j] == if IsTarget(lines, blocks, dirs + [dir], j) then Renew(lines[j], version) else lines[j]
    {
      TargetsGrow(lines, blocks, dirs, dir, j);
    }
  }

  lemma AcceptableGrows(lines: seq<string>, blocks: map<string, Block>, oldVersion: string, newVersion: string,
                        dirs: seq<string>, dir: string)
    requires Fits(lines, blocks)
    ensures Acceptable(lines, blocks, oldVersion, newVersion, dirs + [dir]) <==>
              && Acceptable(lines, blocks, oldVersion, newVersion, dirs)
              && dir in blocks
              && match VersionLine(lines, blocks[dir])
                 case None => dir == ROOT_WORKSPACE
                 case Some(k) => MatchVersion(lines[k]).value.version == oldVersion
                                 && (oldVersion == newVersion || dir !in dirs)
  {
    var all := dirs + [dir];
    assert forall d :: d in all <==> d in dirs || d == dir;
    assert forall i :: 0 <= i < |dirs| ==> all[i] == dirs[i];
    if Acceptable(lines, blocks, oldVersion, newVersion, all) {
      if dir in dirs && oldVersion != newVersion {
        var i :| 0 <= i < |dirs| && dirs[i] == dir;
        assert all[i] == all[|dirs|];
      }
      forall i, j | 0 <= i < j < |dirs| && dirs[i] == dirs[j] && oldVersion != newVersion
        ensures VersionLine(lines, blocks[dirs[i]]).None?
      {
        assert all[i] == all[j];
      }
    }
  }

  lemma SyncDirMeaning(lines: seq<string>, blocks: map<string, Block>, oldVersion: string, newVersion: string,
                       dirs: seq<string>, dir: string, s: Synced)
    requires AreDisjoint(blocks) && Fits(lines, blocks) && Lacks(newVersion, '"')
    requires Acceptable(lines, blocks, oldVersion, newVersion, dirs)
    requires IsRenewed(lines, blocks, dirs, newVersion, s.lines) && s.updated == Updated(lines, blocks, dirs)
    ensures var r := SyncDir(s, blocks, oldVersion, newVersion, dir);
      && (r.Success? <==> Acceptable(lines, blocks, oldVersion, newVersion, dirs + [dir]))
      && (r.Success? ==>
            && IsRenewed(lines, blocks, dirs + [dir], newVersion, r.value.lines)
            && r.value.updated == Updated(lines, blocks, dirs + [dir]))
  {
    AcceptableGrows(lines, blocks, oldVersion, newVersion, dirs, dir);
    assert (dirs + [dir])[..|dirs|] == dirs;
    if dir in blocks {
      VersionLineStays(lines, blocks, dirs, newVersion, s.lines, dir);
      match VersionLine(lines, blocks[dir])
      case None => RenewNoMore(lines, blocks, dirs, dir, newVersion, s.lines);
      case Some(k) =>
        TargetVersion(lines, blocks, dirs, dir, newVersion, s.lines, k);
        RenewOneMore(lines, blocks, dirs, dir, newVersion, s.lines, k);
    }
  }

  /**
   The rewrite succeeds exactly on acceptable input, and then changes exactly
   the version entries of the requested workspaces.
   */
  lemma {:induction false} SyncMeaning(lines: seq<string>, blocks: map<string, Block>, oldVersion: string,
                                       newVersion: string, dirs: seq<string>)
    requires AreDisjoint(blocks) && Fits(lines, blocks) && Lacks(newVersion, '"')
    ensures var r := SyncDirs(lines, blocks, oldVersion, newVersion, dirs);
      && (r.Success? <==> Acceptable(lines, blocks, oldVersion, newVersion, dirs))
      && (r.Success? ==>
            && IsRenewed(lines, blocks, dirs, newVersion, r.value.lines)
            && r.value.updated == Updated(lines, blocks, dirs))
    decreases |dirs|
  {
    if dirs != [] {
      var last := |dirs| - 1;
      assert dirs == dirs[..last] + [dirs[last]];
      SyncMeaning(lines, blocks, oldVersion, newVersion, dirs[..last]);
      AcceptableGrows(lines, blocks, oldVersion, newVersion, dirs[..last], dirs[last]);
      match SyncDirs(lines, blocks, oldVersion, newVersion, dirs[..last])
      case Failure(_) =>
      case Success(s) => SyncDirMeaning(lines, blocks, oldVersion, newVersion, dirs[..last], dirs[last], s);
    }
  }

  // ----- The output has the same blocks -----

  lemma {:induction false} SameDepth(lines: seq<string>, lines': seq<string>, start: nat, end: nat)
    requires end <= |lines| == |lines'|
    requires forall k :: 0 <= k < |lines| ==> LineDelta(lines'[k]) == LineDelta(lines[k])
    ensures Depth(lines', start, end) == Depth(lines, start, end)
    decreases end
  {
    if start < end { SameDepth(lines, lines', start, end - 1); }
  }

  // `lines'` differs from `lines` only strictly inside blocks, and braces still balance.
  ghost predicate EditsInside(lines: seq<string>, lines': seq<string>, section: nat)  {
    && |lines'| == |lines|
    && (forall k :: 0 <= k < |lines| ==> LineDelta(lines'[k]) == LineDelta(lines[k]))
    && forall k :: 0 <= k < |lines| && lines'[k] != lines[k] ==> section < k && Depth(lines, section, k) >= 2
  }

  lemma EditKeepsBlock(lines: seq<string>, lines': seq<string>, section: nat, dir: string, start: nat, end: nat)
    requires EditsInside(lines, lines', section)
    ensures IsBlock(lines', section, dir, start, end) <==> IsBlock(lines, section, dir, start, end)
  {
    forall k: nat | k <= |lines| ensures Depth(lines', section, k) == Depth(lines, section, k) {
      SameDepth(lines, lines', section, k);
    }
  }

  lemma EditKeepsBlocks(lines: seq<string>, lines': seq<string>, section: nat, blocks: map<string, Block>)
    requires IsBlockMap(lines, section, blocks) && EditsInside(lines, lines', section)
    ensures IsBlockMap(lines', section, blocks)
  {
    forall dir, start: nat, end: nat ensures IsBlock(lines', section, dir, start, end)
        <==> IsBlock(lines, section, dir, start, end) {
      EditKeepsBlock(lines, lines', section, dir, start, end);
    }
  }

  lemma RenewalIsInside(lines: seq<string>, section: nat, blocks: map<string, Block>, oldVersion: string,
                        newVersion: string, dirs: seq<string>, out: seq<string>)
    requires IsBlockMap(lines, section, blocks) && Fits(lines, blocks)
    requires Acceptable(lines, blocks, oldVersion, newVersion, dirs) && IsClean(oldVersion) && IsClean(newVersion)
    requires IsRenewed(lines, blocks, dirs, newVersion, out)
    ensures EditsInside(lines, out, section)
  {
    forall k: nat | k < |lines| && IsTarget(lines, blocks, dirs, k)
      ensures LineDelta(out[k]) == LineDelta(lines[k]) == 0 && section < k && Depth(lines, section, k) >= 2
    {
      var dir :| dir in dirs && dir in blocks && VersionLine(lines, blocks[dir]) == Some(k);
      assert IsBlock(lines, section, dir, blocks[dir].start, blocks[dir].end);
      EntryDelta(lines[k]);
      RenderMatches(lines[k], newVersion);
      EntryDelta(out[k]);
    }
  }

  // ----- Round trip -----

  // Targets written the way the rewrite writes them.
  ghost predicate AreCanonical(lines: seq<string>, blocks: map<string, Block>, dirs: seq<string>, version: string)
    requires Fits(lines, blocks)
  {
    forall k :: 0 <= k < |lines| && IsTarget(lines, blocks, dirs, k) ==> lines[k] == Renew(lines[k], version)
  }

  lemma SameTargets(lines: seq<string>, blocks: map<string, Block>, version: string, dirs: seq<string>,
                    out: seq<string>)
    requires AreDisjoint(blocks) && Fits(lines, blocks) && Lacks(version, '"')
    requires IsRenewed(lines, blocks, dirs, version, out)
    ensures forall k :: 0 <= k < |lines| ==> (IsTarget(out, blocks, dirs, k) <==> IsTarget(lines, blocks, dirs, k))
    ensures forall dir :: dir in blocks ==> VersionLine(out, blocks[dir]) == VersionLine(lines, blocks[dir])
  {
    forall dir | dir in blocks ensures VersionLine(out, blocks[dir]) == VersionLine(lines, blocks[dir]) {
      VersionLineStays(lines, blocks, dirs, version, out, dir);
    }
  }

  lemma {:induction false} SameUpdated(lines: seq<string>, blocks: map<string, Block>, dirs: seq<string>,
                                       out: seq<string>)
    requires Fits(lines, blocks) && |out| == |lines|
    requires forall dir :: dir in blocks ==> VersionLine(out, blocks[dir]) == VersionLine(lines, blocks[dir])
    ensures Updated(out, blocks, dirs) == Updated(lines, blocks, dirs)
  {
    if dirs != [] { SameUpdated(lines, blocks, dirs[..|dirs| - 1], out); }
  }

  lemma AcceptableBack(lines: seq<string>, blocks: map<string, Block>, oldVersion: string, newVersion: string,
                       dirs: seq<string>, out: seq<string>)
    requires AreDisjoint(blocks) && Fits(lines, blocks) && Lacks(newVersion, '"')
    requires Acceptable(lines, blocks, oldVersion, newVersion, dirs)
    requires IsRenewed(lines, blocks, dirs, newVersion, out)
    ensures Acceptable(out, blocks, newVersion, oldVersion, dirs)
  {
    SameTargets(lines, blocks, newVersion, dirs, out);
    forall dir | dir in dirs && VersionLine(lines, blocks[dir]).Some?
      ensures MatchVersion(out[VersionLine(lines, blocks[dir]).value]).value.version == newVersion
    {
      var k := VersionLine(lines, blocks[dir]).value;
      assert IsTarget(lines, blocks, dirs, k);
      RenderMatches(lines[k], newVersion);
    }
  }

  lemma RenewBack(lines: seq<string>, blocks: map<string, Block>, oldVersion: string, newVersion: string,
                  dirs: seq<string>, out: seq<string>, back: seq<string>)
    requires AreDisjoint(blocks) && Fits(lines, blocks) && Lacks(newVersion, '"')
    requires IsRenewed(lines, blocks, dirs, newVersion, out) && IsRenewed(out, blocks, dirs, oldVersion, back)
    ensures IsRenewed(lines, blocks, dirs, oldVersion, back)
  {
    SameTargets(lines, blocks, newVersion, dirs, out);
    forall k | 0 <= k < |lines| && IsTarget(lines, blocks, dirs, k) ensures back[k] == Renew(lines[k], oldVersion) {
      RenderMatches(lines[k], newVersion);
    }
  }

  lemma RewriteBack(lines: seq<string>, blocks: map<string, Block>, oldVersion: string, newVersion: string,
                    dirs: seq<string>, s: Synced)
    requires AreDisjoint(blocks) && Fits(lines, blocks) && Lacks(newVersion, '"') && Lacks(oldVersion, '"')
    requires SyncDirs(lines, blocks, oldVersion, newVersion, dirs) == Success(s)
    ensures var r := SyncDirs(s.lines, blocks, newVersion, oldVersion, dirs);
      && r.Success? && r.value.updated == s.updated
      && IsRenewed(lines, blocks, dirs, oldVersion, r.value.lines)
  {
    SyncMeaning(lines, blocks, oldVersion, newVersion, dirs);
    AcceptableBack(lines, blocks, oldVersion, newVersion, dirs, s.lines);
    SyncMeaning(s.lines, blocks, newVersion, oldVersion, dirs);
    var back := SyncDirs(s.lines, blocks, newVersion, oldVersion, dirs).value;
    RenewBack(lines, blocks, oldVersion, newVersion, dirs, s.lines, back.lines);
    SameTargets(lines, blocks, newVersion, dirs, s.lines);
    SameUpdated(lines, blocks, dirs, s.lines);
  }

  lemma RenewedIsOriginal(lines: seq<string>, blocks: map<string, Block>, dirs: seq<string>, version: string,
                          out: seq<string>)
    requires Fits(lines, blocks) && IsRenewed(lines, blocks, dirs, version, out)
    ensures out == lines <==> AreCanonical(lines, blocks, dirs, version)
  {
  }

  /**
   After a successful rewrite the scanner finds the same blocks, the rewrite back
   succeeds, and it restores every line exactly when the entries were canonical.
   */
  lemma RoundTrip(lines: seq<string>, section: nat, blocks: map<string, Block>, oldVersion: string,
                  newVersion: string, dirs: seq<string>, s: Synced)
    requires IsBlockMap(lines, section, blocks) && Fits(lines, blocks)
    requires IsClean(oldVersion) && IsClean(newVersion)
    requires SyncDirs(lines, blocks, oldVersion, newVersion, dirs) == Success(s)
    ensures IsBlockMap(s.lines, section, blocks)
    ensures var r := SyncDirs(s.lines, blocks, newVersion, oldVersion, dirs);
      && r.Success? && r.value.updated == s.updated
      && (r.value.lines == lines <==> AreCanonical(lines, blocks, dirs, oldVersion))
  {
    BlocksAreDisjoint(lines, section, blocks);
    assert IsBlockMap(s.lines, section, blocks) by {
      SyncMeaning(lines, blocks, oldVersion, newVersion, dirs);
      RenewalIsInside(lines, section, blocks, oldVersion, newVersion, dirs, s.lines);
      EditKeepsBlocks(lines, s.lines, section, blocks);
    }
    RewriteBack(lines, blocks, oldVersion, newVersion, dirs, s);
    RenewedIsOriginal(lines, blocks, dirs, oldVersion,
                      SyncDirs(s.lines, blocks, newVersion, oldVersion, dirs).value.lines);
  }

  // ----- The whole text -----

  datatype Output = Output(content: string, updated: seq<string>)

  // What the exported function returns or throws.
  ghost predicate IsSync(content: string, oldVersion: string, newVersion: string, dirs: seq<string>,
                         r: Result<Output, Error>) {
    var lines := Split(content, '\n');
    if forall k :: 0 <= k < |lines| ==> !IsHeader(lines[k]) then r == Failure(MissingSection)
    else exists section, blocks ::
           IsBlockMap(lines, section, blocks) && IsSyncOf(lines, blocks, oldVersion, newVersion, dirs, r)
  }

  ghost predicate IsSyncOf(lines: seq<string>, blocks: map<string, Block>, oldVersion: string, newVersion: string,
                           dirs: seq<string>, r: Result<Output, Error>)
    requires lines != []
  {
    && Fits(lines, blocks)
    && match SyncDirs(lines, blocks, oldVersion, newVersion, dirs)
       case Failure(e) => r == Failure(e)
       case Success(s) => r == Success(Output(Join(s.lines, '\n'), s.updated))
  }

  // The inner loop, for any test and any depth change of a line.
  method FindDirectLine(lines: seq<string>, isEntry: string -> bool, delta: string -> int, start: nat, end: nat)
    returns (found: Option<nat>)
    requires end <= |lines|
    ensures found == FindDirect(lines, isEntry, delta, start, end, 1)
  {
    var depth := 1;
    var i := start;
    while i < end
      invariant FindDirect(lines, isEntry, delta, start, end, 1) == FindDirect(lines, isEntry, delta, i, end, depth)
    {
      if depth == 1 && isEntry(lines[i]) {
        return Some(i);
      }
      depth := depth + delta(lines[i]);
      i := i + 1;
    }
    found := None;
  }

  method FindVersionLine(lines: seq<string>, block: Block) returns (versionLine: Option<nat>)
    requires block.end <= |lines|
    ensures versionLine == VersionLine(lines, block)
  {
    versionLine := FindDirectLine(lines, IsVersionLine, LineDelta, block.start + 1, block.end);
  }

  method SyncBunLockWorkspaceVersions(lockContent: string, oldVersion: string, newVersion: string,
                                      workspaceDirs: seq<string>)
    returns (r: Result<Output, Error>)
    ensures IsSync(lockContent, oldVersion, newVersion, workspaceDirs, r)
  {
    var lines := Split(lockContent, '\n');
    var found, section := FindWorkspaceBlocks(lines);
    if found.Failure? {
      return Failure(found.error);
    }
    var blocks := found.value;
    BlocksAreDisjoint(lines, section, blocks);
    var synced := SyncLines(lines, blocks, oldVersion, newVersion, workspaceDirs);
    match synced
    case Failure(e) => r := Failure(e);
    case Success(s) => r := Success(Output(Join(s.lines, '\n'), s.updated));
    assert IsSyncOf(lines, blocks, oldVersion, newVersion, workspaceDirs, r);
  }

  method SyncWorkspace(s: Synced, blocks: map<string, Block>, oldVersion: string, newVersion: string, dir: string)
    returns (r: Result<Synced, Error>)
    requires Fits(s.lines, blocks)
    ensures r == SyncDir(s, blocks, oldVersion, newVersion, dir)
  {
    if dir !in blocks {
      return Failure(WorkspaceNotFound(dir));
    }
    var block := blocks[dir];
    var versionLine := FindVersionLine(s.lines, block);
    if versionLine.None? {
      return if dir == ROOT_WORKSPACE then Success(s) else Failure(NoVersionEntry(dir));
    }
    var entry := MatchVersion(s.lines[versionLine.value]).value;
    if entry.version != oldVersion {
      return Failure(WrongVersion(dir, entry.version));
    }
    r := Success(Synced(s.lines[versionLine.value := Render(entry, newVersion)], s.updated + [Label(dir)]));
  }

  method SyncLines(lines: seq<string>, blocks: map<string, Block>, oldVersion: string, newVersion: string,
                   workspaceDirs: seq<string>)
    returns (r: Result<Synced, Error>)
    requires Fits(lines, blocks)
    ensures r == SyncDirs(lines, blocks, oldVersion, newVersion, workspaceDirs)
  {
    r := Success(Synced(lines, []));
    for n := 0 to |workspaceDirs|
      invariant r.Success? && |r.value.lines| == |lines|
      invariant r == SyncDirs(lines, blocks, oldVersion, newVersion, workspaceDirs[..n])
    {
      assert workspaceDirs[..n + 1][..n] == workspaceDirs[..n];
      r := SyncWorkspace(r.value, blocks, oldVersion, newVersion, workspaceDirs[n]);
      if r.Failure? {
        FailureIsFinal(lines, blocks, oldVersion, newVersion, workspaceDirs, n + 1);
        return;
      }
    }
    assert workspaceDirs[..|workspaceDirs|] == workspaceDirs;
  }

  // ----- Consequences for the exported function -----

  /** The blocks of a text are determined by the text. */
  lemma BlockMapIsUnique(lines: seq<string>, section: nat, blocks: map<string, Block>, section': nat,
                         blocks': map<string, Block>)
    requires IsBlockMap(lines, section, blocks) && IsBlockMap(lines, section', blocks')
    ensures section' == section && blocks' == blocks
  {
    SectionIsUnique(lines, section, section');
    SameBlocks(lines, section, blocks, blocks');
  }

  lemma SectionIsUnique(lines: seq<string>, section: nat, section': nat)
    requires IsSection(lines, section) && IsSection(lines, section')
    ensures section' == section
  {
  }

  lemma SameBlocks(lines: seq<string>, section: nat, blocks: map<string, Block>, blocks': map<string, Block>)
    requires IsBlockMap(lines, section, blocks) && IsBlockMap(lines, section, blocks')
    ensures blocks' == blocks
  {
    EveryBlock(lines, section, blocks, blocks');
    EveryBlock(lines, section, blocks', blocks);
  }

  lemma EveryBlock(lines: seq<string>, section: nat, blocks: map<string, Block>, blocks': map<string, Block>)
    requires IsBlockMap(lines, section, blocks) && IsBlockMap(lines, section, blocks')
    ensures forall dir :: dir in blocks ==> dir in blocks' && blocks'[dir] == blocks[dir]
  {
    forall dir | dir in blocks ensures dir in blocks' && blocks'[dir] == blocks[dir] {
      SameBlock(lines, section, blocks, blocks', dir);
    }
  }

  lemma SameBlock(lines: seq<string>, section: nat, blocks: map<string, Block>, blocks': map<string, Block>,
                  dir: string)
    requires IsBlockMap(lines, section, blocks) && IsBlockMap(lines, section, blocks')
    requires dir in blocks
    ensures dir in blocks' && blocks'[dir] == blocks[dir]
  {
    var b, b' := blocks[dir], blocks'[dir];
    assert IsBlock(lines, section, dir, b.start, b.end) && IsBlock(lines, section, dir, b'.start, b'.end);
    assert b.start == b'.start;
    BlockEndsFirst(lines, section, dir, b.start, b.end, b'.end);
    BlockEndsFirst(lines, section, dir, b.start, b'.end, b.end);
  }

  lemma BlockEndsFirst(lines: seq<string>, section: nat, dir: string, start: nat, end: nat, end': nat)
    requires IsBlock(lines, section, dir, start, end) && IsBlock(lines, section, dir, start, end')
    ensures end' <= end
  {
  }

  // The version entries of the requested workspaces are written canonically.
  ghost predicate IsCanonicalText(content: string, dirs: seq<string>, version: string) {
    exists section, blocks ::
      IsBlockMap(Split(content, '\n'), section, blocks) && Fits(Split(content, '\n'), blocks)
      && AreCanonical(Split(content, '\n'), blocks, dirs, version)
  }

  lemma HasHeader(lines: seq<string>, section: nat, blocks: map<string, Block>)
    requires IsBlockMap(lines, section, blocks)
    ensures !forall k :: 0 <= k < |lines| ==> !IsHeader(lines[k])
  {
  }

  // The edited lines, joined and split again, are the edited lines.
  lemma RewriteSplits(lines: seq<string>, blocks: map<string, Block>, oldVersion: string, newVersion: string,
                      dirs: seq<string>, s: Synced)
    requires lines != [] && forall k :: 0 <= k < |lines| ==> Lacks(lines[k], '\n')
    requires AreDisjoint(blocks) && Fits(lines, blocks) && IsClean(newVersion)
    requires SyncDirs(lines, blocks, oldVersion, newVersion, dirs) == Success(s)
    ensures Split(Join(s.lines, '\n'), '\n') == s.lines
  {
    SyncMeaning(lines, blocks, oldVersion, newVersion, dirs);
    forall k | 0 <= k < |lines| ensures Lacks(s.lines[k], '\n') {
      if IsTarget(lines, blocks, dirs, k) { RenewLacksNewline(lines[k], newVersion); }
    }
    SplitJoin(s.lines, '\n');
  }

  lemma RenewLacksNewline(line: string, version: string)
    requires IsVersionLine(line) && Lacks(line, '\n') && Lacks(version, '\n')
    ensures Lacks(Renew(line, version), '\n')
  {
    var i, j, k, q := MatchLayout(line);
    KeyLacksNewline();
  }

  lemma KeyLacksNewline()
    ensures Lacks(VERSION_KEY, '\n')
  {
    assert VERSION_KEY == ['"', 'v', 'e', 'r', 's', 'i', 'o', 'n', '"'];
  }

  // The blocks behind a successful rewrite.
  lemma SyncedLines(content: string, oldVersion: string, newVersion: string, dirs: seq<string>, out: Output)
    returns (section: nat, blocks: map<string, Block>, s: Synced)
    requires IsSync(content, oldVersion, newVersion, dirs, Success(out))
    ensures IsBlockMap(Split(content, '\n'), section, blocks) && Fits(Split(content, '\n'), blocks)
    ensures SyncDirs(Split(content, '\n'), blocks, oldVersion, newVersion, dirs) == Success(s)
    ensures out == Output(Join(s.lines, '\n'), s.updated)
  {
    var lines := Split(content, '\n');
    section, blocks :| IsBlockMap(lines, section, blocks)
        && IsSyncOf(lines, blocks, oldVersion, newVersion, dirs, Success(out));
    s := SyncDirs(lines, blocks, oldVersion, newVersion, dirs).value;
  }

  // The same when the blocks are known.
  lemma SyncIs(content: string, section: nat, blocks: map<string, Block>, oldVersion: string, newVersion: string,
               dirs: seq<string>, r: Result<Output, Error>)
    requires IsBlockMap(Split(content, '\n'), section, blocks)
    requires IsSync(content, oldVersion, newVersion, dirs, r)
    ensures IsSyncOf(Split(content, '\n'), blocks, oldVersion, newVersion, dirs, r)
  {
    var lines := Split(content, '\n');
    HasHeader(lines, section, blocks);
    var section', blocks' :| IsBlockMap(lines, section', blocks')
        && IsSyncOf(lines, blocks', oldVersion, newVersion, dirs, r);
    BlockMapIsUnique(lines, section, blocks, section', blocks');
  }

  /**
   What a successful call means for the text: with the blocks of the text, every
   requested version entry and no other line is rewritten.
   */
  lemma TextMeaning(content: string, oldVersion: string, newVersion: string, dirs: seq<string>, out: Output,
                    section: nat, blocks: map<string, Block>)
    requires IsClean(newVersion) && IsSync(content, oldVersion, newVersion, dirs, Success(out))
    requires IsBlockMap(Split(content, '\n'), section, blocks)
    ensures Fits(Split(content, '\n'), blocks)
    ensures |Split(out.content, '\n')| == |Split(content, '\n')|
    ensures IsRenewed(Split(content, '\n'), blocks, dirs, newVersion, Split(out.content, '\n'))
    ensures out.updated == Updated(Split(content, '\n'), blocks, dirs)
    ensures Acceptable(Split(content, '\n'), blocks, oldVersion, newVersion, dirs)
  {
    var lines := Split(content, '\n');
    SyncIs(content, section, blocks, oldVersion, newVersion, dirs, Success(out));
    BlocksAreDisjoint(lines, section, blocks);
    var s := SyncDirs(lines, blocks, oldVersion, newVersion, dirs).value;
    RewriteSplits(lines, blocks, oldVersion, newVersion, dirs, s);
    SyncMeaning(lines, blocks, oldVersion, newVersion, dirs);
  }

  /**
   Rewriting to a new version and back: whatever the second call returns, it
   succeeds, names the same workspaces, and gives back the original text
   exactly when its version entries were written canonically.
   */
  lemma TextRoundTrip(content: string, oldVersion: string, newVersion: string, dirs: seq<string>,
                      first: Output, second: Result<Output, Error>)
    requires IsClean(oldVersion) && IsClean(newVersion)
    requires IsSync(content, oldVersion, newVersion, dirs, Success(first))
    requires IsSync(first.content, newVersion, oldVersion, dirs, second)
    ensures |Split(first.content, '\n')| == |Split(content, '\n')|
    ensures second.Success? && second.value.updated == first.updated
    ensures second.value.content == content <==> IsCanonicalText(content, dirs, oldVersion)
  {
    var lines := Split(content, '\n');
    var section, blocks, s := SyncedLines(content, oldVersion, newVersion, dirs, first);
    BlocksAreDisjoint(lines, section, blocks);
    RewriteSplits(lines, blocks, oldVersion, newVersion, dirs, s);
    RoundTrip(lines, section, blocks, oldVersion, newVersion, dirs, s);
    SyncIs(first.content, section, blocks, newVersion, oldVersion, dirs, second);
    var back := SyncDirs(s.lines, blocks, newVersion, oldVersion, dirs).value;
    SecondText(content, section, blocks, dirs, oldVersion, newVersion, s, back);
  }

  lemma SecondText(content: string, section: nat, blocks: map<string, Block>, dirs: seq<string>,
                   oldVersion: string, newVersion: string, s: Synced, back: Synced)
    requires IsBlockMap(Split(content, '\n'), section, blocks) && IsBlockMap(s.lines, section, blocks)
    requires Fits(Split(content, '\n'), blocks) && Fits(s.lines, blocks) && |s.lines| == |Split(content, '\n')|
    requires IsClean(oldVersion) && forall k :: 0 <= k < |s.lines| ==> Lacks(s.lines[k], '\n')
    requires SyncDirs(s.lines, blocks, newVersion, oldVersion, dirs) == Success(back)
    requires back.lines == Split(content, '\n') <==> AreCanonical(Split(content, '\n'), blocks, dirs, oldVersion)
    ensures Join(back.lines, '\n') == content <==> IsCanonicalText(content, dirs, oldVersion)
  {
    BlocksAreDisjoint(s.lines, section, blocks);
    RewriteSplits(s.lines, blocks, newVersion, oldVersion, dirs, back);
    JoinSplit(content, '\n');
    forall section', blocks' | IsBlockMap(Split(content, '\n'), section', blocks') ensures blocks' == blocks {
      BlockMapIsUnique(Split(content, '\n'), section, blocks, section', blocks');
    }
  }

  // ----- A text that does not come back -----

  // A workspace whose version line has a blank before the colon.
  function SpacedLine(version: string): string {
    VERSION_KEY + " : \"" + version + "\""
  }

  function SpacedLines(version: string): seq<string> {
    ["\"workspaces\": {", "\"\": {", SpacedLine(version), "}", "}"]
  }

  lemma OpenKeyIs(line: string, e: nat)
    requires 0 < e && |line| == e + 4 && line[0] == '"' && line[e..] == "\": {"
    requires forall m :: 1 <= m < e ==> line[m] != '"' && line[m] != '\\'
    ensures OpenKey(line) == Some(line[1..e]) && LineDelta(line) == 1
  {
    assert line[e] == line[e..][0] && line[e + 1] == line[e..][1] && line[e + 2] == line[e..][2]
        && line[e + 3] == line[e..][3];
    StringEndIs(line, 1, e);
    SkipSpaceStops(line, 0, 0);
    SkipSpaceStops(line, e + 1, e + 1);
    SkipSpaceStops(line, e + 2, e + 3);
    SkipSpaceStops(line, e + 4, e + 4);
    OpeningRaisesDepth(line);
  }

  lemma ClosingLine(line: string)
    requires line == "}"
    ensures OpenKey(line) == None && LineDelta(line) == -1
  {
    SkipSpaceStops(line, 0, 0);
    DeltaIsStripped(line, 0);
  }

  lemma SpacedLineMatches(version: string)
    requires IsClean(version)
    ensures MatchVersion(SpacedLine(version)) == Some(VersionEntry("", version, ""))
    ensures LineDelta(SpacedLine(version)) == 0
    ensures Renew(SpacedLine(version), version) != SpacedLine(version)
  {
    var line, e := SpacedLine(version), VersionEntry("", version, "");
    SpacedLayout(version, line);
    LayoutMatches(line, e, 0, 10, 12, 13 + |version|);
    EntryDelta(line);
    ColonMoves(e, line, Render(e, version));
  }

  lemma ColonMoves(e: VersionEntry, line: string, r: string)
    requires e.indent == "" && |line| > 9 && line[9] == ' ' && r == Render(e, e.version)
    ensures r != line
  {
    RenderParts(e, e.version, r, 0, 12 + |e.version|);
  }

  lemma SpacedLineLacksNewline(version: string)
    requires IsClean(version)
    ensures Lacks(SpacedLine(version), '\n')
  {
    KeyLacksNewline();
  }

  lemma SpacedLayout(version: string, line: string)
    requires IsClean(version) && line == SpacedLine(version)
    ensures Layout(line, VersionEntry("", version, ""), 0, 10, 12, 13 + |version|) && line[9] == ' '
  {
    var q := 13 + |version|;
    FiveParts("", VERSION_KEY, " : \"", version, "\"", line);
    assert line[9] == line[9..13][0] && line[10] == line[9..13][1];
    assert line[11] == line[9..13][2] && line[12] == line[9..13][3] && line[q] == line[q..][0];
  }

  // Two objects, the outer one `workspaces` and the inner one the root's, with one line inside.
  ghost predicate OneBlock(lines: seq<string>) {
    && |lines| == 5
    && OpenKey(lines[0]) == Some("workspaces") && OpenKey(lines[1]) == Some("")
    && OpenKey(lines[3]) == None && OpenKey(lines[4]) == None
    && LineDelta(lines[0]) == 1 && LineDelta(lines[1]) == 1 && LineDelta(lines[2]) == 0
    && LineDelta(lines[3]) == -1 && LineDelta(lines[4]) == -1
  }

  lemma SpacedIsOneBlock(version: string)
    requires IsClean(version)
    ensures OneBlock(SpacedLines(version))
  {
    SpacedLineMatches(version);
    FiveLines(SpacedLines(version));
  }

  lemma FiveLines(lines: seq<string>)
    requires |lines| == 5 && lines[0] == "\"workspaces\": {" && lines[1] == "\"\": {"
    requires LineDelta(lines[2]) == 0 && lines[3] == "}" && lines[4] == "}"
    ensures OneBlock(lines)
  {
    HeaderLine(lines[0]);
    RootLine(lines[1]);
    ClosingLine(lines[3]);
    ClosingLine(lines[4]);
  }

  lemma HeaderLine(line: string)
    requires line == "\"workspaces\": {"
    ensures OpenKey(line) == Some("workspaces") && LineDelta(line) == 1
  {
    assert line == "\"" + "workspaces" + "\": {";
    KeyBetween(line, "workspaces");
  }

  lemma KeyBetween(line: string, key: string)
    requires line == "\"" + key + "\": {" && Lacks(key, '"') && Lacks(key, '\\')
    ensures OpenKey(line) == Some(key) && LineDelta(line) == 1
  {
    var e := |key| + 1;
    Parts("\"" + key, "\": {", line);
    assert line[..e] == "\"" + key;
    assert forall m :: 1 <= m < e ==> line[m] == line[..e][m] == key[m - 1];
    OpenKeyIs(line, e);
    assert line[1..e] == key;
  }

  lemma RootLine(line: string)
    requires line == "\"\": {"
    ensures OpenKey(line) == Some("") && LineDelta(line) == 1
  {
    OpenKeyIs(line, 1);
    assert line[1..1] == "";
  }

  lemma OneBlockDepths(lines: seq<string>)
    requires OneBlock(lines)
    ensures Depth(lines, 0, 1) == 1 && Depth(lines, 0, 2) == 2 && Depth(lines, 0, 3) == 2
    ensures Depth(lines, 0, 4) == 1 && Depth(lines, 0, 5) == 0
  {
    DepthAfter(lines, 0);
    DepthAfter(lines, 1);
    DepthAfter(lines, 2);
    DepthAfter(lines, 3);
    DepthAfter(lines, 4);
  }

  lemma DepthAfter(lines: seq<string>, k: nat)
    requires k < |lines|
    ensures Depth(lines, 0, k + 1) == Depth(lines, 0, k) + LineDelta(lines[k])
  {
  }

  lemma OneBlockMap(lines: seq<string>)
    requires OneBlock(lines)
    ensures IsBlockMap(lines, 0, map["" := Block(1, 3)])
  {
    OneBlockDepths(lines);
    assert IsBlock(lines, 0, "", 1, 3);
    forall dir, start: nat, end: nat | IsBlock(lines, 0, dir, start, end) ensures dir == "" && start == 1 {
      assert start in {1, 2, 3, 4};
    }
  }

  lemma SpacedBlocks(version: string, lines: seq<string>)
    requires IsClean(version) && lines == SpacedLines(version)
    ensures IsBlockMap(lines, 0, map["" := Block(1, 3)])
    ensures VersionLine(lines, Block(1, 3)) == Some(2)
  {
    SpacedIsOneBlock(version);
    OneBlockMap(lines);
    SpacedLineMatches(version);
  }

  lemma SpacedSync(lines: seq<string>, blocks: map<string, Block>, oldVersion: string, newVersion: string)
    returns (s: Synced)
    requires IsClean(oldVersion) && lines == SpacedLines(oldVersion) && blocks == map["" := Block(1, 3)]
    requires VersionLine(lines, Block(1, 3)) == Some(2)
    ensures SyncDirs(lines, blocks, oldVersion, newVersion, [""]) == Success(s)
  {
    SpacedLineMatches(oldVersion);
    var before := Synced(lines, []);
    assert [""][..0] == [] && SyncDirs(lines, blocks, oldVersion, newVersion, []) == Success(before);
    assert SyncDir(before, blocks, oldVersion, newVersion, "").Success?;
    s := SyncDir(before, blocks, oldVersion, newVersion, "").value;
  }

  lemma SpacedIsAccepted(oldVersion: string, newVersion: string, content: string)
    requires IsClean(oldVersion) && Split(content, '\n') == SpacedLines(oldVersion)
    ensures exists out :: IsSync(content, oldVersion, newVersion, [""], Success(out))
  {
    var lines, blocks := SpacedLines(oldVersion), map["" := Block(1, 3)];
    SpacedBlocks(oldVersion, lines);
    var s := SpacedSync(lines, blocks, oldVersion, newVersion);
    SyncedIsAccepted(content, lines, 0, blocks, oldVersion, newVersion, [""], s);
  }

  lemma SyncedIsAccepted(content: string, lines: seq<string>, section: nat, blocks: map<string, Block>,
                         oldVersion: string, newVersion: string, dirs: seq<string>, s: Synced)
    requires Split(content, '\n') == lines && IsBlockMap(lines, section, blocks) && Fits(lines, blocks)
    requires SyncDirs(lines, blocks, oldVersion, newVersion, dirs) == Success(s)
    ensures exists out :: IsSync(content, oldVersion, newVersion, dirs, Success(out))
  {
    HasHeader(lines, section, blocks);
    var out := Output(Join(s.lines, '\n'), s.updated);
    assert IsSyncOf(lines, blocks, oldVersion, newVersion, dirs, Success(out));
    assert IsSync(content, oldVersion, newVersion, dirs, Success(out));
  }

  lemma SpacedIsNotCanonical(version: string, content: string)
    requires IsClean(version) && Split(content, '\n') == SpacedLines(version)
    ensures !IsCanonicalText(content, [""], version)
  {
    SpacedBlocks(version, SpacedLines(version));
    SpacedLineMatches(version);
    LostEntry(content, SpacedLines(version), version);
  }

  lemma LostEntry(content: string, lines: seq<string>, version: string)
    requires Split(content, '\n') == lines && IsBlockMap(lines, 0, map["" := Block(1, 3)])
    requires |lines| == 5 && VersionLine(lines, Block(1, 3)) == Some(2) && lines[2] != Renew(lines[2], version)
    ensures !IsCanonicalText(content, [""], version)
  {
    forall section, blocks | IsBlockMap(lines, section, blocks) && Fits(lines, blocks)
      ensures !AreCanonical(lines, blocks, [""], version)
    {
      BlockMapIsUnique(lines, 0, map["" := Block(1, 3)], section, blocks);
      assert "" in [""] && IsTarget(lines, blocks, [""], 2);
    }
  }

  /**
   The rewrite is accepted on a text whose version line has a blank before the
   colon, and the rewrite back does not restore that text.
   */
  lemma SpacedTextIsNotRestored(oldVersion: string, newVersion: string, content: string)
    requires IsClean(oldVersion) && IsClean(newVersion) && content == Join(SpacedLines(oldVersion), '\n')
    ensures exists out :: IsSync(content, oldVersion, newVersion, [""], Success(out))
    ensures forall out, back ::
      (IsSync(content, oldVersion, newVersion, [""], Success(out))
       && IsSync(out.content, newVersion, oldVersion, [""], Success(back))) ==> back.content != content
  {
    SpacedSplits(oldVersion, content);
    SpacedIsAccepted(oldVersion, newVersion, content);
    SpacedIsNotCanonical(oldVersion, content);
    NotRestored(content, oldVersion, newVersion, [""]);
  }

  lemma SpacedSplits(version: string, content: string)
    requires IsClean(version) && content == Join(SpacedLines(version), '\n')
    ensures Split(content, '\n') == SpacedLines(version)
  {
    SpacedLacksNewline(version);
    SplitJoin(SpacedLines(version), '\n');
  }

  lemma SpacedLacksNewline(version: string)
    requires IsClean(version)
    ensures forall k :: 0 <= k < |SpacedLines(version)| ==> Lacks(SpacedLines(version)[k], '\n')
  {
    SpacedLineLacksNewline(version);
  }

  lemma NotRestored(content: string, oldVersion: string, newVersion: string, dirs: seq<string>)
    requires IsClean(oldVersion) && IsClean(newVersion) && !IsCanonicalText(content, dirs, oldVersion)
    ensures forall out, back ::
      (IsSync(content, oldVersion, newVersion, dirs, Success(out))
       && IsSync(out.content, newVersion, oldVersion, dirs, Success(back))) ==> back.content != content
  {
    forall out, back | IsSync(content, oldVersion, newVersion, dirs, Success(out))
                       && IsSync(out.content, newVersion, oldVersion, dirs, Success(back))
      ensures back.content != content
    {
      TextRoundTrip(content, oldVersion, newVersion, dirs, out, Success(back));
    }
  }
}
