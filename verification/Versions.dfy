/**
 Version order: `compareVersions` of the command-line package, and the semantic
 version helpers of the release script.
 */
module Versions {
  import opened Text
  import opened Values

  // ----- compareVersions -----

  // `.*$` matches the rest of the string from position i.
  predicate DotsToEnd(s: string, i: nat)
    requires i <= |s|
  {
    forall k :: i <= k < |s| ==> !IsLineTerminator(s[k])
  }

  // `s.replace(/-.*$/, "")`, looking for the match from position i on.
  function CutPreRelease(s: string, i: nat): string
    requires i <= |s|
    decreases |s| - i
  {
    if i == |s| then s
    else if s[i] == '-' && DotsToEnd(s, i + 1) then s[..i]
    else CutPreRelease(s, i + 1)
  }

  // `s.replace(/^v/, "")`
  function DropV(s: string): string {
    if s != "" && s[0] == 'v' then s[1..] else s
  }

  // The longest prefix of digits.
  function LeadingDigits(s: string): (d: string)
    ensures AllDigits(d) && d <= s
  {
    if s == "" || !IsDigit(s[0]) then "" else [s[0]] + LeadingDigits(s[1..])
  }

  function TrimStart(s: string): string {
    if s != "" && IsJsSpace(s[0]) then TrimStart(s[1..]) else s
  }

  // `Number.parseInt(part, 10)`, with 0 for NaN.
  function ParseInt(part: string): int {
    var s := TrimStart(part);
    if s != "" && s[0] == '-' then 0 - Parse(LeadingDigits(s[1..]))
    else if s != "" && s[0] == '+' then Parse(LeadingDigits(s[1..]))
    else Parse(LeadingDigits(s))
  }

  function Components(value: string): (r: seq<int>)
    ensures r != []
  {
    var parts := Split(CutPreRelease(DropV(value), 0), '.');
    seq(|parts|, k requires 0 <= k < |parts| => ParseInt(parts[k]))
  }

  // `list[index] ?? 0`
  function At(list: seq<int>, index: nat): int {
    if index < |list| then list[index] else 0
  }

  function Longer(a: seq<int>, b: seq<int>): nat {
    if |a| < |b| then |b| else |a|
  }

  // Scans from `index` for the first difference.
  function CompareFrom(a: seq<int>, b: seq<int>, index: nat): int
    decreases Longer(a, b) - index
  {
    if index >= Longer(a, b) then 0
    else if At(a, index) != At(b, index) then At(a, index) - At(b, index)
    else CompareFrom(a, b, index + 1)
  }

  function Compare(a: seq<int>, b: seq<int>): int {
    CompareFrom(a, b, 0)
  }

  method CompareVersions(a: string, b: string) returns (r: int)
    ensures r == Compare(Components(a), Components(b))
  {
    var left, right := Components(a), Components(b);
    var index := 0;
    while index < Longer(left, right)
      invariant Compare(left, right) == CompareFrom(left, right, index)
    {
      var delta := At(left, index) - At(right, index);
      if delta != 0 {
        return delta;
      }
      index := index + 1;
    }
    r := 0;
  }

  // ----- The order on component lists -----

  // The lists agree before `k` and `a` is smaller there.
  ghost predicate FirstSmaller(a: seq<int>, b: seq<int>, k: nat) {
    At(a, k) < At(b, k) && forall j :: 0 <= j < k ==> At(a, j) == At(b, j)
  }

  // Equal up to trailing zeros.
  ghost predicate SameVersion(a: seq<int>, b: seq<int>) {
    forall j: nat :: At(a, j) == At(b, j)
  }

  lemma {:induction false} CompareFromMeaning(a: seq<int>, b: seq<int>, i: nat)
    requires forall j :: 0 <= j < i ==> At(a, j) == At(b, j)
    ensures CompareFrom(a, b, i) < 0 <==> exists k: nat :: FirstSmaller(a, b, k)
    ensures CompareFrom(a, b, i) > 0 <==> exists k: nat :: FirstSmaller(b, a, k)
    ensures CompareFrom(a, b, i) == 0 <==> SameVersion(a, b)
    decreases Longer(a, b) - i
  {
    if i < Longer(a, b) && At(a, i) == At(b, i) {
      CompareFromMeaning(a, b, i + 1);
    } else if i < Longer(a, b) {
      assert At(a, i) < At(b, i) ==> FirstSmaller(a, b, i);
      assert At(b, i) < At(a, i) ==> FirstSmaller(b, a, i);
    }
  }

  /** The sign of the comparison is lexicographic order with missing components read as zero. */
  lemma CompareMeaning(a: seq<int>, b: seq<int>)
    ensures Compare(a, b) < 0 <==> exists k: nat :: FirstSmaller(a, b, k)
    ensures Compare(a, b) > 0 <==> exists k: nat :: FirstSmaller(b, a, k)
    ensures Compare(a, b) == 0 <==> SameVersion(a, b)
  {
    CompareFromMeaning(a, b, 0);
  }

  /** A component that one version has and the other lacks is compared with zero. */
  lemma MissingIsZero(a: seq<int>, x: int)
    ensures Compare(a + [x], a) == x
  {
    ExtraComponent(a, x, 0);
  }

  lemma {:induction false} ExtraComponent(a: seq<int>, x: int, i: nat)
    requires i <= |a|
    ensures CompareFrom(a + [x], a, i) == x
    decreases |a| - i
  {
    if i < |a| { ExtraComponent(a, x, i + 1); }
  }

  lemma {:induction false} CompareFromIsAntisymmetric(a: seq<int>, b: seq<int>, i: nat)
    ensures CompareFrom(a, b, i) == -CompareFrom(b, a, i)
    decreases Longer(a, b) - i
  {
    if i < Longer(a, b) {
      CompareFromIsAntisymmetric(a, b, i + 1);
    }
  }

  /** A total preorder on component lists of any length, with equality up to trailing zeros. */
  lemma CompareIsTotalPreorder(a: seq<int>, b: seq<int>, c: seq<int>)
    ensures Compare(a, b) == -Compare(b, a)
    ensures Compare(a, b) == 0 <==> SameVersion(a, b)
    ensures Compare(a, b) <= 0 && Compare(b, c) <= 0 ==> Compare(a, c) <= 0
    ensures Compare(a, b) <= 0 && Compare(b, c) <= 0 && Compare(a, c) == 0 ==> Compare(a, b) == 0 == Compare(b, c)
  {
    CompareFromIsAntisymmetric(a, b, 0);
    CompareMeaning(a, b);
    CompareMeaning(b, c);
    CompareMeaning(a, c);
    if Compare(a, b) <= 0 && Compare(b, c) <= 0 {
      if Compare(a, b) < 0 && Compare(b, c) < 0 {
        var k: nat :| FirstSmaller(a, b, k);
        var m: nat :| FirstSmaller(b, c, m);
        assert FirstSmaller(a, c, if k < m then k else m);
      } else if Compare(a, b) < 0 {
        var k: nat :| FirstSmaller(a, b, k);
        assert FirstSmaller(a, c, k);
      } else if Compare(b, c) < 0 {
        var m: nat :| FirstSmaller(b, c, m);
        assert FirstSmaller(a, c, m);
      }
    }
  }

  // ----- Semantic versions of the release script -----

  // The messages printed before `process.exit(1)`.
  datatype Error = InvalidSemver(version: string) | NotGreater(version: string) | InvalidBump(bump: string)

  type Triple = (nat, nat, nat)

  // `/^\d+\.\d+\.\d+$/`
  predicate IsSemver(version: string) {
    var parts := Split(version, '.');
    |parts| == 3 && forall k :: 0 <= k < 3 ==> parts[k] != "" && AllDigits(parts[k])
  }

  function SemverParts(version: string): Triple
    requires IsSemver(version)
  {
    var parts := Split(version, '.');
    (Parse(parts[0]), Parse(parts[1]), Parse(parts[2]))
  }

  function ParseSemver(version: string): Result<Triple, Error> {
    if IsSemver(version) then Success(SemverParts(version)) else Failure(InvalidSemver(version))
  }

  function CompareTriples(a: Triple, b: Triple): int {
    if a.0 != b.0 then a.0 - b.0 else if a.1 != b.1 then a.1 - b.1 else a.2 - b.2
  }

  function CompareSemver(a: string, b: string): Result<int, Error> {
    match ParseSemver(a)
    case Failure(e) => Failure(e)
    case Success(x) =>
      match ParseSemver(b)
      case Failure(e) => Failure(e)
      case Success(y) => Success(CompareTriples(x, y))
  }

  // `${major}.${minor}.${patch}`
  function Show(t: Triple): string {
    Print(t.0) + "." + Print(t.1) + "." + Print(t.2)
  }

  function BumpVersion(current: string, bumpArg: string): Result<string, Error> {
    if IsSemver(bumpArg) then
      match CompareSemver(bumpArg, current)
      case Failure(e) => Failure(e)
      case Success(c) => if c <= 0 then Failure(NotGreater(bumpArg)) else Success(bumpArg)
    else if bumpArg !in {"patch", "minor", "major"} then Failure(InvalidBump(bumpArg))
    else
      match ParseSemver(current)
      case Failure(e) => Failure(e)
      case Success(t) => Success(Show(Bumped(t, bumpArg)))
  }

  function Bumped(t: Triple, bumpArg: string): Triple {
    if bumpArg == "major" then (t.0 + 1, 0, 0)
    else if bumpArg == "minor" then (t.0, t.1 + 1, 0)
    else (t.0, t.1, t.2 + 1)
  }

  // ----- The two comparisons agree -----

  lemma {:induction false} LeadingDigitsOfDigits(s: string)
    requires AllDigits(s)
    ensures LeadingDigits(s) == s
  {
    if s != "" { LeadingDigitsOfDigits(s[1..]); }
  }

  lemma ParseIntOfDigits(s: string)
    requires s != "" && AllDigits(s)
    ensures ParseInt(s) == Parse(s)
  {
    LeadingDigitsOfDigits(s);
    assert TrimStart(s) == s;
  }

  lemma {:induction false} NothingToCut(s: string, i: nat)
    requires i <= |s| && Lacks(s, '-')
    ensures CutPreRelease(s, i) == s
    decreases |s| - i
  {
    if i < |s| { NothingToCut(s, i + 1); }
  }

  lemma JoinThree(p: seq<string>)
    requires |p| == 3
    ensures Join(p, '.') == p[0] + "." + (p[1] + "." + p[2])
  {
    assert p[1..][1..] == [p[2]];
    assert Join(p[1..][1..], '.') == p[2];
    assert Join(p[1..], '.') == p[1] + ['.'] + p[2];
    assert Join(p, '.') == p[0] + ['.'] + Join(p[1..], '.');
  }

  lemma SemverCharacters(version: string)
    requires IsSemver(version)
    ensures Lacks(version, '-') && DropV(version) == version
  {
    var p := Split(version, '.');
    JoinSplit(version, '.');
    JoinThree(p);
    assert version[0] == p[0][0];
  }

  lemma SemverIsUncut(version: string)
    requires IsSemver(version)
    ensures CutPreRelease(DropV(version), 0) == version
  {
    SemverCharacters(version);
    NothingToCut(version, 0);
  }

  lemma ComponentAt(version: string, parts: seq<string>, k: nat)
    requires CutPreRelease(DropV(version), 0) == version && parts == Split(version, '.')
    requires k < |parts| && parts[k] != "" && AllDigits(parts[k])
    ensures |Components(version)| == |parts| && Components(version)[k] == Parse(parts[k])
  {
    ParseIntOfDigits(parts[k]);
  }

  lemma SemverComponents(version: string)
    requires IsSemver(version)
    ensures var t := SemverParts(version); Components(version) == [t.0, t.1, t.2]
  {
    SemverIsUncut(version);
    PartsAreComponents(version, Split(version, '.'));
  }

  lemma PartsAreComponents(version: string, p: seq<string>)
    requires CutPreRelease(DropV(version), 0) == version && p == Split(version, '.') && |p| == 3
    requires forall k :: 0 <= k < 3 ==> p[k] != "" && AllDigits(p[k])
    ensures Components(version) == [Parse(p[0]), Parse(p[1]), Parse(p[2])]
  {
    ComponentAt(version, p, 0);
    ComponentAt(version, p, 1);
    ComponentAt(version, p, 2);
  }

  lemma CompareThree(t: Triple, u: Triple)
    ensures Compare([t.0, t.1, t.2], [u.0, u.1, u.2]) == CompareTriples(t, u)
  {
    var x, y := [t.0, t.1, t.2], [u.0, u.1, u.2];
    assert CompareFrom(x, y, 0) == if t.0 != u.0 then t.0 - u.0 else CompareFrom(x, y, 1);
    assert CompareFrom(x, y, 1) == if t.1 != u.1 then t.1 - u.1 else CompareFrom(x, y, 2);
    assert CompareFrom(x, y, 2) == if t.2 != u.2 then t.2 - u.2 else CompareFrom(x, y, 3);
  }

  /** On three-part versions both comparisons return the same number. */
  lemma ComparisonsAgree(a: string, b: string)
    requires IsSemver(a) && IsSemver(b)
    ensures CompareSemver(a, b) == Success(Compare(Components(a), Components(b)))
  {
    SemverComponents(a);
    SemverComponents(b);
    CompareThree(SemverParts(a), SemverParts(b));
  }

  lemma ShowIsSemver(t: Triple)
    ensures IsSemver(Show(t)) && SemverParts(Show(t)) == t
  {
    var parts := [Print(t.0), Print(t.1), Print(t.2)];
    JoinThree(parts);
    assert Show(t) == Join(parts, '.');
    SplitJoin(parts, '.');
    ParsePrint(t.0);
    ParsePrint(t.1);
    ParsePrint(t.2);
  }

  /** Every successful bump is a three-part version above the current one, under both comparisons. */
  lemma BumpIncreases(current: string, bumpArg: string)
    ensures var r := BumpVersion(current, bumpArg);
      && (r.Success? <==> IsSemver(current)
                          && (if IsSemver(bumpArg) then CompareTriples(SemverParts(bumpArg), SemverParts(current)) > 0
                              else bumpArg in {"patch", "minor", "major"}))
      && (r.Success? ==>
            && IsSemver(r.value)
            && CompareSemver(r.value, current).Success? && CompareSemver(r.value, current).value > 0
            && Compare(Components(r.value), Components(current)) > 0)
  {
    if IsSemver(current) && !IsSemver(bumpArg) {
      ShowIsSemver(Bumped(SemverParts(current), bumpArg));
    }
    var r := BumpVersion(current, bumpArg);
    if r.Success? {
      ComparisonsAgree(r.value, current);
    }
  }

  // ----- What compareVersions reads -----

  lemma {:induction false} JoinLacks(parts: seq<string>, c: char)
    requires parts != [] && c != '.' && forall k :: 0 <= k < |parts| ==> Lacks(parts[k], c)
    ensures Lacks(Join(parts, '.'), c)
  {
    if |parts| > 1 { JoinLacks(parts[1..], c); }
  }

  lemma {:induction false} CutsAtDash(s: string, pre: string, i: nat)
    requires Lacks(s, '-') && i <= |s| && forall k :: 0 <= k < |pre| ==> !IsLineTerminator(pre[k])
    ensures CutPreRelease(s + "-" + pre, i) == s
    decreases |s| - i
  {
    var t := s + "-" + pre;
    if i < |s| {
      assert t[i] == s[i];
      CutsAtDash(s, pre, i + 1);
    } else {
      assert t[i] == '-' && t[..i] == s;
      assert forall k :: i + 1 <= k < |t| ==> t[k] == pre[k - (i + 1)];
    }
  }

  // A dash with nothing but the rest of its line behind it, and that line is the last.
  ghost predicate StartsPreRelease(s: string, k: nat) {
    && k < |s| && s[k] == '-'
    && forall j :: k < j < |s| ==> s[j] !in {'\n', '\r', '\U{2028}', '\U{2029}'}
  }

  /** The version is cut at the first dash that starts a pre-release, and kept whole when there is none. */
  lemma CutMeaning(s: string)
    ensures var r := CutPreRelease(s, 0);
      && r <= s && (r == s || StartsPreRelease(s, |r|))
      && forall k :: 0 <= k < |r| ==> !StartsPreRelease(s, k)
  {
    CutFromMeaning(s, 0);
  }

  lemma {:induction false} CutFromMeaning(s: string, i: nat)
    requires i <= |s|
    ensures var r := CutPreRelease(s, i);
      && i <= |r| && r <= s && (r == s || StartsPreRelease(s, |r|))
      && forall k :: i <= k < |r| ==> !StartsPreRelease(s, k)
    decreases |s| - i
  {
    if i < |s| && !(s[i] == '-' && DotsToEnd(s, i + 1)) { CutFromMeaning(s, i + 1); }
  }

  // The parts are numerals and the list holds their values.
  ghost predicate AreValues(values: seq<int>, parts: seq<string>) {
    |values| == |parts| && forall k :: 0 <= k < |parts| ==> AllDigits(parts[k]) && values[k] == Parse(parts[k])
  }

  lemma PlainComponents(value: string, parts: seq<string>)
    requires parts != [] && forall k :: 0 <= k < |parts| ==> IsNumeral(parts[k])
    requires CutPreRelease(DropV(value), 0) == Join(parts, '.')
    ensures AreValues(Components(value), parts)
  {
    SplitJoin(parts, '.');
    forall k | 0 <= k < |parts| ensures ParseInt(parts[k]) == Parse(parts[k]) { ParseIntOfDigits(parts[k]); }
  }

  /** Numerals joined by dots are read as their values, with or without a `v` in front and a pre-release behind. */
  lemma ComponentsOfNumerals(parts: seq<string>, pre: string)
    requires parts != [] && forall k :: 0 <= k < |parts| ==> IsNumeral(parts[k])
    requires forall k :: 0 <= k < |pre| ==> !IsLineTerminator(pre[k])
    ensures AreValues(Components(Join(parts, '.')), parts)
    ensures AreValues(Components("v" + Join(parts, '.')), parts)
    ensures AreValues(Components(Join(parts, '.') + "-" + pre), parts)
    ensures AreValues(Components("v" + (Join(parts, '.') + "-" + pre)), parts)
  {
    StartsWithNumeral(parts);
    JoinLacks(parts, '-');
    TagIsCut(Join(parts, '.'), pre);
    PlainComponents(Join(parts, '.'), parts);
    PlainComponents("v" + Join(parts, '.'), parts);
    PlainComponents(Join(parts, '.') + "-" + pre, parts);
    PlainComponents("v" + (Join(parts, '.') + "-" + pre), parts);
  }

  lemma StartsWithNumeral(parts: seq<string>)
    requires parts != [] && IsNumeral(parts[0])
    ensures Join(parts, '.') != "" && IsDigit(Join(parts, '.')[0])
  {
  }

  lemma VIsDropped(s: string)
    requires s != "" && IsDigit(s[0])
    ensures DropV(s) == s && DropV("v" + s) == s
  {
    assert ("v" + s)[1..] == s;
  }

  lemma TagIsCut(s: string, pre: string)
    requires s != "" && IsDigit(s[0]) && Lacks(s, '-') && forall k :: 0 <= k < |pre| ==> !IsLineTerminator(pre[k])
    ensures CutPreRelease(DropV(s), 0) == s && CutPreRelease(DropV("v" + s), 0) == s
    ensures CutPreRelease(DropV(s + "-" + pre), 0) == s && CutPreRelease(DropV("v" + (s + "-" + pre)), 0) == s
  {
    VIsDropped(s);
    NothingToCut(s, 0);
    assert (s + "-" + pre)[0] == s[0];
    VIsDropped(s + "-" + pre);
    CutsAtDash(s, pre, 0);
  }

  // ----- Which greater version a bump returns -----

  predicate Above(a: Triple, b: Triple) { CompareTriples(a, b) > 0 }

  predicate AnyVersion(t: Triple) { true }

  predicate IsMinor(t: Triple) { t.2 == 0 }

  predicate IsMajor(t: Triple) { t.1 == 0 && t.2 == 0 }

  // `least` is the smallest of the versions above `from` that a bump of this kind may return.
  ghost predicate IsLeastAbove(least: Triple, from: Triple, allowed: Triple -> bool) {
    && Above(least, from) && allowed(least)
    && forall t: Triple :: Above(t, from) && allowed(t) ==> !Above(least, t)
  }

  /**
   A patch bump is the least version above the current one; a minor bump the least
   whose patch is zero; a major bump the least whose minor and patch are zero.
   The result is written without leading zeros.
   */
  lemma BumpIsLeast(current: string)
    requires IsSemver(current)
    ensures exists t: Triple :: BumpVersion(current, "patch") == Success(Show(t))
                                && IsLeastAbove(t, SemverParts(current), AnyVersion)
    ensures exists t: Triple :: BumpVersion(current, "minor") == Success(Show(t))
                                && IsLeastAbove(t, SemverParts(current), IsMinor)
    ensures exists t: Triple :: BumpVersion(current, "major") == Success(Show(t))
                                && IsLeastAbove(t, SemverParts(current), IsMajor)
  {
    NamedBump(current, "patch");
    NamedBump(current, "minor");
    NamedBump(current, "major");
    LeastBumps(SemverParts(current));
  }

  lemma LeastBumps(c: Triple)
    ensures IsLeastAbove(Bumped(c, "patch"), c, AnyVersion)
    ensures IsLeastAbove(Bumped(c, "minor"), c, IsMinor)
    ensures IsLeastAbove(Bumped(c, "major"), c, IsMajor)
  {
  }

  lemma NamedBump(current: string, bumpArg: string)
    requires IsSemver(current) && bumpArg in {"patch", "minor", "major"}
    ensures BumpVersion(current, bumpArg) == Success(Show(Bumped(SemverParts(current), bumpArg)))
  {
    if IsSemver(bumpArg) { StartsWithDigit(bumpArg); }
  }

  lemma StartsWithDigit(version: string)
    requires IsSemver(version)
    ensures version != "" && IsDigit(version[0])
  {
    JoinSplit(version, '.');
    JoinThree(Split(version, '.'));
  }

  /** An explicit version is returned as given when it is greater, and each failure has its own cause. */
  lemma BumpOutcomes(current: string, bumpArg: string)
    ensures var r := BumpVersion(current, bumpArg);
      && (IsSemver(bumpArg) && r.Success? ==> r.value == bumpArg)
      && (r == Failure(NotGreater(bumpArg)) <==>
            IsSemver(bumpArg) && IsSemver(current) && !Above(SemverParts(bumpArg), SemverParts(current)))
      && (r == Failure(InvalidBump(bumpArg)) <==> !IsSemver(bumpArg) && bumpArg !in {"patch", "minor", "major"})
      && (r == Failure(InvalidSemver(current)) <==>
            !IsSemver(current) && (IsSemver(bumpArg) || bumpArg in {"patch", "minor", "major"}))
  {
  }

  // ----- What the parsers accept -----

  /** A semantic version is three non-empty runs of digits joined by dots. */
  lemma SemverMeaning(version: string)
    ensures IsSemver(version) <==>
            exists a, b, c :: IsNumeral(a) && IsNumeral(b) && IsNumeral(c) && version == a + "." + b + "." + c
    ensures forall a, b, c :: IsNumeral(a) && IsNumeral(b) && IsNumeral(c) && version == a + "." + b + "." + c ==>
              SemverParts(version) == (Parse(a), Parse(b), Parse(c))
  {
    if IsSemver(version) {
      var p := Split(version, '.');
      JoinSplit(version, '.');
      JoinThree(p);
      assert version == p[0] + "." + p[1] + "." + p[2];
      assert IsNumeral(p[0]) && IsNumeral(p[1]) && IsNumeral(p[2]);
    }
    forall a, b, c | IsNumeral(a) && IsNumeral(b) && IsNumeral(c) && version == a + "." + b + "." + c
      ensures IsSemver(version) && SemverParts(version) == (Parse(a), Parse(b), Parse(c))
    {
      JoinThree([a, b, c]);
      SplitJoin([a, b, c], '.');
      assert version == Join([a, b, c], '.');
    }
  }

  predicate IsNumeral(s: string) { s != "" && AllDigits(s) }

  lemma {:induction false} LeadingDigitsStop(digits: string, rest: string)
    requires AllDigits(digits) && (rest == "" || !IsDigit(rest[0]))
    ensures LeadingDigits(digits + rest) == digits
  {
    if digits == "" {
      assert digits + rest == rest;
    } else {
      LeadingDigitsStop(digits[1..], rest);
      assert (digits + rest)[1..] == digits[1..] + rest && digits == [digits[0]] + digits[1..];
    }
  }

  lemma {:induction false} TrimStartStops(blank: string, s: string)
    requires (forall k :: 0 <= k < |blank| ==> IsJsSpace(blank[k])) && (s == "" || !IsJsSpace(s[0]))
    ensures TrimStart(blank + s) == s
  {
    if blank == "" {
      assert blank + s == s;
    } else {
      TrimStartStops(blank[1..], s);
      assert (blank + s)[1..] == blank[1..] + s;
    }
  }

  /** A component is its leading number, after blanks and a sign; without one it is zero. */
  lemma ParseIntMeaning(blank: string, digits: string, rest: string)
    requires forall k :: 0 <= k < |blank| ==> IsJsSpace(blank[k])
    requires AllDigits(digits) && (rest == "" || !IsDigit(rest[0]))
    ensures digits != "" ==> ParseInt(blank + (digits + rest)) == Parse(digits)
    ensures ParseInt(blank + ("+" + (digits + rest))) == Parse(digits)
    ensures ParseInt(blank + ("-" + (digits + rest))) == 0 - Parse(digits)
    ensures rest == "" || (!IsJsSpace(rest[0]) && rest[0] !in {'+', '-'}) ==> ParseInt(blank + rest) == 0
  {
    if digits != "" {
      NumberParses(digits, rest);
      BlankIsSkipped(blank, digits + rest);
    }
    SignedNumberParses(digits, rest);
    BlankIsSkipped(blank, "+" + (digits + rest));
    BlankIsSkipped(blank, "-" + (digits + rest));
    if rest == "" || (!IsJsSpace(rest[0]) && rest[0] !in {'+', '-'}) {
      BlankIsSkipped(blank, rest);
    }
  }

  lemma BlankIsSkipped(blank: string, s: string)
    requires (forall k :: 0 <= k < |blank| ==> IsJsSpace(blank[k])) && (s == "" || !IsJsSpace(s[0]))
    ensures ParseInt(blank + s) == ParseInt(s)
  {
    TrimStartStops(blank, s);
  }

  lemma NumberParses(digits: string, rest: string)
    requires digits != "" && AllDigits(digits) && (rest == "" || !IsDigit(rest[0]))
    ensures IsDigit((digits + rest)[0]) && ParseInt(digits + rest) == Parse(digits)
  {
    LeadingDigitsStop(digits, rest);
    assert (digits + rest)[0] == digits[0];
  }

  lemma SignedNumberParses(digits: string, rest: string)
    requires AllDigits(digits) && (rest == "" || !IsDigit(rest[0]))
    ensures ParseInt("+" + (digits + rest)) == Parse(digits)
    ensures ParseInt("-" + (digits + rest)) == 0 - Parse(digits)
  {
    LeadingDigitsStop(digits, rest);
    SignIsRead('+', digits + rest);
    SignIsRead('-', digits + rest);
  }

  lemma SignIsRead(sign: char, s: string)
    requires sign in {'+', '-'}
    ensures ParseInt([sign] + s) == (if sign == '-' then 0 - Parse(LeadingDigits(s)) else Parse(LeadingDigits(s)))
  {
    assert ([sign] + s)[1..] == s;
    assert TrimStart([sign] + s) == [sign] + s;
  }
}
