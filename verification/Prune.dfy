/**
 The pruning of old probe releases from the object store.

 A plan is computed from an inventory that maps keys to what the listing says
 about them.  `Acceptable` and `IsPlan` say, without any sorting, when a plan
 exists and which one it is.
 */
module Prune {
  import opened Text
  import opened Sorting
  import opened Values
  import opened Versions

  // Members that a listed object may lack are options.
  datatype Meta = Meta(size: Option<int>, etag: Option<string>)

  datatype Object = Object(key: string, meta: Meta)

  type Inventory = map<string, Meta>

  datatype Plan = Plan(keep: seq<string>, removeVersions: seq<string>, delete: seq<string>, deleteBytes: int)

  datatype Refusal = UnexpectedRelease | IncompleteRelease | LatestMismatch | MissingSize

  datatype Outcome = Planned(plan: Plan) | Refused(why: Refusal)

  const PREFIX := "apps/bat/"

  function FileName(arch: string, suffix: string): string { "bat-probe-linux-" + arch + suffix }

  const FILES: set<string> := {
    FileName("x86_64", ""), FileName("x86_64", ".sha256"), FileName("aarch64", ""), FileName("aarch64", ".sha256")}

  const KEPT_RELEASES := 3

  // ----- Keys -----

  predicate IsReleaseVersion(v: string) {
    var parts := Split(v, '.');
    |parts| == 3 && forall k :: 0 <= k < 3 ==> IsCanonical(parts[k])
  }

  // The version of a key `apps/bat/<version>/<file>`.
  function VersionOf(key: string): (v: Option<string>)
    ensures v.Some? ==> IsReleaseVersion(v.value)
  {
    if !(PREFIX <= key) then None
    else
      var parts := Split(key[|PREFIX|..], '/');
      if |parts| == 1 || !IsReleaseVersion(parts[0]) then None
      else
        var file := Join(parts[1..], '/');
        if file != "" && Lacks(file, '\n') then Some(parts[0]) else None
  }

  function FileKey(directory: string, filename: string): string {
    PREFIX + directory + "/" + filename
  }

  // The integers that versions are ordered by.
  function Rank(v: string): Triple {
    if IsSemver(v) then SemverParts(v) else (0, 0, 0)
  }

  predicate AtLeast(a: string, b: string) {
    CompareTriples(Rank(a), Rank(b)) >= 0
  }

  predicate Older(a: string, b: string) {
    CompareTriples(Rank(a), Rank(b)) < 0
  }

  lemma VersionParts(v: string)
    requires IsReleaseVersion(v)
    ensures IsSemver(v) && v == Show(SemverParts(v))
  {
    var parts := Split(v, '.');
    JoinSplit(v, '.');
    JoinThree(parts);
    PrintParse(parts[0]);
    PrintParse(parts[1]);
    PrintParse(parts[2]);
    assert v == parts[0] + "." + parts[1] + "." + parts[2];
  }

  /** Two versions that rank the same are the same directory. */
  lemma RankTellsApart(v: string, w: string)
    requires IsReleaseVersion(v) && IsReleaseVersion(w)
    ensures v == w || Older(v, w) || Older(w, v)
  {
    VersionParts(v);
    VersionParts(w);
  }

  // `v` compares below `w`.
  predicate IsBelow(v: string, w: string) {
    CompareSemver(v, w).Success? && CompareSemver(v, w).value < 0
  }

  /** The order of the plan is the semantic-version order, and so that of the component lists. */
  lemma OlderIsBelow(v: string, w: string)
    requires IsReleaseVersion(v) && IsReleaseVersion(w)
    ensures Older(v, w) <==> IsBelow(v, w)
    ensures Older(v, w) <==> exists k: nat :: FirstSmaller(Components(v), Components(w), k)
    ensures AtLeast(v, w) <==> !IsBelow(v, w)
  {
    VersionParts(v);
    VersionParts(w);
    ComparisonsAgree(v, w);
    CompareMeaning(Components(v), Components(w));
  }

  /** A release version is the print of three numbers. */
  lemma ReleaseVersionMeaning(v: string)
    ensures IsReleaseVersion(v) <==> exists t: Triple :: v == Show(t)
  {
    if IsReleaseVersion(v) { VersionParts(v); }
    forall t: Triple | v == Show(t) ensures IsReleaseVersion(v) {
      ShownIsRelease(t);
    }
  }

  lemma ShownIsRelease(t: Triple)
    ensures IsReleaseVersion(Show(t))
  {
    var parts := [Print(t.0), Print(t.1), Print(t.2)];
    JoinThree(parts);
    assert Show(t) == Join(parts, '.');
    SplitJoin(parts, '.');
    ParsePrint(t.0);
    ParsePrint(t.1);
    ParsePrint(t.2);
  }

  lemma NoSlashInVersion(v: string)
    requires IsReleaseVersion(v)
    ensures Lacks(v, '/')
  {
    var parts := Split(v, '.');
    JoinSplit(v, '.');
    JoinThree(parts);
  }

  predicate IsFileName(filename: string) {
    filename != "" && Lacks(filename, '/') && Lacks(filename, '\n')
  }

  lemma FileNameIsName(arch: string, suffix: string)
    requires Lacks(arch, '/') && Lacks(arch, '\n') && Lacks(suffix, '/') && Lacks(suffix, '\n')
    ensures IsFileName(FileName(arch, suffix))
  {
  }

  lemma FilesAreNames(filename: string)
    requires filename in FILES
    ensures IsFileName(filename)
  {
    FileNameIsName("x86_64", "");
    FileNameIsName("x86_64", ".sha256");
    FileNameIsName("aarch64", "");
    FileNameIsName("aarch64", ".sha256");
  }

  /** The key of a file in a version's directory carries that version. */
  lemma FileKeyVersion(directory: string, filename: string)
    requires IsFileName(filename) && Lacks(directory, '/')
    ensures VersionOf(FileKey(directory, filename)) == if IsReleaseVersion(directory) then Some(directory) else None
  {
    var key := FileKey(directory, filename);
    assert key[..|PREFIX|] == PREFIX && key[|PREFIX|..] == directory + ['/'] + filename;
    SplitPrefix(directory, filename, '/');
    SplitPlain(filename, '/');
    assert Split(key[|PREFIX|..], '/')[1..] == [filename];
  }

  /** A key carries a version exactly when it is that version's directory and the rest of one line. */
  lemma VersionOfMeaning(key: string, v: string)
    ensures VersionOf(key) == Some(v) <==>
            IsReleaseVersion(v) && exists file :: IsRestOfLine(file) && key == "apps/bat/" + v + "/" + file
  {
    if VersionOf(key) == Some(v) {
      var rest := key[|PREFIX|..];
      var file := Join(Split(rest, '/')[1..], '/');
      JoinSplit(rest, '/');
      assert rest == v + ['/'] + file && key == PREFIX + rest;
      assert IsRestOfLine(file) && key == "apps/bat/" + v + "/" + file;
    }
    forall file | IsReleaseVersion(v) && IsRestOfLine(file) && key == "apps/bat/" + v + "/" + file
      ensures VersionOf(key) == Some(v)
    {
      InDirectory(key, v, file);
    }
  }

  predicate IsRestOfLine(file: string) { file != "" && Lacks(file, '\n') }

  lemma InDirectory(key: string, v: string, file: string)
    requires IsReleaseVersion(v) && IsRestOfLine(file) && key == "apps/bat/" + v + "/" + file
    ensures VersionOf(key) == Some(v)
  {
    assert key[..|PREFIX|] == PREFIX && key[|PREFIX|..] == v + ['/'] + file;
    NoSlashInVersion(v);
    SplitPrefix(v, file, '/');
    JoinSplit(file, '/');
    assert Split(key[|PREFIX|..], '/')[1..] == Split(file, '/');
  }

  /** Nothing under `latest/` has a version. */
  lemma LatestHasNoVersion(key: string)
    requires PREFIX + "latest/" <= key
    ensures VersionOf(key) == None
  {
    var rest := key[|PREFIX|..];
    var tail := key[|PREFIX + "latest/"|..];
    assert PREFIX <= key;
    assert rest == "latest" + ['/'] + tail;
    SplitPrefix("latest", tail, '/');
    SplitPlain("latest", '.');
  }

  // ----- What a plan must be -----

  // `{obj["key"]: obj for obj in objects}`: the last object of a key counts.
  function Index(objects: seq<Object>): Inventory {
    if objects == [] then map[]
    else
      var last := objects[|objects| - 1];
      Index(objects[..|objects| - 1])[last.key := last.meta]
  }

  function Get(m: Inventory, key: string): Meta {
    if key in m then m[key] else Meta(None, None)
  }

  function VersionsOf(m: Inventory): set<string> {
    set key | key in m && VersionOf(key).Some? :: VersionOf(key).value
  }

  function Newer(versions: set<string>, v: string): set<string> {
    set w | w in versions && Older(v, w)
  }

  // The newest three.
  function Kept(versions: set<string>): set<string> {
    set v | v in versions && |Newer(versions, v)| < KEPT_RELEASES
  }

  predicate IsNewest(m: Inventory, release: string) {
    release in VersionsOf(m) && Newer(VersionsOf(m), release) == {}
  }

  predicate HasFile(m: Inventory, v: string, filename: string) {
    var meta := Get(m, FileKey(v, filename));
    meta.size.Some? && meta.size.value > 0 && meta.etag.Some? && meta.etag.value != ""
  }

  predicate IsComplete(m: Inventory, v: string) {
    forall f :: f in FILES ==> HasFile(m, v, f)
  }

  predicate KeptComplete(m: Inventory) {
    forall v :: v in Kept(VersionsOf(m)) ==> IsComplete(m, v)
  }

  predicate LatestMatches(m: Inventory, release: string) {
    forall f :: f in FILES ==> Get(m, FileKey("latest", f)) == Get(m, FileKey(release, f))
  }

  predicate Obsolete(m: Inventory, key: string) {
    key in m && VersionOf(key).Some? && VersionOf(key).value !in Kept(VersionsOf(m))
  }

  predicate SizesKnown(m: Inventory) {
    forall key :: key in m && Obsolete(m, key) ==> m[key].size.Some?
  }

  predicate Acceptable(m: Inventory, release: string) {
    IsNewest(m, release) && KeptComplete(m) && LatestMatches(m, release) && SizesKnown(m)
  }

  ghost predicate Descending(s: seq<string>) {
    forall i, j :: 0 <= i < j < |s| ==> Older(s[j], s[i])
  }

  ghost predicate Ascending(s: seq<string>) {
    forall i, j :: 0 <= i < j < |s| ==> StringLeq(s[i], s[j]) && s[i] != s[j]
  }

  function SumSizes(m: Inventory, keys: seq<string>): int {
    if keys == [] then 0
    else SumSizes(m, keys[..|keys| - 1]) + GetOr(Get(m, keys[|keys| - 1]).size, 0)
  }

  ghost predicate IsPlan(m: Inventory, plan: Plan) {
    && Descending(plan.keep) && (forall v :: v in plan.keep <==> v in Kept(VersionsOf(m)))
    && Descending(plan.removeVersions)
    && (forall v :: v in plan.removeVersions <==> v in VersionsOf(m) - Kept(VersionsOf(m)))
    && Ascending(plan.delete) && (forall key :: key in plan.delete <==> Obsolete(m, key))
    && plan.deleteBytes == SumSizes(m, plan.delete)
  }

  // ----- Ranking -----

  lemma AtLeastIsOrder()
    ensures IsTotalPreorder(AtLeast)
  {
  }

  lemma OrderedDescends(names: seq<string>)
    requires Distinct(names) && forall v :: v in names ==> IsReleaseVersion(v)
    ensures Descending(Sort(names, AtLeast))
    ensures forall v :: v in Sort(names, AtLeast) <==> v in names
  {
    AtLeastIsOrder();
    SortSorts(names, AtLeast);
    SortKeepsDistinct(names, AtLeast);
    SortedMembers(names, AtLeast);
    var r := Sort(names, AtLeast);
    forall i, j | 0 <= i < j < |r| ensures Older(r[j], r[i]) {
      assert r[i] in r && r[j] in r;
      RankTellsApart(r[i], r[j]);
    }
  }

  lemma NewerIsPrefix(versions: set<string>, ordered: seq<string>, i: nat)
    requires Descending(ordered) && (forall v :: v in ordered <==> v in versions) && i < |ordered|
    ensures Newer(versions, ordered[i]) == (set v | v in ordered[..i])
    ensures |Newer(versions, ordered[i])| == i
  {
    forall v ensures v in Newer(versions, ordered[i]) <==> v in ordered[..i] {
      if v in ordered {
        var j :| 0 <= j < |ordered| && ordered[j] == v;
        assert j < i ==> ordered[..i][j] == v;
      }
    }
    DistinctSize(ordered[..i]);
  }

  function Newest(ordered: seq<string>): seq<string> {
    if |ordered| > KEPT_RELEASES then ordered[..KEPT_RELEASES] else ordered
  }

  lemma KeptByIndex(versions: set<string>, ordered: seq<string>, i: nat)
    requires Descending(ordered) && (forall v :: v in ordered <==> v in versions) && i < |ordered|
    ensures ordered[i] in Kept(versions) <==> i < KEPT_RELEASES
    ensures i == 0 ==> Newer(versions, ordered[0]) == {}
  {
    NewerIsPrefix(versions, ordered, i);
    assert ordered[i] in ordered;
  }

  lemma SplitMembers(ordered: seq<string>, kept: set<string>, n: nat)
    requires n <= |ordered| && forall i :: 0 <= i < |ordered| ==> (ordered[i] in kept <==> i < n)
    ensures forall v :: v in ordered[..n] <==> v in ordered && v in kept
    ensures forall v :: v in ordered[n..] <==> v in ordered && v !in kept
  {
    forall v | v in ordered ensures v in ordered[..n] <==> v in kept
                            ensures v in ordered[n..] <==> v !in kept
    {
      var j :| 0 <= j < |ordered| && ordered[j] == v;
      assert j < n ==> ordered[..n][j] == v;
      assert j >= n ==> ordered[n..][j - n] == v;
    }
  }

  lemma NewestAreKept(versions: set<string>, ordered: seq<string>)
    requires Descending(ordered) && forall v :: v in ordered <==> v in versions
    ensures forall v :: v in Newest(ordered) <==> v in Kept(versions)
    ensures forall v :: v in ordered[|Newest(ordered)|..] <==> v in versions - Kept(versions)
    ensures ordered != [] ==> Newer(versions, ordered[0]) == {}
  {
    forall i | 0 <= i < |ordered|
      ensures ordered[i] in Kept(versions) <==> i < |Newest(ordered)|
      ensures i == 0 ==> Newer(versions, ordered[0]) == {}
    {
      KeptByIndex(versions, ordered, i);
    }
    SplitMembers(ordered, Kept(versions), |Newest(ordered)|);
  }

  // ----- Computing the plan -----

  // `versions` is a dictionary: its keys in the order of insertion, and its values.
  ghost predicate Grouped(versionOf: string -> Option<string>, keys: set<string>, names: seq<string>,
                          groups: map<string, seq<string>>) {
    && Distinct(names) && (forall v :: v in names <==> v in groups)
    && (forall key :: key in keys && versionOf(key).Some? ==>
          versionOf(key).value in groups && key in groups[versionOf(key).value])
    && (forall v :: v in groups ==> groups[v] != [] && Distinct(groups[v]))
    && (forall v, key :: v in groups && key in groups[v] ==> key in keys && versionOf(key) == Some(v))
  }

  lemma GroupsAreVersions(byKey: Inventory, names: seq<string>, groups: map<string, seq<string>>)
    requires Grouped(VersionOf, byKey.Keys, names, groups)
    ensures forall v :: v in names <==> v in VersionsOf(byKey)
    ensures forall v :: v in names ==> IsReleaseVersion(v)
  {
    forall v | v in names ensures v in VersionsOf(byKey) && IsReleaseVersion(v) {
      var key := groups[v][0];
      assert key in groups[v] && key in byKey && VersionOf(key) == Some(v);
    }
  }

  lemma OneMoreKey(versionOf: string -> Option<string>, keys: set<string>, names: seq<string>,
                   groups: map<string, seq<string>>, key: string)
    requires Grouped(versionOf, keys, names, groups) && key !in keys && versionOf(key).None?
    ensures Grouped(versionOf, keys + {key}, names, groups)
  {
  }

  lemma OneMoreGroup(versionOf: string -> Option<string>, keys: set<string>, names: seq<string>,
                     groups: map<string, seq<string>>, key: string, v: string)
    requires Grouped(versionOf, keys, names, groups) && key !in keys && versionOf(key) == Some(v) && v !in groups
    ensures Grouped(versionOf, keys + {key}, names + [v], groups[v := [key]])
  {
  }

  lemma OneMoreInGroup(versionOf: string -> Option<string>, keys: set<string>, names: seq<string>,
                       groups: map<string, seq<string>>, key: string, v: string)
    requires Grouped(versionOf, keys, names, groups) && key !in keys && versionOf(key) == Some(v) && v in groups
    ensures Grouped(versionOf, keys + {key}, names, groups[v := groups[v] + [key]])
  {
  }

  method GroupByVersion(keys: set<string>, versionOf: string -> Option<string>)
    returns (names: seq<string>, groups: map<string, seq<string>>)
    ensures Grouped(versionOf, keys, names, groups)
  {
    names, groups := [], map[];
    var todo := keys;
    ghost var done: set<string> := {};
    while todo != {}
      invariant done !! todo && done + todo == keys
      invariant Grouped(versionOf, done, names, groups)
    {
      var key :| key in todo;
      var v := versionOf(key);
      if v.None? {
        OneMoreKey(versionOf, done, names, groups, key);
      } else if v.value !in groups {
        OneMoreGroup(versionOf, done, names, groups, key, v.value);
        names := names + [v.value];
        groups := groups[v.value := [key]];
      } else {
        OneMoreInGroup(versionOf, done, names, groups, key, v.value);
        groups := groups[v.value := groups[v.value] + [key]];
      }
      todo := todo - {key};
      done := done + {key};
    }
  }

  method CheckFiles(byKey: Inventory, v: string) returns (complete: bool)
    ensures complete == IsComplete(byKey, v)
  {
    var todo := FILES;
    while todo != {}
      invariant todo <= FILES
      invariant forall f :: f in FILES - todo ==> HasFile(byKey, v, f)
    {
      var filename :| filename in todo;
      if !HasFile(byKey, v, filename) {
        return false;
      }
      todo := todo - {filename};
    }
    complete := true;
  }

  method CheckLatest(byKey: Inventory, release: string) returns (same: bool)
    ensures same == LatestMatches(byKey, release)
  {
    var todo := FILES;
    while todo != {}
      invariant todo <= FILES
      invariant forall f :: f in FILES - todo ==> Get(byKey, FileKey("latest", f)) == Get(byKey, FileKey(release, f))
    {
      var filename :| filename in todo;
      if Get(byKey, FileKey("latest", filename)) != Get(byKey, FileKey(release, filename)) {
        return false;
      }
      todo := todo - {filename};
    }
    same := true;
  }

  method CheckKept(byKey: Inventory, keep: seq<string>) returns (complete: bool)
    requires forall v :: v in keep <==> v in Kept(VersionsOf(byKey))
    ensures complete == KeptComplete(byKey)
  {
    for i := 0 to |keep|
      invariant forall k :: 0 <= k < i ==> IsComplete(byKey, keep[k])
    {
      var ok := CheckFiles(byKey, keep[i]);
      if !ok {
        return false;
      }
    }
    complete := true;
  }

  method KeysOf(groups: map<string, seq<string>>, removed: seq<string>) returns (keys: seq<string>)
    requires Distinct(removed) && forall v :: v in removed ==> v in groups && Distinct(groups[v])
    requires forall v, w, key :: v in groups && w in groups && key in groups[v] && key in groups[w] ==> v == w
    ensures Distinct(keys)
    ensures forall key :: key in keys <==> exists v :: v in removed && key in groups[v]
  {
    keys := [];
    for i := 0 to |removed|
      invariant Distinct(keys)
      invariant forall key :: key in keys <==> exists k :: 0 <= k < i && key in groups[removed[k]]
    {
      forall key | key in keys ensures key !in groups[removed[i]] {
        var k :| 0 <= k < i && key in groups[removed[k]];
        assert removed[k] in removed && removed[i] in removed;
      }
      DistinctConcat(keys, groups[removed[i]]);
      keys := keys + groups[removed[i]];
    }
  }

  // `sum(...)`, which raises when a size is missing.
  method TotalSize(byKey: Inventory, keys: seq<string>) returns (total: Option<int>)
    requires forall key :: key in keys <==> Obsolete(byKey, key)
    ensures total == if SizesKnown(byKey) then Some(SumSizes(byKey, keys)) else None
  {
    var sum := 0;
    for i := 0 to |keys|
      invariant forall k :: 0 <= k < i ==> keys[k] in byKey && byKey[keys[k]].size.Some?
      invariant sum == SumSizes(byKey, keys[..i])
    {
      assert keys[i] in keys && Obsolete(byKey, keys[i]);
      if byKey[keys[i]].size.None? {
        return None;
      }
      sum := sum + byKey[keys[i]].size.value;
      assert keys[..i + 1][..i] == keys[..i];
    }
    assert keys[..|keys|] == keys;
    assert forall key :: key in keys ==> byKey[key].size.Some?;
    total := Some(sum);
  }

  lemma SortAscends(keys: seq<string>)
    requires Distinct(keys)
    ensures Ascending(Sort(keys, StringLeq))
    ensures forall key :: key in Sort(keys, StringLeq) <==> key in keys
  {
    StringLeqIsOrder();
    SortSorts(keys, StringLeq);
    SortKeepsDistinct(keys, StringLeq);
    SortedMembers(keys, StringLeq);
  }

  method IndexObjects(objects: seq<Object>) returns (byKey: Inventory)
    ensures byKey == Index(objects)
  {
    byKey := map[];
    for i := 0 to |objects|
      invariant byKey == Index(objects[..i])
    {
      assert objects[..i + 1][..i] == objects[..i];
      byKey := byKey[objects[i].key := objects[i].meta];
    }
    assert objects[..|objects|] == objects;
  }

  method OrderVersions(byKey: Inventory, names: seq<string>) returns (ordered: seq<string>)
    requires Distinct(names) && (forall v :: v in names <==> v in VersionsOf(byKey))
    ensures Descending(ordered)
    ensures forall v :: v in Newest(ordered) <==> v in Kept(VersionsOf(byKey))
    ensures forall v :: v in ordered[|Newest(ordered)|..] <==> v in VersionsOf(byKey) - Kept(VersionsOf(byKey))
    ensures forall release :: IsNewest(byKey, release) <==> ordered != [] && ordered[0] == release
  {
    ordered := Sort(names, AtLeast);
    OrderedDescends(names);
    NewestAreKept(VersionsOf(byKey), ordered);
    forall release | IsNewest(byKey, release) ensures ordered != [] && ordered[0] == release {
      assert release in ordered;
      var i :| 0 <= i < |ordered| && ordered[i] == release;
      NewerIsPrefix(VersionsOf(byKey), ordered, i);
    }
    if ordered != [] { assert ordered[0] in ordered; }
  }

  lemma GroupsHoldObsolete(byKey: Inventory, names: seq<string>, versions: map<string, seq<string>>,
                           removed: seq<string>, key: string)
    requires Grouped(VersionOf, byKey.Keys, names, versions)
    requires forall v :: v in removed <==> v in VersionsOf(byKey) - Kept(VersionsOf(byKey))
    ensures (exists v :: v in removed && v in versions && key in versions[v]) <==> Obsolete(byKey, key)
  {
    if Obsolete(byKey, key) {
      assert VersionOf(key).value in removed;
    }
  }

  // `sorted(key for version in ordered[3:] for key in versions[version])`
  method OldKeys(byKey: Inventory, names: seq<string>, versions: map<string, seq<string>>, removed: seq<string>)
    returns (delete: seq<string>)
    requires Grouped(VersionOf, byKey.Keys, names, versions) && Distinct(removed)
    requires forall v :: v in removed <==> v in VersionsOf(byKey) - Kept(VersionsOf(byKey))
    ensures Ascending(delete) && forall key :: key in delete <==> Obsolete(byKey, key)
  {
    GroupsAreVersions(byKey, names, versions);
    assert forall v :: v in removed ==> v in VersionsOf(byKey) && v in names && v in versions;
    forall v, w, key | v in versions && w in versions && key in versions[v] && key in versions[w] ensures v == w {
      assert VersionOf(key) == Some(v) && VersionOf(key) == Some(w);
    }
    var keys := KeysOf(versions, removed);
    delete := Sort(keys, StringLeq);
    SortAscends(keys);
    forall key ensures key in delete <==> Obsolete(byKey, key) {
      GroupsHoldObsolete(byKey, names, versions, removed, key);
    }
  }

  lemma DescendingIsDistinct(s: seq<string>)
    requires Descending(s)
    ensures Distinct(s)
  {
  }

  // The two loops of checks, in their order.
  method CheckFilesKept(byKey: Inventory, release: string, keep: seq<string>) returns (refusal: Option<Refusal>)
    requires forall v :: v in keep <==> v in Kept(VersionsOf(byKey))
    ensures refusal == if !KeptComplete(byKey) then Some(IncompleteRelease)
                       else if !LatestMatches(byKey, release) then Some(LatestMismatch)
                       else None
  {
    var complete := CheckKept(byKey, keep);
    if !complete {
      return Some(IncompleteRelease);
    }
    var same := CheckLatest(byKey, release);
    refusal := if same then None else Some(LatestMismatch);
  }

  lemma PlanOfParts(m: Inventory, plan: Plan)
    requires Descending(plan.keep) && forall v :: v in plan.keep <==> v in Kept(VersionsOf(m))
    requires Descending(plan.removeVersions)
    requires forall v :: v in plan.removeVersions <==> v in VersionsOf(m) - Kept(VersionsOf(m))
    requires Ascending(plan.delete) && forall key :: key in plan.delete <==> Obsolete(m, key)
    requires plan.deleteBytes == SumSizes(m, plan.delete)
    ensures IsPlan(m, plan)
  {
  }

  /** Plans exactly when the inventory is acceptable; the refusal names the first check that fails. */
  method CleanupPlan(objects: seq<Object>, release: string) returns (r: Outcome)
    ensures r.Planned? <==> Acceptable(Index(objects), release)
    ensures r.Planned? ==> IsPlan(Index(objects), r.plan) && r.plan.keep != [] && r.plan.keep[0] == release
    ensures r == Refused(UnexpectedRelease) <==> !IsNewest(Index(objects), release)
    ensures r == Refused(IncompleteRelease) <==> IsNewest(Index(objects), release) && !KeptComplete(Index(objects))
    ensures r == Refused(LatestMismatch) <==>
      IsNewest(Index(objects), release) && KeptComplete(Index(objects)) && !LatestMatches(Index(objects), release)
  {
    var byKey := IndexObjects(objects);
    var names, versions := GroupByVersion(byKey.Keys, VersionOf);
    GroupsAreVersions(byKey, names, versions);
    var ordered := OrderVersions(byKey, names);
    var keep := Newest(ordered);
    var removed := ordered[|keep|..];
    DescendingIsDistinct(removed);
    if keep == [] || keep[0] != release {
      return Refused(UnexpectedRelease);
    }
    var refusal := CheckFilesKept(byKey, release, keep);
    if refusal.Some? {
      return Refused(refusal.value);
    }
    var delete := OldKeys(byKey, names, versions, removed);
    var total := TotalSize(byKey, delete);
    if total.None? {
      return Refused(MissingSize);
    }
    r := Planned(Plan(keep, removed, delete, total.value));
    PlanOfParts(byKey, r.plan);
  }

  // ----- What a plan means -----

  lemma {:induction false} AscendingIsUnique(s: seq<string>, t: seq<string>)
    requires Ascending(s) && Ascending(t) && forall x :: x in s <==> x in t
    ensures s == t
  {
    StringLeqIsOrder();
    assert t != [] ==> t[0] in t;
    if s != [] {
      assert s[0] in t;
      var i :| 0 <= i < |t| && t[i] == s[0];
      assert t[0] in s;
      var j :| 0 <= j < |s| && s[j] == t[0];
      assert i == 0 && j == 0;
      TailMembers(s);
      TailMembers(t);
      AscendingIsUnique(s[1..], t[1..]);
      assert s == [s[0]] + s[1..] && t == [t[0]] + t[1..];
    }
  }

  lemma TailMembers(s: seq<string>)
    requires Distinct(s) && s != []
    ensures forall x :: x in s[1..] <==> x in s && x != s[0]
  {
    assert s == [s[0]] + s[1..];
  }

  lemma {:induction false} DescendingIsUnique(s: seq<string>, t: seq<string>)
    requires Descending(s) && Descending(t) && forall x :: x in s <==> x in t
    ensures s == t
  {
    assert t != [] ==> t[0] in t;
    if s != [] {
      assert s[0] in t;
      var i :| 0 <= i < |t| && t[i] == s[0];
      assert t[0] in s;
      var j :| 0 <= j < |s| && s[j] == t[0];
      assert i == 0 && j == 0;
      TailMembers(s);
      TailMembers(t);
      DescendingIsUnique(s[1..], t[1..]);
      assert s == [s[0]] + s[1..] && t == [t[0]] + t[1..];
    }
  }

  /** An inventory has at most one plan. */
  lemma PlanIsUnique(m: Inventory, p: Plan, q: Plan)
    requires IsPlan(m, p) && IsPlan(m, q)
    ensures p == q
  {
    DescendingIsUnique(p.keep, q.keep);
    DescendingIsUnique(p.removeVersions, q.removeVersions);
    AscendingIsUnique(p.delete, q.delete);
  }

  /** Deletes only files of versions that compare below every kept one, never under `latest/`. */
  lemma DeletesOnlyOldVersions(m: Inventory, plan: Plan, key: string, kept: string)
    requires IsPlan(m, plan) && key in plan.delete && kept in plan.keep
    ensures key in m && VersionOf(key).Some? && IsBelow(VersionOf(key).value, kept)
    ensures VersionOf(key) != Some(kept)
    ensures !(PREFIX + "latest/" <= key)
    ensures forall k :: k in m && VersionOf(k).None? ==> k !in plan.delete
  {
    var versions := VersionsOf(m);
    var v := VersionOf(key).value;
    assert v in versions && v !in Kept(versions) && kept in Kept(versions);
    if PREFIX + "latest/" <= key { LatestHasNoVersion(key); }
    KeptAreNewer(versions, v, kept);
    OlderIsBelow(v, kept);
  }

  /**
   The kept releases are the newest three, newest first: as many as there are up
   to three, each compares below the one before it, and every other version of
   the inventory compares below all of them.
   */
  lemma KeepIsNewestThree(m: Inventory, plan: Plan)
    requires IsPlan(m, plan)
    ensures |plan.keep| == if |VersionsOf(m)| < 3 then |VersionsOf(m)| else 3
    ensures forall v :: v in plan.keep ==> v in VersionsOf(m)
    ensures forall i, j :: 0 <= i < j < |plan.keep| ==> IsBelow(plan.keep[j], plan.keep[i])
    ensures forall v, w :: v in VersionsOf(m) && v !in plan.keep && w in plan.keep ==> IsBelow(v, w)
  {
    KeptCount(VersionsOf(m), plan.keep, plan.removeVersions);
    forall i, j | 0 <= i < j < |plan.keep| ensures IsBelow(plan.keep[j], plan.keep[i]) {
      assert plan.keep[i] in plan.keep && plan.keep[j] in plan.keep;
      OlderIsBelow(plan.keep[j], plan.keep[i]);
    }
    forall v, w | v in VersionsOf(m) && v !in plan.keep && w in plan.keep ensures IsBelow(v, w) {
      KeptAreNewer(VersionsOf(m), v, w);
      OlderIsBelow(v, w);
    }
  }

  lemma KeptCount(versions: set<string>, keep: seq<string>, removed: seq<string>)
    requires Descending(keep) && (forall v :: v in keep <==> v in Kept(versions))
    requires Descending(removed) && (forall v :: v in removed <==> v in versions - Kept(versions))
    requires forall v :: v in versions ==> IsReleaseVersion(v)
    ensures |keep| == if |versions| < 3 then |versions| else 3
  {
    var ordered := keep + removed;
    KeptThenRemoved(versions, keep, removed);
    DescendingIsDistinct(ordered);
    DistinctSize(ordered);
    assert versions == set v | v in ordered;
    if keep != [] {
      var last := |keep| - 1;
      KeptByIndex(versions, ordered, last);
      assert ordered[last] == keep[last] && keep[last] in keep;
    }
    if removed != [] {
      KeptByIndex(versions, ordered, |keep|);
      assert ordered[|keep|] == removed[0] && removed[0] in removed;
    }
  }

  /** Planned are exactly the keys of the versions that are not kept, and those versions are the ones removed. */
  lemma DeleteIsTheRest(m: Inventory, plan: Plan, key: string, v: string)
    requires IsPlan(m, plan)
    ensures key in plan.delete <==> key in m && VersionOf(key).Some? && VersionOf(key).value !in plan.keep
    ensures v in plan.removeVersions <==> (exists k :: k in plan.delete && VersionOf(k) == Some(v))
  {
    if v in plan.removeVersions {
      var k :| k in m && VersionOf(k) == Some(v);
      assert Obsolete(m, k);
    }
  }

  /** The expected release is the newest exactly when it is uploaded and nothing compares above it. */
  lemma NewestMeaning(m: Inventory, release: string)
    ensures IsNewest(m, release) <==>
            release in VersionsOf(m) && forall v :: v in VersionsOf(m) && v != release ==> IsBelow(v, release)
  {
    if release in VersionsOf(m) {
      forall v | v in VersionsOf(m) ensures v in Newer(VersionsOf(m), release)
          <==> v != release && !IsBelow(v, release) {
        RankTellsApart(release, v);
        OlderIsBelow(release, v);
        OlderIsBelow(v, release);
      }
    }
  }

  /** `a + b` are summed separately, and one key contributes its size: so a plan's bytes are the sizes of its keys. */
  lemma {:induction false} SizesAdd(m: Inventory, a: seq<string>, b: seq<string>)
    ensures SumSizes(m, a + b) == SumSizes(m, a) + SumSizes(m, b)
    ensures forall key :: key in m && m[key].size.Some? ==> SumSizes(m, [key]) == m[key].size.value
  {
    if b == [] {
      assert a + b == a;
    } else {
      SizesAdd(m, a, b[..|b| - 1]);
      assert (a + b)[..|a + b| - 1] == a + b[..|b| - 1];
    }
    forall key | key in m && m[key].size.Some? ensures SumSizes(m, [key]) == m[key].size.value {
      assert [key][..0] == [];
    }
  }

  // The last object with this key is at `i`.
  ghost predicate IsLastOf(objects: seq<Object>, key: string, i: nat) {
    i < |objects| && objects[i].key == key && forall j :: i < j < |objects| ==> objects[j].key != key
  }

  /** Of several objects with one key the last counts. */
  lemma {:induction false} IndexMeaning(objects: seq<Object>, key: string)
    ensures key in Index(objects) <==> exists i: nat :: IsLastOf(objects, key, i)
    ensures forall i: nat :: IsLastOf(objects, key, i) ==>
        key in Index(objects) && Index(objects)[key] == objects[i].meta
  {
    if objects != [] {
      var last := |objects| - 1;
      var rest := objects[..last];
      IndexMeaning(rest, key);
      if objects[last].key == key {
        assert IsLastOf(objects, key, last);
        forall i: nat | IsLastOf(objects, key, i) ensures i == last {}
      } else {
        forall i: nat ensures IsLastOf(objects, key, i) <==> IsLastOf(rest, key, i) {}
      }
    }
  }

  // An object with a positive size and an entity tag.
  predicate IsStored(m: Inventory, key: string) {
    && key in m && m[key].size.Some? && m[key].size.value > 0
    && m[key].etag.Some? && m[key].etag.value != ""
  }

  predicate SameObject(m: Inventory, key: string, other: string) {
    key in m && other in m && m[key] == m[other]
  }

  lemma FourFiles()
    ensures FILES == {"bat-probe-linux-x86_64", "bat-probe-linux-x86_64.sha256",
                      "bat-probe-linux-aarch64", "bat-probe-linux-aarch64.sha256"}
  {
    assert FileName("x86_64", "") == "bat-probe-linux-x86_64";
    assert FileName("x86_64", ".sha256") == "bat-probe-linux-x86_64.sha256";
    assert FileName("aarch64", "") == "bat-probe-linux-aarch64";
    assert FileName("aarch64", ".sha256") == "bat-probe-linux-aarch64.sha256";
  }

  lemma CompleteMeaning(m: Inventory, v: string)
    ensures IsComplete(m, v) <==>
      && IsStored(m, "apps/bat/" + v + "/" + "bat-probe-linux-x86_64")
      && IsStored(m, "apps/bat/" + v + "/" + "bat-probe-linux-x86_64.sha256")
      && IsStored(m, "apps/bat/" + v + "/" + "bat-probe-linux-aarch64")
      && IsStored(m, "apps/bat/" + v + "/" + "bat-probe-linux-aarch64.sha256")
  {
    FourFiles();
    forall f ensures HasFile(m, v, f) <==> IsStored(m, "apps/bat/" + v + "/" + f) {}
  }

  lemma LatestMeaning(m: Inventory, release: string)
    requires IsComplete(m, release)
    ensures LatestMatches(m, release) <==>
      && SameObject(m, "apps/bat/" + "latest" + "/" + "bat-probe-linux-x86_64",
                    "apps/bat/" + release + "/" + "bat-probe-linux-x86_64")
      && SameObject(m, "apps/bat/" + "latest" + "/" + "bat-probe-linux-x86_64.sha256",
                    "apps/bat/" + release + "/" + "bat-probe-linux-x86_64.sha256")
      && SameObject(m, "apps/bat/" + "latest" + "/" + "bat-probe-linux-aarch64",
                    "apps/bat/" + release + "/" + "bat-probe-linux-aarch64")
      && SameObject(m, "apps/bat/" + "latest" + "/" + "bat-probe-linux-aarch64.sha256",
                    "apps/bat/" + release + "/" + "bat-probe-linux-aarch64.sha256")
  {
    FourFiles();
    forall f | f in FILES
      ensures Get(m, FileKey("latest", f)) == Get(m, FileKey(release, f)) <==>
              SameObject(m, "apps/bat/" + "latest" + "/" + f, "apps/bat/" + release + "/" + f)
    {
      assert HasFile(m, release, f);
    }
  }

  /**
   What the checks of a plan ask for: the four files of every kept release, a
   `latest/` that copies those of the expected one, and a size for every object
   of a version that is not kept.
   */
  lemma AcceptableMeaning(m: Inventory, release: string)
    ensures Acceptable(m, release) <==>
      && IsNewest(m, release)
      && (forall v :: v in Kept(VersionsOf(m)) ==>
            && IsStored(m, "apps/bat/" + v + "/" + "bat-probe-linux-x86_64")
            && IsStored(m, "apps/bat/" + v + "/" + "bat-probe-linux-x86_64.sha256")
            && IsStored(m, "apps/bat/" + v + "/" + "bat-probe-linux-aarch64")
            && IsStored(m, "apps/bat/" + v + "/" + "bat-probe-linux-aarch64.sha256"))
      && SameObject(m, "apps/bat/" + "latest" + "/" + "bat-probe-linux-x86_64",
                    "apps/bat/" + release + "/" + "bat-probe-linux-x86_64")
      && SameObject(m, "apps/bat/" + "latest" + "/" + "bat-probe-linux-x86_64.sha256",
                    "apps/bat/" + release + "/" + "bat-probe-linux-x86_64.sha256")
      && SameObject(m, "apps/bat/" + "latest" + "/" + "bat-probe-linux-aarch64",
                    "apps/bat/" + release + "/" + "bat-probe-linux-aarch64")
      && SameObject(m, "apps/bat/" + "latest" + "/" + "bat-probe-linux-aarch64.sha256",
                    "apps/bat/" + release + "/" + "bat-probe-linux-aarch64.sha256")
      && (forall key :: key in m && VersionOf(key).Some? && VersionOf(key).value !in Kept(VersionsOf(m)) ==>
            m[key].size.Some?)
  {
    forall v { CompleteMeaning(m, v); }
    if IsNewest(m, release) {
      assert release in Kept(VersionsOf(m));
      if IsComplete(m, release) { LatestMeaning(m, release); }
    }
  }

  lemma KeptAreNewer(versions: set<string>, v: string, kept: string)
    requires v in versions && v !in Kept(versions) && kept in Kept(versions)
    requires IsReleaseVersion(v) && IsReleaseVersion(kept)
    ensures Older(v, kept)
  {
    RankTellsApart(v, kept);
    if Older(kept, v) {
      assert Newer(versions, v) <= Newer(versions, kept);
      SubsetSize(Newer(versions, v), Newer(versions, kept));
    }
  }

  lemma SubsetSize<T>(a: set<T>, b: set<T>)
    requires a <= b
    ensures |a| <= |b|
  {
    assert b == a + (b - a);
  }

  // ----- Resuming -----

  lemma KeptThenRemoved(versions: set<string>, keep: seq<string>, removed: seq<string>)
    requires Descending(keep) && (forall v :: v in keep <==> v in Kept(versions))
    requires Descending(removed) && (forall v :: v in removed <==> v in versions - Kept(versions))
    requires forall v :: v in versions ==> IsReleaseVersion(v)
    ensures Descending(keep + removed) && forall v :: v in keep + removed <==> v in versions
  {
    var ordered := keep + removed;
    forall i, j | 0 <= i < j < |ordered| ensures Older(ordered[j], ordered[i]) {
      if i < |keep| <= j {
        assert keep[i] in keep && removed[j - |keep|] in removed;
        KeptAreNewer(versions, removed[j - |keep|], keep[i]);
      }
    }
  }

  lemma KeptFillUp(versions: set<string>, keep: seq<string>, removed: seq<string>)
    requires Descending(keep) && (forall v :: v in keep <==> v in Kept(versions))
    requires Descending(removed) && (forall v :: v in removed <==> v in versions - Kept(versions))
    requires forall v :: v in versions ==> IsReleaseVersion(v)
    requires removed != []
    ensures |Kept(versions)| >= KEPT_RELEASES
  {
    KeptThenRemoved(versions, keep, removed);
    var ordered := keep + removed;
    assert ordered[|keep|] == removed[0] && removed[0] in removed;
    NewerIsPrefix(versions, ordered, |keep|);
    DistinctSize(keep);
    assert Kept(versions) == set v | v in keep;
  }

  /** Taking away versions that are not kept changes nothing about which are kept. */
  lemma KeptAfterRemoval(versions: set<string>, left: set<string>, keep: seq<string>, removed: seq<string>)
    requires Descending(keep) && (forall v :: v in keep <==> v in Kept(versions))
    requires Descending(removed) && (forall v :: v in removed <==> v in versions - Kept(versions))
    requires forall v :: v in versions ==> IsReleaseVersion(v)
    requires Kept(versions) <= left <= versions
    ensures Kept(left) == Kept(versions)
  {
    forall v | v in left ensures v in Kept(left) <==> v in Kept(versions) {
      if v in Kept(versions) {
        SubsetSize(Newer(left, v), Newer(versions, v));
      } else {
        assert v in removed;
        KeptFillUp(versions, keep, removed);
        forall w | w in Kept(versions) ensures Older(v, w) { KeptAreNewer(versions, v, w); }
        assert Kept(versions) <= Newer(left, v);
        SubsetSize(Kept(versions), Newer(left, v));
      }
    }
  }

  lemma VersionsLeft(m: Inventory, plan: Plan, done: set<string>)
    requires IsPlan(m, plan) && forall key :: key in done ==> key in plan.delete
    ensures Kept(VersionsOf(m)) <= VersionsOf(m - done) <= VersionsOf(m)
    ensures Kept(VersionsOf(m - done)) == Kept(VersionsOf(m))
  {
    forall v | v in Kept(VersionsOf(m)) ensures v in VersionsOf(m - done) {
      var key :| key in m && VersionOf(key) == Some(v);
      assert !Obsolete(m, key) && key in m - done;
    }
    KeptAfterRemoval(VersionsOf(m), VersionsOf(m - done), plan.keep, plan.removeVersions);
  }

  lemma ObsoleteLeft(m: Inventory, plan: Plan, done: set<string>, key: string)
    requires IsPlan(m, plan) && forall k :: k in done ==> k in plan.delete
    ensures Obsolete(m - done, key) <==> Obsolete(m, key) && key !in done
  {
    VersionsLeft(m, plan, done);
  }

  lemma KeptFilesLeft(m: Inventory, plan: Plan, done: set<string>, directory: string, filename: string)
    requires IsPlan(m, plan) && forall key :: key in done ==> key in plan.delete
    requires filename in FILES && (directory in Kept(VersionsOf(m)) || directory == "latest")
    ensures Get(m - done, FileKey(directory, filename)) == Get(m, FileKey(directory, filename))
  {
    if directory == "latest" {
      assert PREFIX + "latest/" <= FileKey(directory, filename);
      LatestHasNoVersion(FileKey(directory, filename));
    } else {
      NoSlashInVersion(directory);
      FilesAreNames(filename);
      FileKeyVersion(directory, filename);
    }
    assert !Obsolete(m, FileKey(directory, filename));
  }

  lemma StillAcceptable(m: Inventory, release: string, plan: Plan, done: set<string>)
    requires Acceptable(m, release) && IsPlan(m, plan) && forall key :: key in done ==> key in plan.delete
    ensures Acceptable(m - done, release)
  {
    VersionsLeft(m, plan, done);
    assert release in Kept(VersionsOf(m));
    forall v, f | v in Kept(VersionsOf(m)) && f in FILES ensures HasFile(m - done, v, f) {
      KeptFilesLeft(m, plan, done, v, f);
      assert IsComplete(m, v);
    }
    forall f | f in FILES ensures Get(m - done, FileKey("latest", f)) == Get(m - done, FileKey(release, f)) {
      KeptFilesLeft(m, plan, done, "latest", f);
      KeptFilesLeft(m, plan, done, release, f);
    }
    forall key | key in m - done && Obsolete(m - done, key) ensures (m - done)[key].size.Some? {
      ObsoleteLeft(m, plan, done, key);
    }
  }

  // The members of `keys` that are not done, in order.
  function Without(keys: seq<string>, done: set<string>): (r: seq<string>)
    ensures forall key :: key in r <==> key in keys && key !in done
  {
    if keys == [] then []
    else
      var last := keys[|keys| - 1];
      assert keys == keys[..|keys| - 1] + [last];
      Without(keys[..|keys| - 1], done) + (if last in done then [] else [last])
  }

  lemma {:induction false} WithoutAscends(keys: seq<string>, done: set<string>)
    requires Ascending(keys)
    ensures Ascending(Without(keys, done))
  {
    if keys != [] {
      var rest, last := keys[..|keys| - 1], keys[|keys| - 1];
      WithoutAscends(rest, done);
      var r := Without(rest, done);
      forall i | 0 <= i < |r| ensures StringLeq(r[i], last) && r[i] != last {
        assert r[i] in rest;
        var k :| 0 <= k < |rest| && keys[k] == r[i];
      }
    }
  }

  lemma {:induction false} NothingLeft(keys: seq<string>, done: set<string>)
    requires forall key :: key in keys ==> key in done
    ensures Without(keys, done) == []
  {
    if keys != [] {
      assert keys[|keys| - 1] in keys && forall key :: key in keys[..|keys| - 1] ==> key in keys;
      NothingLeft(keys[..|keys| - 1], done);
    }
  }

  lemma {:induction false} SameSizes(m: Inventory, done: set<string>, keys: seq<string>)
    requires forall key :: key in keys ==> key !in done
    ensures SumSizes(m - done, keys) == SumSizes(m, keys)
  {
    if keys != [] {
      assert keys[|keys| - 1] in keys;
      assert forall key :: key in keys[..|keys| - 1] ==> key in keys;
      SameSizes(m, done, keys[..|keys| - 1]);
    }
  }

  /**
   Pruning is resumable: however many of the planned deletes were carried out,
   planning again succeeds, keeps the same releases and deletes exactly the rest.
   */
  lemma Resumable(m: Inventory, release: string, plan: Plan, done: set<string>, again: Plan)
    requires Acceptable(m, release) && IsPlan(m, plan) && forall key :: key in done ==> key in plan.delete
    requires IsPlan(m - done, again)
    ensures Acceptable(m - done, release)
    ensures again.keep == plan.keep
    ensures again.delete == Without(plan.delete, done)
    ensures again.deleteBytes == SumSizes(m, Without(plan.delete, done))
  {
    StillAcceptable(m, release, plan, done);
    VersionsLeft(m, plan, done);
    DescendingIsUnique(again.keep, plan.keep);
    WithoutAscends(plan.delete, done);
    forall key ensures key in again.delete <==> key in Without(plan.delete, done) {
      ObsoleteLeft(m, plan, done, key);
    }
    AscendingIsUnique(again.delete, Without(plan.delete, done));
    SameSizes(m, done, again.delete);
  }

  // Deletes one key after the other and stops at the first that the store refuses.
  method DeleteInOrder(keys: seq<string>, fails: set<string>) returns (deleted: seq<string>, failed: Option<string>)
    ensures deleted <= keys && forall key :: key in deleted ==> key in keys && key !in fails
    ensures failed.None? <==> forall key :: key in keys ==> key !in fails
    ensures failed == if deleted == keys then None else Some(keys[|deleted|])
  {
    deleted := [];
    for i := 0 to |keys|
      invariant deleted == keys[..i]
      invariant forall key :: key in deleted ==> key !in fails
    {
      if keys[i] in fails {
        return deleted, Some(keys[i]);
      }
      deleted := deleted + [keys[i]];
    }
    failed := None;
  }

  datatype Report = Refusal(why: Refusal) | DryRun(plan: Plan) | DeleteFailed(key: string) | Changed
    | Verified(keep: seq<string>)

  /**
   A whole run.  `fails` are the keys that the store refuses to delete, and
   `relisted` is what the second listing returns.
   */
  method PruneReleases(listing: seq<Object>, release: string, apply: bool, fails: set<string>, relisted: seq<Object>)
    returns (r: Report, deleted: seq<string>)
    ensures Acceptable(Index(listing), release) || (r.Refusal? && deleted == [])
    ensures !apply ==> deleted == []
    ensures forall key :: key in deleted ==> Obsolete(Index(listing), key) && key !in fails
    ensures r.Verified? ==>
      && (forall key :: Obsolete(Index(listing), key) ==> key in deleted)
      && Acceptable(Index(relisted), release) && (forall key :: !Obsolete(Index(relisted), key))
      && Kept(VersionsOf(Index(relisted))) == Kept(VersionsOf(Index(listing)))
    // left alone, a run that is asked to delete ends verified
    ensures apply && Acceptable(Index(listing), release)
      && (forall key :: key in fails ==> !Obsolete(Index(listing), key))
      && Index(relisted) == Index(listing) - (set key | key in deleted)
      ==> r.Verified?
  {
    deleted := [];
    var outcome := CleanupPlan(listing, release);
    if outcome.Refused? {
      return Refusal(outcome.why), [];
    }
    var plan := outcome.plan;
    if !apply {
      return DryRun(plan), [];
    }
    var failed: Option<string>;
    deleted, failed := DeleteInOrder(plan.delete, fails);
    if failed.Some? {
      return DeleteFailed(failed.value), deleted;
    }
    var remaining := CleanupPlan(relisted, release);
    CheckedAgain(Index(listing), release, plan, Index(relisted), remaining);
    if remaining.Refused? {
      return Refusal(remaining.why), deleted;
    }
    if remaining.plan.delete != [] || remaining.plan.keep != plan.keep {
      return Changed, deleted;
    }
    r := Verified(remaining.plan.keep);
  }

  lemma CheckedAgain(m: Inventory, release: string, plan: Plan, left: Inventory, remaining: Outcome)
    requires Acceptable(m, release) && IsPlan(m, plan)
    requires (remaining.Planned? <==> Acceptable(left, release))
        && (remaining.Planned? ==> IsPlan(left, remaining.plan))
    ensures left == m - (set key | key in plan.delete) ==>
              remaining.Planned? && remaining.plan.delete == [] && remaining.plan.keep == plan.keep
    ensures remaining.Planned? && remaining.plan.keep == plan.keep ==> Kept(VersionsOf(left)) == Kept(VersionsOf(m))
  {
    var done := set key | key in plan.delete;
    if left == m - done {
      StillAcceptable(m, release, plan, done);
      Resumable(m, release, plan, done, remaining.plan);
      NothingLeft(plan.delete, done);
    }
  }
}
