/**
 * Matching the names found in `.car` files against the driver records of
 * the `.rcd` files.  Each name is tried against the record names in a
 * fixed series of tiers, from an exact (case-insensitive) match down to
 * any substring relation, skipping record names already matched; the first
 * tier with a hit decides, and within a tier the first record name in the
 * records' order wins.  Case is compared after ASCII lower-casing.
 */
module Matcher {
  import opened Wrappers
  import opened Text
  import opened Dicts

  // ---------------------------------------------------------------------
  // `_find_best_match`
  // ---------------------------------------------------------------------

  /** One search tier. */
  datatype Tier =
    | Exact              // same name, ignoring case
    | Token(word: string) // the record name contains this word of the name
    | Partial            // either name contains the other

  /** Does record name `key` satisfy `tier` for the name being matched? */
  predicate Fits(tier: Tier, name: string, key: string) {
    match tier
    case Exact => Lower(key) == Lower(name)
    case Token(word) => Contains(Lower(key), Lower(word))
    case Partial => Contains(Lower(key), Lower(name)) || Contains(Lower(name), Lower(key))
  }

  /**
   * The tiers tried for `name`, in order: exact; then the last and the
   * first word for a name of several words, or the only word for a
   * one-word name; then the partial match.
   */
  function Tiers(name: string): (ts: seq<Tier>)
    ensures |ts| >= 2 && ts[0] == Exact && ts[|ts| - 1] == Partial
  {
    var parts := Words(name);
    [Exact]
    + (if |parts| > 1 then [Token(parts[|parts| - 1]), Token(parts[0])]
       else if |parts| == 1 then [Token(parts[0])]
       else [])
    + [Partial]
  }

  /** Record name `key` is free and satisfies `tier`. */
  predicate Candidate(tier: Tier, name: string, key: string, used: set<string>) {
    key !in used && Fits(tier, name, key)
  }

  /** The index of the first free record name from `i` on that satisfies `tier`, or `|keys|`. */
  function FirstFitFrom(tier: Tier, name: string, keys: seq<string>, used: set<string>, i: nat): (n: nat)
    requires i <= |keys|
    ensures i <= n <= |keys|
    ensures forall j :: i <= j < n ==> !Candidate(tier, name, keys[j], used)
    ensures n < |keys| ==> Candidate(tier, name, keys[n], used)
    decreases |keys| - i
  {
    if i == |keys| || Candidate(tier, name, keys[i], used) then i
    else FirstFitFrom(tier, name, keys, used, i + 1)
  }

  /** The first free record name of `keys` that satisfies `tier`. */
  function FirstFit(tier: Tier, name: string, keys: seq<string>, used: set<string>): (r: Option<string>)
    ensures r == None <==> forall i :: 0 <= i < |keys| ==> !Candidate(tier, name, keys[i], used)
    ensures r.Some? ==> exists n :: (0 <= n < |keys| && keys[n] == r.value && Candidate(tier, name, keys[n], used)
      && forall j :: 0 <= j < n ==> !Candidate(tier, name, keys[j], used))
  {
    var n := FirstFitFrom(tier, name, keys, used, 0);
    if n < |keys| then Some(keys[n]) else None
  }

  /** The first tier of `tiers` with a hit decides. */
  function BestOf(tiers: seq<Tier>, name: string, keys: seq<string>, used: set<string>): (r: Option<string>)
    ensures r.Some? ==> r.value in keys && r.value !in used
    decreases |tiers|
  {
    if tiers == [] then None
    else
      match FirstFit(tiers[0], name, keys, used)
      case Some(key) => Some(key)
      case None => BestOf(tiers[1..], name, keys, used)
  }

  /**
   * `_find_best_match`: a free record name for `name`, or `None`.  The
   * result is never a name already used.
   */
  function FindBestMatch(name: string, keys: seq<string>, used: set<string>): (r: Option<string>)
    ensures r.Some? ==> r.value in keys && r.value !in used
  {
    BestOf(Tiers(name), name, keys, used)
  }

  /** A free record name equal to `name` up to case beats every other tier, and the first such wins. */
  lemma ExactMatchWins(name: string, keys: seq<string>, used: set<string>, i: nat)
    requires i < |keys| && keys[i] !in used && Lower(keys[i]) == Lower(name)
    ensures var r := FindBestMatch(name, keys, used);
      && r.Some? && Lower(r.value) == Lower(name)
      && exists k :: (0 <= k <= i && keys[k] == r.value
        && forall j :: 0 <= j < k ==> !(keys[j] !in used && Lower(keys[j]) == Lower(name)))
  {
    assert Candidate(Exact, name, keys[i], used);
  }

  /**
   * `None` exactly when no free record name satisfies any of the name's
   * tiers.
   */
  lemma NoMatchIff(name: string, keys: seq<string>, used: set<string>)
    ensures FindBestMatch(name, keys, used) == None <==>
      forall t, i :: t in Tiers(name) && 0 <= i < |keys| ==> !Candidate(t, name, keys[i], used)
  {
    BestOfNone(Tiers(name), name, keys, used);
  }

  lemma {:induction false} BestOfNone(tiers: seq<Tier>, name: string, keys: seq<string>, used: set<string>)
    ensures BestOf(tiers, name, keys, used) == None <==>
      forall t, i :: t in tiers && 0 <= i < |keys| ==> !Candidate(t, name, keys[i], used)
    decreases |tiers|
  {
    if tiers != [] {
      BestOfNone(tiers[1..], name, keys, used);
      assert forall t :: t in tiers <==> t == tiers[0] || t in tiers[1..];
      if FirstFit(tiers[0], name, keys, used).Some? {
        var n :| 0 <= n < |keys| && Candidate(tiers[0], name, keys[n], used);
        assert tiers[0] in tiers && Candidate(tiers[0], name, keys[n], used);
      }
    }
  }

  /**
   * The tiers are tried in order and the first hit wins: the result
   * satisfies some tier `ts[n]`, no free record name satisfies an earlier
   * tier, and no free record name before it satisfies `ts[n]`.
   */
  lemma FirstTierFirstKey(name: string, keys: seq<string>, used: set<string>)
    requires FindBestMatch(name, keys, used).Some?
    ensures var r, ts := FindBestMatch(name, keys, used).value, Tiers(name);
      exists n, i :: 0 <= n < |ts| && 0 <= i < |keys| && keys[i] == r && Candidate(ts[n], name, r, used)
        && (forall m, j :: 0 <= m < n && 0 <= j < |keys| ==> !Candidate(ts[m], name, keys[j], used))
        && (forall j :: 0 <= j < i ==> !Candidate(ts[n], name, keys[j], used))
  {
    var n := BestOfFirst(Tiers(name), name, keys, used);
  }

  lemma {:induction false} BestOfFirst(tiers: seq<Tier>, name: string, keys: seq<string>, used: set<string>) returns (n: nat)
    requires BestOf(tiers, name, keys, used).Some?
    ensures n < |tiers| && BestOf(tiers, name, keys, used) == FirstFit(tiers[n], name, keys, used)
    ensures forall m :: 0 <= m < n ==> FirstFit(tiers[m], name, keys, used) == None
    decreases |tiers|
  {
    if FirstFit(tiers[0], name, keys, used).Some? {
      n := 0;
    } else {
      var n' := BestOfFirst(tiers[1..], name, keys, used);
      n := n' + 1;
    }
  }

  // ---------------------------------------------------------------------
  // `match_drivers`
  // ---------------------------------------------------------------------

  /** The columns every output row starts with. */
  const BASE_FIELDS: seq<string> := ["Driver", "Source_CAR_File", "CAR_File_Path"]

  /** A path separator of Windows paths: `ntpath` accepts both `/` and `\`. */
  predicate IsPathSep(c: char) {
    c == '/' || c == '\\'
  }

  /**
   * The length of the drive `X:` that `ntpath.splitdrive` takes off the
   * front of a path; a path starting with a separator has none.
   */
  function DriveLength(path: string): (n: nat)
    ensures n <= |path|
    ensures n == 2 || n == 0
  {
    if |path| >= 2 && path[1] == ':' && !IsPathSep(path[0]) then 2 else 0
  }

  /**
   * `os.path.basename` on Windows (`ntpath.basename`): the text after the
   * last `/` or `\`, and never part of the drive.
   */
  function Basename(path: string): (r: string)
    ensures forall k :: 0 <= k < |r| ==> !IsPathSep(r[k])
    ensures |r| <= |path| - DriveLength(path) && r == path[|path| - |r|..]
    ensures |path| - |r| == DriveLength(path) || IsPathSep(path[|path| - |r| - 1])
  {
    var d := DriveLength(path);
    var rest := path[d..];
    var e := SkipBack(NotPathSep, rest, |rest|);
    assert forall k :: 0 <= k < |rest| ==> rest[k] == path[d + k];
    assert rest[e..] == path[d + e..];
    rest[e..]
  }

  /**
   * The name of a file found by `os.walk` is recovered from its path:
   * `basename(join(root, file))` is `file`, whichever separator joined them.
   */
  lemma BasenameJoin(root: string, sep: char, file: string)
    requires root != [] && IsPathSep(sep)
    requires forall k :: 0 <= k < |file| ==> !IsPathSep(file[k])
    ensures Basename(root + [sep] + file) == file
  {
    var path := root + [sep] + file;
    var d := DriveLength(path);
    assert d <= |root| by {
      if |root| == 1 {
        assert path[1] == sep;
      }
    }
    var rest := path[d..];
    var e := SkipBack(NotPathSep, rest, |rest|);
    var at := |root| - d;
    assert rest[at] == sep;
    assert forall k :: at < k < |rest| ==> rest[k] == file[k - at - 1];
    assert e == at + 1;
    assert rest[e..] == file;
  }

  /** A `.car` file in a team folder of a Windows installation. */
  lemma WindowsCarFileName()
    ensures Basename("C:/Games/GTR2/GameData/Teams\\BMW\\m3.car") == "m3.car"
  {
    assert "C:/Games/GTR2/GameData/Teams\\BMW\\m3.car" == "C:/Games/GTR2/GameData/Teams\\BMW" + ['\\'] + "m3.car";
    BasenameJoin("C:/Games/GTR2/GameData/Teams\\BMW", '\\', "m3.car");
  }

  /**
   * One output row: a copy of the record of `key` with the driver, the
   * source file's name and path (`Unknown` when the name has no recorded
   * source) and, when the extracted name differs, the extracted name.
   */
  function MakeRow(name: string, key: string, rcd: Dict<Dict<string>>, sources: map<string, string>): (row: Dict<string>)
    requires key in rcd.vals
    ensures "Driver" in row.vals && row.vals["Driver"] == key
  {
    var path := if name in sources then sources[name] else "Unknown";
    var info := Put(Put(Put(rcd.vals[key], "Driver", key), "Source_CAR_File", Basename(path)), "CAR_File_Path", path);
    if name != key then Put(info, "Original_CAR_Name", name) else info
  }

  /**
   * The fields of a row: the source file's path and name, the extracted
   * name when it differs from the record name, and every other field
   * copied from the record.
   */
  lemma MakeRowFields(name: string, key: string, rcd: Dict<Dict<string>>, sources: map<string, string>)
    requires key in rcd.vals
    ensures var row, path := MakeRow(name, key, rcd, sources), if name in sources then sources[name] else "Unknown";
      && "CAR_File_Path" in row.vals && row.vals["CAR_File_Path"] == path
      && "Source_CAR_File" in row.vals && row.vals["Source_CAR_File"] == Basename(path)
    ensures var row := MakeRow(name, key, rcd, sources);
      name != key ==> "Original_CAR_Name" in row.vals && row.vals["Original_CAR_Name"] == name
    ensures var row := MakeRow(name, key, rcd, sources);
      name == key ==> ("Original_CAR_Name" in row.vals <==> "Original_CAR_Name" in rcd.vals[key].vals)
    ensures var row, rec := MakeRow(name, key, rcd, sources), rcd.vals[key].vals;
      forall f :: f !in BASE_FIELDS && f != "Original_CAR_Name" ==>
        (f in row.vals <==> f in rec) && (f in row.vals ==> row.vals[f] == rec[f])
  {
    var path := if name in sources then sources[name] else "Unknown";
    var rec := rcd.vals[key].vals;
    var base := rec["Driver" := key]["Source_CAR_File" := Basename(path)]["CAR_File_Path" := path];
    var vals := if name != key then base["Original_CAR_Name" := name] else base;
    assert MakeRow(name, key, rcd, sources).vals == vals;
    RowFields(rec, vals, key, Basename(path), path, name);
  }

  /**
   * Setting the base fields, and the extracted name when it differs,
   * leaves every other field as it was.
   */
  lemma RowFields(rec: map<string, string>, vals: map<string, string>, key: string, file: string, path: string, name: string)
    requires vals == (var base := rec["Driver" := key]["Source_CAR_File" := file]["CAR_File_Path" := path];
      if name != key then base["Original_CAR_Name" := name] else base)
    ensures "CAR_File_Path" in vals && vals["CAR_File_Path"] == path
    ensures "Source_CAR_File" in vals && vals["Source_CAR_File"] == file
    ensures name != key ==> "Original_CAR_Name" in vals && vals["Original_CAR_Name"] == name
    ensures name == key ==> ("Original_CAR_Name" in vals <==> "Original_CAR_Name" in rec)
    ensures forall f :: f !in BASE_FIELDS && f != "Original_CAR_Name" ==>
      (f in vals <==> f in rec) && (f in vals ==> vals[f] == rec[f])
  {
    assert |"Driver"| == 6 && |"CAR_File_Path"| == 13 && |"Source_CAR_File"| == 15 && |"Original_CAR_Name"| == 17;
  }

  /** The column list after adding a row's keys: each key not yet listed is appended. */
  function AddNew(fields: seq<string>, keys: seq<string>): (r: seq<string>)
    ensures |fields| <= |r| && r[..|fields|] == fields
    ensures NoDup(fields) ==> NoDup(r)
    ensures forall k :: k in r <==> k in fields || k in keys
    decreases |keys|
  {
    if keys == [] then fields
    else
      var r := AddNew(fields, keys[..|keys| - 1]);
      var k := keys[|keys| - 1];
      assert forall x :: x in keys <==> x in keys[..|keys| - 1] || x == k;
      if k in r then r else
        assert (r + [k])[..|fields|] == r[..|fields|];
        r + [k]
  }

  /** Everything `match_drivers` accumulates. */
  datatype Outcome = Outcome(
    rows: seq<Dict<string>>,
    fieldnames: seq<string>,
    found: seq<string>,
    missing: seq<string>,
    used: set<string>)

  /** Before any name. */
  function Initial(): Outcome {
    Outcome([], BASE_FIELDS, [], [], {})
  }

  /**
   * One name, given its best match `m`: a free record name makes a row and
   * is then used; a used one would count the name as found without a row;
   * otherwise the name is missing.  A match counts only when it is a
   * non-empty name.
   */
  function MatchStep(o: Outcome, name: string, m: Option<string>, rcd: Dict<Dict<string>>, sources: map<string, string>): Outcome
    requires m.Some? ==> m.value in rcd.vals
  {
    if m.Some? && m.value != "" && m.value !in o.used then
      var row := MakeRow(name, m.value, rcd, sources);
      Outcome(o.rows + [row], AddNew(o.fieldnames, row.keys), o.found + [name], o.missing, o.used + {m.value})
    else if m.Some? && m.value != "" then
      o.(found := o.found + [name])
    else
      o.(missing := o.missing + [name])
  }

  /** The outcome after the given names, in order. */
  function Matching(names: seq<string>, rcd: Dict<Dict<string>>, sources: map<string, string>): Outcome
    decreases |names|
  {
    if names == [] then Initial()
    else
      var o := Matching(names[..|names| - 1], rcd, sources);
      var name := names[|names| - 1];
      MatchStep(o, name, FindBestMatch(name, rcd.keys, o.used), rcd, sources)
  }

  /**
   * The invariant of the matching loop: one row per found name; every
   * row's driver is a record name, used, and different from every other
   * row's; the columns start with the base ones, hold no duplicate and
   * list every key of every row.
   */
  ghost predicate Good(o: Outcome, rcd: Dict<Dict<string>>) {
    GoodRows(o, rcd) && GoodFields(o)
  }

  ghost predicate GoodRows(o: Outcome, rcd: Dict<Dict<string>>) {
    && |o.rows| == |o.found|
    && (forall i :: 0 <= i < |o.rows| ==> "Driver" in o.rows[i].vals)
    && (forall i :: 0 <= i < |o.rows| ==> o.rows[i].vals["Driver"] in rcd.vals && o.rows[i].vals["Driver"] in o.used)
    && (forall i, j :: 0 <= i < j < |o.rows| ==> o.rows[i].vals["Driver"] != o.rows[j].vals["Driver"])
  }

  ghost predicate GoodFields(o: Outcome) {
    && |o.fieldnames| >= 3 && o.fieldnames[..3] == BASE_FIELDS
    && NoDup(o.fieldnames)
    && (forall i, k :: 0 <= i < |o.rows| && k in o.rows[i].vals ==> k in o.fieldnames)
  }

  /**
   * Matching keeps the invariant, and every name is counted exactly once,
   * as found or as missing.
   */
  lemma {:induction false} MatchingGood(names: seq<string>, rcd: Dict<Dict<string>>, sources: map<string, string>)
    ensures Good(Matching(names, rcd, sources), rcd)
    ensures var o := Matching(names, rcd, sources); |o.found| + |o.missing| == |names|
    decreases |names|
  {
    if names != [] {
      var o := Matching(names[..|names| - 1], rcd, sources);
      var name := names[|names| - 1];
      var m := FindBestMatch(name, rcd.keys, o.used);
      MatchingGood(names[..|names| - 1], rcd, sources);
      StepRows(o, name, m, rcd, sources);
      StepFields(o, name, m, rcd, sources);
    }
  }

  lemma StepRows(o: Outcome, name: string, m: Option<string>, rcd: Dict<Dict<string>>, sources: map<string, string>)
    requires GoodRows(o, rcd)
    requires m.Some? ==> m.value in rcd.vals && m.value !in o.used
    ensures var o' := MatchStep(o, name, m, rcd, sources);
      && GoodRows(o', rcd)
      && |o'.found| + |o'.missing| == |o.found| + |o.missing| + 1
  {
    if m.Some? && m.value != "" {
      AddRow(o, name, m.value, MakeRow(name, m.value, rcd, sources), rcd);
    }
  }

  lemma AddRow(o: Outcome, name: string, key: string, row: Dict<string>, rcd: Dict<Dict<string>>)
    requires GoodRows(o, rcd)
    requires key in rcd.vals && key !in o.used
    requires "Driver" in row.vals && row.vals["Driver"] == key
    ensures GoodRows(o.(rows := o.rows + [row], found := o.found + [name], used := o.used + {key}), rcd)
  {
    var rows := o.rows + [row];
    assert forall i :: 0 <= i < |o.rows| ==> rows[i] == o.rows[i];
  }

  lemma StepFields(o: Outcome, name: string, m: Option<string>, rcd: Dict<Dict<string>>, sources: map<string, string>)
    requires GoodFields(o)
    requires m.Some? ==> m.value in rcd.vals
    ensures GoodFields(MatchStep(o, name, m, rcd, sources))
  {
    if m.Some? && m.value != "" && m.value !in o.used {
      AddRowFields(o, MakeRow(name, m.value, rcd, sources));
    }
  }

  lemma AddRowFields(o: Outcome, row: Dict<string>)
    requires GoodFields(o)
    ensures GoodFields(o.(rows := o.rows + [row], fieldnames := AddNew(o.fieldnames, row.keys)))
  {
    var fs := AddNew(o.fieldnames, row.keys);
    var rows := o.rows + [row];
    assert fs[..3] == fs[..|o.fieldnames|][..3];
    assert forall k :: k in row.vals ==> k in row.keys;
    assert forall i :: 0 <= i < |o.rows| ==> rows[i] == o.rows[i];
  }

  /**
   * The "already used" branch is never taken, since every match is free:
   * a name is found exactly when it adds a row.
   */
  lemma {:induction false} FoundIffRow(names: seq<string>, rcd: Dict<Dict<string>>, sources: map<string, string>)
    requires names != []
    ensures var o, o' := Matching(names[..|names| - 1], rcd, sources), Matching(names, rcd, sources);
      o'.found == o.found + [names[|names| - 1]] <==> |o'.rows| == |o.rows| + 1
  {
  }

  /** Ascending, without duplicates, exactly the elements of `s`. */
  ghost predicate SortedEnumeration(names: seq<string>, s: set<string>) {
    StrictlySorted(names) && |names| == |s| && forall x :: x in names <==> x in s
  }

  /** `sorted(s)` for a set of names. */
  method SortedNames(s: set<string>) returns (names: seq<string>)
    ensures SortedEnumeration(names, s)
  {
    names := [];
    var rest := s;
    while rest != {}
      invariant rest <= s
      invariant StrictlySorted(names)
      invariant forall x :: x in names <==> x in s - rest
      invariant |names| == |s - rest|
      decreases rest
    {
      var x :| x in rest;
      names := InsertNew(x, names);
      assert s - (rest - {x}) == (s - rest) + {x};
      rest := rest - {x};
    }
  }

  /** Insert a name not yet present into an ascending list. */
  function InsertNew(x: string, s: seq<string>): (r: seq<string>)
    requires StrictlySorted(s) && x !in s
    ensures StrictlySorted(r)
    ensures forall y :: y in r <==> y in s || y == x
    ensures |r| == |s| + 1
    decreases |s|
  {
    if s == [] then [x]
    else
      LexLessTotal(x, s[0]);
      if LexLess(x, s[0]) then
        assert forall j :: 0 < j < |s| ==> LexLess(x, s[j]) by {
          forall j | 0 < j < |s| ensures LexLess(x, s[j]) {
            LexLessTransitive(x, s[0], s[j]);
          }
        }
        [x] + s
      else
        var rest := InsertNew(x, s[1..]);
        assert forall y :: y in s <==> y == s[0] || y in s[1..];
        assert LexLess(s[0], x);
        assert forall j :: 0 <= j < |rest| ==> LexLess(s[0], rest[j]) by {
          forall j | 0 <= j < |rest| ensures LexLess(s[0], rest[j]) {
            if rest[j] != x {
              assert rest[j] in s[1..];
              var k :| 0 <= k < |s[1..]| && s[1..][k] == rest[j];
              assert s[k + 1] == rest[j];
            }
          }
        }
        [s[0]] + rest
  }

  /** Two ascending duplicate-free lists with the same elements are the same list. */
  lemma {:induction false} SortedEnumerationUnique(a: seq<string>, b: seq<string>, s: set<string>)
    requires SortedEnumeration(a, s) && SortedEnumeration(b, s)
    ensures a == b
    decreases |a|
  {
    if a != [] {
      assert a[0] in a && a[0] in s && a[0] in b;
      assert b[0] in b && b[0] in s && b[0] in a;
      HeadIsLeast(a, b[0]);
      HeadIsLeast(b, a[0]);
      LexLeAntisymmetric(a[0], b[0]);
      var x := a[0];
      TailElements(a, s);
      TailElements(b, s);
      SortedEnumerationUnique(a[1..], b[1..], s - {x});
      assert a == [x] + a[1..] && b == [x] + b[1..];
    }
  }

  lemma HeadIsLeast(a: seq<string>, x: string)
    requires StrictlySorted(a) && x in a
    ensures LexLe(a[0], x)
  {
    var k :| 0 <= k < |a| && a[k] == x;
  }

  lemma LexLeAntisymmetric(a: string, b: string)
    requires LexLe(a, b) && LexLe(b, a)
    ensures a == b
  {
    if LexLess(a, b) {
      LexLessAsymmetric(a, b);
    }
  }

  lemma TailElements(a: seq<string>, s: set<string>)
    requires a != [] && SortedEnumeration(a, s)
    ensures SortedEnumeration(a[1..], s - {a[0]})
  {
    forall y ensures y in a[1..] <==> y in s - {a[0]} {
      if y in a[1..] {
        var k :| 0 <= k < |a[1..]| && a[1..][k] == y;
        assert a[k + 1] == y;
        LexLessAsymmetric(a[0], a[k + 1]);
      }
    }
    assert a[0] in s;
  }

  /** The column-list update of `match_drivers`: append each key not listed yet. */
  method AddFieldnames(fields: seq<string>, keys: seq<string>) returns (fieldnames: seq<string>)
    ensures fieldnames == AddNew(fields, keys)
  {
    fieldnames := fields;
    for j := 0 to |keys|
      invariant fieldnames == AddNew(fields, keys[..j])
    {
      PrefixSnoc(keys, j);
      if keys[j] !in fieldnames {
        fieldnames := fieldnames + [keys[j]];
      }
    }
    assert keys[..|keys|] == keys;
  }

  /**
   * `match_drivers`: match the names in ascending order, building one row
   * per matched record, the column list and the found and missing counts.
   */
  method MatchDrivers(carDrivers: set<string>, sources: map<string, string>, rcd: Dict<Dict<string>>)
    returns (rows: seq<Dict<string>>, fieldnames: seq<string>, foundCount: nat, missingCount: nat)
    ensures exists names :: (SortedEnumeration(names, carDrivers)
      && var o := Matching(names, rcd, sources);
      rows == o.rows && fieldnames == o.fieldnames && foundCount == |o.found| && missingCount == |o.missing|)
    ensures foundCount == |rows| && foundCount + missingCount == |carDrivers|
    ensures forall i :: 0 <= i < |rows| ==> "Driver" in rows[i].vals && rows[i].vals["Driver"] in rcd.vals
    ensures forall i, j :: 0 <= i < j < |rows| ==> rows[i].vals["Driver"] != rows[j].vals["Driver"]
    ensures |fieldnames| >= 3 && fieldnames[..3] == BASE_FIELDS && NoDup(fieldnames)
    ensures forall i, k :: 0 <= i < |rows| && k in rows[i].vals ==> k in fieldnames
  {
    var names := SortedNames(carDrivers);
    var found, missing;
    rows, fieldnames, found, missing := MatchInOrder(names, sources, rcd);
    MatchingGood(names, rcd, sources);
    foundCount, missingCount := |found|, |missing|;
  }

  /** The loop of `match_drivers` over the names in the order given. */
  method MatchInOrder(names: seq<string>, sources: map<string, string>, rcd: Dict<Dict<string>>)
    returns (rows: seq<Dict<string>>, fieldnames: seq<string>, found: seq<string>, missing: seq<string>)
    ensures var o := Matching(names, rcd, sources);
      rows == o.rows && fieldnames == o.fieldnames && found == o.found && missing == o.missing
  {
    rows, fieldnames := [], BASE_FIELDS;
    found, missing := [], [];
    var used: set<string> := {};
    for i := 0 to |names|
      invariant Outcome(rows, fieldnames, found, missing, used) == Matching(names[..i], rcd, sources)
    {
      MatchingSnoc(names, i, rcd, sources);
      rows, fieldnames, found, missing, used := MatchName(names[i], rows, fieldnames, found, missing, used, sources, rcd);
    }
    assert names[..|names|] == names;
  }

  /** One turn of the loop of `match_drivers`: match one name and record the outcome. */
  method MatchName(driver: string, rows0: seq<Dict<string>>, fieldnames0: seq<string>, found0: seq<string>,
                   missing0: seq<string>, used0: set<string>, sources: map<string, string>, rcd: Dict<Dict<string>>)
    returns (rows: seq<Dict<string>>, fieldnames: seq<string>, found: seq<string>, missing: seq<string>, used: set<string>)
    ensures Outcome(rows, fieldnames, found, missing, used)
      == MatchStep(Outcome(rows0, fieldnames0, found0, missing0, used0), driver, FindBestMatch(driver, rcd.keys, used0), rcd, sources)
  {
    rows, fieldnames, found, missing, used := rows0, fieldnames0, found0, missing0, used0;
    var matched := FindBestMatch(driver, rcd.keys, used);
    if matched.Some? && matched.value != "" && matched.value !in used {
      var driverInfo := MakeRow(driver, matched.value, rcd, sources);
      fieldnames := AddFieldnames(fieldnames, driverInfo.keys);
      rows := rows + [driverInfo];
      found := found + [driver];
      used := used + {matched.value};
    } else if matched.Some? && matched.value != "" {
      assert false;
    } else {
      missing := missing + [driver];
    }
  }

  /** One more name: its step is applied to the outcome so far. */
  lemma MatchingSnoc(names: seq<string>, i: nat, rcd: Dict<Dict<string>>, sources: map<string, string>)
    requires i < |names|
    ensures var o := Matching(names[..i], rcd, sources);
      Matching(names[..i + 1], rcd, sources) == MatchStep(o, names[i], FindBestMatch(names[i], rcd.keys, o.used), rcd, sources)
  {
    PrefixSnoc(names, i);
  }
}
