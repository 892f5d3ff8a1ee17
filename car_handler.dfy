/**
 * Driver-name extraction from `.car` files: the four name rules applied to
 * a file's text, the cleaning of each raw capture, and the aggregation of
 * cleaned names over many files into one set plus a name-to-file map.
 * Reading a file is not modelled: each file arrives as its decoded text,
 * or `None` when it could not be read.
 */
module CarHandler {
  import opened Wrappers
  import opened Text

  // ---------------------------------------------------------------------
  // The four name rules, as a hand-written scanner
  // ---------------------------------------------------------------------

  /** What follows `Keyword\d*\s*=\s*` in a rule. */
  datatype ValueForm =
    | Quoted         // "([^"]*)"
    | Unterminated   // "([^"\n\r]+)
    | Bare           // ([^\s\n\r]+)

  /** A rule: its keyword (matched ignoring case, stored in lower case) and its value form. */
  datatype Rule = Rule(keyword: string, form: ValueForm)

  /** The rules in the order they are applied. */
  const DRIVER_PATTERNS: seq<Rule> := [
    Rule("driver", Quoted),
    Rule("driver", Unterminated),
    Rule("driver", Bare),
    Rule("drivername", Quoted)
  ]

  /** A successful match: the captured group and the index just past the match. */
  datatype Match = Match(capture: string, end: nat)

  /**
   * Where the value begins when `keyword\d*\s*=\s*` matches at `i`, ignoring
   * the case of the keyword.  The character classes are disjoint, so the
   * greedy repetitions never need to give anything back.
   */
  function ValueStart(keyword: string, s: string, i: nat): (v: Option<nat>)
    requires i <= |s|
    ensures v.Some? ==> i + |keyword| < v.value <= |s|
  {
    if i + |keyword| > |s| || Lower(s[i..i + |keyword|]) != keyword then None
    else
      var j := Skip(Space, s, Skip(Digit, s, i + |keyword|));
      if j < |s| && s[j] == '=' then Some(Skip(Space, s, j + 1)) else None
  }

  /** Does `rule` match at index `i` of `s`, and with which capture? */
  function MatchAt(rule: Rule, s: string, i: nat): (m: Option<Match>)
    requires i <= |s|
    ensures m.Some? ==> i < m.value.end <= |s|
  {
    match ValueStart(rule.keyword, s, i)
    case None => None
    case Some(v) =>
      match rule.form
      case Quoted =>
        if v < |s| && s[v] == '"' then
          var e := Skip(NotQuote, s, v + 1);
          if e < |s| then Some(Match(s[v + 1..e], e + 1)) else None
        else None
      case Unterminated =>
        if v < |s| && s[v] == '"' then
          var e := Skip(NotQuoteOrLineBreak, s, v + 1);
          if e > v + 1 then Some(Match(s[v + 1..e], e)) else None
        else None
      case Bare =>
        var e := Skip(NotSpace, s, v);
        if e > v then Some(Match(s[v..e], e)) else None
  }

  /**
   * `re.findall(rule, s[i:], re.IGNORECASE)`: try each start position in
   * turn and, after a match, resume just past it (matches never overlap).
   */
  function FindAll(rule: Rule, s: string, i: nat := 0): seq<string>
    requires i <= |s|
    decreases |s| - i
  {
    if i == |s| then []
    else
      match MatchAt(rule, s, i)
      case Some(m) => [m.capture] + FindAll(rule, s, m.end)
      case None => FindAll(rule, s, i + 1)
  }

  /** The non-empty strings among `caps`. */
  function NonEmpty(caps: seq<string>): set<string> {
    set d | d in caps && d != ""
  }

  /** The non-empty captures of the first `n` rules. */
  function Captures(text: string, n: nat): set<string>
    requires n <= |DRIVER_PATTERNS|
  {
    if n == 0 then {}
    else
      Captures(text, n - 1) + NonEmpty(FindAll(DRIVER_PATTERNS[n - 1], text))
  }

  lemma {:induction false} CapturesUnion(text: string, n: nat, d: string)
    requires n <= |DRIVER_PATTERNS|
    ensures d in Captures(text, n) <==> d != "" && exists k :: 0 <= k < n && d in FindAll(DRIVER_PATTERNS[k], text)
  {
    if n > 0 {
      CapturesUnion(text, n - 1, d);
    }
  }

  /** The names `_extract_drivers_from_file` reports for a file with this content. */
  function FileDrivers(content: Option<string>): set<string> {
    if content == None || content.value == "" then {} else Captures(content.value, |DRIVER_PATTERNS|)
  }

  /**
   * `_extract_drivers_from_file`: for each rule in turn, add every non-empty
   * capture to the set.  Empty or unreadable content gives no names.
   */
  method ExtractDriversFromFile(content: Option<string>) returns (drivers: set<string>)
    ensures drivers == FileDrivers(content)
  {
    if content == None || content.value == "" {
      return {};
    }
    drivers := CollectCaptures(content.value);
  }

  /** The loop over the rules of `_extract_drivers_from_file`. */
  method CollectCaptures(text: string) returns (drivers: set<string>)
    ensures drivers == Captures(text, |DRIVER_PATTERNS|)
  {
    drivers := {};
    for k := 0 to |DRIVER_PATTERNS|
      invariant drivers == Captures(text, k)
    {
      var matches := FindAll(DRIVER_PATTERNS[k], text);
      drivers := AddCaptures(drivers, matches);
    }
  }

  /**
   * A file's names are the non-empty captures of any of the rules; empty
   * or unreadable content gives no names.
   */
  lemma FileDriversMembers(content: Option<string>)
    ensures content == None || content.value == "" ==> FileDrivers(content) == {}
    ensures forall d :: d in FileDrivers(content) <==>
      && content.Some? && content.value != "" && d != ""
      && exists k :: 0 <= k < |DRIVER_PATTERNS| && d in FindAll(DRIVER_PATTERNS[k], content.value)
  {
    if content.Some? && content.value != "" {
      forall d {
        CapturesUnion(content.value, |DRIVER_PATTERNS|, d);
      }
    }
  }

  /** The inner loop of `_extract_drivers_from_file`: add each non-empty capture. */
  method AddCaptures(drivers0: set<string>, matches: seq<string>) returns (drivers: set<string>)
    ensures drivers == drivers0 + NonEmpty(matches)
  {
    drivers := drivers0;
    for j := 0 to |matches|
      invariant drivers == drivers0 + NonEmpty(matches[..j])
    {
      if matches[j] != "" {
        drivers := drivers + {matches[j]};
      }
      assert matches[..j + 1] == matches[..j] + [matches[j]];
    }
    assert matches[..|matches|] == matches;
  }

  // ---------------------------------------------------------------------
  // Cleaning a raw capture
  // ---------------------------------------------------------------------

  /** `s.replace(c, '')`. */
  function RemoveAll(s: string, c: char): (r: string)
    ensures forall x :: x in r <==> x in s && x != c
    ensures |r| <= |s|
  {
    if s == [] then []
    else (if s[0] == c then [] else [s[0]]) + RemoveAll(s[1..], c)
  }

  /** Strip the quote marks at both ends, drop every `"`, then strip whitespace. */
  function CleanSteps(name: string): (t: string)
    ensures '"' !in t
    ensures t == [] || (!IsSpace(t[0]) && !IsSpace(t[|t| - 1]))
  {
    var u := RemoveAll(Strip(name, QuoteMark), '"');
    StripWithout(u, Space, '"');
    Strip(u)
  }

  /** The final `if name.startswith('"'): name = name[1:].strip()` step. */
  function DropLeadingQuote(t: string): string {
    if |t| > 0 && t[0] == '"' then Strip(t[1..]) else t
  }

  /** `_clean_driver_name`. */
  function CleanDriverName(name: string): string {
    if name == "" then "" else DropLeadingQuote(CleanSteps(name))
  }

  /**
   * An empty name cleans to the empty name; every cleaned name holds no `"`
   * and has no whitespace at either end.
   */
  lemma CleanDriverNameShape(name: string)
    ensures var r := CleanDriverName(name);
      && (name == "" ==> r == "")
      && '"' !in r
      && (r == [] || (!IsSpace(r[0]) && !IsSpace(r[|r| - 1])))
  {
    if name != "" {
      QuoteBranchUnreachable(name);
    }
  }

  /** The `startswith('"')` re-strip never fires: every `"` is already gone. */
  lemma QuoteBranchUnreachable(name: string)
    ensures DropLeadingQuote(CleanSteps(name)) == CleanSteps(name)
  {
    var t := CleanSteps(name);
    if |t| > 0 {
      assert t[0] in t;
    }
  }

  // ---------------------------------------------------------------------
  // Aggregation over files
  // ---------------------------------------------------------------------

  /** A `.car` file: its path and its decoded text (`None` when unreadable). */
  datatype CarFile = CarFile(path: string, content: Option<string>)

  /** The cleaned, non-empty names one file contributes. */
  function CleanNames(f: CarFile): set<string> {
    Cleaned(FileDrivers(f.content))
  }

  /** What one file contributes to the aggregation: its path and its cleaned names. */
  datatype Found = Found(path: string, names: set<string>)

  /** Every file's contribution, in input order. */
  function Scan(files: seq<CarFile>): (r: seq<Found>)
    ensures |r| == |files|
    ensures forall i :: 0 <= i < |files| ==> r[i] == Found(files[i].path, CleanNames(files[i]))
  {
    seq(|files|, i requires 0 <= i < |files| => Found(files[i].path, CleanNames(files[i])))
  }

  /** The names found in all files. */
  function AllDrivers(found: seq<Found>): set<string>
    decreases |found|
  {
    if found == [] then {}
    else AllDrivers(found[..|found| - 1]) + found[|found| - 1].names
  }

  /** Each name's recorded source: every file overwrites the entries of the names it holds. */
  function SourceMap(found: seq<Found>): map<string, string>
    decreases |found|
  {
    if found == [] then map[]
    else
      var last := found[|found| - 1];
      Record(SourceMap(found[..|found| - 1]), last.names, last.path)
  }

  /** The cleaned, non-empty names among raw captures. */
  function Cleaned(drivers: set<string>): set<string> {
    set d | d in drivers && CleanDriverName(d) != "" :: CleanDriverName(d)
  }

  /** `m` after recording `path` as the source of every name in `names`. */
  function Record(m: map<string, string>, names: set<string>, path: string): (r: map<string, string>)
    ensures r.Keys == m.Keys + names
  {
    m + map n | n in names :: path
  }

  lemma CleanedStep(drivers: set<string>, rest: set<string>, d: string)
    requires d in rest
    ensures Cleaned(drivers - (rest - {d})) ==
      Cleaned(drivers - rest) + (if d in drivers && CleanDriverName(d) != "" then {CleanDriverName(d)} else {})
  {
    var done := drivers - rest;
    if d in drivers {
      assert drivers - (rest - {d}) == done + {d};
    } else {
      assert drivers - (rest - {d}) == done;
    }
  }

  lemma RecordStep(m: map<string, string>, names: set<string>, n: string, path: string)
    ensures Record(m, names + {n}, path) == Record(m, names, path)[n := path]
  {
    var lhs, rhs := Record(m, names + {n}, path), Record(m, names, path)[n := path];
    assert forall k :: k in lhs ==> lhs[k] == rhs[k];
  }

  /** The inner loop of `extract_drivers`: record one file's raw names. */
  method AddFileNames(allDrivers: set<string>, sourceMap: map<string, string>, drivers: set<string>, path: string)
    returns (allDrivers': set<string>, sourceMap': map<string, string>)
    ensures allDrivers' == allDrivers + Cleaned(drivers)
    ensures sourceMap' == Record(sourceMap, Cleaned(drivers), path)
  {
    allDrivers', sourceMap' := allDrivers, sourceMap;
    var rest := drivers;
    ghost var cleaned: set<string> := {};
    while rest != {}
      invariant rest <= drivers
      invariant cleaned == Cleaned(drivers - rest)
      invariant allDrivers' == allDrivers + cleaned
      invariant sourceMap' == Record(sourceMap, cleaned, path)
      decreases rest
    {
      var driver :| driver in rest;
      CleanedStep(drivers, rest, driver);
      rest := rest - {driver};
      var clean := CleanDriverName(driver);
      if clean != "" {
        RecordStep(sourceMap, cleaned, clean, path);
        allDrivers' := allDrivers' + {clean};
        sourceMap' := sourceMap'[clean := path];
        cleaned := cleaned + {clean};
      }
    }
    assert drivers - rest == drivers;
  }

  /**
   * `extract_drivers`: the union of every file's cleaned names (never the
   * empty name) and the map recording, for each, the path of the last file
   * that produced it.
   */
  method ExtractDrivers(files: seq<CarFile>) returns (allDrivers: set<string>, sourceMap: map<string, string>)
    ensures allDrivers == AllDrivers(Scan(files))
    ensures sourceMap == SourceMap(Scan(files))
    ensures "" !in allDrivers
    ensures sourceMap.Keys == allDrivers
  {
    ghost var found := Scan(files);
    allDrivers, sourceMap := {}, map[];
    for i := 0 to |files|
      invariant allDrivers == AllDrivers(found[..i])
      invariant sourceMap == SourceMap(found[..i])
      invariant "" !in allDrivers
      invariant sourceMap.Keys == allDrivers
    {
      var drivers := ExtractDriversFromFile(files[i].content);
      allDrivers, sourceMap := AddFileNames(allDrivers, sourceMap, drivers, files[i].path);
      PrefixSnoc(found, i);
    }
    assert found[..|files|] == found;
  }

  /** How the last file changes the recorded sources. */
  lemma SourceMapStep(found: seq<Found>)
    requires found != []
    ensures var init, last := found[..|found| - 1], found[|found| - 1];
      && (forall n :: n in SourceMap(found) <==> n in SourceMap(init) || n in last.names)
      && (forall n :: n in last.names ==> SourceMap(found)[n] == last.path)
      && (forall n :: n in SourceMap(init) && n !in last.names ==> SourceMap(found)[n] == SourceMap(init)[n])
  {
  }

  /** Exactly the found names get a recorded source. */
  lemma {:induction false} SourceMapKeys(found: seq<Found>)
    ensures SourceMap(found).Keys == AllDrivers(found)
    decreases |found|
  {
    if found != [] {
      SourceMapKeys(found[..|found| - 1]);
    }
  }

  /** A name is found exactly when some file contributes it. */
  lemma {:induction false} AllDriversMembers(found: seq<Found>, name: string)
    ensures name in AllDrivers(found) <==> exists i :: 0 <= i < |found| && name in found[i].names
    decreases |found|
  {
    if found != [] {
      var init := found[..|found| - 1];
      AllDriversMembers(init, name);
      assert forall i :: 0 <= i < |init| ==> init[i] == found[i];
    }
  }

  /** A name's recorded source is the last file, in input order, that produced it. */
  lemma {:induction false} SourceIsLastFile(found: seq<Found>, name: string, i: nat)
    requires i < |found| && name in found[i].names
    requires forall j :: i < j < |found| ==> name !in found[j].names
    ensures name in SourceMap(found) && SourceMap(found)[name] == found[i].path
    decreases |found|
  {
    var init := found[..|found| - 1];
    SourceMapStep(found);
    if i < |found| - 1 {
      assert forall j :: i < j < |init| ==> init[j] == found[j];
      SourceIsLastFile(init, name, i);
    }
  }

  /** Conversely, every recorded source is a file that produced the name, with no later one doing so. */
  lemma {:induction false} SourceIsSomeFile(found: seq<Found>, name: string) returns (i: nat)
    requires name in SourceMap(found)
    ensures i < |found| && name in found[i].names && SourceMap(found)[name] == found[i].path
    ensures forall j :: i < j < |found| ==> name !in found[j].names
    decreases |found|
  {
    var init := found[..|found| - 1];
    SourceMapStep(found);
    if name in found[|found| - 1].names {
      i := |found| - 1;
    } else {
      i := SourceIsSomeFile(init, name);
      assert forall j :: 0 <= j < |init| ==> init[j] == found[j];
    }
  }

  // ---------------------------------------------------------------------
  // A worked example
  // ---------------------------------------------------------------------

  /** No match can start where the keyword no longer fits. */
  lemma {:induction false} NoMatchNearEnd(rule: Rule, s: string, i: nat)
    requires i <= |s| < i + |rule.keyword|
    ensures FindAll(rule, s, i) == []
    decreases |s| - i
  {
    if i < |s| {
      NoMatchNearEnd(rule, s, i + 1);
    }
  }

  /** Start positions where the rule does not match are skipped. */
  lemma {:induction false} NoMatchBetween(rule: Rule, s: string, i: nat, j: nat)
    requires i <= j <= |s|
    requires forall k :: i <= k < j ==> MatchAt(rule, s, k) == None
    ensures FindAll(rule, s, i) == FindAll(rule, s, j)
    decreases j - i
  {
    if i < j {
      assert MatchAt(rule, s, i) == None;
      assert FindAll(rule, s, i) == FindAll(rule, s, i + 1);
      NoMatchBetween(rule, s, i + 1, j);
    }
  }

  /** A line whose quoted value holds a space. */
  const JANE_LINE := "Driver1=\"Jane Doe\""

  lemma JaneValueStart()
    ensures ValueStart("driver", JANE_LINE, 0) == Some(8)
  {
    var s := JANE_LINE;
    assert Lower(s[0..6]) == "driver";
    SkipTo(Digit, s, 6, 7);
    SkipTo(Space, s, 7, 7);
    SkipTo(Space, s, 8, 8);
  }

  lemma JaneQuoteEnd()
    ensures Skip(NotQuote, JANE_LINE, 9) == 17 && JANE_LINE[9..17] == "Jane Doe"
  {
    SkipTo(NotQuote, JANE_LINE, 9, 17);
  }

  lemma JaneLineEnd()
    ensures Skip(NotQuoteOrLineBreak, JANE_LINE, 9) == 17 && JANE_LINE[9..17] == "Jane Doe"
  {
    SkipTo(NotQuoteOrLineBreak, JANE_LINE, 9, 17);
  }

  lemma JaneWordEnd()
    ensures Skip(NotSpace, JANE_LINE, 8) == 13 && JANE_LINE[8..13] == "\"Jane"
  {
    SkipTo(NotSpace, JANE_LINE, 8, 13);
  }

  lemma JaneQuoted()
    ensures FindAll(DRIVER_PATTERNS[0], JANE_LINE) == ["Jane Doe"]
  {
    var s := JANE_LINE;
    JaneValueStart();
    JaneQuoteEnd();
    assert MatchAt(DRIVER_PATTERNS[0], s, 0) == Some(Match("Jane Doe", 18));
    NoMatchNearEnd(DRIVER_PATTERNS[0], s, 18);
  }

  lemma JaneUnterminated()
    ensures FindAll(DRIVER_PATTERNS[1], JANE_LINE) == ["Jane Doe"]
  {
    var s := JANE_LINE;
    JaneValueStart();
    JaneLineEnd();
    assert MatchAt(DRIVER_PATTERNS[1], s, 0) == Some(Match("Jane Doe", 17));
    NoMatchNearEnd(DRIVER_PATTERNS[1], s, 17);
  }

  lemma JaneBare()
    ensures FindAll(DRIVER_PATTERNS[2], JANE_LINE) == ["\"Jane"]
  {
    var s := JANE_LINE;
    JaneValueStart();
    JaneWordEnd();
    assert MatchAt(DRIVER_PATTERNS[2], s, 0) == Some(Match("\"Jane", 13));
    NoMatchNearEnd(DRIVER_PATTERNS[2], s, 13);
  }

  lemma JaneDriverName()
    ensures FindAll(DRIVER_PATTERNS[3], JANE_LINE) == []
  {
    var s := JANE_LINE;
    forall i | 0 <= i < 9
      ensures MatchAt(DRIVER_PATTERNS[3], s, i) == None
    {
      var k := if i == 0 then 6 else 0;
      assert Lower(s[i..i + 10])[k] == LowerChar(s[i + k]) != "drivername"[k];
    }
    NoMatchBetween(DRIVER_PATTERNS[3], s, 0, 9);
    NoMatchNearEnd(DRIVER_PATTERNS[3], s, 9);
  }

  /**
   * The unquoted rule also fires on a quoted value: `Driver1="Jane Doe"`
   * yields the raw captures `Jane Doe` and `"Jane`.
   */
  lemma QuotedValueAlsoMatchesBareRule()
    ensures FileDrivers(Some(JANE_LINE)) == {"Jane Doe", "\"Jane"}
  {
    JaneQuoted();
    JaneUnterminated();
    JaneBare();
    JaneDriverName();
    FileDriversOfFour(JANE_LINE);
    FourCaptures(["Jane Doe"], ["Jane Doe"], ["\"Jane"], [], "Jane Doe", "\"Jane");
  }

  /** Captures `[x]`, `[x]`, `[y]` and none give the names `x` and `y`. */
  lemma FourCaptures(a: seq<string>, b: seq<string>, c: seq<string>, d: seq<string>, x: string, y: string)
    requires x != "" && y != ""
    requires a == [x] && b == [x] && c == [y] && d == []
    ensures NonEmpty(a) + NonEmpty(b) + NonEmpty(c) + NonEmpty(d) == {x, y}
  {
  }

  /** The names of a non-empty text are the non-empty captures of the four rules. */
  lemma FileDriversOfFour(t: string)
    requires t != ""
    ensures FileDrivers(Some(t)) ==
      NonEmpty(FindAll(DRIVER_PATTERNS[0], t)) + NonEmpty(FindAll(DRIVER_PATTERNS[1], t))
      + NonEmpty(FindAll(DRIVER_PATTERNS[2], t)) + NonEmpty(FindAll(DRIVER_PATTERNS[3], t))
  {
    var a, b := NonEmpty(FindAll(DRIVER_PATTERNS[0], t)), NonEmpty(FindAll(DRIVER_PATTERNS[1], t));
    var c, d := NonEmpty(FindAll(DRIVER_PATTERNS[2], t)), NonEmpty(FindAll(DRIVER_PATTERNS[3], t));
    assert Captures(t, 1) == a;
    assert Captures(t, 2) == a + b;
    assert Captures(t, 3) == a + b + c;
    assert Captures(t, 4) == a + b + c + d;
  }

  /** The stray capture `"Jane` cleans to the name `Jane`. */
  lemma StrayCaptureCleansToName()
    ensures CleanDriverName("\"Jane") == "Jane"
  {
    var q := "\"Jane";
    assert Skip(QuoteMark, q, 0) == 1;
    assert q[1..] == "Jane";
    assert SkipBack(QuoteMark, "Jane", 4) == 4;
    assert Strip(q, QuoteMark) == "Jane";
    assert RemoveAll("Jane", '"') == "Jane";
    StripOfStripped("Jane", Space);
  }
}
