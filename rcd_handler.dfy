/**
 * Parsing of `.rcd` talent files.  A file is a sequence of driver blocks:
 * a line holding only a driver's name opens the block, and every later
 * `key=value` line belongs to the most recently opened block.  `//` starts
 * a comment; lines made only of braces are layout.  Reading a file is not
 * modelled: each file arrives as its decoded text, or `None`.
 */
module RcdHandler {
  import opened Wrappers
  import opened Text
  import opened Dicts

  /** What one raw line says once its comment and surrounding whitespace are dropped. */
  datatype Line =
    | Blank                              // nothing left
    | Header(name: string)               // no `=`, not a brace: a driver name
    | Field(key: string, value: string)  // split at the first `=`
    | Brace                              // starts with `{` or `}` and holds no `=`

  /** The text of a line that matters: before the first `//`, whitespace stripped. */
  function Content(raw: string): (line: string)
    ensures NoComment(line)
    ensures line == [] || (!IsSpace(line[0]) && !IsSpace(line[|line| - 1]))
  {
    var cut := CutComment(raw);
    var a := Skip(Space, cut, 0);
    var line := Strip(cut);
    assert line == cut[a..a + |line|] && NoComment(cut);
    NoCommentSlice(cut, a, a + |line|);
    line
  }

  /**
   * The classification of one line of `_parse_rcd_file`.  A header is
   * never empty, holds no `=` and does not start with a brace; a field's
   * key holds no `=`.
   */
  function Classify(raw: string): (l: Line)
    ensures l.Header? ==> l.name != "" && '=' !in l.name && l.name[0] != '{' && l.name[0] != '}'
    ensures l.Field? ==> '=' !in l.key
  {
    ClassifyContent(Content(raw))
  }

  /** The classification of a line's content. */
  function ClassifyContent(line: string): (l: Line)
    ensures l.Header? ==> l.name != "" && '=' !in l.name && l.name[0] != '{' && l.name[0] != '}'
    ensures l.Field? ==> '=' !in l.key
  {
    if line == "" then Blank
    else if '=' !in line then
      if line[0] == '{' || line[0] == '}' then Brace else Header(line)
    else FieldOf(line)
  }

  /** `line.split('=', 1)`, both parts stripped. */
  function FieldOf(line: string): (l: Line)
    requires '=' in line
    ensures l.Field? && '=' !in l.key
  {
    var i := IndexOf(line, '=');
    Field(Strip(line[..i]), Strip(line[i + 1..]))
  }

  /** A header is the whole remaining text: comment-free and already stripped. */
  lemma ClassifiedHeader(raw: string)
    requires Classify(raw).Header?
    ensures var name := Classify(raw).name;
      name == Content(raw) && NoComment(name) && Strip(name) == name
  {
    StripOfStripped(Content(raw), Space);
  }

  /**
   * A field's parts are the stripped text around the first `=`; neither
   * holds a comment or begins or ends with whitespace, and the value may
   * itself hold `=`.
   */
  lemma ClassifiedField(raw: string)
    requires Classify(raw).Field?
    ensures var line, l := Content(raw), Classify(raw);
      && (exists i :: 0 <= i < |line| && line[i] == '=' && '=' !in line[..i]
            && l.key == Strip(line[..i]) && l.value == Strip(line[i + 1..]))
      && NoComment(l.key) && NoComment(l.value)
      && Strip(l.key) == l.key && Strip(l.value) == l.value
  {
    var line := Content(raw);
    var i := IndexOf(line, '=');
    assert Classify(raw) == Field(Strip(line[..i]), Strip(line[i + 1..]));
    FieldPartsClean(line, i);
  }

  lemma FieldPartsClean(line: string, i: nat)
    requires i < |line| && NoComment(line)
    ensures var key, value := Strip(line[..i]), Strip(line[i + 1..]);
      NoComment(key) && NoComment(value) && Strip(key) == key && Strip(value) == value
  {
    FieldPartsNoComment(line, i);
    StripOfStripped(Strip(line[..i]), Space);
    StripOfStripped(Strip(line[i + 1..]), Space);
  }

  /** No comment marker anywhere in `s`. */
  ghost predicate NoComment(s: string) {
    forall k :: !SlashesAt(s, k)
  }

  lemma NoCommentSlice(s: string, a: nat, b: nat)
    requires a <= b <= |s| && NoComment(s)
    ensures NoComment(s[a..b])
  {
    forall k
      ensures !SlashesAt(s[a..b], k)
    {
      assert SlashesAt(s[a..b], k) ==> SlashesAt(s, a + k);
    }
  }

  lemma FieldPartsNoComment(line: string, i: nat)
    requires i < |line| && NoComment(line)
    ensures NoComment(Strip(line[..i])) && NoComment(Strip(line[i + 1..]))
  {
    StrippedSliceNoComment(line, 0, i);
    StrippedSliceNoComment(line, i + 1, |line|);
    assert line[0..i] == line[..i] && line[i + 1..|line|] == line[i + 1..];
  }

  lemma StrippedSliceNoComment(s: string, a: nat, b: nat)
    requires a <= b <= |s| && NoComment(s)
    ensures NoComment(Strip(s[a..b]))
  {
    var t := s[a..b];
    NoCommentSlice(s, a, b);
    var c := Skip(Space, t, 0);
    NoCommentSlice(t, c, c + |Strip(t)|);
  }

  // ---------------------------------------------------------------------
  // One file
  // ---------------------------------------------------------------------

  /** The loop state of `_parse_rcd_file`: the open block's name and the records so far. */
  datatype State = State(current: Option<string>, data: Dict<Dict<string>>)

  /** The open block, when there is one, has a record. */
  predicate Consistent(st: State) {
    st.current.Some? ==> st.current.value in st.data.vals
  }

  /**
   * One line's effect: a header opens a fresh, empty record under its name
   * (replacing any earlier record of that name); a field is stored in the
   * open block's record; anything else, and a field outside any block,
   * changes nothing.
   */
  function Step(st: State, line: Line): (r: State)
    requires Consistent(st)
    ensures Consistent(r)
  {
    match line
    case Header(name) => State(Some(name), Put(st.data, name, Empty()))
    case Field(key, value) =>
      if st.current.Some? && st.current.value != "" then
        var name := st.current.value;
        State(st.current, Put(st.data, name, Put(st.data.vals[name], key, value)))
      else st
    case _ => st
  }

  function Start(): (st: State)
    ensures Consistent(st)
  {
    State(None, Empty())
  }

  /** The state after the given lines. */
  function ParseLines(lines: seq<Line>): (st: State)
    ensures Consistent(st)
    decreases |lines|
  {
    if lines == [] then Start()
    else Step(ParseLines(lines[..|lines| - 1]), lines[|lines| - 1])
  }

  /** Each line of `text` (split at `\n`), classified. */
  function Lines(text: string): (r: seq<Line>)
    ensures var raw := SplitOn(text, '\n');
      |r| == |raw| && forall i :: 0 <= i < |raw| ==> r[i] == Classify(raw[i])
  {
    var raw := SplitOn(text, '\n');
    seq(|raw|, i requires 0 <= i < |raw| => Classify(raw[i]))
  }

  /** The records of one file: unreadable or empty text gives none. */
  function ParseContent(content: Option<string>): Dict<Dict<string>> {
    if content == None || content.value == "" then Empty()
    else ParseLines(Lines(content.value)).data
  }

  /** `_parse_rcd_file`, line by line. */
  method ParseRcdFile(content: Option<string>) returns (driverData: Dict<Dict<string>>)
    ensures driverData == ParseContent(content)
  {
    if content == None || content.value == "" {
      return Empty();
    }
    driverData := Empty();
    var currentDriver: Option<string> := None;
    var lines := SplitOn(content.value, '\n');
    ghost var classified := Lines(content.value);
    for i := 0 to |lines|
      invariant State(currentDriver, driverData) == ParseLines(classified[..i])
    {
      PrefixSnoc(classified, i);
      assert classified[i] == Classify(lines[i]);
      currentDriver, driverData := ParseLine(currentDriver, driverData, lines[i]);
    }
    assert classified[..|lines|] == classified;
  }

  /** One turn of the line loop of `_parse_rcd_file`. */
  method ParseLine(currentDriver0: Option<string>, driverData0: Dict<Dict<string>>, raw: string)
    returns (currentDriver: Option<string>, driverData: Dict<Dict<string>>)
    requires Consistent(State(currentDriver0, driverData0))
    ensures State(currentDriver, driverData) == Step(State(currentDriver0, driverData0), Classify(raw))
  {
    currentDriver, driverData := currentDriver0, driverData0;
    var line := Content(raw);
    if line == "" {
      return;
    }
    if '=' !in line && line[0] != '{' && line[0] != '}' {
      currentDriver := Some(line);
      driverData := Put(driverData, line, Empty());
    } else if '=' in line && currentDriver.Some? && currentDriver.value != "" {
      var field := FieldOf(line);
      var name := currentDriver.value;
      driverData := Put(driverData, name, Put(driverData.vals[name], field.key, field.value));
    }
  }

  // ---------------------------------------------------------------------
  // What one file's records hold
  // ---------------------------------------------------------------------

  /** The fields among some lines, later values for a key replacing earlier ones. */
  function Fields(lines: seq<Line>): Dict<string>
    decreases |lines|
  {
    if lines == [] then Empty()
    else WithField(Fields(lines[..|lines| - 1]), lines[|lines| - 1])
  }

  /** A record after one more line: a field is stored, anything else is ignored. */
  function WithField(record: Dict<string>, line: Line): Dict<string> {
    match line
    case Field(key, value) => Put(record, key, value)
    case _ => record
  }

  /** Exactly the header names become records. */
  lemma {:induction false} RecordNames(lines: seq<Line>, name: string)
    ensures name in ParseLines(lines).data.vals <==>
      exists i :: 0 <= i < |lines| && lines[i] == Header(name)
    decreases |lines|
  {
    if lines != [] {
      var init := ParseLines(lines[..|lines| - 1]);
      RecordNames(lines[..|lines| - 1], name);
      assert forall i :: 0 <= i < |lines| - 1 ==> lines[..|lines| - 1][i] == lines[i];
      if exists i :: 0 <= i < |lines| - 1 && lines[i] == Header(name) {
        var i :| 0 <= i < |lines| - 1 && lines[i] == Header(name);
        assert lines[..|lines| - 1][i] == lines[i];
      }
    }
  }

  /** Fields before the first header belong to no record and are dropped. */
  lemma {:induction false} NoHeaderNoRecords(lines: seq<Line>)
    requires forall i :: 0 <= i < |lines| ==> !lines[i].Header?
    ensures ParseLines(lines) == Start()
    decreases |lines|
  {
    if lines != [] {
      NoHeaderNoRecords(lines[..|lines| - 1]);
    }
  }

  /**
   * The last block decides its driver's record: when the header at `i`
   * is the last one, its name is the open block, its record is the fields
   * after it (an earlier block of the same name is forgotten), and every
   * other record is as it was before that header.
   */
  lemma {:induction false} LastBlock(lines: seq<Line>, i: nat)
    requires i < |lines| && lines[i].Header? && lines[i].name != ""
    requires forall j :: i < j < |lines| ==> !lines[j].Header?
    ensures var name, st, before := lines[i].name, ParseLines(lines), ParseLines(lines[..i]);
      && st.current == Some(name)
      && st.data.vals[name] == Fields(lines[i + 1..])
      && (forall n :: n != name ==> (n in st.data.vals <==> n in before.data.vals))
      && (forall n :: n != name && n in st.data.vals ==> st.data.vals[n] == before.data.vals[n])
    decreases |lines|
  {
    var m := |lines| - 1;
    var init := lines[..m];
    assert ParseLines(lines) == Step(ParseLines(init), lines[m]);
    if m == i {
      assert lines[i + 1..] == [];
      assert ParseLines(lines).data.vals == ParseLines(init).data.vals[lines[i].name := Empty()];
    } else {
      PrefixParts(lines, m, i);
      LastBlock(init, i);
      StepInBlock(ParseLines(init), lines[m]);
      FieldsStep(lines, i + 1);
    }
  }

  /** A line other than a header changes at most the open block's record. */
  lemma StepInBlock(st: State, line: Line)
    requires Consistent(st) && st.current.Some? && st.current.value != "" && !line.Header?
    ensures var r, name := Step(st, line), st.current.value;
      && r.current == st.current
      && name in r.data.vals
      && r.data.vals[name] == WithField(st.data.vals[name], line)
      && (forall n :: n != name ==> (n in r.data.vals <==> n in st.data.vals))
      && (forall n :: n != name && n in r.data.vals ==> r.data.vals[n] == st.data.vals[n])
  {
  }

  /** `Fields` of a suffix, one line shorter. */
  lemma FieldsStep(lines: seq<Line>, a: nat)
    requires a < |lines|
    ensures Fields(lines[a..]) == WithField(Fields(lines[a..|lines| - 1]), lines[|lines| - 1])
  {
    SuffixInit(lines, a);
  }

  // ---------------------------------------------------------------------
  // Many files
  // ---------------------------------------------------------------------

  /** Every file's records, in input order. */
  function ParseAll(contents: seq<Option<string>>): (r: seq<Dict<Dict<string>>>)
    ensures |r| == |contents|
    ensures forall i :: 0 <= i < |contents| ==> r[i] == ParseContent(contents[i])
  {
    seq(|contents|, i requires 0 <= i < |contents| => ParseContent(contents[i]))
  }

  /** The files' records merged in order with `dict.update`. */
  function Merge(parsed: seq<Dict<Dict<string>>>): Dict<Dict<string>>
    decreases |parsed|
  {
    if parsed == [] then Empty()
    else Update(Merge(parsed[..|parsed| - 1]), parsed[|parsed| - 1])
  }

  /** `parse_rcd_files`: parse each file and merge its records into the result. */
  method ParseRcdFiles(contents: seq<Option<string>>) returns (allDriverData: Dict<Dict<string>>)
    ensures allDriverData == Merge(ParseAll(contents))
  {
    ghost var parsed := ParseAll(contents);
    allDriverData := Empty();
    for i := 0 to |contents|
      invariant allDriverData == Merge(parsed[..i])
    {
      var driverData := ParseRcdFile(contents[i]);
      allDriverData := Update(allDriverData, driverData);
      PrefixSnoc(parsed, i);
    }
    assert parsed[..|contents|] == parsed;
  }

  /** A merged driver comes from some file. */
  lemma {:induction false} MergedNames(parsed: seq<Dict<Dict<string>>>, name: string)
    ensures name in Merge(parsed).vals <==> exists i :: 0 <= i < |parsed| && name in parsed[i].vals
    decreases |parsed|
  {
    if parsed != [] {
      var m := |parsed| - 1;
      var init, last := parsed[..m], parsed[m];
      MergedNames(init, name);
      assert Merge(parsed).vals == Merge(init).vals + last.vals;
      if name in Merge(init).vals {
        var i :| 0 <= i < m && name in init[i].vals;
        assert parsed[i] == init[i];
      } else if name !in last.vals {
        forall i | 0 <= i < |parsed|
          ensures name !in parsed[i].vals
        {
          if i < m {
            assert parsed[i] == init[i];
          }
        }
      }
    }
  }

  /**
   * The last file that holds a driver supplies that driver's whole record:
   * records are replaced, never combined field by field.
   */
  lemma {:induction false} LastFileWins(parsed: seq<Dict<Dict<string>>>, name: string, i: nat)
    requires i < |parsed| && name in parsed[i].vals
    requires forall j :: i < j < |parsed| ==> name !in parsed[j].vals
    ensures name in Merge(parsed).vals && Merge(parsed).vals[name] == parsed[i].vals[name]
    decreases |parsed|
  {
    var init, last := parsed[..|parsed| - 1], parsed[|parsed| - 1];
    assert Merge(parsed).vals == Merge(init).vals + last.vals;
    if i < |parsed| - 1 {
      assert forall j :: i < j < |init| ==> init[j] == parsed[j];
      LastFileWins(init, name, i);
      assert name !in last.vals;
    }
  }
}
