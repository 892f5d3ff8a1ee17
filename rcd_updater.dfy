/**
 * Writing edited values back into `.rcd` files.  The rewriter walks the
 * file's lines once: it enters the target driver's block at a line whose
 * comment-free, stripped text is the driver's name, tracks the brace depth
 * inside it, and replaces the value of each listed field on a `key=value`
 * line that lies inside the braces, keeping the indentation and the
 * comment.  Every other line is copied.  Reading and writing the file,
 * finding it on disk and copying backups are not modelled.
 */
module RcdUpdater {
  import opened Wrappers
  import opened Text
  import RcdHandler

  // ---------------------------------------------------------------------
  // Pieces of one line
  // ---------------------------------------------------------------------

  /** `line.rstrip('\n')`. */
  function DropNewlines(line: string): (r: string)
    ensures r <= line
    ensures r == [] || r[|r| - 1] != '\n'
    ensures forall k :: |r| <= k < |line| ==> line[k] == '\n'
    decreases |line|
  {
    if line != [] && line[|line| - 1] == '\n' then DropNewlines(line[..|line| - 1]) else line
  }

  /** The text a line's block test compares: before the first `//`, whitespace stripped. */
  function CleanLine(line: string): string {
    Strip(CutComment(line))
  }

  /** `value_comment_part[value_comment_part.index('//'):]`, or `''` without a comment. */
  function CommentOf(s: string): (c: string)
    ensures |c| <= |s| && c == s[|s| - |c|..]
    ensures c == [] || (c[0] == '/' && |c| >= 2 && c[1] == '/')
    ensures forall k :: 0 <= k < |s| - |c| ==> !SlashesAt(s, k)
  {
    s[CommentStart(s)..]
  }

  /**
   * The rewritten form of a line holding `=`: the indentation and the
   * stripped key of the text before the first `=`, then `=`, the new value
   * and the comment of the text after it.
   */
  function Rewrite(line: string, newValue: string): (r: string)
    requires '=' in line
  {
    var eq := IndexOf(line, '=');
    var keyPart := line[..eq];
    Indent(keyPart) + Strip(keyPart) + "=" + newValue + CommentOf(line[eq + 1..]) + "\n"
  }

  /**
   * The value written for a line's key: the first listed field equal to
   * the key up to case whose value in the row is not empty.  A listed
   * field with an empty value does not stop the search.
   */
  function NewValue(key: string, row: map<string, string>, fields: seq<string>): (v: Option<string>)
    ensures v.Some? ==> v.value != ""
    ensures v.Some? ==> exists i :: (0 <= i < |fields| && Lower(fields[i]) == Lower(key) && fields[i] in row && row[fields[i]] == v.value
      && forall j :: 0 <= j < i && Lower(fields[j]) == Lower(key) && fields[j] in row ==> row[fields[j]] == "")
    ensures v == None <==> forall i :: 0 <= i < |fields| && Lower(fields[i]) == Lower(key) ==>
      fields[i] !in row || row[fields[i]] == ""
    decreases |fields|
  {
    if fields == [] then None
    else if Lower(fields[0]) == Lower(key) && fields[0] in row && row[fields[0]] != "" then
      Some(row[fields[0]])
    else
      var v := NewValue(key, row, fields[1..]);
      assert forall i :: 1 <= i < |fields| ==> fields[i] == fields[1..][i - 1];
      v
  }

  /** Of two listed spellings of a key, the one listed first supplies the value. */
  lemma FirstListedFieldWins()
    ensures NewValue("SPEED", map["Speed" := "1", "speed" := "2"], ["Speed", "speed"]) == Some("1")
  {
    assert Lower("Speed") == Lower("SPEED") == "speed";
  }

  // ---------------------------------------------------------------------
  // The line automaton of `update_single_rcd_file`
  // ---------------------------------------------------------------------

  /** Whether the target block is open, and its brace depth. */
  datatype Scan = Scan(inBlock: bool, depth: int)

  /** The state after one line. */
  function Next(st: Scan, line: string, name: string): (r: Scan)
    ensures !st.inBlock && CleanLine(line) == name ==> r == Scan(true, 0)
    ensures !st.inBlock && CleanLine(line) != name ==> r == st
    ensures st.inBlock ==> r.depth == st.depth + Count(line, '{') - Count(line, '}')
    ensures st.inBlock ==> (!r.inBlock <==> r.depth == 0 && '}' in line)
  {
    if !st.inBlock then
      if CleanLine(line) == name then Scan(true, 0) else st
    else
      var depth := st.depth + Count(line, '{') - Count(line, '}');
      Scan(!(depth == 0 && '}' in line), depth)
  }

  /** The line written for input line `line` (newline already dropped) in state `st`. */
  function Output(st: Scan, line: string, name: string, row: map<string, string>, fields: seq<string>): string {
    if !st.inBlock then line + "\n"
    else
      var depth := Next(st, line, name).depth;
      if '=' in line && depth > 0 then
        match NewValue(Strip(line[..IndexOf(line, '=')]), row, fields)
        case Some(v) => Rewrite(line, v)
        case None => line + "\n"
      else line + "\n"
  }

  /** The state after the first lines of a file. */
  function ScanAfter(lines: seq<string>, name: string): Scan
    decreases |lines|
  {
    if lines == [] then Scan(false, 0)
    else Next(ScanAfter(lines[..|lines| - 1], name), DropNewlines(lines[|lines| - 1]), name)
  }

  /** The lines written for a file's lines: line `i` is written in the state after the lines before it. */
  function Updated(lines: seq<string>, name: string, row: map<string, string>, fields: seq<string>): (out: seq<string>)
    ensures |out| == |lines|
  {
    seq(|lines|, i requires 0 <= i < |lines| => Output(ScanAfter(lines[..i], name), DropNewlines(lines[i]), name, row, fields))
  }

  /** One more line: its output is appended and the state moves on by that line. */
  lemma UpdatedStep(lines: seq<string>, i: nat, name: string, row: map<string, string>, fields: seq<string>)
    requires i < |lines|
    ensures var out, st := Updated(lines, name, row, fields), ScanAfter(lines[..i], name);
      && out[..i + 1] == out[..i] + [Output(st, DropNewlines(lines[i]), name, row, fields)]
      && ScanAfter(lines[..i + 1], name) == Next(st, DropNewlines(lines[i]), name)
  {
    var out := Updated(lines, name, row, fields);
    assert out[i] == Output(ScanAfter(lines[..i], name), DropNewlines(lines[i]), name, row, fields);
    PrefixSnoc(out, i);
    PrefixSnoc(lines, i);
  }

  /** The name `update_single_rcd_file` looks for: the row's `Driver`, or `''`. */
  function DriverOf(row: map<string, string>): string {
    if "Driver" in row then row["Driver"] else ""
  }

  /** The search through `fieldnames` for the line's key (the inner loop with its `for`/`else`). */
  method LookupField(keyPart: string, driverData: map<string, string>, fieldnames: seq<string>)
    returns (newValue: Option<string>)
    ensures newValue == NewValue(keyPart, driverData, fieldnames)
  {
    newValue := None;
    var k := 0;
    while k < |fieldnames|
      invariant k <= |fieldnames|
      invariant NewValue(keyPart, driverData, fieldnames) == NewValue(keyPart, driverData, fieldnames[k..])
    {
      var field := fieldnames[k];
      if Lower(field) == Lower(keyPart) {
        var value := if field in driverData then driverData[field] else "";
        if value != "" {
          newValue := Some(value);
          return;
        }
      }
      assert fieldnames[k..][1..] == fieldnames[k + 1..];
      k := k + 1;
    }
  }

  /**
   * `update_single_rcd_file` without the file access: the lines read in,
   * the lines to write back.
   */
  method UpdateSingleRcdFile(lines: seq<string>, driverData: map<string, string>, fieldnames: seq<string>)
    returns (updatedLines: seq<string>)
    ensures updatedLines == Updated(lines, DriverOf(driverData), driverData, fieldnames)
  {
    var driverName := DriverOf(driverData);
    updatedLines := [];
    var inBlock, depth := false, 0;
    for i := 0 to |lines|
      invariant Scan(inBlock, depth) == ScanAfter(lines[..i], driverName)
      invariant updatedLines == Updated(lines, driverName, driverData, fieldnames)[..i]
    {
      UpdatedStep(lines, i, driverName, driverData, fieldnames);
      var line;
      inBlock, depth, line := UpdateLine(inBlock, depth, DropNewlines(lines[i]), driverName, driverData, fieldnames);
      updatedLines := updatedLines + [line];
    }
  }

  /** One turn of the line loop of `update_single_rcd_file`. */
  method UpdateLine(inBlock0: bool, depth0: int, originalLine: string, driverName: string,
                    driverData: map<string, string>, fieldnames: seq<string>)
    returns (inBlock: bool, depth: int, line: string)
    ensures Scan(inBlock, depth) == Next(Scan(inBlock0, depth0), originalLine, driverName)
    ensures line == Output(Scan(inBlock0, depth0), originalLine, driverName, driverData, fieldnames)
  {
    inBlock, depth := inBlock0, depth0;
    if !inBlock {
      if CleanLine(originalLine) == driverName {
        return true, 0, originalLine + "\n";
      }
    }
    if inBlock {
      depth := depth + Count(originalLine, '{') - Count(originalLine, '}');
      if '=' in originalLine && depth > 0 {
        var eq := IndexOf(originalLine, '=');
        var keyPart := Strip(originalLine[..eq]);
        var newValue := LookupField(keyPart, driverData, fieldnames);
        if newValue.Some? {
          line := Rewrite(originalLine, newValue.value);
        } else {
          line := originalLine + "\n";
        }
      } else {
        line := originalLine + "\n";
      }
      if depth == 0 && '}' in originalLine {
        inBlock := false;
      }
    } else {
      line := originalLine + "\n";
    }
  }

  // ---------------------------------------------------------------------
  // What the rewriter preserves
  // ---------------------------------------------------------------------

  /**
   * One output line per input line, each ending in a newline; a line is
   * either copied (its trailing newlines replaced by one) or, inside the
   * target block, a `key=value` line rewritten with a new value.
   */
  lemma LinesKept(lines: seq<string>, name: string, row: map<string, string>, fields: seq<string>)
    ensures var out := Updated(lines, name, row, fields);
      && |out| == |lines|
      && (forall i :: 0 <= i < |lines| ==> |out[i]| > 0 && out[i][|out[i]| - 1] == '\n')
      && (forall i :: 0 <= i < |lines| ==>
           var line := DropNewlines(lines[i]);
           out[i] == line + "\n"
           || ('=' in line && ScanAfter(lines[..i], name).inBlock
               && exists v :: v != "" && out[i] == Rewrite(line, v)))
  {
    var out := Updated(lines, name, row, fields);
    forall i | 0 <= i < |lines|
      ensures |out[i]| > 0 && out[i][|out[i]| - 1] == '\n'
      ensures var line := DropNewlines(lines[i]);
           out[i] == line + "\n"
           || ('=' in line && ScanAfter(lines[..i], name).inBlock
               && exists v :: v != "" && out[i] == Rewrite(line, v))
    {
    }
  }

  /** The block is open only after a line naming the driver. */
  lemma {:induction false} OpenAfterHeader(lines: seq<string>, name: string)
    ensures ScanAfter(lines, name).inBlock ==>
      exists j :: 0 <= j < |lines| && CleanLine(DropNewlines(lines[j])) == name
    decreases |lines|
  {
    if lines != [] {
      var m := |lines| - 1;
      OpenAfterHeader(lines[..m], name);
      if ScanAfter(lines[..m], name).inBlock {
        var j :| 0 <= j < m && CleanLine(DropNewlines(lines[..m][j])) == name;
        assert lines[..m][j] == lines[j];
      }
    }
  }

  /**
   * Only lines after one naming the driver can change; a file without
   * such a line is copied unchanged.
   */
  lemma ChangedOnlyAfterHeader(lines: seq<string>, name: string, row: map<string, string>, fields: seq<string>)
    ensures forall i :: 0 <= i < |lines| && Updated(lines, name, row, fields)[i] != DropNewlines(lines[i]) + "\n" ==>
      exists j :: 0 <= j < i && CleanLine(DropNewlines(lines[j])) == name
  {
    var out := Updated(lines, name, row, fields);
    forall i | 0 <= i < |lines| && out[i] != DropNewlines(lines[i]) + "\n"
      ensures exists j :: 0 <= j < i && CleanLine(DropNewlines(lines[j])) == name
    {
      var prefix := lines[..i];
      OpenAfterHeader(prefix, name);
      assert ScanAfter(prefix, name).inBlock;
      var j :| 0 <= j < i && CleanLine(DropNewlines(prefix[j])) == name;
      assert prefix[j] == lines[j];
    }
  }

  /**
   * A line is rewritten only inside the block, only when it holds `=` and
   * the depth after it is positive, and only when its key names a listed
   * field with a non-empty value.
   */
  lemma RewriteConditions(st: Scan, line: string, name: string, row: map<string, string>, fields: seq<string>)
    requires Output(st, line, name, row, fields) != line + "\n"
    ensures st.inBlock && '=' in line && Next(st, line, name).depth > 0
    ensures NewValue(Strip(line[..IndexOf(line, '=')]), row, fields).Some?
  {
  }

  // ---------------------------------------------------------------------
  // What a rewritten line looks like
  // ---------------------------------------------------------------------

  /**
   * The rewrite of a line `<indent><key>=<value><comment>` whose key has
   * no surrounding whitespace and whose value holds no comment: the
   * indentation, the key and the comment are kept and only the value is
   * replaced, so whitespace between the old value and the comment is
   * lost.  A canonical line rewritten with its own value is unchanged.
   */
  lemma RewriteKeeps(indent: string, key: string, value: string, comment: string, newValue: string)
    requires forall k :: 0 <= k < |indent| ==> IsSpace(indent[k])
    requires key != [] && !IsSpace(key[0]) && !IsSpace(key[|key| - 1]) && '=' !in key
    requires forall k :: !SlashesAt(value, k)
    requires comment == [] || (|comment| >= 2 && comment[0] == '/' && comment[1] == '/')
    requires comment != [] && value != [] ==> value[|value| - 1] != '/'
    ensures '=' in indent + key + "=" + value + comment
    ensures Rewrite(indent + key + "=" + value + comment, newValue) == indent + key + "=" + newValue + comment + "\n"
  {
    var keyPart := indent + key;
    assert '=' !in keyPart;
    assert indent + key + "=" + value + comment == keyPart + "=" + (value + comment);
    RewriteParts(keyPart, value + comment, newValue);
    CanonicalKeyPart(indent, key);
    CommentOfJoin(value, comment);
  }

  lemma CanonicalKeyPart(indent: string, key: string)
    requires forall k :: 0 <= k < |indent| ==> IsSpace(indent[k])
    requires key != [] && !IsSpace(key[0]) && !IsSpace(key[|key| - 1])
    ensures Indent(indent + key) == indent && Strip(indent + key) == key
  {
    var s := indent + key;
    assert s[|indent|] == key[0];
    SkipPrefix(s, |indent|);
    var a := Skip(Space, s, 0);
    assert s[..a] == indent;
    var r := Strip(s);
    assert r == s[a..a + |r|];
    assert |r| == |key|;
    assert s[a..] == key;
  }

  lemma SkipPrefix(s: string, n: nat)
    requires n < |s| && !IsSpace(s[n]) && forall k :: 0 <= k < n ==> IsSpace(s[k])
    ensures Skip(Space, s, 0) == n
  {
  }

  lemma CommentOfJoin(value: string, comment: string)
    requires forall k :: !SlashesAt(value, k)
    requires comment == [] || (|comment| >= 2 && comment[0] == '/' && comment[1] == '/')
    requires comment != [] && value != [] ==> value[|value| - 1] != '/'
    ensures CommentOf(value + comment) == comment
  {
    var s := value + comment;
    var n := CommentStart(s);
    forall k | 0 <= k < |value| ensures !SlashesAt(s, k) {
      if k + 1 < |value| {
        assert !SlashesAt(value, k);
      }
    }
    if comment != [] {
      assert SlashesAt(s, |value|);
      assert n == |value|;
    } else {
      assert s == value;
      assert n == |s|;
    }
    assert s[n..] == comment;
  }

  /** The rewrite of a line split at its first `=`. */
  lemma RewriteParts(keyPart: string, valuePart: string, newValue: string)
    requires '=' !in keyPart
    ensures '=' in keyPart + "=" + valuePart
    ensures Rewrite(keyPart + "=" + valuePart, newValue)
      == Indent(keyPart) + Strip(keyPart) + "=" + newValue + CommentOf(valuePart) + "\n"
  {
    var line := keyPart + "=" + valuePart;
    assert line[|keyPart|] == '=';
    assert line[..|keyPart|] == keyPart;
    assert IndexOf(line, '=') == |keyPart|;
    assert line[|keyPart| + 1..] == valuePart;
  }

  // ---------------------------------------------------------------------
  // `driver_in_rcd_file`
  // ---------------------------------------------------------------------

  /** Is `name` the text of a header line?  Unreadable files hold no driver. */
  method DriverInRcdFile(lines: Option<seq<string>>, driverName: string) returns (found: bool)
    ensures found <==> lines.Some? && exists i :: 0 <= i < |lines.value| && IsHeaderFor(lines.value[i], driverName)
  {
    if lines == None {
      return false;
    }
    var ls := lines.value;
    for i := 0 to |ls|
      invariant forall j :: 0 <= j < i ==> !IsHeaderFor(ls[j], driverName)
    {
      var cleanLine := CleanLine(ls[i]);
      if cleanLine != "" && '=' !in cleanLine && cleanLine[0] != '{' && cleanLine[0] != '}' {
        if cleanLine == driverName {
          return true;
        }
      }
    }
    return false;
  }

  /** The header test of `driver_in_rcd_file`. */
  predicate IsHeaderFor(line: string, name: string) {
    var c := CleanLine(line);
    c != "" && '=' !in c && c[0] != '{' && c[0] != '}' && c == name
  }

  /** It is the same header test as the parser's: a line names the driver exactly when the parser reads it as that header. */
  lemma HeaderTestAgreesWithParser(line: string, name: string)
    ensures IsHeaderFor(line, name) <==> RcdHandler.Classify(line) == RcdHandler.Header(name)
  {
  }

  // ---------------------------------------------------------------------
  // `update_rcd_files` and the backup name
  // ---------------------------------------------------------------------

  /** What happened to one row's file: not found, rewritten, or the rewrite failed. */
  datatype FileOutcome = NotFound | Written | Failed

  /** The rows with a non-empty `Driver`, the only ones processed. */
  function Named(rows: seq<map<string, string>>): nat
    decreases |rows|
  {
    if rows == [] then 0
    else Named(rows[..|rows| - 1]) + (if DriverOf(rows[|rows| - 1]) != "" then 1 else 0)
  }

  /** The processed rows whose file was rewritten. */
  function Succeeded(rows: seq<map<string, string>>, outcomes: seq<FileOutcome>): (n: nat)
    requires |outcomes| == |rows|
    ensures n <= Named(rows)
    decreases |rows|
  {
    if rows == [] then 0
    else
      var i := |rows| - 1;
      Succeeded(rows[..i], outcomes[..i]) + (if DriverOf(rows[i]) != "" && outcomes[i] == Written then 1 else 0)
  }

  /**
   * The counting loop of `update_rcd_files`; the outcome of locating and
   * rewriting each row's file is given.  Every processed row counts once,
   * as a success or as an error.
   */
  method UpdateRcdFiles(csvData: seq<map<string, string>>, outcomes: seq<FileOutcome>)
    returns (successCount: nat, errorCount: nat)
    requires |outcomes| == |csvData|
    ensures successCount == Succeeded(csvData, outcomes)
    ensures successCount + errorCount == Named(csvData)
  {
    successCount, errorCount := 0, 0;
    for i := 0 to |csvData|
      invariant successCount == Succeeded(csvData[..i], outcomes[..i])
      invariant successCount + errorCount == Named(csvData[..i])
    {
      PrefixSnoc(csvData, i);
      PrefixSnoc(outcomes, i);
      var driverName := DriverOf(csvData[i]);
      if driverName == "" {
        continue;
      }
      match outcomes[i]
      case Written => successCount := successCount + 1;
      case Failed => errorCount := errorCount + 1;
      case NotFound => errorCount := errorCount + 1;
    }
    assert csvData[..|csvData|] == csvData;
    assert outcomes[..|outcomes|] == outcomes;
  }

  /** A character kept in a backup file name. */
  predicate SafeChar(c: char) {
    IsAlnum(c) || c == ' ' || c == '_' || c == '-'
  }

  /** The backup file name stem of `backup_rcd_file`: every other character becomes `_`. */
  function SafeName(name: string): (r: string)
    ensures |r| == |name|
    ensures forall k :: 0 <= k < |r| ==> SafeChar(r[k])
    ensures forall k :: 0 <= k < |r| ==> r[k] == (if SafeChar(name[k]) then name[k] else '_')
  {
    seq(|name|, k requires 0 <= k < |name| => if SafeChar(name[k]) then name[k] else '_')
  }

  /** Sanitising twice changes nothing more; a name already safe is kept. */
  lemma SafeNameIdempotent(name: string)
    ensures SafeName(SafeName(name)) == SafeName(name)
    ensures (forall k :: 0 <= k < |name| ==> SafeChar(name[k])) ==> SafeName(name) == name
  {
  }
}
