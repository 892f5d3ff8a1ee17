/**
 * The parts of Python's `str` behaviour that the driver pipeline relies on:
 * whitespace stripping, `//` comment cutting, substring tests, `split`,
 * `lower`, and the ordering `sorted` uses.  Characters are Unicode scalar
 * values; case mapping is modelled for ASCII letters only.
 */
module Text {

  // ---------------------------------------------------------------------
  // Character classes
  // ---------------------------------------------------------------------

  /** Python's `str.isspace()`, which is also what `\s` matches in a `str` pattern. */
  predicate IsSpace(c: char) {
    ('\t' <= c <= '\r') || ('\U{1C}' <= c <= ' ') || c == '\U{85}' || c == '\U{A0}'
    || c == '\U{1680}' || ('\U{2000}' <= c <= '\U{200A}') || c == '\U{2028}' || c == '\U{2029}'
    || c == '\U{202F}' || c == '\U{205F}' || c == '\U{3000}'
  }

  predicate IsDigit(c: char) {
    '0' <= c <= '9'
  }

  predicate IsUpper(c: char) {
    'A' <= c <= 'Z'
  }

  /** `str.isalnum()` restricted to ASCII letters and digits. */
  predicate IsAlnum(c: char) {
    IsDigit(c) || IsUpper(c) || ('a' <= c <= 'z')
  }

  /** The classes of characters that the scanners below skip over. */
  datatype CharClass =
    | Space                 // `\s`
    | NotSpace              // `[^\s\n\r]`
    | Digit                 // `\d`
    | NotQuote              // `[^"]`
    | NotQuoteOrLineBreak   // `[^"\n\r]`
    | QuoteMark             // the characters of `strip('"\'')`
    | NotPathSep            // neither `/` nor `\`

  predicate In(cls: CharClass, c: char) {
    match cls
    case Space => IsSpace(c)
    case NotSpace => !IsSpace(c)
    case Digit => IsDigit(c)
    case NotQuote => c != '"'
    case NotQuoteOrLineBreak => c != '"' && c != '\n' && c != '\r'
    case QuoteMark => c == '"' || c == '\''
    case NotPathSep => c != '/' && c != '\\'
  }

  // ---------------------------------------------------------------------
  // Case mapping
  // ---------------------------------------------------------------------

  function LowerChar(c: char): (d: char)
    ensures !IsUpper(d)
    ensures IsSpace(d) <==> IsSpace(c)
  {
    if IsUpper(c) then (c as int + 32) as char else c
  }

  /** `str.lower()` for ASCII letters. */
  function Lower(s: string): (r: string)
    ensures |r| == |s|
    ensures forall i :: 0 <= i < |s| ==> r[i] == LowerChar(s[i])
  {
    seq(|s|, i requires 0 <= i < |s| => LowerChar(s[i]))
  }

  lemma {:induction false} LowerIdempotent(s: string)
    ensures Lower(Lower(s)) == Lower(s)
  {
    assert forall i :: 0 <= i < |s| ==> Lower(Lower(s))[i] == Lower(s)[i];
  }

  // ---------------------------------------------------------------------
  // Scanning and stripping
  // ---------------------------------------------------------------------

  /** The first index at or after `i` whose character is not in `cls` (or `|s|`). */
  function Skip(cls: CharClass, s: string, i: nat): (j: nat)
    requires i <= |s|
    ensures i <= j <= |s|
    ensures forall k :: i <= k < j ==> In(cls, s[k])
    ensures j < |s| ==> !In(cls, s[j])
    decreases |s| - i
  {
    if i == |s| || !In(cls, s[i]) then i else Skip(cls, s, i + 1)
  }

  /** `Skip` stops at the first character outside `cls`. */
  lemma SkipTo(cls: CharClass, s: string, i: nat, j: nat)
    requires i <= j <= |s|
    requires forall k :: i <= k < j ==> In(cls, s[k])
    requires j < |s| ==> !In(cls, s[j])
    ensures Skip(cls, s, i) == j
  {
  }

  /** The smallest index `e <= j` such that `s[e..j]` lies entirely in `cls`. */
  function SkipBack(cls: CharClass, s: string, j: nat): (e: nat)
    requires j <= |s|
    ensures e <= j
    ensures forall k :: e <= k < j ==> In(cls, s[k])
    ensures e > 0 ==> !In(cls, s[e - 1])
  {
    if j == 0 || !In(cls, s[j - 1]) then j else SkipBack(cls, s, j - 1)
  }

  /** `s.lstrip()` (or `s.lstrip(chars)` for the class of `chars`). */
  function TrimLeft(s: string, cls: CharClass := Space): (r: string)
    ensures r == s[Skip(cls, s, 0)..]
  {
    s[Skip(cls, s, 0)..]
  }

  function TrimRight(s: string, cls: CharClass := Space): (r: string)
    ensures r == s[..SkipBack(cls, s, |s|)]
  {
    s[..SkipBack(cls, s, |s|)]
  }

  /**
   * `s.strip()`: the result is the slice of `s` left after dropping the
   * longest prefix and suffix made of `cls` characters, and it neither
   * starts nor ends with such a character.
   */
  function Strip(s: string, cls: CharClass := Space): (r: string)
    ensures var a := Skip(cls, s, 0);
      && a + |r| <= |s| && r == s[a..a + |r|]
      && (forall k :: 0 <= k < a ==> In(cls, s[k]))
      && (forall k :: a + |r| <= k < |s| ==> In(cls, s[k]))
    ensures r == [] || (!In(cls, r[0]) && !In(cls, r[|r| - 1]))
  {
    var t := TrimLeft(s, cls);
    var r := TrimRight(t, cls);
    assert t == [] || !In(cls, t[0]);
    r
  }

  /** Stripping adds no character. */
  lemma StripWithout(s: string, cls: CharClass, c: char)
    requires c !in s
    ensures c !in Strip(s, cls)
  {
    var r := Strip(s, cls);
    var a := Skip(cls, s, 0);
    forall k | 0 <= k < |r| ensures r[k] != c {
      assert r[k] == s[a + k];
    }
  }

  lemma StripOfStripped(s: string, cls: CharClass)
    requires s == [] || (!In(cls, s[0]) && !In(cls, s[|s| - 1]))
    ensures Strip(s, cls) == s
  {
  }

  /** Leading whitespace of `s`, as `s[:len(s) - len(s.lstrip())]`. */
  function Indent(s: string): (r: string)
    ensures r <= s
    ensures forall k :: 0 <= k < |r| ==> IsSpace(r[k])
    ensures |r| < |s| ==> !IsSpace(s[|r|])
  {
    s[..Skip(Space, s, 0)]
  }

  // ---------------------------------------------------------------------
  // Searching
  // ---------------------------------------------------------------------

  /** `s[i..]` starts with the comment marker `//`. */
  predicate SlashesAt(s: string, i: int) {
    0 <= i && i + 1 < |s| && s[i] == '/' && s[i + 1] == '/'
  }

  /** The index of the first `//` at or after `i`, or `|s|`. */
  function CommentFrom(s: string, i: nat): (r: nat)
    requires i <= |s|
    ensures i <= r <= |s|
    ensures forall k :: i <= k < r ==> !SlashesAt(s, k)
    ensures r < |s| ==> SlashesAt(s, r)
    decreases |s| - i
  {
    if i == |s| then i
    else if SlashesAt(s, i) then i
    else CommentFrom(s, i + 1)
  }

  function CommentStart(s: string): (r: nat)
    ensures r <= |s|
    ensures forall k :: 0 <= k < r ==> !SlashesAt(s, k)
    ensures r < |s| ==> SlashesAt(s, r)
  {
    CommentFrom(s, 0)
  }

  /** `s.split('//')[0]`: the text before the first `//`, which holds no `//`. */
  function CutComment(s: string): (r: string)
    ensures r <= s
    ensures forall k :: !SlashesAt(r, k)
    ensures r == s || SlashesAt(s, |r|)
  {
    var n := CommentStart(s);
    assert forall k :: SlashesAt(s[..n], k) ==> k < n && SlashesAt(s, k);
    s[..n]
  }

  /** The index of the first `c` in `s`, or `|s|` when there is none. */
  function IndexOf(s: string, c: char): (r: nat)
    ensures r <= |s|
    ensures c !in s[..r]
    ensures r < |s| <==> c in s
    ensures r < |s| ==> s[r] == c
  {
    if s == [] then 0
    else if s[0] == c then 0
    else
      var r := 1 + IndexOf(s[1..], c);
      assert s[..r] == [s[0]] + s[1..][..r - 1];
      r
  }

  /** Python's `needle in hay` for strings. */
  predicate Contains(hay: string, needle: string)
    decreases |hay|
  {
    needle <= hay || (|hay| > 0 && Contains(hay[1..], needle))
  }

  lemma {:induction false} ContainsAt(hay: string, needle: string, i: nat)
    requires i + |needle| <= |hay| && hay[i..i + |needle|] == needle
    ensures Contains(hay, needle)
  {
    if i > 0 {
      ContainsAt(hay[1..], needle, i - 1);
    }
  }

  /** `s.count(c)`. */
  function Count(s: string, c: char): nat {
    multiset(s)[c]
  }

  // ---------------------------------------------------------------------
  // Splitting
  // ---------------------------------------------------------------------

  /** `s.split(c)` for a one-character separator. */
  function SplitOn(s: string, c: char): (r: seq<string>)
    ensures |r| >= 1
    ensures forall k :: 0 <= k < |r| ==> c !in r[k]
    decreases |s|
  {
    var i := IndexOf(s, c);
    if i == |s| then [s] else [s[..i]] + SplitOn(s[i + 1..], c)
  }

  /** `sep.join(parts)`. */
  function Join(parts: seq<string>, c: char): string
    decreases |parts|
  {
    if parts == [] then []
    else if |parts| == 1 then parts[0]
    else parts[0] + [c] + Join(parts[1..], c)
  }

  lemma {:induction false} JoinSplit(s: string, c: char)
    ensures Join(SplitOn(s, c), c) == s
    decreases |s|
  {
    var i := IndexOf(s, c);
    if i < |s| {
      var rest := SplitOn(s[i + 1..], c);
      assert SplitOn(s, c) == [s[..i]] + rest;
      JoinCons(s[..i], rest, c);
      JoinSplit(s[i + 1..], c);
      assert s == s[..i] + [c] + s[i + 1..];
    } else {
      assert SplitOn(s, c) == [s];
    }
  }

  lemma JoinCons(a: string, rest: seq<string>, c: char)
    requires rest != []
    ensures Join([a] + rest, c) == a + [c] + Join(rest, c)
  {
    assert ([a] + rest)[1..] == rest;
  }

  /** `s.split()`: the maximal runs of non-whitespace characters, in order. */
  function Words(s: string): (r: seq<string>)
    ensures forall k :: 0 <= k < |r| ==> r[k] != [] && forall j :: 0 <= j < |r[k]| ==> !IsSpace(r[k][j])
    decreases |s|
  {
    var t := TrimLeft(s);
    if t == [] then []
    else
      var n := Skip(NotSpace, t, 0);
      [t[..n]] + Words(t[n..])
  }

  lemma {:induction false} WordsOfSpaceFree(s: string)
    requires s != [] && forall j :: 0 <= j < |s| ==> !IsSpace(s[j])
    ensures Words(s) == [s]
  {
    assert Skip(Space, s, 0) == 0;
    assert s[0..] == s;
    assert TrimLeft(s) == s;
    assert s[..|s|] == s;
    assert Skip(NotSpace, s, 0) == |s|;
    assert s[|s|..] == [];
    assert Words([]) == [];
  }

  // ---------------------------------------------------------------------
  // Prefixes of any sequence
  // ---------------------------------------------------------------------

  lemma PrefixSnoc<T>(s: seq<T>, i: nat)
    requires i < |s|
    ensures s[..i + 1] == s[..i] + [s[i]]
    ensures s[..i + 1][..i] == s[..i] && s[..i + 1][i] == s[i]
  {
  }

  lemma AppendInit<T>(a: seq<T>, b: seq<T>)
    requires b != []
    ensures (a + b)[..|a + b| - 1] == a + b[..|b| - 1] && (a + b)[|a + b| - 1] == b[|b| - 1]
  {
  }

  lemma SeqAssoc<T>(a: seq<T>, b: seq<T>, c: seq<T>)
    ensures (a + b) + c == a + (b + c)
  {
  }

  lemma PrefixParts<T>(s: seq<T>, m: nat, i: nat)
    requires i < m <= |s|
    ensures s[..m][..i] == s[..i] && s[..m][i] == s[i] && s[..m][i + 1..] == s[i + 1..m]
  {
  }

  lemma SuffixInit<T>(s: seq<T>, a: nat)
    requires a < |s|
    ensures s[a..][..|s| - 1 - a] == s[a..|s| - 1] && s[a..][|s| - 1 - a] == s[|s| - 1]
  {
  }

  // ---------------------------------------------------------------------
  // Ordering (Python compares strings by code point, a proper prefix first)
  // ---------------------------------------------------------------------

  predicate LexLess(a: string, b: string)
    decreases |a|
  {
    if a == [] then b != []
    else if b == [] then false
    else if a[0] != b[0] then a[0] < b[0]
    else LexLess(a[1..], b[1..])
  }

  predicate LexLe(a: string, b: string) {
    a == b || LexLess(a, b)
  }

  lemma {:induction false} LexLessIrreflexive(a: string)
    ensures !LexLess(a, a)
  {
    if a != [] {
      LexLessIrreflexive(a[1..]);
    }
  }

  lemma {:induction false} LexLessTransitive(a: string, b: string, c: string)
    requires LexLess(a, b) && LexLess(b, c)
    ensures LexLess(a, c)
    decreases |a|
  {
    if a != [] && a[0] == b[0] && b[0] == c[0] {
      LexLessTransitive(a[1..], b[1..], c[1..]);
    }
  }

  lemma {:induction false} LexLessTotal(a: string, b: string)
    ensures a == b || LexLess(a, b) || LexLess(b, a)
    decreases |a|
  {
    if a != [] && b != [] && a[0] == b[0] {
      LexLessTotal(a[1..], b[1..]);
      if a[1..] == b[1..] {
        assert a == [a[0]] + a[1..] && b == [b[0]] + b[1..];
      }
    }
  }

  lemma LexLessAsymmetric(a: string, b: string)
    requires LexLess(a, b)
    ensures !LexLess(b, a) && a != b
  {
    if LexLess(b, a) {
      LexLessTransitive(a, b, a);
      LexLessIrreflexive(a);
    }
    if a == b {
      LexLessIrreflexive(a);
    }
  }

  /** No entry twice. */
  predicate NoDup(s: seq<string>) {
    forall i, j :: 0 <= i < j < |s| ==> s[i] != s[j]
  }

  /** Ascending order, duplicates allowed (`sorted` on a list). */
  predicate Sorted(s: seq<string>) {
    forall i, j :: 0 <= i < j < |s| ==> LexLe(s[i], s[j])
  }

  /** Ascending without duplicates (`sorted` on a set). */
  predicate StrictlySorted(s: seq<string>) {
    forall i, j :: 0 <= i < j < |s| ==> LexLess(s[i], s[j])
  }

  function Insert(x: string, s: seq<string>): (r: seq<string>)
    requires Sorted(s)
    ensures Sorted(r)
    ensures multiset(r) == multiset(s) + multiset{x}
    decreases |s|
  {
    assert s == [] || s == [s[0]] + s[1..];
    if s == [] then [x]
    else if LexLe(x, s[0]) then
      BelowSorted(x, s);
      ConsSorted(x, s);
      [x] + s
    else
      var rest := Insert(x, s[1..]);
      LexLessTotal(x, s[0]);
      BelowInserted(s[0], x, s[1..], rest);
      ConsSorted(s[0], rest);
      [s[0]] + rest
  }

  /** An entry no greater than the head of a sorted sequence is no greater than any entry. */
  lemma BelowSorted(x: string, s: seq<string>)
    requires Sorted(s) && s != [] && LexLe(x, s[0])
    ensures forall j :: 0 <= j < |s| ==> LexLe(x, s[j])
  {
    forall j | 0 <= j < |s| ensures LexLe(x, s[j]) {
      if x != s[0] && s[0] != s[j] { LexLessTransitive(x, s[0], s[j]); }
    }
  }

  /** The head of a sorted sequence is no greater than anything its tail with `x` inserted holds. */
  lemma BelowInserted(y: string, x: string, t: seq<string>, rest: seq<string>)
    requires Sorted([y] + t) && LexLess(y, x)
    requires multiset(rest) == multiset(t) + multiset{x}
    ensures forall j :: 0 <= j < |rest| ==> LexLe(y, rest[j])
  {
    forall j | 0 <= j < |rest| ensures LexLe(y, rest[j]) {
      assert rest[j] in multiset(rest);
      if rest[j] != x {
        assert rest[j] in t;
        var k :| 0 <= k < |t| && t[k] == rest[j];
        assert ([y] + t)[0] == y && ([y] + t)[k + 1] == rest[j];
      }
    }
  }

  lemma ConsSorted(y: string, r: seq<string>)
    requires Sorted(r) && forall j :: 0 <= j < |r| ==> LexLe(y, r[j])
    ensures Sorted([y] + r)
  {
    var s := [y] + r;
    forall i, j | 0 <= i < j < |s| ensures LexLe(s[i], s[j]) {
      if i > 0 {
        assert s[i] == r[i - 1] && s[j] == r[j - 1];
      } else {
        assert s[j] == r[j - 1];
      }
    }
  }

  /** Python's `sorted(list_of_str)`: an ascending permutation of its input. */
  function SortStrings(s: seq<string>): (r: seq<string>)
    ensures Sorted(r)
    ensures multiset(r) == multiset(s)
    decreases |s|
  {
    if s == [] then []
    else
      assert s == [s[0]] + s[1..];
      Insert(s[0], SortStrings(s[1..]))
  }
}
