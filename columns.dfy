/**
 * The column helpers shared by the driver table editor and viewer: which
 * columns are variables, the order they are shown in (the columns of a
 * fixed standard order that are present, in that order, then the rest
 * sorted), and the case-insensitive name filter.
 */
module Columns {
  import opened Text

  /** The columns the matcher adds to every row; they are never shown as variables. */
  const METADATA_COLUMNS: seq<string> := ["Driver", "Source_CAR_File", "CAR_File_Path", "Original_CAR_Name"]

  // ---------------------------------------------------------------------
  // Selecting columns by membership
  // ---------------------------------------------------------------------

  /** `[c for c in columns if c not in drop]`. */
  function Without(columns: seq<string>, drop: seq<string>): (r: seq<string>)
    ensures forall c :: c in r <==> c in columns && c !in drop
    ensures NoDup(columns) ==> NoDup(r)
    decreases |columns|
  {
    if columns == [] then []
    else
      var init := columns[..|columns| - 1];
      var c := columns[|columns| - 1];
      assert NoDup(columns) ==> NoDup(init) && c !in init;
      Without(init, drop) + (if c in drop then [] else [c])
  }

  /**
   * The entries of `order` that occur in `keep`, in the order of `order`,
   * each taken once (at its first occurrence).
   */
  function Present(order: seq<string>, keep: seq<string>): (r: seq<string>)
    ensures forall c :: c in r <==> c in order && c in keep
    ensures NoDup(r)
    decreases |order|
  {
    if order == [] then []
    else
      var c := order[|order| - 1];
      var init := Present(order[..|order| - 1], keep);
      if c in keep && c !in init then init + [c] else init
  }

  /** Dropping columns keeps the order of the rest: it distributes over concatenation. */
  lemma {:induction false} WithoutAppend(a: seq<string>, b: seq<string>, drop: seq<string>)
    ensures Without(a + b, drop) == Without(a, drop) + Without(b, drop)
    decreases |b|
  {
    if b != [] {
      var m := |b| - 1;
      var c := b[m];
      WithoutAppend(a, b[..m], drop);
      AppendInit(a, b);
      var tail := if c in drop then [] else [c];
      assert Without(a + b, drop) == Without(a + b[..m], drop) + tail;
      assert Without(b, drop) == Without(b[..m], drop) + tail;
      SeqAssoc(Without(a, drop), Without(b[..m], drop), tail);
    } else {
      assert a + b == a;
    }
  }

  // ---------------------------------------------------------------------
  // `get_variables`: the standard order first, then the rest sorted
  // ---------------------------------------------------------------------

  /** `lst.remove(x)`: the first occurrence of `x` is taken out. */
  function RemoveFirst(s: seq<string>, x: string): (r: seq<string>)
    requires x in s
    ensures multiset(r) == multiset(s) - multiset{x}
    ensures |r| == |s| - 1
  {
    assert s == [s[0]] + s[1..];
    if s[0] == x then s[1..] else [s[0]] + RemoveFirst(s[1..], x)
  }

  /** Removing from a sequence without repeats leaves none, and no copy of the removed entry. */
  lemma {:induction false} RemoveFirstNoDup(s: seq<string>, x: string)
    requires x in s && NoDup(s)
    ensures NoDup(RemoveFirst(s, x)) && x !in RemoveFirst(s, x)
    ensures forall y :: y in RemoveFirst(s, x) ==> y in s
  {
    assert s == [s[0]] + s[1..];
    assert s[0] !in s[1..];
    if s[0] != x {
      var t := RemoveFirst(s[1..], x);
      RemoveFirstNoDup(s[1..], x);
      assert RemoveFirst(s, x) == [s[0]] + t;
    }
  }

  /** The columns taken in standard order so far, and the ones still to place. */
  datatype Split = Split(picked: seq<string>, rest: seq<string>)

  /**
   * The state after the standard-order loop has run over `order`: each
   * entry still among the remaining variables is appended to the picked
   * ones and removed once from the rest.  Together they are always a
   * rearrangement of the variables.
   */
  function Pick(order: seq<string>, vars: seq<string>): (r: Split)
    ensures multiset(r.picked) + multiset(r.rest) == multiset(vars)
    decreases |order|
  {
    if order == [] then Split([], vars)
    else
      var s := Pick(order[..|order| - 1], vars);
      var v := order[|order| - 1];
      if v in s.rest then Split(s.picked + [v], RemoveFirst(s.rest, v)) else s
  }

  /** The variables in display order: the picked ones, then the rest sorted. */
  function Arranged(order: seq<string>, vars: seq<string>): (r: seq<string>)
    ensures multiset(r) == multiset(vars)
  {
    var s := Pick(order, vars);
    s.picked + SortStrings(s.rest)
  }

  /** The ordering loop of `get_variables`, over the already selected variables. */
  method Arrange(variables0: seq<string>, standardOrder: seq<string>) returns (sortedVars: seq<string>)
    ensures sortedVars == Arranged(standardOrder, variables0)
  {
    var variables := variables0;
    sortedVars := [];
    for k := 0 to |standardOrder|
      invariant Pick(standardOrder[..k], variables0) == Split(sortedVars, variables)
    {
      PrefixSnoc(standardOrder, k);
      var v := standardOrder[k];
      if v in variables {
        sortedVars := sortedVars + [v];
        variables := RemoveFirst(variables, v);
      }
    }
    assert standardOrder[..|standardOrder|] == standardOrder;
    sortedVars := sortedVars + SortStrings(variables);
  }

  /**
   * For variables without repeats, the picked columns are the standard
   * columns present among them, in standard order, and a column outside
   * the standard order is never touched.
   */
  lemma {:induction false} PickedPresent(order: seq<string>, vars: seq<string>)
    requires NoDup(vars)
    ensures Pick(order, vars).picked == Present(order, vars)
    ensures forall x :: x !in order ==> multiset(Pick(order, vars).rest)[x] == multiset(vars)[x]
    decreases |order|
  {
    if order != [] {
      var m := |order| - 1;
      var init := order[..m];
      var v := order[m];
      PickedPresent(init, vars);
      RestOutsideOrder(init, vars);
      var s := Pick(init, vars);
      if v !in init {
        assert multiset(s.rest)[v] == multiset(vars)[v];
      }
      assert (v in s.rest) == (v in vars && v !in Present(init, vars));
      assert forall x :: x !in order ==> x !in init && x != v;
    }
  }

  /**
   * For variables without repeats, every standard column that was present
   * has left the rest.
   */
  lemma {:induction false} RestOutsideOrder(order: seq<string>, vars: seq<string>)
    requires NoDup(vars)
    ensures forall x :: x in order ==> x !in Pick(order, vars).rest
    ensures NoDup(Pick(order, vars).rest)
    decreases |order|
  {
    if order != [] {
      var m := |order| - 1;
      var init, v := order[..m], order[m];
      assert order == init + [v];
      RestOutsideOrder(init, vars);
      RestStep(Pick(init, vars).rest, init, v);
    }
  }

  /** One more standard column: taking it out of the rest keeps the rest free of repeats and of standard columns. */
  lemma RestStep(rest: seq<string>, init: seq<string>, v: string)
    requires NoDup(rest) && forall x :: x in init ==> x !in rest
    ensures var r := if v in rest then RemoveFirst(rest, v) else rest;
      NoDup(r) && forall x :: x in init + [v] ==> x !in r
  {
    if v in rest {
      RemoveFirstNoDup(rest, v);
    }
  }

  /**
   * What `get_variables` promises about its order: a rearrangement of the
   * variables that begins with the present standard columns in standard
   * order and continues with the others in ascending order; for variables
   * without repeats, no standard column appears in the sorted part.
   */
  lemma ArrangedShape(order: seq<string>, vars: seq<string>)
    requires NoDup(vars)
    ensures var r, n := Arranged(order, vars), |Present(order, vars)|;
      && multiset(r) == multiset(vars)
      && n <= |r|
      && r[..n] == Present(order, vars)
      && Sorted(r[n..])
      && forall i :: n <= i < |r| ==> r[i] !in order
  {
    PickedPresent(order, vars);
    var s := Pick(order, vars);
    var r := Arranged(order, vars);
    assert r[..|s.picked|] == s.picked;
    assert r[|s.picked|..] == SortStrings(s.rest);
    RestOutsideOrder(order, vars);
    forall i | |s.picked| <= i < |r|
      ensures r[i] !in order
    {
      assert r[i] in multiset(SortStrings(s.rest));
    }
  }

  // ---------------------------------------------------------------------
  // The name filter of `apply_filter`
  // ---------------------------------------------------------------------

  /** `[x for x in names if text in x.lower()]`, the filter text already lower-cased. */
  function Matching(text: string, names: seq<string>): (r: seq<string>)
    ensures forall x :: x in r <==> x in names && Contains(Lower(x), text)
    ensures |r| <= |names|
    decreases |names|
  {
    if names == [] then []
    else
      var x := names[|names| - 1];
      Matching(text, names[..|names| - 1]) + (if Contains(Lower(x), text) then [x] else [])
  }

  /** The filter keeps the order of the names: it distributes over concatenation. */
  lemma {:induction false} MatchingAppend(text: string, a: seq<string>, b: seq<string>)
    ensures Matching(text, a + b) == Matching(text, a) + Matching(text, b)
    decreases |b|
  {
    if b != [] {
      var m := |b| - 1;
      var x := b[m];
      MatchingAppend(text, a, b[..m]);
      AppendInit(a, b);
      var tail := if Contains(Lower(x), text) then [x] else [];
      assert Matching(text, a + b) == Matching(text, a + b[..m]) + tail;
      assert Matching(text, b) == Matching(text, b[..m]) + tail;
      SeqAssoc(Matching(text, a), Matching(text, b[..m]), tail);
    } else {
      assert a + b == a;
    }
  }

  /** The drivers and variables a table shows. */
  datatype Selection = Selection(drivers: seq<string>, variables: seq<string>)

  /**
   * The selection for a non-empty lower-cased filter text: the matching
   * drivers, and the matching variables or, when none matches, all of them.
   */
  function Filtered(text: string, drivers: seq<string>, variables: seq<string>): (r: Selection)
    ensures forall d :: d in r.drivers <==> d in drivers && Contains(Lower(d), text)
    ensures (exists v :: v in variables && Contains(Lower(v), text)) ==>
      forall v :: v in r.variables <==> v in variables && Contains(Lower(v), text)
    ensures (forall v :: v in variables ==> !Contains(Lower(v), text)) ==> r.variables == variables
  {
    var fv := Matching(text, variables);
    assert fv == [] || fv[0] in fv;
    Selection(Matching(text, drivers), if fv == [] then variables else fv)
  }
}
