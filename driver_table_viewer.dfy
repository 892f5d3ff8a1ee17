/**
 * The data side of the read-only driver table: which variables it shows
 * and in what order, which drivers and variables a filter keeps, and what
 * the export writes.  Widgets and the spreadsheet file are not modelled.
 */
module DriverTableViewer {
  import opened Wrappers
  import opened Text
  import opened Columns

  /** The order in which the known variables are listed; it includes the descriptive fields. */
  const STANDARD_ORDER: seq<string> := [
    "Abbreviation", "Nationality", "NatAbbrev",
    "StartsDry", "StartsWet", "StartStalls",
    "QualifyingAbility", "RaceAbility", "Consistency", "RainAbility",
    "Passing", "Crash", "Recovery", "CompletedLaps%", "Script",
    "TrackAggression", "CorneringAdd", "CorneringMult",
    "TCGripThreshold", "TCThrottleFract", "TCResponse",
    "MinRacingSkill", "Composure",
    "RaceColdBrainMin", "RaceColdBrainTime", "QualColdBrainMin", "QualColdBrainTime"
  ]

  /** The variables `get_variables` lists for the given DataFrame columns. */
  function Variables(allColumns: seq<string>): seq<string> {
    Arranged(STANDARD_ORDER, Without(allColumns, METADATA_COLUMNS))
  }

  /** `get_variables`: select the variables, then order them. */
  method GetVariables(allColumns: seq<string>) returns (sortedVars: seq<string>)
    ensures sortedVars == Variables(allColumns)
  {
    var variables := Without(allColumns, METADATA_COLUMNS);
    sortedVars := Arrange(variables, STANDARD_ORDER);
  }

  /** Only the metadata columns are left out; every other column is listed as often as it occurs. */
  lemma VariablesMembers(allColumns: seq<string>)
    ensures forall c :: c in Variables(allColumns) <==> c in allColumns && c !in METADATA_COLUMNS
    ensures multiset(Variables(allColumns)) == multiset(Without(allColumns, METADATA_COLUMNS))
  {
    var vars := Without(allColumns, METADATA_COLUMNS);
    forall c ensures c in Variables(allColumns) <==> c in vars {
      assert c in Variables(allColumns) <==> c in multiset(Variables(allColumns));
    }
  }

  /**
   * For distinct column names: the standard columns that are present come
   * first, in standard order, and the other variables follow in ascending
   * order.
   */
  lemma VariablesOrder(allColumns: seq<string>)
    requires NoDup(allColumns)
    ensures var r, vars := Variables(allColumns), Without(allColumns, METADATA_COLUMNS);
      var n := |Present(STANDARD_ORDER, vars)|;
      && n <= |r|
      && r[..n] == Present(STANDARD_ORDER, vars)
      && Sorted(r[n..])
      && forall i :: n <= i < |r| ==> r[i] !in STANDARD_ORDER
  {
    ArrangedShape(STANDARD_ORDER, Without(allColumns, METADATA_COLUMNS));
  }

  /**
   * `apply_filter`: an empty filter leaves the table as it is (`None`);
   * otherwise the matching drivers and variables are shown, all variables
   * when none matches.
   */
  function ApplyFilter(filterText: string, drivers: seq<string>, allColumns: seq<string>): (r: Option<Selection>)
    ensures r == None <==> Lower(filterText) == ""
    ensures r.Some? ==> forall d :: d in r.value.drivers <==> d in drivers && Contains(Lower(d), Lower(filterText))
    ensures r.Some? ==> forall v :: v in r.value.variables ==> v in Variables(allColumns)
  {
    var text := Lower(filterText);
    if text == "" then None else Some(Filtered(text, drivers, Variables(allColumns)))
  }

  /** The drivers (rows) and columns `export_to_excel` writes. */
  datatype Sheet = Sheet(drivers: seq<string>, columns: seq<string>)

  /** `export_to_excel`: the current filter's selection, or everything, with `Driver` as first column. */
  function Export(filterText: string, drivers: seq<string>, allColumns: seq<string>): (r: Sheet)
    ensures |r.columns| >= 1 && r.columns[0] == "Driver"
  {
    var text := Lower(filterText);
    var sel := if text == "" then Selection(drivers, Variables(allColumns))
               else Filtered(text, drivers, Variables(allColumns));
    Sheet(sel.drivers, ["Driver"] + sel.variables)
  }

  /**
   * The export holds what the table shows: with a filter, the filtered
   * table after `Driver`; without one, every driver and every variable.
   */
  lemma ExportIsView(filterText: string, drivers: seq<string>, allColumns: seq<string>)
    ensures var e := Export(filterText, drivers, allColumns);
      match ApplyFilter(filterText, drivers, allColumns)
      case Some(sel) => e == Sheet(sel.drivers, ["Driver"] + sel.variables)
      case None => e == Sheet(drivers, ["Driver"] + Variables(allColumns))
  {
  }
}
