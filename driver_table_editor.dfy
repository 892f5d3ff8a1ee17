/**
 * The data side of the editable driver table: which variables it shows
 * and in what order, which drivers and variables a filter keeps, which
 * fields are handed to the `.rcd` updater, and the tracking of edited
 * cells until they are saved.  Widgets, threads and dialogs are not
 * modelled; the DataFrame is a map from (variable, driver) to cell text.
 */
module DriverTableEditor {
  import opened Text
  import opened Columns

  /** Fields the editor never shows or writes back. */
  const EXCLUDED_FIELDS: seq<string> := ["Abbreviation", "Nationality", "NatAbbrev", "Script"]

  /** The columns that are not variables of the editor. */
  const HIDDEN: seq<string> := METADATA_COLUMNS + EXCLUDED_FIELDS

  /** The order in which the known talent variables are listed. */
  const STANDARD_ORDER: seq<string> := [
    "StartsDry", "StartsWet", "StartStalls",
    "QualifyingAbility", "RaceAbility", "Consistency", "RainAbility",
    "Passing", "Crash", "Recovery", "CompletedLaps%",
    "TrackAggression", "CorneringAdd", "CorneringMult",
    "TCGripThreshold", "TCThrottleFract", "TCResponse",
    "MinRacingSkill", "Composure",
    "RaceColdBrainMin", "RaceColdBrainTime", "QualColdBrainMin", "QualColdBrainTime"
  ]

  // ---------------------------------------------------------------------
  // Variables and editable fields
  // ---------------------------------------------------------------------

  /** The variables `get_variables` lists for the given DataFrame columns. */
  function Variables(allColumns: seq<string>): seq<string> {
    Arranged(STANDARD_ORDER, Without(allColumns, HIDDEN))
  }

  /** `get_variables`: select the variables, then order them. */
  method GetVariables(allColumns: seq<string>) returns (sortedVars: seq<string>)
    ensures sortedVars == Variables(allColumns)
  {
    var variables := Without(allColumns, HIDDEN);
    sortedVars := Arrange(variables, STANDARD_ORDER);
  }

  /**
   * The variables are the columns that are neither metadata nor excluded,
   * each as often as it occurs among the columns.
   */
  lemma VariablesMembers(allColumns: seq<string>)
    ensures forall c :: c in Variables(allColumns) <==>
      c in allColumns && c !in METADATA_COLUMNS && c !in EXCLUDED_FIELDS
    ensures multiset(Variables(allColumns)) == multiset(Without(allColumns, HIDDEN))
  {
    var vars := Without(allColumns, HIDDEN);
    forall c ensures c in Variables(allColumns) <==> c in vars {
      assert c in Variables(allColumns) <==> c in multiset(Variables(allColumns));
    }
  }

  /**
   * For distinct column names: the standard variables that are present
   * come first, in standard order, and the other variables follow in
   * ascending order.
   */
  lemma VariablesOrder(allColumns: seq<string>)
    requires NoDup(allColumns)
    ensures var r, vars := Variables(allColumns), Without(allColumns, HIDDEN);
      var n := |Present(STANDARD_ORDER, vars)|;
      && n <= |r|
      && r[..n] == Present(STANDARD_ORDER, vars)
      && Sorted(r[n..])
      && forall i :: n <= i < |r| ==> r[i] !in STANDARD_ORDER
  {
    ArrangedShape(STANDARD_ORDER, Without(allColumns, HIDDEN));
  }

  /** The fields passed to the `.rcd` updater: `fieldnames` without metadata and excluded fields. */
  function EditableFields(fieldnames: seq<string>): (r: seq<string>)
    ensures forall f :: f in r <==> f in fieldnames && f !in METADATA_COLUMNS && f !in EXCLUDED_FIELDS
  {
    Without(fieldnames, HIDDEN)
  }

  /** The fields written back are exactly the variables the editor shows for the same columns. */
  lemma ShownAreEditable(fieldnames: seq<string>)
    ensures forall f :: f in Variables(fieldnames) <==> f in EditableFields(fieldnames)
  {
    VariablesMembers(fieldnames);
  }

  // ---------------------------------------------------------------------
  // Filtering
  // ---------------------------------------------------------------------

  /**
   * The table `apply_filter` shows: the full table (via `clear_filter`)
   * for an empty filter, otherwise the matching drivers and variables, all
   * variables when none matches.
   */
  function ApplyFilter(filterText: string, drivers: seq<string>, allColumns: seq<string>): (r: Selection)
    ensures Lower(filterText) == "" ==> r == Selection(drivers, Variables(allColumns))
    ensures forall d :: d in r.drivers <==> d in drivers && Contains(Lower(d), Lower(filterText))
    ensures forall v :: v in r.variables ==> v in Variables(allColumns)
  {
    var text := Lower(filterText);
    if text == "" then Selection(drivers, Variables(allColumns))
    else Filtered(text, drivers, Variables(allColumns))
  }

  /** The empty-filter shortcut changes nothing: filtering by the empty text keeps everything. */
  lemma {:induction false} EmptyFilterKeepsAll(drivers: seq<string>, variables: seq<string>)
    ensures Filtered("", drivers, variables) == Selection(drivers, variables)
  {
    MatchingEmpty(drivers);
    MatchingEmpty(variables);
  }

  lemma {:induction false} MatchingEmpty(names: seq<string>)
    ensures Matching("", names) == names
    decreases |names|
  {
    if names != [] {
      var m := |names| - 1;
      MatchingEmpty(names[..m]);
      assert Contains(Lower(names[m]), "");
      PrefixSnoc(names, m);
      assert names[..m + 1] == names;
    }
  }

  // ---------------------------------------------------------------------
  // Change tracking
  // ---------------------------------------------------------------------

  /** A table cell: a variable of a driver. */
  datatype CellKey = CellKey(variable: string, driver: string)

  /** The text in a cell's entry and the text it was created with. */
  datatype Cell = Cell(value: string, original: string)

  predicate Differs(c: Cell) {
    c.value != c.original
  }

  /** The cells of a table showing `sel`. */
  function Grid(sel: Selection): set<CellKey> {
    set v, d | v in sel.variables && d in sel.drivers :: CellKey(v, d)
  }

  /** The text a cell is created with: the DataFrame's value, or empty when there is none. */
  function CellText(table: map<CellKey, string>, k: CellKey): string {
    if k in table then table[k] else ""
  }

  /** The change-tracking state of the editor. */
  class Editor {
    /** The drivers of the DataFrame's rows. */
    var drivers: seq<string>
    /** The DataFrame's cells. */
    var table: map<CellKey, string>
    /** The cells on screen (`cell_widgets`). */
    var cells: map<CellKey, Cell>
    var changesMade: bool

    /** Whether any cell on screen differs from its original text. */
    predicate AnyChanged()
      reads this
    {
      exists k :: k in cells && Differs(cells[k])
    }

    /**
     * An edited cell always leaves `changesMade` set, and every cell
     * belongs to a driver of the DataFrame (so saving finds its row).
     */
    ghost predicate Valid()
      reads this
    {
      && (AnyChanged() ==> changesMade)
      && (forall k :: k in cells ==> k.driver in drivers)
    }

    constructor (drivers: seq<string>, table: map<CellKey, string>)
      ensures Valid()
      ensures this.drivers == drivers && this.table == table
      ensures cells == map[] && !changesMade
    {
      this.drivers := drivers;
      this.table := table;
      cells := map[];
      changesMade := false;
    }

    /**
     * `create_table` / `create_filtered_table`: the cells are rebuilt from
     * the DataFrame, none of them differing; `changesMade` is left as it was.
     */
    method ShowTable(sel: Selection)
      requires Valid()
      requires forall d :: d in sel.drivers ==> d in drivers
      modifies this
      ensures Valid()
      ensures cells == map k | k in Grid(sel) :: Cell(CellText(table, k), CellText(table, k))
      ensures drivers == old(drivers) && table == old(table) && changesMade == old(changesMade)
    {
      cells := map k | k in Grid(sel) :: Cell(CellText(table, k), CellText(table, k));
    }

    /**
     * A cell's text is set to `newValue` and `on_cell_change` runs: a text
     * that differs from the original sets `changesMade`; one that is back
     * to the original clears it only when no cell differs any more.
     */
    method CellChanged(key: CellKey, newValue: string)
      requires Valid() && key in cells
      modifies this
      ensures Valid()
      ensures cells == old(cells)[key := Cell(newValue, old(cells)[key].original)]
      ensures newValue != old(cells)[key].original ==> changesMade
      ensures newValue == old(cells)[key].original ==> (changesMade <==> AnyChanged())
      ensures drivers == old(drivers) && table == old(table)
    {
      cells := cells[key := Cell(newValue, cells[key].original)];
      if newValue != cells[key].original {
        changesMade := true;
      } else {
        if !AnyChanged() {
          changesMade := false;
        }
      }
    }

    /**
     * `save_csv_changes`: every cell whose text differs from its original
     * is written into the DataFrame; nothing else is.
     */
    method SaveCsvChanges()
      requires Valid()
      modifies this
      ensures forall k :: k in cells && Differs(cells[k]) ==> k in table && table[k] == cells[k].value
      ensures forall k :: k in old(table) && !(k in cells && Differs(cells[k])) ==> k in table && table[k] == old(table)[k]
      ensures forall k :: k in table ==> k in old(table) || (k in cells && Differs(cells[k]))
      ensures drivers == old(drivers) && cells == old(cells) && changesMade == old(changesMade)
      ensures Valid()
    {
      var pending := cells.Keys;
      while pending != {}
        invariant pending <= cells.Keys
        invariant cells == old(cells) && drivers == old(drivers) && changesMade == old(changesMade)
        invariant forall k :: k in cells && k !in pending && Differs(cells[k]) ==> k in table && table[k] == cells[k].value
        invariant forall k :: k in old(table) && !(k in cells && k !in pending && Differs(cells[k])) ==>
          k in table && table[k] == old(table)[k]
        invariant forall k :: k in table ==> k in old(table) || (k in cells && k !in pending && Differs(cells[k]))
        decreases |pending|
      {
        var k :| k in pending;
        var info := cells[k];
        if info.value != info.original {
          table := table[k := info.value];
        }
        pending := pending - {k};
      }
    }

    /** `handle_save_success`: every cell's current text becomes its original and nothing is pending. */
    method HandleSaveSuccess()
      requires Valid()
      modifies this
      ensures Valid() && !changesMade && !AnyChanged()
      ensures cells == map k | k in old(cells) :: Cell(old(cells)[k].value, old(cells)[k].value)
      ensures drivers == old(drivers) && table == old(table)
    {
      cells := map k | k in cells :: Cell(cells[k].value, cells[k].value);
      changesMade := false;
    }
  }
}
