/**
 * The modify panel (component DBModify): one display column and one new
 * value are applied to every selected employee, and the row's modified
 * stamp is refreshed. The value is checked while it is bound, inside the
 * loop over the selection; the same value is bound for every row, so a bad
 * value fails on the first row and no row changes. An UPDATE the engine
 * refuses ends the loop there, and the rows updated before it stay updated.
 */
module BatchModify {
  import opened Wrappers
  import opened JavaText
  import opened EmployeeModel
  import opened CompanyStore
  import opened Widgets
  import opened JavaLib

  /** The combo box entries, in order; names and the SSN are not offered. */
  const ModifyOptions: seq<string> := ["Address", "Sex", "Salary", "Bdate", "Supervisor", "Department"]

  /** The EMPLOYEE columns those entries edit, in the same order. */
  const EditableColumns: seq<string> := ["Address", "Sex", "Salary", "Bdate", "Super_ssn", "Dno"]

  /** getColumnNameForDatabase: the two display names that differ from their column, else the name itself. */
  function ColumnNameForDatabase(displayName: string): (column: string)
    ensures displayName == "Supervisor" ==> column == "Super_ssn"
    ensures displayName == "Department" ==> column == "Dno"
    ensures displayName != "Supervisor" && displayName != "Department" ==> column == displayName
  {
    match displayName
    case "Salary" => "Salary"
    case "Address" => "Address"
    case "Sex" => "Sex"
    case "Supervisor" => "Super_ssn"
    case "Department" => "Dno"
    case "Bdate" => "Bdate"
    case _ => displayName
  }

  /** Every offered entry edits its own column, none of them a name or the key. */
  lemma OfferedColumns()
    ensures |ModifyOptions| == |EditableColumns|
    ensures forall i :: 0 <= i < |ModifyOptions| ==> ColumnNameForDatabase(ModifyOptions[i]) == EditableColumns[i]
    ensures forall i, j :: 0 <= i < j < |EditableColumns| ==> EditableColumns[i] != EditableColumns[j]
    ensures "Ssn" !in EditableColumns && "Fname" !in EditableColumns
    ensures "Minit" !in EditableColumns && "Lname" !in EditableColumns
  {
  }

  /** Why the batch stops: a NumberFormatException, or an SQLException raised by the check or the engine. */
  datatype ModifyError =
    | BadNumber                    // Salary or Dno does not parse
    | BadDate                      // Bdate does not parse as yyyy-MM-dd
    | BadSex                       // Sex is not exactly F or M
    | UnknownColumn(column: string) // the engine refuses the UPDATE
    | EngineError                  // the engine raises on the UPDATE of one selected SSN

  /**
   * The value bound for the column: Salary and Dno are parsed, Bdate is
   * parsed as a date, Sex must match [FM], and the remaining columns take
   * the text as it is.
   */
  function BindValue(column: string, value: string, parsers: Parsers): (r: Result<ColumnValue, ModifyError>)
    ensures column == "Sex" ==> (r.Ok? <==> value == "F" || value == "M")
    ensures column == "Salary" ==> (r.Ok? <==> parsers.parseDouble(value).Some?)
    ensures column == "Dno" ==> (r.Ok? <==> parsers.parseInt(value).Some?)
    ensures column == "Bdate" ==> (r.Ok? <==> parsers.parseDate(value).Some?)
    ensures r.Ok? ==> column in EditableColumns
    ensures column in {"Address", "Super_ssn"} ==> r.Ok?
  {
    match column
    case "Salary" =>
      (match parsers.parseDouble(value) case Some(x) => Ok(SalaryValue(x)) case None => Err(BadNumber))
    case "Dno" =>
      (match parsers.parseInt(value) case Some(n) => Ok(DnoValue(n)) case None => Err(BadNumber))
    case "Bdate" =>
      (match parsers.parseDate(value) case Some(d) => Ok(BdateValue(d)) case None => Err(BadDate))
    case "Sex" => if value == "F" || value == "M" then Ok(SexValue(value)) else Err(BadSex)
    case "Address" => Ok(AddressValue(value))
    case "Super_ssn" => Ok(SuperSsnValue(value))
    case _ => Err(UnknownColumn(column))
  }

  /** Updating a row twice with the same value and time gives the row updated once. */
  lemma WithColumnTwice(row: EmployeeRow, v: ColumnValue, now: Millis)
    ensures WithColumn(WithColumn(row, v, now), v, now) == WithColumn(row, v, now)
  {
  }

  /** The rows after the UPDATE has run for every selected SSN. */
  function Updated(rows: map<string, EmployeeRow>, ssns: seq<string>, v: ColumnValue, now: Millis)
    : (r: map<string, EmployeeRow>)
    ensures r.Keys == rows.Keys
    ensures forall k :: k in rows ==> r[k] == (if k in ssns then WithColumn(rows[k], v, now) else rows[k])
  {
    map k | k in rows :: if k in ssns then WithColumn(rows[k], v, now) else rows[k]
  }

  /** The number of selected SSNs, repeats included, whose UPDATE matched a row. */
  function Matches(keys: set<string>, ssns: seq<string>): (n: nat)
    ensures n <= |ssns|
    ensures n == 0 <==> forall i :: 0 <= i < |ssns| ==> ssns[i] !in keys
  {
    if ssns == [] then 0
    else Matches(keys, ssns[..|ssns| - 1]) + (if ssns[|ssns| - 1] in keys then 1 else 0)
  }

  /** One more UPDATE: the row is updated if it exists, whether or not it was already. */
  lemma UpdateOneMore(rows: map<string, EmployeeRow>, xs: seq<string>, x: string, v: ColumnValue, now: Millis)
    ensures var u := Updated(rows, xs, v, now);
            Updated(rows, xs + [x], v, now) == (if x in u then u[x := WithColumn(u[x], v, now)] else u)
  {
    var u := Updated(rows, xs, v, now);
    var w := Updated(rows, xs + [x], v, now);
    var expected := if x in u then u[x := WithColumn(u[x], v, now)] else u;
    assert w.Keys == expected.Keys;
    forall k | k in w
      ensures w[k] == expected[k]
    {
      SameAfterOneMore(rows, xs, x, k, v, now);
    }
  }

  /** UpdateOneMore, key by key. */
  lemma SameAfterOneMore(rows: map<string, EmployeeRow>, xs: seq<string>, x: string, k: string,
                         v: ColumnValue, now: Millis)
    requires k in rows
    ensures var u := Updated(rows, xs, v, now);
            Updated(rows, xs + [x], v, now)[k] == (if k == x then WithColumn(u[k], v, now) else u[k])
  {
    assert k in xs + [x] <==> k in xs || k == x;
    if k == x && x in xs {
      WithColumnTwice(rows[x], v, now);
    }
  }

  /** What the Modify button ends with; each tag stands for the dialog shown. */
  datatype ModifyOutcome =
    | NoSelection
    | BlankValue
    | Failed(error: ModifyError)
    | Modified(count: nat)   // a message and a table refresh only when count > 0

  /** The outcome of a run and the EMPLOYEE rows after it. */
  datatype Effect = Effect(outcome: ModifyOutcome, rows: map<string, EmployeeRow>)

  /**
   * The effect of updateSelectedEmployees on the rows, given the selection,
   * the chosen column, the field's text, the statement time and the index
   * of the selected SSN whose UPDATE raises (None: none does).
   */
  function Modification(rows: map<string, EmployeeRow>, selection: seq<string>, column: string,
                        text: string, parsers: Parsers, now: Millis, raisesAt: Option<nat>): Effect
  {
    if selection == [] then Effect(NoSelection, rows)
    else if Trim(text) == [] then Effect(BlankValue, rows)
    else
      match BindValue(column, Trim(text), parsers)
      case Err(e) => Effect(Failed(e), rows)
      case Ok(v) =>
        var k := Completed(raisesAt, |selection|);
        if k < |selection| then Effect(Failed(EngineError), Updated(rows, selection[..k], v, now))
        else Effect(Modified(Matches(rows.Keys, selection)), Updated(rows, selection, v, now))
  }

  /**
   * A row changes only in a run that ends in Modified, or in one whose
   * engine failure comes after at least one UPDATE has run.
   */
  lemma OnlyModifiedChanges(rows: map<string, EmployeeRow>, selection: seq<string>, column: string,
                            text: string, parsers: Parsers, now: Millis, raisesAt: Option<nat>)
    ensures var e := Modification(rows, selection, column, text, parsers, now, raisesAt);
            e.rows != rows ==>
              e.outcome.Modified?
              || (e.outcome == Failed(EngineError) && raisesAt.Some? && 0 < raisesAt.value < |selection|)
  {
    if selection != [] && Trim(text) != [] && BindValue(column, Trim(text), parsers).Ok?
       && raisesAt == Some(0) {
      var v := BindValue(column, Trim(text), parsers).value;
      assert selection[..0] == [];
      assert Updated(rows, [], v, now) == rows;
    }
  }

  /**
   * A successful run sets the chosen column and the stamp on every selected
   * row that exists and on no other row, leaves every other column alone,
   * and counts at most one success per selected SSN.
   */
  lemma ModifiedRows(rows: map<string, EmployeeRow>, selection: seq<string>, column: string,
                     text: string, parsers: Parsers, now: Millis, raisesAt: Option<nat>)
    requires Modification(rows, selection, column, text, parsers, now, raisesAt).outcome.Modified?
    ensures var e := Modification(rows, selection, column, text, parsers, now, raisesAt);
            var v := BindValue(column, Trim(text), parsers).value;
            selection != [] && Trim(text) != [] && column in EditableColumns
            && (raisesAt.None? || raisesAt.value >= |selection|)
            && e.outcome.count <= |selection|
            && (e.outcome.count > 0 <==> exists i :: 0 <= i < |selection| && selection[i] in rows)
            && e.rows.Keys == rows.Keys
            && forall k :: k in rows ==>
                 if k in selection then
                   e.rows[k].modified == Some(now) && e.rows[k].ssn == rows[k].ssn
                   && e.rows[k].fname == rows[k].fname && e.rows[k].lname == rows[k].lname
                 else e.rows[k] == rows[k]
  {
  }

  /**
   * An UPDATE the engine refuses ends the batch with the database error:
   * exactly the SSNs before it are updated, and every other row, the
   * failing SSN's included unless it came earlier, keeps its values.
   */
  lemma PartialModify(rows: map<string, EmployeeRow>, selection: seq<string>, column: string,
                      text: string, parsers: Parsers, now: Millis, raisesAt: Option<nat>)
    requires Modification(rows, selection, column, text, parsers, now, raisesAt).outcome == Failed(EngineError)
    ensures raisesAt.Some? && raisesAt.value < |selection| && Trim(text) != []
    ensures var e := Modification(rows, selection, column, text, parsers, now, raisesAt);
            var v := BindValue(column, Trim(text), parsers).value;
            var done := selection[..raisesAt.value];
            e.rows.Keys == rows.Keys
            && forall k :: k in rows ==> e.rows[k] == (if k in done then WithColumn(rows[k], v, now) else rows[k])
  {
  }

  /** A Sex value other than exactly F or M updates no row. */
  lemma SexMustBeFOrM(rows: map<string, EmployeeRow>, selection: seq<string>, text: string,
                      parsers: Parsers, now: Millis, raisesAt: Option<nat>)
    requires selection != [] && Trim(text) != [] && Trim(text) != "F" && Trim(text) != "M"
    ensures Modification(rows, selection, "Sex", text, parsers, now, raisesAt) == Effect(Failed(BadSex), rows)
  {
  }

  /** A Salary or Dno value that does not parse updates no row. */
  lemma NumbersMustParse(rows: map<string, EmployeeRow>, selection: seq<string>, column: string,
                         text: string, parsers: Parsers, now: Millis, raisesAt: Option<nat>)
    requires selection != [] && Trim(text) != []
    requires (column == "Salary" && parsers.parseDouble(Trim(text)).None?)
          || (column == "Dno" && parsers.parseInt(Trim(text)).None?)
    ensures Modification(rows, selection, column, text, parsers, now, raisesAt) == Effect(Failed(BadNumber), rows)
  {
  }

  class ModifyPanel {
    /** The SSN list object last handed over by the report view; null until then. */
    var selectedSsns: StringList?
    /** The column chosen at the last click; null until then. */
    var selectedColumn: Option<string>

    function Selection(): seq<string>
      reads this, selectedSsns
    {
      if selectedSsns == null then [] else selectedSsns.items
    }

    /** new DBModify(parent): no list and no column yet. */
    constructor ()
      ensures selectedSsns == null && selectedColumn == None
    {
      selectedSsns := null;
      selectedColumn := None;
    }

    /** setSelectedSsns keeps the list object itself, not a copy. */
    method SetSelectedSsns(ssns: StringList)
      modifies this`selectedSsns
      ensures selectedSsns == ssns
    {
      selectedSsns := ssns;
    }

    /**
     * updateSelectedEmployees: the guards, the value bound as the first row
     * binds it, then one UPDATE per selected SSN; the UPDATE at index
     * raisesAt raises.
     */
    method UpdateSelectedEmployees(db: Database, text: string, parsers: Parsers, now: Millis, raisesAt: Option<nat>)
      returns (outcome: ModifyOutcome)
      requires db.Valid() && selectedColumn.Some?
      modifies db`employees
      ensures db.Valid()
      ensures Effect(outcome, db.employees)
           == Modification(old(db.employees), Selection(), selectedColumn.value, text, parsers, now, raisesAt)
    {
      if selectedSsns == null || selectedSsns.items == [] {
        return NoSelection;
      }
      var value := Trim(text);
      if value == [] {
        return BlankValue;
      }
      var ssns := selectedSsns.items;
      // The same text is bound for every row, so only the first row's binding can fail.
      var v := BindValue(selectedColumn.value, value, parsers);
      if v.Err? {
        return Failed(v.error);
      }
      outcome := UpdateEach(db, ssns, v.value, now, raisesAt);
      assert ssns[..|ssns|] == ssns;
    }

    /** The Modify button: the display name is turned into its column, then the batch runs. */
    method OnModify(db: Database, displayName: string, text: string, parsers: Parsers, now: Millis,
                    raisesAt: Option<nat>)
      returns (outcome: ModifyOutcome)
      requires db.Valid()
      modifies this`selectedColumn, db`employees
      ensures db.Valid()
      ensures selectedColumn == Some(ColumnNameForDatabase(displayName))
      ensures Effect(outcome, db.employees)
           == Modification(old(db.employees), Selection(), ColumnNameForDatabase(displayName), text, parsers, now,
                           raisesAt)
    {
      selectedColumn := Some(ColumnNameForDatabase(displayName));
      outcome := UpdateSelectedEmployees(db, text, parsers, now, raisesAt);
    }
  }

  /**
   * The loop of updateSelectedEmployees once the value is bound: one UPDATE
   * per selected SSN, counting the rows it matched; the UPDATE at index
   * raisesAt raises and ends the loop.
   */
  method UpdateEach(db: Database, ssns: seq<string>, v: ColumnValue, now: Millis, raisesAt: Option<nat>)
    returns (outcome: ModifyOutcome)
    requires db.Valid()
    modifies db`employees
    ensures db.Valid()
    ensures db.employees == Updated(old(db.employees), ssns[..Completed(raisesAt, |ssns|)], v, now)
    ensures Completed(raisesAt, |ssns|) < |ssns| ==> outcome == Failed(EngineError)
    ensures Completed(raisesAt, |ssns|) == |ssns| ==> outcome == Modified(Matches(old(db.employees).Keys, ssns))
  {
    ghost var rows := db.employees;
    ghost var n := Completed(raisesAt, |ssns|);
    var successCount := 0;
    assert db.employees == Updated(rows, ssns[..0], v, now);
    for i := 0 to |ssns|
      invariant i <= n
      invariant db.Valid()
      invariant db.employees == Updated(rows, ssns[..i], v, now)
      invariant successCount == Matches(rows.Keys, ssns[..i])
    {
      var updated := UpdateOne(db, rows, ssns[..i], ssns[i], v, now, raisesAt == Some(i));
      if updated.None? {
        assert n == i;
        return Failed(EngineError);
      }
      assert ssns[..i + 1] == ssns[..i] + [ssns[i]];
      if updated.value {
        successCount := successCount + 1;
      }
    }
    assert n == |ssns| && ssns[..n] == ssns;
    outcome := Modified(successCount);
  }

  /** One UPDATE of the loop: it raises and changes nothing, or updates the row of ssn if there is one. */
  method UpdateOne(db: Database, ghost rows: map<string, EmployeeRow>, ghost done: seq<string>, ssn: string,
                   v: ColumnValue, now: Millis, raises: bool)
    returns (updated: Option<bool>)
    requires db.Valid()
    requires db.employees == Updated(rows, done, v, now)
    modifies db`employees
    ensures db.Valid()
    ensures updated.None? <==> raises
    ensures updated.None? ==> db.employees == old(db.employees)
    ensures updated.Some? ==> db.employees == Updated(rows, done + [ssn], v, now)
    ensures updated.Some? ==> (updated.value <==> ssn in rows)
  {
    updated := db.UpdateColumn(ssn, v, now, raises);
    if updated.Some? {
      UpdateOneMore(rows, done, ssn, v, now);
    }
  }
}
