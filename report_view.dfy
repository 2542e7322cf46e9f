/**
 * EmployeeReportView: the main window's own state. It holds the nine
 * attribute check boxes, the table model on screen, and the two list
 * objects with the names and SSNs of the ticked rows, which it shares with
 * the delete and modify panels. It wires the search, delete, modify and add
 * actions to the table and reloads the employee listing after a change.
 */
module ReportView {
  import opened Wrappers
  import opened JavaText
  import opened EmployeeModel
  import opened CompanyStore
  import opened EmployeeDao
  import opened Widgets
  import opened JavaLib
  import opened DeleteGuard
  import opened ConditionSearch
  import BatchModify
  import InsertForm

  /** The header of the table the window opens with. */
  const InitialColumns: seq<string> :=
    ["", "NAME", "SSN", "BDATE", "ADDRESS", "SEX", "SALARY", "SUPERVISOR", "DEPARTMENT", "MODIFIED"]

  /** The nine attribute boxes as created, in label order, none ticked. */
  function AttributeBoxes(): (boxes: seq<CheckBox>)
    ensures |boxes| == |Attributes|
    ensures forall i :: 0 <= i < |boxes| ==> boxes[i] == CheckBox(Attributes[i], false)
  {
    seq(|Attributes|, i requires 0 <= i < |Attributes| => CheckBox(Attributes[i], false))
  }

  /**
   * The containers above the delete panel: the bottom panel it is added to,
   * the frame's content pane, the layered pane, the root pane, then the frame.
   */
  const DeletePanelAncestors: seq<Container> :=
    [OtherContainer, OtherContainer, OtherContainer, OtherContainer, ReportFrame]

  /**
   * In this layout the delete panel finds the frame for its check-box gate,
   * but its refresh test looks at the content pane, so it never refreshes.
   */
  lemma ReportLayoutSkipsRefresh()
    ensures ViewFound(DeletePanelAncestors) && !RefreshAsWritten(DeletePanelAncestors)
  {
    assert DeletePanelAncestors[4] == ReportFrame;
  }

  // ------------------------------------------------------------ the listing

  /** The ten values loadEmployeeData puts in a row for one employee. */
  function LoadedRow(e: EmployeeRecord, fmt: Formats): (row: seq<Cell>)
    ensures |row| == |InitialColumns| && row[0] == BoolCell(false)
  {
    [BoolCell(false),
     TextCell(DisplayName(e)),
     OptionCell(e.ssn),
     TextCell(if e.birthDate.Some? then fmt.date(e.birthDate.value) else ""),
     OptionCell(e.address),
     TextCell([e.sex]),
     TextCell(fmt.twoDecimals(e.salary)),
     OptionCell(e.supervisorSsn),
     OptionCell(e.departmentName),
     TextCell(if e.modified.Some? then fmt.stamp(e.modified.value) else "")]
  }

  /**
   * The model after setRowCount(0) and one addRow per employee: the header
   * stays, and each ten-value row is cut or padded to the model's width.
   */
  function Listing(model: TableModel, es: seq<EmployeeRecord>, fmt: Formats): (t: TableModel)
    ensures t.columns == model.columns && t.checkColumn == model.checkColumn && |t.rows| == |es|
    ensures forall r :: 0 <= r < |es| ==> t.rows[r] == Justify(LoadedRow(es[r], fmt), |model.columns|)
  {
    model.(rows := seq(|es|, r requires 0 <= r < |es| => Justify(LoadedRow(es[r], fmt), |model.columns|)))
  }

  /**
   * loadEmployeeData's end state. `result` is what the engine returns for
   * the listing query, None when it raises; a failure, or a row whose Minit
   * or Sex cannot be read, leaves the emptied table.
   */
  function Reloaded(model: TableModel, result: Option<seq<ResultRow>>, fmt: Formats): TableModel {
    if result.Some? && MapRows(result.value).Ok? then Listing(model, MapRows(result.value).value, fmt)
    else model.(rows := [])
  }

  /**
   * The full listing in the ten-column layout the window opens with: every
   * row is exactly the employee's ten values under their own headers, in
   * the engine's order.
   */
  function FullListing(result: Option<seq<ResultRow>>, fmt: Formats): (t: TableModel)
    ensures t.columns == InitialColumns && t.checkColumn
    ensures result.Some? && MapRows(result.value).Ok? ==>
              |t.rows| == |result.value|
              && forall r :: 0 <= r < |t.rows| ==> t.rows[r] == LoadedRow(MapRows(result.value).value[r], fmt)
    ensures result.None? || MapRows(result.value).Err? ==> t.rows == []
  {
    Reloaded(TableModel(InitialColumns, [], true), result, fmt)
  }

  /** A freshly loaded table has no ticked row, whatever its header. */
  lemma ListingUnticked(model: TableModel, es: seq<EmployeeRecord>, fmt: Formats)
    requires |model.columns| > 0
    ensures Scan(Listing(model, es, fmt).rows) == Picked([], [], true)
  {
    var t := Listing(model, es, fmt);
    forall r | 0 <= r < |t.rows|
      ensures ReadRow(t.rows[r]) == Unticked
    {
      assert t.rows[r][0] == BoolCell(false);
    }
    ScanUnticked(t.rows);
  }

  /** The attribute boxes with Name and Salary ticked. */
  function NameAndSalary(): (boxes: seq<CheckBox>)
    ensures |boxes| == |Attributes|
    ensures forall i :: 0 <= i < |boxes| ==> boxes[i].text == Attributes[i] && (boxes[i].selected <==> i == 0 || i == 5)
  {
    AttributeBoxes()[0 := CheckBox("Name", true)][5 := CheckBox("Salary", true)]
  }

  /** Of those boxes, Name and Salary are the labels collected. */
  lemma NameAndSalaryChecked()
    ensures Checked(NameAndSalary()) == ["Name", "Salary"]
  {
    var boxes := NameAndSalary();
    CheckedTwo(boxes, 0, 5);
  }

  /** With exactly boxes a and b ticked, their two labels are collected, in order. */
  lemma CheckedTwo(boxes: seq<CheckBox>, a: nat, b: nat)
    requires a < b < |boxes| && boxes[a].selected && boxes[b].selected
    requires forall i :: 0 <= i < a ==> !boxes[i].selected
    requires forall i :: a < i < b ==> !boxes[i].selected
    requires forall i :: b < i < |boxes| ==> !boxes[i].selected
    ensures Checked(boxes) == [boxes[a].text, boxes[b].text]
  {
    CheckedFirstTwo(boxes, a, b);
    CheckedRest(boxes, b + 1, [boxes[a].text, boxes[b].text]);
  }

  /** The first b + 1 boxes collect the labels of a and b. */
  lemma CheckedFirstTwo(boxes: seq<CheckBox>, a: nat, b: nat)
    requires a < b < |boxes| && boxes[a].selected && boxes[b].selected
    requires forall i :: 0 <= i < a ==> !boxes[i].selected
    requires forall i :: a < i < b ==> !boxes[i].selected
    ensures Checked(boxes[..b + 1]) == [boxes[a].text, boxes[b].text]
  {
    var x := boxes[a].text;
    var y := boxes[b].text;
    assert Checked(boxes[..a + 1]) == [x] by {
      assert boxes[..0] == [];
      CheckedUnticked(boxes, 0, a);
      CheckedStep(boxes, a);
    }
    CheckedUnticked(boxes, a + 1, b);
    CheckedStep(boxes, b);
    assert [x] + [y] == [x, y];
  }

  /** Unticked boxes after the first lo add nothing to their labels. */
  lemma CheckedRest(boxes: seq<CheckBox>, lo: nat, labels: seq<string>)
    requires lo <= |boxes| && Checked(boxes[..lo]) == labels
    requires forall i :: lo <= i < |boxes| ==> !boxes[i].selected
    ensures Checked(boxes) == labels
  {
    CheckedUnticked(boxes, lo, |boxes|);
    assert boxes[..|boxes|] == boxes;
  }

  /** One more box adds its label when it is ticked. */
  lemma CheckedStep(boxes: seq<CheckBox>, n: nat)
    requires n < |boxes|
    ensures Checked(boxes[..n + 1]) == Checked(boxes[..n]) + (if boxes[n].selected then [boxes[n].text] else [])
  {
    assert boxes[..n + 1][..n] == boxes[..n];
  }

  /** A search with Name and Salary ticked shows the header "", NAME, SALARY. */
  lemma NameAndSalaryHeaders()
    ensures Headers(NameAndSalary()) == ["", "NAME", "SALARY"]
  {
    NameAndSalaryChecked();
    assert ToUpper("Name") == "NAME" by {
      assert UpperChar('a') == 'A' && UpperChar('m') == 'M' && UpperChar('e') == 'E';
    }
    assert ToUpper("Salary") == "SALARY" by {
      assert UpperChar('a') == 'A' && UpperChar('l') == 'L' && UpperChar('r') == 'R' && UpperChar('y') == 'Y';
    }
  }

  /**
   * As written, a reload keeps the header of whatever model is on screen:
   * after a search showing Name and Salary, each reloaded row puts the SSN
   * under SALARY.
   */
  lemma RefreshAfterSearchMisaligns(employees: seq<EmployeeRecord>, es: seq<EmployeeRecord>, fmt: Formats)
    ensures var t := Listing(Projection(employees, NameAndSalary(), fmt), es, fmt);
            t.columns == ["", "NAME", "SALARY"]
            && forall r :: 0 <= r < |es| ==> t.rows[r] == [BoolCell(false), TextCell(DisplayName(es[r])), OptionCell(es[r].ssn)]
  {
    NameAndSalaryHeaders();
    var t := Listing(Projection(employees, NameAndSalary(), fmt), es, fmt);
    forall r | 0 <= r < |es|
      ensures t.rows[r] == [BoolCell(false), TextCell(DisplayName(es[r])), OptionCell(es[r].ssn)]
    {
      assert t.rows[r] == Justify(LoadedRow(es[r], fmt), 3);
    }
  }

  /** Unticked boxes add no label. */
  lemma {:induction false} CheckedUnticked(boxes: seq<CheckBox>, lo: nat, hi: nat)
    requires lo <= hi <= |boxes|
    requires forall i :: lo <= i < hi ==> !boxes[i].selected
    ensures Checked(boxes[..hi]) == Checked(boxes[..lo])
    decreases hi
  {
    if lo < hi {
      CheckedUnticked(boxes, lo, hi - 1);
      assert boxes[..hi][..hi - 1] == boxes[..hi - 1];
    }
  }

  // ------------------------------------------------------------ the ticked rows

  /** One row as updateSelectedEmployees reads it; a cast or index that throws ends the scan. */
  datatype RowRead = Unticked | Ticked(name: string, ssn: string) | Unreadable

  /**
   * Column 0 is cast to Boolean and compared with TRUE; a ticked row's
   * columns 1 and 2 are cast to String.
   */
  function ReadRow(row: seq<Cell>): (r: RowRead)
    ensures r.Ticked? <==> |row| >= 3 && row[0] == BoolCell(true) && row[1].TextCell? && row[2].TextCell?
    ensures r.Ticked? ==> r.name == row[1].s && r.ssn == row[2].s
    ensures r == Unticked <==> |row| > 0 && (row[0] == BoolCell(false) || row[0] == NullCell)
  {
    if |row| == 0 then Unreadable
    else
      match row[0]
      case BoolCell(b) =>
        if !b then Unticked
        else if |row| >= 3 && row[1].TextCell? && row[2].TextCell? then Ticked(row[1].s, row[2].s)
        else Unreadable
      case NullCell => Unticked
      case _ => Unreadable
  }

  /** The names and SSNs collected, and whether the loop ran to the end. */
  datatype Picked = Picked(names: seq<string>, ssns: seq<string>, complete: bool)

  /** The selection loop over the rows, stopping at the first row it cannot read. */
  function Scan(rows: seq<seq<Cell>>): (p: Picked)
    ensures |p.names| == |p.ssns|
  {
    if rows == [] then Picked([], [], true)
    else
      var p := Scan(rows[..|rows| - 1]);
      if !p.complete then p
      else
        match ReadRow(rows[|rows| - 1])
        case Unticked => p
        case Ticked(name, ssn) => Picked(p.names + [name], p.ssns + [ssn], true)
        case Unreadable => p.(complete := false)
  }

  /** The scan completes exactly when every row can be read. */
  lemma {:induction false} ScanComplete(rows: seq<seq<Cell>>)
    ensures Scan(rows).complete <==> forall i :: 0 <= i < |rows| ==> ReadRow(rows[i]) != Unreadable
  {
    if rows != [] {
      var init := rows[..|rows| - 1];
      ScanComplete(init);
      assert forall i :: 0 <= i < |init| ==> init[i] == rows[i];
    }
  }

  /** The k-th name and the k-th SSN collected come from the same ticked row. */
  lemma {:induction false} ScanSound(rows: seq<seq<Cell>>)
    ensures forall k :: 0 <= k < |Scan(rows).names| ==>
              exists i :: 0 <= i < |rows| && ReadRow(rows[i]) == Ticked(Scan(rows).names[k], Scan(rows).ssns[k])
  {
    if rows != [] {
      var init := rows[..|rows| - 1];
      var last := |rows| - 1;
      ScanSound(init);
      var p0 := Scan(init);
      var p := Scan(rows);
      var grew := p0.complete && ReadRow(rows[last]).Ticked?;
      assert grew ==> p.names == p0.names + [ReadRow(rows[last]).name] && p.ssns == p0.ssns + [ReadRow(rows[last]).ssn];
      assert !grew ==> p.names == p0.names && p.ssns == p0.ssns;
      forall k | 0 <= k < |p.names|
        ensures exists i :: 0 <= i < |rows| && ReadRow(rows[i]) == Ticked(p.names[k], p.ssns[k])
      {
        if k < |p0.names| {
          var i :| 0 <= i < |init| && ReadRow(init[i]) == Ticked(p0.names[k], p0.ssns[k]);
          assert rows[i] == init[i];
          assert ReadRow(rows[i]) == Ticked(p.names[k], p.ssns[k]);
        } else {
          assert ReadRow(rows[last]) == Ticked(p.names[k], p.ssns[k]);
        }
      }
    } else {
      assert Scan(rows) == Picked([], [], true);
    }
  }

  /** A complete scan collects every ticked row. */
  lemma {:induction false} ScanCovers(rows: seq<seq<Cell>>)
    ensures var p := Scan(rows);
            p.complete ==>
              forall i :: 0 <= i < |rows| && ReadRow(rows[i]).Ticked? ==>
                exists k :: 0 <= k < |p.names| && ReadRow(rows[i]) == Ticked(p.names[k], p.ssns[k])
  {
    if rows != [] {
      var init := rows[..|rows| - 1];
      var last := |rows| - 1;
      ScanCovers(init);
      var p0 := Scan(init);
      var p := Scan(rows);
      if p.complete {
        assert p0.complete;
        forall i | 0 <= i < |rows| && ReadRow(rows[i]).Ticked?
          ensures exists k :: 0 <= k < |p.names| && ReadRow(rows[i]) == Ticked(p.names[k], p.ssns[k])
        {
          if i < last {
            assert rows[i] == init[i];
            var k :| 0 <= k < |p0.names| && ReadRow(init[i]) == Ticked(p0.names[k], p0.ssns[k]);
            assert p.names[k] == p0.names[k] && p.ssns[k] == p0.ssns[k];
          } else {
            assert ReadRow(rows[i]) == Ticked(p.names[|p0.names|], p.ssns[|p0.names|]);
          }
        }
      }
    }
  }

  /** A table with no ticked row selects nothing. */
  lemma {:induction false} ScanUnticked(rows: seq<seq<Cell>>)
    requires forall i :: 0 <= i < |rows| ==> ReadRow(rows[i]) == Unticked
    ensures Scan(rows) == Picked([], [], true)
  {
    if rows != [] {
      var init := rows[..|rows| - 1];
      assert forall i :: 0 <= i < |init| ==> init[i] == rows[i];
      ScanUnticked(init);
    }
  }

  /** With one ticked row among unticked ones, the selection is that row's name and SSN. */
  lemma {:induction false} ScanSingle(rows: seq<seq<Cell>>, t: nat, name: string, ssn: string)
    requires t < |rows| && ReadRow(rows[t]) == Ticked(name, ssn)
    requires forall i :: 0 <= i < |rows| && i != t ==> ReadRow(rows[i]) == Unticked
    ensures Scan(rows) == Picked([name], [ssn], true)
  {
    var init := rows[..|rows| - 1];
    assert forall i :: 0 <= i < |init| ==> init[i] == rows[i];
    if t == |rows| - 1 {
      ScanUnticked(init);
    } else {
      ScanSingle(init, t, name, ssn);
    }
  }

  /** Ticking row `i` of the ten-column listing selects that employee's name and SSN. */
  lemma TickListedRow(es: seq<EmployeeRecord>, fmt: Formats, i: nat)
    requires i < |es| && es[i].ssn.Some?
    ensures var t := Listing(TableModel(InitialColumns, [], true), es, fmt);
            var ticked := t.rows[i := t.rows[i][0 := BoolCell(true)]];
            Scan(ticked) == Picked([DisplayName(es[i])], [es[i].ssn.value], true)
  {
    var t := Listing(TableModel(InitialColumns, [], true), es, fmt);
    var ticked := t.rows[i := t.rows[i][0 := BoolCell(true)]];
    assert ticked[i] == LoadedRow(es[i], fmt)[0 := BoolCell(true)];
    assert ReadRow(ticked[i]) == Ticked(DisplayName(es[i]), es[i].ssn.value);
    forall j | 0 <= j < |ticked| && j != i
      ensures ReadRow(ticked[j]) == Unticked
    {
      assert ticked[j][0] == BoolCell(false);
    }
    ScanSingle(ticked, i, DisplayName(es[i]), es[i].ssn.value);
  }

  /**
   * In a search result with the Name and Ssn boxes ticked, columns 1 and 2
   * are the name and SSN, so ticking a row selects that employee.
   */
  lemma TickProjectedRow(employees: seq<EmployeeRecord>, boxes: seq<CheckBox>, fmt: Formats, i: nat)
    requires |boxes| == |Attributes| && forall j :: 0 <= j < |boxes| ==> boxes[j].text == Attributes[j]
    requires boxes[0].selected && boxes[1].selected
    requires i < |employees| && employees[i].ssn.Some?
    ensures var t := Projection(employees, boxes, fmt);
            ReadRow(t.rows[i][0 := BoolCell(true)]) == Ticked(DisplayName(employees[i]), employees[i].ssn.value)
  {
    var e := employees[i];
    var row := Projection(employees, boxes, fmt).rows[i];
    NameAndSsnLead(boxes);
    LabelsKnown(boxes);
    assert row == [BoolCell(false)] + RowCells(e, boxes, fmt) by {
      ProjectionRow(employees, boxes, fmt, i);
    }
    assert row[1] == TextCell(DisplayName(e)) && row[2] == OptionCell(e.ssn) by {
      KnownRowCells(e, boxes, fmt);
      assert RowCells(e, boxes, fmt)[0] == AttributeCell("Name", e, fmt).value;
      assert RowCells(e, boxes, fmt)[1] == AttributeCell("Ssn", e, fmt).value;
      NameAndSsnCells(e, fmt);
    }
  }

  /** With the first two boxes ticked, Name and Ssn lead the collected labels. */
  lemma NameAndSsnLead(boxes: seq<CheckBox>)
    requires |boxes| >= 2 && boxes[0] == CheckBox("Name", true) && boxes[1] == CheckBox("Ssn", true)
    ensures |Checked(boxes)| >= 2 && Checked(boxes)[0] == "Name" && Checked(boxes)[1] == "Ssn"
  {
    assert Checked(boxes[..2]) == ["Name", "Ssn"] by {
      assert boxes[..2][..1] == boxes[..1];
      assert boxes[..1][..0] == [];
    }
    CheckedPrefix(boxes, 2);
  }

  /** Boxes labelled with the attributes collect only attribute labels. */
  lemma LabelsKnown(boxes: seq<CheckBox>)
    requires |boxes| == |Attributes| && forall j :: 0 <= j < |boxes| ==> boxes[j].text == Attributes[j]
    ensures forall l :: l in Checked(boxes) ==> l in Attributes
  {
    CheckedLabels(boxes);
    forall l | l in Checked(boxes)
      ensures l in Attributes
    {
      var j :| 0 <= j < |boxes| && boxes[j].selected && boxes[j].text == l;
      assert Attributes[j] == l;
    }
  }

  /** The Name and Ssn cells of a search row. */
  lemma NameAndSsnCells(e: EmployeeRecord, fmt: Formats)
    ensures AttributeCell("Name", e, fmt) == Some(TextCell(DisplayName(e)))
    ensures AttributeCell("Ssn", e, fmt) == Some(OptionCell(e.ssn))
  {
  }

  /** The labels of the first n boxes start the labels of all of them. */
  lemma {:induction false} CheckedPrefix(boxes: seq<CheckBox>, n: nat)
    requires n <= |boxes|
    ensures Checked(boxes[..n]) <= Checked(boxes)
    decreases |boxes| - n
  {
    if n < |boxes| {
      CheckedPrefix(boxes, n + 1);
      assert boxes[..n + 1][..n] == boxes[..n];
    } else {
      assert boxes[..n] == boxes;
    }
  }

  // ------------------------------------------------------------ the window

  class EmployeeReportView {
    /** The attribute boxes, labelled as created. */
    var boxes: seq<CheckBox>
    /** selectedEmployeeNames and selectedEmployeeSsns: two list objects, the second shared with the panels. */
    var names: StringList
    var ssns: StringList
    var deletePanel: DeletePanel
    var modifyPanel: BatchModify.ModifyPanel
    var tableModel: TableModel

    /**
     * The two lists are different objects, the delete panel never holds the
     * names list, and the boxes keep their labels.
     */
    predicate Valid()
      reads this, deletePanel
    {
      names != ssns && deletePanel.selectedSsns != names
      && |boxes| == |Attributes| && forall i :: 0 <= i < |boxes| ==> boxes[i].text == Attributes[i]
    }

    /** The constructor: the boxes, the panels, the ten-column model, then loadEmployeeData. */
    constructor (result: Option<seq<ResultRow>>, fmt: Formats)
      ensures Valid() && fresh(names) && fresh(ssns) && fresh(deletePanel) && fresh(modifyPanel)
      ensures boxes == AttributeBoxes() && tableModel == FullListing(result, fmt)
      ensures names.items == [] && ssns.items == [] && deletePanel.Selection() == [] && modifyPanel.selectedSsns == null
    {
      boxes := AttributeBoxes();
      names := new StringList();
      ssns := new StringList();
      deletePanel := new DeletePanel();
      modifyPanel := new BatchModify.ModifyPanel();
      tableModel := TableModel(InitialColumns, [], true);
      new;
      LoadEmployeeData(result, fmt);
    }

    /** A click on attribute box i. */
    method TickAttribute(i: nat, ticked: bool)
      requires Valid() && i < |boxes|
      modifies this`boxes
      ensures Valid() && boxes == old(boxes)[i := CheckBox(old(boxes)[i].text, ticked)]
    {
      boxes := boxes[i := CheckBox(boxes[i].text, ticked)];
    }

    /** loadEmployeeData: empty the model on screen, then add one row per employee. */
    method LoadEmployeeData(result: Option<seq<ResultRow>>, fmt: Formats)
      modifies this`tableModel
      ensures tableModel == Reloaded(old(tableModel), result, fmt)
    {
      tableModel := tableModel.(rows := []);
      if result.None? {
        return;
      }
      var employees := GetAllEmployees(result.value);
      if employees.Err? {
        return;
      }
      var rows := ListedRows(employees.value, |tableModel.columns|, fmt);
      tableModel := tableModel.(rows := rows);
    }

    /** The addRow loop: each employee's ten values, justified to the model's width. */
    static method ListedRows(es: seq<Employee>, width: nat, fmt: Formats) returns (rows: seq<seq<Cell>>)
      ensures |rows| == |es|
      ensures forall r :: 0 <= r < |es| ==> rows[r] == Justify(LoadedRow(es[r].Record(), fmt), width)
    {
      rows := [];
      for i := 0 to |es|
        invariant |rows| == i
        invariant forall r :: 0 <= r < i ==> rows[r] == Justify(LoadedRow(es[r].Record(), fmt), width)
      {
        rows := rows + [Justify(LoadedRow(es[i].Record(), fmt), width)];
      }
    }

    /**
     * refreshTable, with the evident intent: reload the listing into the
     * ten-column layout, whatever model a search left on screen.
     */
    method RefreshTable(result: Option<seq<ResultRow>>, fmt: Formats)
      modifies this`tableModel
      ensures tableModel == FullListing(result, fmt)
    {
      UpdateTableModel(TableModel(InitialColumns, [], true));
      LoadEmployeeData(result, fmt);
    }

    /** updateTableModel: the new model replaces the one on screen. */
    method UpdateTableModel(model: TableModel)
      modifies this`tableModel
      ensures tableModel == model
    {
      tableModel := model;
    }

    /**
     * updateSelectedEmployees: both lists are cleared and refilled from the
     * ticked rows; only a scan that reaches the end hands them to the panels.
     */
    method UpdateSelectedEmployees()
      requires Valid()
      modifies names, ssns, deletePanel, modifyPanel`selectedSsns
      ensures Valid()
      ensures names.items == Scan(tableModel.rows).names && ssns.items == Scan(tableModel.rows).ssns
      ensures Scan(tableModel.rows).complete ==>
                deletePanel.selectedSsns == ssns && deletePanel.selectedNames == names.items
                && modifyPanel.selectedSsns == ssns
      ensures !Scan(tableModel.rows).complete ==> unchanged(deletePanel) && unchanged(modifyPanel)
    {
      names.Clear();
      ssns.Clear();
      var rows := tableModel.rows;
      for i := 0 to |rows|
        invariant names != ssns
        invariant Scan(rows[..i]).complete
        invariant names.items == Scan(rows[..i]).names && ssns.items == Scan(rows[..i]).ssns
        invariant unchanged(deletePanel) && unchanged(modifyPanel)
      {
        assert rows[..i + 1][..i] == rows[..i];
        match ReadRow(rows[i]) {
          case Unticked =>
          case Ticked(name, ssn) =>
            names.Add(name);
            ssns.Add(ssn);
          case Unreadable =>
            ScanStops(rows, i + 1);
            return;
        }
      }
      assert rows[..|rows|] == rows;
      deletePanel.UpdateSelectedEmployees(names.items, ssns);
      modifyPanel.SetSelectedSsns(ssns);
    }

    /** A click on the check cell of row i, then the model listener. */
    method ToggleRow(i: nat, ticked: bool)
      requires Valid() && tableModel.checkColumn && i < |tableModel.rows| && |tableModel.rows[i]| > 0
      modifies this`tableModel, names, ssns, deletePanel, modifyPanel`selectedSsns
      ensures Valid()
      ensures tableModel == old(tableModel).(rows := old(tableModel).rows[i := old(tableModel).rows[i][0 := BoolCell(ticked)]])
      ensures names.items == Scan(tableModel.rows).names && ssns.items == Scan(tableModel.rows).ssns
      ensures Scan(tableModel.rows).complete ==>
                deletePanel.selectedSsns == ssns && modifyPanel.selectedSsns == ssns
    {
      tableModel := tableModel.(rows := tableModel.rows[i := tableModel.rows[i][0 := BoolCell(ticked)]]);
      UpdateSelectedEmployees();
    }

    /** clearSelectedEmployees: both lists emptied and handed to both panels. */
    method ClearSelectedEmployees()
      requires Valid()
      modifies names, ssns, deletePanel, modifyPanel`selectedSsns
      ensures Valid()
      ensures names.items == [] && ssns.items == []
      ensures deletePanel.selectedSsns == ssns && deletePanel.selectedNames == [] && modifyPanel.selectedSsns == ssns
    {
      names.Clear();
      ssns.Clear();
      deletePanel.UpdateSelectedEmployees(names.items, ssns);
      modifyPanel.SetSelectedSsns(ssns);
    }

    /**
     * The search button: the selection is cleared first, then a table is
     * installed only when the search shows one.
     */
    method SearchClicked(inputs: SearchInputs, groupBy: Option<string>,
                         groupResult: Option<seq<GroupRow>>, order: seq<Option<string>>,
                         results: Option<seq<EmployeeRecord>>, parsers: Parsers, fmt: Formats)
      returns (view: SearchView)
      requires Valid()
      requires GroupRequested(groupBy) && groupResult.Some? ==> Enumerates(order, Averages(groupResult.value).Keys)
      modifies this`tableModel, names, ssns, deletePanel, modifyPanel`selectedSsns
      ensures Valid()
      ensures view == Search(inputs, groupBy, boxes, groupResult, order, results, parsers, fmt)
      ensures names.items == [] && ssns.items == [] && deletePanel.Selection() == [] && modifyPanel.Selection() == []
      ensures tableModel == (if view.GroupShown? || view.ResultsShown? then view.model else old(tableModel))
    {
      ClearSelectedEmployees();
      view := PerformSearch(inputs, groupBy, boxes, groupResult, order, results, parsers, fmt);
      if view.GroupShown? || view.ResultsShown? {
        UpdateTableModel(view.model);
      }
    }

    /**
     * The delete button. The panel's own refresh test fails in this layout,
     * so the view reloads the listing itself after a confirmed delete. The
     * panel clears the shared SSN list but not the names list. A click that
     * ends in the database error reloads nothing, although the rows the loop
     * deleted before the error are gone.
     */
    method DeleteClicked(db: Database, confirmMultiple: bool, confirmDependencies: bool, confirmFinal: bool,
                         faults: Faults, reload: Option<seq<ResultRow>>, fmt: Formats)
      returns (outcome: DeleteOutcome)
      requires Valid() && db.Valid()
      modifies db`employees, deletePanel.selectedSsns, this`tableModel
      ensures Valid() && db.Valid()
      ensures outcome.Deleted? <==>
                old(deletePanel.Selection()) != [] && NameAndSsnSelected(boxes)
                && (|old(deletePanel.Selection())| > 1 ==> confirmMultiple) && !faults.checksRaise
                && old(DeleteConfirmed(db, deletePanel.Selection(), confirmDependencies, confirmFinal))
                && Completed(faults.deleteRaisesAt, |old(deletePanel.Selection())|) == |old(deletePanel.Selection())|
      ensures outcome.Deleted? ==>
                !outcome.refreshed && tableModel == FullListing(reload, fmt)
                && db.employees == old(db.employees) - Elements(old(deletePanel.Selection()))
      ensures outcome.Deleted? && deletePanel.selectedSsns == ssns ==> ssns.items == [] && names.items == old(names.items)
      ensures outcome == DatabaseError ==>
                db.employees == old(db.employees)
                                - Elements(old(deletePanel.Selection())[..ReachedBeforeError(faults, |old(deletePanel.Selection())|)])
      ensures !outcome.Deleted? ==> tableModel == old(tableModel)
      ensures !outcome.Deleted? && outcome != DatabaseError ==> db.employees == old(db.employees)
    {
      ReportLayoutSkipsRefresh();
      outcome := deletePanel.DeleteSelectedEmployees(db, DeletePanelAncestors, boxes,
                                                      confirmMultiple, confirmDependencies, confirmFinal, faults);
      if outcome.Deleted? {
        RefreshTable(reload, fmt);
      }
    }

    /**
     * The modify button: the batch update, then a reload when a row changed.
     * The reload is the corrected RefreshTable, which restores the ten-column
     * listing; the program reloads into whatever model is on screen.
     */
    method ModifyClicked(db: Database, displayName: string, text: string, parsers: Parsers, now: Millis,
                         raisesAt: Option<nat>, reload: Option<seq<ResultRow>>, fmt: Formats)
      returns (outcome: BatchModify.ModifyOutcome)
      requires Valid() && db.Valid()
      modifies modifyPanel`selectedColumn, db`employees, this`tableModel
      ensures Valid() && db.Valid()
      ensures BatchModify.Effect(outcome, db.employees)
           == BatchModify.Modification(old(db.employees), modifyPanel.Selection(),
                                       BatchModify.ColumnNameForDatabase(displayName), text, parsers, now, raisesAt)
      ensures tableModel == (if outcome.Modified? && outcome.count > 0 then FullListing(reload, fmt) else old(tableModel))
    {
      outcome := modifyPanel.OnModify(db, displayName, text, parsers, now, raisesAt);
      if outcome.Modified? && outcome.count > 0 {
        RefreshTable(reload, fmt);
      }
    }

    /**
     * The add dialog's Add button: the insert, then a reload when a row was
     * added, through the corrected RefreshTable as in ModifyClicked.
     */
    method AddClicked(dialog: InsertForm.InsertDialog, db: Database, parsers: Parsers, now: Millis, raises: bool,
                      reload: Option<seq<ResultRow>>, fmt: Formats)
      returns (outcome: InsertForm.AddOutcome)
      requires Valid() && db.Valid()
      modifies dialog`showing, db`employees, this`tableModel
      ensures Valid() && db.Valid()
      ensures InsertForm.Effect(outcome, db.employees)
           == InsertForm.Submission(old(db.employees), dialog.form, parsers, now, raises)
      ensures dialog.showing == (old(dialog.showing) && !outcome.Added?)
      ensures tableModel == (if outcome.Added? then FullListing(reload, fmt) else old(tableModel))
    {
      outcome := dialog.AddEmployee(db, parsers, now, raises);
      if outcome.Added? {
        RefreshTable(reload, fmt);
      }
    }
  }

  /** Once a prefix of the rows stops the scan, the whole scan stops there. */
  lemma {:induction false} ScanStops(rows: seq<seq<Cell>>, n: nat)
    requires n <= |rows| && !Scan(rows[..n]).complete
    ensures Scan(rows) == Scan(rows[..n])
    decreases |rows| - n
  {
    if n < |rows| {
      assert rows[..n + 1][..n] == rows[..n];
      ScanStops(rows, n + 1);
    } else {
      assert rows[..n] == rows;
    }
  }
}
