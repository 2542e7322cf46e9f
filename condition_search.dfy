/**
 * The condition-search panel (component DBConditionSearch): the criteria
 * map read from the search inputs, the guards of the search button, the
 * average salary per group, and the reshaping of employees into a table of
 * the checked attributes only.
 */
module ConditionSearch {
  import opened Wrappers
  import opened JavaText
  import opened EmployeeModel
  import opened Widgets
  import opened JavaLib

  /** The search-type combo box. */
  const SearchTypes: seq<string> := ["전체", "부서", "성별", "급여"]
  /** The group-by combo box. */
  const GroupOptions: seq<string> := ["그룹 없음", "성별", "부서", "상급자"]
  /** The labels of the report view's attribute check boxes, in panel order. */
  const Attributes: seq<string> := ["Name", "Ssn", "Bdate", "Address", "Sex", "Salary", "Supervisor", "Department", "Modified"]

  // ---------------------------------------------------------------- criteria

  /** A value of the criteria map: a String (null from an empty combo box), or the attribute list. */
  datatype CriteriaValue = Text(text: Option<string>) | Labels(labels: seq<string>)

  type SearchCriteria = map<string, CriteriaValue>

  /** What the search inputs hold when the button is pressed. */
  datatype SearchInputs = SearchInputs(searchType: string, department: Option<string>, sex: Option<string>, salaryText: string)

  /**
   * getSearchCriteria: "전체" puts no type and no value; any other type is
   * put with the value of its own input; the checked labels go under
   * "attributes" in every case.
   */
  function Criteria(inputs: SearchInputs, boxes: seq<CheckBox>): (c: SearchCriteria)
    ensures c.Keys <= {"type", "value", "attributes"}
    ensures "attributes" in c && c["attributes"] == Labels(Checked(boxes))
    ensures "type" in c <==> inputs.searchType != "전체"
    ensures "type" in c ==> c["type"] == Text(Some(inputs.searchType))
    ensures "value" in c <==> inputs.searchType in {"부서", "성별", "급여"}
    ensures inputs.searchType == "부서" ==> c["value"] == Text(inputs.department)
    ensures inputs.searchType == "성별" ==> c["value"] == Text(inputs.sex)
    ensures inputs.searchType == "급여" ==> c["value"] == Text(Some(Trim(inputs.salaryText)))
  {
    var typed: SearchCriteria :=
      match inputs.searchType
      case "전체" => map[]
      case "부서" => map["type" := Text(Some(inputs.searchType)), "value" := Text(inputs.department)]
      case "성별" => map["type" := Text(Some(inputs.searchType)), "value" := Text(inputs.sex)]
      case "급여" => map["type" := Text(Some(inputs.searchType)), "value" := Text(Some(Trim(inputs.salaryText)))]
      case _ => map["type" := Text(Some(inputs.searchType))];
    typed["attributes" := Labels(Checked(boxes))]
  }

  /** getSearchCriteria, with the loop that collects the checked labels. */
  method GetSearchCriteria(inputs: SearchInputs, boxes: seq<CheckBox>) returns (criteria: SearchCriteria)
    ensures criteria == Criteria(inputs, boxes)
  {
    criteria := map[];
    if inputs.searchType != "전체" {
      criteria := criteria["type" := Text(Some(inputs.searchType))];
      match inputs.searchType {
        case "부서" => criteria := criteria["value" := Text(inputs.department)];
        case "성별" => criteria := criteria["value" := Text(inputs.sex)];
        case "급여" => criteria := criteria["value" := Text(Some(Trim(inputs.salaryText)))];
        case _ =>
      }
    }
    var selectedAttributes: seq<string> := [];
    for i := 0 to |boxes|
      invariant selectedAttributes == Checked(boxes[..i])
    {
      assert boxes[..i + 1][..i] == boxes[..i];
      if boxes[i].selected {
        selectedAttributes := selectedAttributes + [boxes[i].text];
      }
    }
    assert boxes[..|boxes|] == boxes;
    criteria := criteria["attributes" := Labels(selectedAttributes)];
  }

  /** The loop of performSearch that looks for a ticked attribute box, stopping at the first. */
  method AnyCheckBoxSelected(boxes: seq<CheckBox>) returns (any: bool)
    ensures any <==> exists i :: 0 <= i < |boxes| && boxes[i].selected
    ensures any <==> Checked(boxes) != []
  {
    any := false;
    var i := 0;
    while i < |boxes|
      invariant 0 <= i <= |boxes|
      invariant forall j :: 0 <= j < i ==> !boxes[j].selected
    {
      if boxes[i].selected {
        any := true;
        break;
      }
      i := i + 1;
    }
    CheckedEmpty(boxes);
  }

  // ------------------------------------------------------------ group averages

  const SexGroupSql := "SELECT Sex, AVG(Salary) as avg_salary FROM EMPLOYEE GROUP BY Sex"
  const DepartmentGroupSql :=
    "SELECT d.Dname, AVG(e.Salary) as avg_salary\nFROM EMPLOYEE e\nJOIN DEPARTMENT d ON e.Dno = d.Dnumber\nGROUP BY d.Dname\n"
  const SupervisorGroupSql :=
    "SELECT CONCAT(s.Fname, ' ', s.Lname) as supervisor, AVG(e.Salary) as avg_salary\nFROM EMPLOYEE e\n"
    + "LEFT JOIN EMPLOYEE s ON e.Super_ssn = s.Ssn\nGROUP BY s.Ssn, s.Fname, s.Lname\n"

  /** The query of getAverageSalaryByGroup; any other option raises "Invalid group by option". */
  function GroupSql(groupBy: string): (sql: Option<string>)
    ensures sql.Some? <==> groupBy in {"성별", "부서", "상급자"}
  {
    match groupBy
    case "성별" => Some(SexGroupSql)
    case "부서" => Some(DepartmentGroupSql)
    case "상급자" => Some(SupervisorGroupSql)
    case _ => None
  }

  /** Every option of the group-by box other than "그룹 없음" has its query. */
  lemma GroupOptionsHaveQueries()
    ensures forall g :: g in GroupOptions && g != "그룹 없음" ==> GroupSql(g).Some?
    ensures GroupSql("그룹 없음").None?
  {
  }

  /** One row of the group query: its first column (possibly null) and avg_salary. */
  datatype GroupRow = GroupRow(key: Option<string>, avgSalary: real)

  /** The HashMap filled by put(key, avg) for each row in turn. */
  function Averages(rows: seq<GroupRow>): (m: map<Option<string>, real>)
    ensures forall k :: k in m <==> exists i :: 0 <= i < |rows| && rows[i].key == k
  {
    if rows == [] then map[]
    else
      var init := rows[..|rows| - 1];
      var m0 := Averages(init);
      assert forall i :: 0 <= i < |init| ==> init[i] == rows[i];
      m0[rows[|rows| - 1].key := rows[|rows| - 1].avgSalary]
  }

  /** A key holds the average of the last row that carries it: a later row overwrites an earlier one. */
  lemma {:induction false} LastRowWins(rows: seq<GroupRow>, i: int)
    requires 0 <= i < |rows|
    requires forall j :: i < j < |rows| ==> rows[j].key != rows[i].key
    ensures Averages(rows)[rows[i].key] == rows[i].avgSalary
  {
    if i < |rows| - 1 {
      var init := rows[..|rows| - 1];
      assert init[i] == rows[i];
      LastRowWins(init, i);
    }
  }

  datatype GroupError = InvalidGroupOption | QueryFailed

  /**
   * getAverageSalaryByGroup: the option's query, then one put per result
   * row; `result` is what the engine returns, None when it raises.
   */
  method GetAverageSalaryByGroup(groupBy: string, result: Option<seq<GroupRow>>)
    returns (r: Result<map<Option<string>, real>, GroupError>)
    ensures GroupSql(groupBy).None? ==> r == Err(InvalidGroupOption)
    ensures GroupSql(groupBy).Some? && result.None? ==> r == Err(QueryFailed)
    ensures GroupSql(groupBy).Some? && result.Some? ==> r == Ok(Averages(result.value))
  {
    var sql := GroupSql(groupBy);
    if sql.None? {
      return Err(InvalidGroupOption);
    }
    if result.None? {
      return Err(QueryFailed);
    }
    var rows := result.value;
    var avgSalaries: map<Option<string>, real> := map[];
    for i := 0 to |rows|
      invariant avgSalaries == Averages(rows[..i])
    {
      assert rows[..i + 1][..i] == rows[..i];
      avgSalaries := avgSalaries[rows[i].key := rows[i].avgSalary];
    }
    assert rows[..|rows|] == rows;
    r := Ok(avgSalaries);
  }

  /** The header of the group column. */
  function GroupHeader(groupBy: string): (h: string)
    ensures groupBy == "성별" ==> h == "SEX"
    ensures groupBy == "부서" ==> h == "Dname"
    ensures groupBy == "상급자" ==> h == "SUPERVISOR"
    ensures groupBy !in {"성별", "부서", "상급자"} ==> h == groupBy
  {
    match groupBy
    case "성별" => "SEX"
    case "부서" => "Dname"
    case "상급자" => "SUPERVISOR"
    case _ => groupBy
  }

  /** A null or blank key is shown as "No Supervisor", any other key as itself. */
  function DisplayKey(key: Option<string>): (s: string)
    ensures key.None? ==> s == "No Supervisor"
    ensures key.Some? && Trim(key.value) == [] ==> s == "No Supervisor"
    ensures key.Some? && Trim(key.value) != [] ==> s == key.value
  {
    if key.None? || Trim(key.value) == [] then "No Supervisor" else key.value
  }

  /** `order` lists every key of the map once: the HashMap's iteration order. */
  ghost predicate Enumerates<K(!new)>(order: seq<K>, keys: set<K>) {
    |order| == |keys| && forall k :: k in order <==> k in keys
  }

  /** The table displayGroupResults installs, for the map's entries in iteration order. */
  function GroupTable(avg: map<Option<string>, real>, order: seq<Option<string>>, groupBy: string, fmt: Formats)
    : TableModel
    requires forall k :: k in order ==> k in avg
  {
    TableModel([GroupHeader(groupBy), "AVG_Salary"],
               seq(|order|, i requires 0 <= i < |order| =>
                 [TextCell(DisplayKey(order[i])), TextCell(fmt.twoDecimals(avg[order[i]]))]),
               false)
  }

  /** displayGroupResults: the group column and the average, one row per map entry. */
  method DisplayGroupResults(avg: map<Option<string>, real>, order: seq<Option<string>>, groupBy: string, fmt: Formats)
    returns (model: TableModel)
    requires Enumerates(order, avg.Keys)
    ensures model == GroupTable(avg, order, groupBy, fmt)
  {
    var rows: seq<seq<Cell>> := [];
    for i := 0 to |order|
      invariant |rows| == i
      invariant forall j :: 0 <= j < i ==> rows[j] == [TextCell(DisplayKey(order[j])), TextCell(fmt.twoDecimals(avg[order[j]]))]
    {
      var key := order[i];
      var shown := if key.None? || Trim(key.value) == [] then "No Supervisor" else key.value;
      rows := rows + [[TextCell(shown), TextCell(fmt.twoDecimals(avg[key]))]];
    }
    model := TableModel([GroupHeader(groupBy), "AVG_Salary"], rows, false);
  }

  /** The group table has two columns, one row per group, and shows every group's average. */
  lemma GroupTableShowsEveryGroup(avg: map<Option<string>, real>, order: seq<Option<string>>, groupBy: string,
                                  fmt: Formats)
    requires Enumerates(order, avg.Keys)
    ensures var t := GroupTable(avg, order, groupBy, fmt);
            && |t.columns| == 2 && |t.rows| == |avg|
            && (forall i :: 0 <= i < |t.rows| ==> |t.rows[i]| == |t.columns|)
            && forall k :: k in avg ==>
                 exists i :: 0 <= i < |t.rows| && t.rows[i] == [TextCell(DisplayKey(k)), TextCell(fmt.twoDecimals(avg[k]))]
  {
    var t := GroupTable(avg, order, groupBy, fmt);
    forall k | k in avg
      ensures exists i :: 0 <= i < |t.rows| && t.rows[i] == [TextCell(DisplayKey(k)), TextCell(fmt.twoDecimals(avg[k]))]
    {
      var i :| 0 <= i < |order| && order[i] == k;
      assert t.rows[i] == [TextCell(DisplayKey(k)), TextCell(fmt.twoDecimals(avg[k]))];
    }
  }

  // -------------------------------------------------------------- projection

  /** String concatenation shows a null String as "null". */
  function NullText(s: Option<string>): string {
    if s.None? then "null" else s.value
  }

  /** The name cell: first + " " + minit + ". " + last. */
  function DisplayName(e: EmployeeRecord): (s: string)
    ensures |s| == |NullText(e.firstName)| + 4 + |NullText(e.lastName)|
    ensures s[|NullText(e.firstName)| + 1] == e.minit
  {
    NullText(e.firstName) + " " + [e.minit] + ". " + NullText(e.lastName)
  }

  /** A String column: a null stays a null cell. */
  function OptionCell(s: Option<string>): Cell {
    if s.None? then NullCell else TextCell(s.value)
  }

  /** The cell of one attribute, or None for a label the switch does not know. */
  function AttributeCell(name: string, e: EmployeeRecord, fmt: Formats): (cell: Option<Cell>)
    ensures cell.Some? <==> name in Attributes
  {
    match name
    case "Name" => Some(TextCell(DisplayName(e)))
    case "Ssn" => Some(OptionCell(e.ssn))
    case "Bdate" => Some(TextCell(if e.birthDate.Some? then fmt.date(e.birthDate.value) else ""))
    case "Address" => Some(OptionCell(e.address))
    case "Sex" => Some(CharCell(e.sex))
    case "Salary" => Some(TextCell(fmt.twoDecimals(e.salary)))
    case "Supervisor" => Some(OptionCell(e.supervisorSsn))
    case "Department" => Some(OptionCell(e.departmentName))
    case "Modified" => Some(TextCell(if e.modified.Some? then fmt.seoulStamp(e.modified.value) else ""))
    case _ => None
  }

  /** The cells the inner loop appends for one employee, in box order. */
  function RowCells(e: EmployeeRecord, boxes: seq<CheckBox>, fmt: Formats): seq<Cell> {
    if boxes == [] then []
    else
      var last := boxes[|boxes| - 1];
      var cell := AttributeCell(last.text, e, fmt);
      RowCells(e, boxes[..|boxes| - 1], fmt) + (if last.selected && cell.Some? then [cell.value] else [])
  }

  /** The upper-cased labels. */
  function UpperLabels(labels: seq<string>): (r: seq<string>)
    ensures |r| == |labels| && forall i :: 0 <= i < |labels| ==> r[i] == ToUpper(labels[i])
  {
    seq(|labels|, i requires 0 <= i < |labels| => ToUpper(labels[i]))
  }

  /** The header: the check column, then each checked label upper-cased. */
  function Headers(boxes: seq<CheckBox>): seq<string> {
    [""] + UpperLabels(Checked(boxes))
  }

  /**
   * The table displayResults builds: the header is "" followed by the
   * checked labels upper-cased; one row per employee, in list order, each as
   * wide as the header and starting with an unticked box.
   */
  function Projection(employees: seq<EmployeeRecord>, boxes: seq<CheckBox>, fmt: Formats): (t: TableModel)
    ensures |t.columns| == 1 + |Checked(boxes)| && t.columns[0] == ""
    ensures forall k :: 0 <= k < |Checked(boxes)| ==> t.columns[k + 1] == ToUpper(Checked(boxes)[k])
    ensures |t.rows| == |employees| && t.checkColumn
    ensures forall r :: 0 <= r < |t.rows| ==> |t.rows[r]| == |t.columns| && t.rows[r][0] == BoolCell(false)
  {
    TableModel(Headers(boxes),
               seq(|employees|, i requires 0 <= i < |employees| =>
                 Justify([BoolCell(false)] + RowCells(employees[i], boxes, fmt), |Headers(boxes)|)),
               true)
  }

  /** The header loop of displayResults. */
  method HeaderColumns(boxes: seq<CheckBox>) returns (columns: seq<string>)
    ensures columns == Headers(boxes)
  {
    columns := [""];
    for i := 0 to |boxes|
      invariant columns == [""] + UpperLabels(Checked(boxes[..i]))
    {
      assert boxes[..i + 1][..i] == boxes[..i];
      if boxes[i].selected {
        columns := columns + [ToUpper(boxes[i].text)];
      }
    }
    assert boxes[..|boxes|] == boxes;
  }

  /** The inner loop of displayResults: the cells of one employee, in box order. */
  method RowData(e: EmployeeRecord, boxes: seq<CheckBox>, fmt: Formats) returns (rowData: seq<Cell>)
    ensures rowData == [BoolCell(false)] + RowCells(e, boxes, fmt)
  {
    rowData := [BoolCell(false)];
    for j := 0 to |boxes|
      invariant rowData == [BoolCell(false)] + RowCells(e, boxes[..j], fmt)
    {
      assert boxes[..j + 1][..j] == boxes[..j];
      if boxes[j].selected {
        var cell := AttributeCell(boxes[j].text, e, fmt);
        if cell.Some? {
          rowData := rowData + [cell.value];
        }
      }
    }
    assert boxes[..|boxes|] == boxes;
  }

  /** displayResults: the header loop, then one row per employee. */
  method DisplayResults(employees: seq<EmployeeRecord>, boxes: seq<CheckBox>, fmt: Formats) returns (model: TableModel)
    ensures model == Projection(employees, boxes, fmt)
  {
    var columns := HeaderColumns(boxes);
    var rows: seq<seq<Cell>> := [];
    for r := 0 to |employees|
      invariant |rows| == r
      invariant forall k :: 0 <= k < r ==>
                  rows[k] == Justify([BoolCell(false)] + RowCells(employees[k], boxes, fmt), |columns|)
    {
      var rowData := RowData(employees[r], boxes, fmt);
      rows := rows + [Justify(rowData, |columns|)];
    }
    model := TableModel(columns, rows, true);
  }

  /** With only known labels checked, each row holds exactly one cell per checked label. */
  lemma {:induction false} KnownRowCells(e: EmployeeRecord, boxes: seq<CheckBox>, fmt: Formats)
    requires forall l :: l in Checked(boxes) ==> l in Attributes
    ensures |RowCells(e, boxes, fmt)| == |Checked(boxes)|
    ensures forall k :: 0 <= k < |Checked(boxes)| ==>
              RowCells(e, boxes, fmt)[k] == AttributeCell(Checked(boxes)[k], e, fmt).value
  {
    if boxes != [] {
      var init := boxes[..|boxes| - 1];
      assert forall l :: l in Checked(init) ==> l in Checked(boxes);
      KnownRowCells(e, init, fmt);
    }
  }

  /**
   * With known labels only, nothing is cut or padded: every row is an
   * unticked box followed by that employee's cells, one per checked label
   * (KnownRowCells says which value each cell holds).
   */
  lemma ProjectionCells(employees: seq<EmployeeRecord>, boxes: seq<CheckBox>, fmt: Formats)
    requires forall l :: l in Checked(boxes) ==> l in Attributes
    ensures forall r :: 0 <= r < |employees| ==>
              Projection(employees, boxes, fmt).rows[r] == [BoolCell(false)] + RowCells(employees[r], boxes, fmt)
  {
    forall r | 0 <= r < |employees| {
      ProjectionRow(employees, boxes, fmt, r);
    }
  }

  /** Row r of such a projection. */
  lemma ProjectionRow(employees: seq<EmployeeRecord>, boxes: seq<CheckBox>, fmt: Formats, r: nat)
    requires forall l :: l in Checked(boxes) ==> l in Attributes
    requires r < |employees|
    ensures Projection(employees, boxes, fmt).rows[r] == [BoolCell(false)] + RowCells(employees[r], boxes, fmt)
  {
    var cells := [BoolCell(false)] + RowCells(employees[r], boxes, fmt);
    assert |cells| == |Headers(boxes)| by {
      KnownRowCells(employees[r], boxes, fmt);
    }
    assert Projection(employees, boxes, fmt).rows[r] == Justify(cells, |Headers(boxes)|);
    assert cells[..|cells|] == cells;
  }

  // ------------------------------------------------------------ search button

  /** What the search button ends with; the tables are the models handed to the view. */
  datatype SearchView =
    | NothingChecked                  // the "select at least one" warning
    | GroupFailed(error: GroupError)  // the search error message
    | GroupShown(model: TableModel)
    | SalaryNotNumeric                // the salary input error
    | SearchFailed                    // the search error message
    | ResultsShown(model: TableModel)

  predicate GroupRequested(groupBy: Option<string>) {
    groupBy.Some? && groupBy.value != "그룹 없음"
  }

  /** "급여".equals(criteria.get("type")). */
  predicate SalarySearch(c: SearchCriteria) {
    "type" in c && c["type"] == Text(Some("급여"))
  }

  /** The salary value of a salary search parses as a double. */
  predicate SalaryParses(c: SearchCriteria, parsers: Parsers) {
    "value" in c && c["value"].Text? && c["value"].text.Some? && parsers.parseDouble(c["value"].text.value).Some?
  }

  /**
   * performSearch after the selection is cleared. `groupResult` and
   * `results` are what the engine returns for the group query and for
   * searchEmployees, None when it raises; `order` is the HashMap's
   * iteration order of the averages.
   */
  function Search(inputs: SearchInputs, groupBy: Option<string>, boxes: seq<CheckBox>,
                  groupResult: Option<seq<GroupRow>>, order: seq<Option<string>>,
                  results: Option<seq<EmployeeRecord>>, parsers: Parsers, fmt: Formats): SearchView
    requires GroupRequested(groupBy) && groupResult.Some? ==> Enumerates(order, Averages(groupResult.value).Keys)
  {
    if Checked(boxes) == [] then NothingChecked
    else if GroupRequested(groupBy) then
      if GroupSql(groupBy.value).None? then GroupFailed(InvalidGroupOption)
      else if groupResult.None? then GroupFailed(QueryFailed)
      else GroupShown(GroupTable(Averages(groupResult.value), order, groupBy.value, fmt))
    else
      var criteria := Criteria(inputs, boxes);
      if SalarySearch(criteria) && !SalaryParses(criteria, parsers) then SalaryNotNumeric
      else if results.None? then SearchFailed
      else ResultsShown(Projection(results.value, boxes, fmt))
  }

  method PerformSearch(inputs: SearchInputs, groupBy: Option<string>, boxes: seq<CheckBox>,
                       groupResult: Option<seq<GroupRow>>, order: seq<Option<string>>,
                       results: Option<seq<EmployeeRecord>>, parsers: Parsers, fmt: Formats)
    returns (view: SearchView)
    requires GroupRequested(groupBy) && groupResult.Some? ==> Enumerates(order, Averages(groupResult.value).Keys)
    ensures view == Search(inputs, groupBy, boxes, groupResult, order, results, parsers, fmt)
  {
    var anyCheckBoxSelected := AnyCheckBoxSelected(boxes);
    if !anyCheckBoxSelected {
      return NothingChecked;
    }
    if GroupRequested(groupBy) {
      var avgSalaries := GetAverageSalaryByGroup(groupBy.value, groupResult);
      if avgSalaries.Err? {
        return GroupFailed(avgSalaries.error);
      }
      var model := DisplayGroupResults(avgSalaries.value, order, groupBy.value, fmt);
      return GroupShown(model);
    }
    var searchCriteria := GetSearchCriteria(inputs, boxes);
    if SalarySearch(searchCriteria) && !SalaryParses(searchCriteria, parsers) {
      return SalaryNotNumeric;
    }
    if results.None? {
      return SearchFailed;
    }
    var model := DisplayResults(results.value, boxes, fmt);
    view := ResultsShown(model);
  }

  /** No query of either kind runs unless an attribute box is ticked. */
  lemma NothingCheckedRunsNoQuery(inputs: SearchInputs, groupBy: Option<string>, boxes: seq<CheckBox>,
                                  groupResult: Option<seq<GroupRow>>, order: seq<Option<string>>,
                                  results: Option<seq<EmployeeRecord>>, parsers: Parsers, fmt: Formats)
    requires GroupRequested(groupBy) && groupResult.Some? ==> Enumerates(order, Averages(groupResult.value).Keys)
    requires forall i :: 0 <= i < |boxes| ==> !boxes[i].selected
    ensures Search(inputs, groupBy, boxes, groupResult, order, results, parsers, fmt) == NothingChecked
  {
    CheckedEmpty(boxes);
  }

  /** A salary search whose trimmed text does not parse shows the input error, whatever the engine would return. */
  lemma SalaryMustParse(inputs: SearchInputs, groupBy: Option<string>, boxes: seq<CheckBox>,
                        groupResult: Option<seq<GroupRow>>, order: seq<Option<string>>,
                        results: Option<seq<EmployeeRecord>>, parsers: Parsers, fmt: Formats)
    requires GroupRequested(groupBy) && groupResult.Some? ==> Enumerates(order, Averages(groupResult.value).Keys)
    requires Checked(boxes) != [] && !GroupRequested(groupBy)
    requires inputs.searchType == "급여" && parsers.parseDouble(Trim(inputs.salaryText)).None?
    ensures Search(inputs, groupBy, boxes, groupResult, order, results, parsers, fmt) == SalaryNotNumeric
  {
  }

  /** A search that reaches the engine shows its employees projected on the ticked attributes. */
  lemma ResultsAreProjected(inputs: SearchInputs, groupBy: Option<string>, boxes: seq<CheckBox>,
                            groupResult: Option<seq<GroupRow>>, order: seq<Option<string>>,
                            employees: seq<EmployeeRecord>, parsers: Parsers, fmt: Formats)
    requires GroupRequested(groupBy) && groupResult.Some? ==> Enumerates(order, Averages(groupResult.value).Keys)
    requires Checked(boxes) != [] && !GroupRequested(groupBy)
    requires inputs.searchType != "급여"
    ensures Search(inputs, groupBy, boxes, groupResult, order, Some(employees), parsers, fmt)
         == ResultsShown(Projection(employees, boxes, fmt))
  {
  }
}
