/**
 * EmployeeDAO.searchEmployees: a criteria map from a key to a list of values
 * becomes one prepared SELECT and its positional parameters. The twelve
 * columns are always selected; every recognised key with a non-empty list
 * adds its predicate, in a fixed order, and the values travel only as
 * parameters.
 */
module SearchQuery {
  import opened Wrappers
  import opened JavaText
  import opened EmployeeModel
  import opened EmployeeDao
  import Jdbc

  /** A bound parameter: a criteria value as text, or a parsed salary. */
  datatype Param = Text(text: string) | Number(number: real)

  /** A prepared statement's text and its parameters in binding order. */
  datatype Query = Query(sql: string, params: seq<Param>)

  /** The SQLException raised for a salary value Double.parseDouble refuses. */
  datatype SearchError = InvalidSalaryFormat(value: string)

  /** Why searchEmployees returns no list. */
  datatype SearchFailure =
    | BadCriteria(criteria: SearchError)  // a salary value that does not parse
    | EngineFailed                        // the engine raises on the SELECT
    | BadRow(row: RowError)               // a row that cannot be mapped

  /**
   * Each key maps to the list of values searched for, as the text they
   * print as; a null element of a list is not part of this model.
   */
  type Criteria = map<string, seq<string>>

  const NameKey := "Name"
  const SsnKey := "Ssn"
  const BdateKey := "Bdate"
  const AddressKey := "Address"
  const SupervisorKey := "Supervisor"
  const DepartmentKey := "부서"
  const SexKey := "성별"
  const SalaryKey := "Salary"

  /** The keys searchEmployees looks at; any other key, "attributes" included, is ignored. */
  const Keys: seq<string> := [NameKey, SsnKey, BdateKey, AddressKey, SupervisorKey, DepartmentKey, SexKey, SalaryKey]

  // The base query, as the text block reads once its indentation and
  // trailing blanks are stripped.
  const Select1 := "SELECT e.Fname, e.Minit, "
  const Select2 := "e.Lname, e.Ssn, e.Bdate, "
  const Select3 := "e.Address,\n       e.Sex, "
  const Select4 := "e.Salary, e.Super_ssn, "
  const Select5 := "e.Dno, d.Dname, e.modified\n"
  const From1 := "FROM EMPLOYEE e\n"
  const From2 := "LEFT JOIN DEPARTMENT d "
  const From3 := "ON e.Dno = d.Dnumber\n"
  const Where1 := "WHERE 1=1\n"
  const BaseQuery := Select1 + Select2 + Select3 + Select4 + Select5 + From1 + From2 + From3 + Where1

  // The predicates appended after WHERE 1=1.
  const NameOpen := " AND (CONCAT(e.Fname, ' ', "
  const NameLike := "e.Minit, '. ', e.Lname) LIKE "
  const NameClause := NameOpen + NameLike + "?" + ")"
  const SsnClause := " AND e.Ssn = " + "?"
  const BdateClause := " AND e.Bdate = " + "?"
  const AddressClause := " AND e.Address LIKE " + "?"
  const SupervisorClause := " AND e.Super_ssn = " + "?"
  const DepartmentOpen := " AND d.Dname IN ("
  const SexOpen := " AND e.Sex IN ("
  const SalaryClause := " AND e.Salary >= " + "?"

  /**
   * The fixed texts the builder appends. The lemmas below hold for any texts
   * whose marks are placed like those of searchEmployees (WellMarked), and
   * the texts of searchEmployees are one such choice.
   */
  datatype SqlText = SqlText(
    base: string, name: string, ssn: string, bdate: string, address: string,
    supervisor: string, departmentOpen: string, sexOpen: string, salary: string)

  const Sql := SqlText(BaseQuery, NameClause, SsnClause, BdateClause, AddressClause,
                       SupervisorClause, DepartmentOpen, SexOpen, SalaryClause)

  /** No mark in the base query or an IN opener; one mark in every single-value predicate. */
  predicate WellMarked(t: SqlText) {
    Placeholders(t.base) == 0 && '?' !in t.departmentOpen && '?' !in t.sexOpen
    && Placeholders(t.name) == 1 && Placeholders(t.ssn) == 1 && Placeholders(t.bdate) == 1
    && Placeholders(t.address) == 1 && Placeholders(t.supervisor) == 1 && Placeholders(t.salary) == 1
  }

  /** containsKey(key) && !get(key).isEmpty(). */
  predicate Given(c: Criteria, key: string) {
    key in c && |c[key]| > 0
  }

  /** Appends a single-value predicate iff its key is given. */
  function WithSingle(sql: string, c: Criteria, key: string, clause: string): (r: string)
    ensures sql <= r
  {
    if Given(c, key) then sql + clause else sql
  }

  /** Appends its parameter, the first value, wrapped in % for a LIKE. */
  function WithSingleParam(ps: seq<Param>, c: Criteria, key: string, like: bool): (r: seq<Param>)
    ensures |r| == |ps| + (if Given(c, key) then 1 else 0) && r[..|ps|] == ps
    ensures Given(c, key) ==> r[|ps|] == Text(if like then "%" + c[key][0] + "%" else c[key][0])
  {
    if !Given(c, key) then ps
    else if like then ps + [Text("%" + c[key][0] + "%")]
    else ps + [Text(c[key][0])]
  }

  /** Appends an IN (?,...,?) predicate with one mark per value iff its key is given. */
  function WithIn(sql: string, c: Criteria, key: string, open: string): (r: string)
    ensures sql <= r
  {
    if Given(c, key) then sql + open + Join(",", Repeat("?", |c[key]|)) + ")" else sql
  }

  function Texts(values: seq<string>): (ps: seq<Param>)
    ensures |ps| == |values| && forall i :: 0 <= i < |values| ==> ps[i] == Text(values[i])
  {
    seq(|values|, i requires 0 <= i < |values| => Text(values[i]))
  }

  /** Appends an IN predicate's parameters: every value, in list order. */
  function WithInParams(ps: seq<Param>, c: Criteria, key: string): (r: seq<Param>)
    ensures |r| == |ps| + (if Given(c, key) then |c[key]| else 0) && r[..|ps|] == ps
    ensures Given(c, key) ==> r[|ps|..] == Texts(c[key])
  {
    if Given(c, key) then ps + Texts(c[key]) else ps
  }

  /** The base query and the predicates before the salary bounds, in the order they are appended. */
  function FilteredSql(c: Criteria, t: SqlText): string {
    var s1 := WithSingle(t.base, c, NameKey, t.name);
    var s2 := WithSingle(s1, c, SsnKey, t.ssn);
    var s3 := WithSingle(s2, c, BdateKey, t.bdate);
    var s4 := WithSingle(s3, c, AddressKey, t.address);
    var s5 := WithSingle(s4, c, SupervisorKey, t.supervisor);
    WithIn(WithIn(s5, c, DepartmentKey, t.departmentOpen), c, SexKey, t.sexOpen)
  }

  /** The parameters of those predicates, in the same order. */
  function FilterParams(c: Criteria): seq<Param> {
    var p1 := WithSingleParam([], c, NameKey, true);
    var p2 := WithSingleParam(p1, c, SsnKey, false);
    var p3 := WithSingleParam(p2, c, BdateKey, false);
    var p4 := WithSingleParam(p3, c, AddressKey, true);
    var p5 := WithSingleParam(p4, c, SupervisorKey, false);
    WithInParams(WithInParams(p5, c, DepartmentKey), c, SexKey)
  }

  /** The salary values; an absent key and an empty list both give none. */
  function SalaryValues(c: Criteria): seq<string> {
    if SalaryKey in c then c[SalaryKey] else []
  }

  /** Appends n salary lower bounds. */
  function WithBounds(sql: string, clause: string, n: nat): (r: string)
    ensures sql <= r
  {
    if n == 0 then sql else WithBounds(sql, clause, n - 1) + clause
  }

  /** The text prepared for the criteria. */
  function SearchSql(c: Criteria, t: SqlText): string {
    WithBounds(FilteredSql(c, t), t.salary, |SalaryValues(c)|)
  }

  /**
   * One parsed lower bound per salary value, in list order; the first value
   * the parser refuses is reported.
   */
  function SalaryBounds(values: seq<string>, parse: string -> Option<real>): (r: Result<seq<Param>, SearchError>)
    ensures r.Ok? <==> forall i :: 0 <= i < |values| ==> parse(values[i]).Some?
    ensures r.Ok? ==> |r.value| == |values|
                      && forall i :: 0 <= i < |values| ==> r.value[i] == Number(parse(values[i]).value)
    ensures r.Err? ==> exists i :: 0 <= i < |values| && parse(values[i]).None?
                                   && r.error == InvalidSalaryFormat(values[i])
                                   && forall j :: 0 <= j < i ==> parse(values[j]).Some?
  {
    if values == [] then Ok([])
    else
      var last := values[|values| - 1];
      match SalaryBounds(values[..|values| - 1], parse)
      case Err(e) => Err(e)
      case Ok(bounds) =>
        match parse(last)
        case None => Err(InvalidSalaryFormat(last))
        case Some(x) => Ok(bounds + [Number(x)])
  }

  /** The statement built from the criteria with the texts t, or the error raised before connecting. */
  function Compile(c: Criteria, parse: string -> Option<real>, t: SqlText): Result<Query, SearchError> {
    match SalaryBounds(SalaryValues(c), parse)
    case Err(e) => Err(e)
    case Ok(bounds) => Ok(Query(SearchSql(c, t), FilterParams(c) + bounds))
  }

  /** The statement searchEmployees prepares. */
  function CompileSearch(c: Criteria, parse: string -> Option<real>): Result<Query, SearchError> {
    Compile(c, parse, Sql)
  }

  /**
   * The builder of searchEmployees, up to the salary bounds: the
   * StringBuilder and the params list grow predicate by predicate.
   */
  method AppendFilters(c: Criteria, t: SqlText) returns (sql: string, params: seq<Param>)
    ensures sql == FilteredSql(c, t) && params == FilterParams(c)
  {
    sql := t.base;
    params := [];
    if Given(c, NameKey) {
      sql := sql + t.name;
      params := params + [Text("%" + c[NameKey][0] + "%")];
    }
    assert sql == WithSingle(t.base, c, NameKey, t.name);
    if Given(c, SsnKey) {
      sql := sql + t.ssn;
      params := params + [Text(c[SsnKey][0])];
    }
    if Given(c, BdateKey) {
      sql := sql + t.bdate;
      params := params + [Text(c[BdateKey][0])];
    }
    if Given(c, AddressKey) {
      sql := sql + t.address;
      params := params + [Text("%" + c[AddressKey][0] + "%")];
    }
    if Given(c, SupervisorKey) {
      sql := sql + t.supervisor;
      params := params + [Text(c[SupervisorKey][0])];
    }
    sql, params := AppendIn(sql, params, c, DepartmentKey, t.departmentOpen);
    sql, params := AppendIn(sql, params, c, SexKey, t.sexOpen);
  }

  /** An IN predicate: the opener, one mark per value joined by commas, the closing parenthesis, and every value. */
  method AppendIn(sql0: string, params0: seq<Param>, c: Criteria, key: string, open: string)
    returns (sql: string, params: seq<Param>)
    ensures sql == WithIn(sql0, c, key, open) && params == WithInParams(params0, c, key)
  {
    sql, params := sql0, params0;
    if Given(c, key) {
      sql := sql + open;
      sql := sql + Join(",", Repeat("?", |c[key]|));
      sql := sql + ")";
      params := params + Texts(c[key]);
    }
  }

  /**
   * The whole builder: after the filters, each salary value appends its
   * bound, then its value is parsed; the first refused value raises.
   */
  method Build(c: Criteria, parse: string -> Option<real>, t: SqlText) returns (r: Result<Query, SearchError>)
    ensures r == Compile(c, parse, t)
  {
    var sql, params := AppendFilters(c, t);
    if Given(c, SalaryKey) {
      r := AppendBounds(sql, params, SalaryValues(c), parse, t.salary);
    } else {
      assert SalaryValues(c) == [];
      assert params == FilterParams(c) + [];
      r := Ok(Query(sql, params));
    }
  }

  /** The salary loop: a bound per value, then its parsed value; the first refused value raises. */
  method AppendBounds(sql0: string, params0: seq<Param>, values: seq<string>, parse: string -> Option<real>, clause: string)
    returns (r: Result<Query, SearchError>)
    ensures SalaryBounds(values, parse).Err? ==> r == Err(SalaryBounds(values, parse).error)
    ensures SalaryBounds(values, parse).Ok? ==>
              r == Ok(Query(WithBounds(sql0, clause, |values|), params0 + SalaryBounds(values, parse).value))
  {
    var sql, params := sql0, params0;
    var i := 0;
    while i < |values|
      invariant 0 <= i <= |values|
      invariant sql == WithBounds(sql0, clause, i)
      invariant SalaryBounds(values[..i], parse).Ok?
      invariant params == params0 + SalaryBounds(values[..i], parse).value
    {
      assert values[..i + 1][..i] == values[..i];
      sql := sql + clause;
      var x := parse(values[i]);
      if x.None? {
        SalaryBoundsStop(values, parse, i);
        return Err(InvalidSalaryFormat(values[i]));
      }
      params := params + [Number(x.value)];
      i := i + 1;
    }
    assert values[..i] == values;
    r := Ok(Query(sql, params));
  }

  /** The first refused value, after accepted ones, is the error reported. */
  lemma SalaryBoundsStop(values: seq<string>, parse: string -> Option<real>, i: nat)
    requires i < |values| && SalaryBounds(values[..i], parse).Ok? && parse(values[i]).None?
    ensures SalaryBounds(values, parse) == Err(InvalidSalaryFormat(values[i]))
  {
    forall j | 0 <= j < i
      ensures parse(values[j]).Some?
    {
      assert values[..i][j] == values[j];
    }
    var j :| 0 <= j < |values| && parse(values[j]).None?
             && SalaryBounds(values, parse).error == InvalidSalaryFormat(values[j])
             && forall k :: 0 <= k < j ==> parse(values[k]).Some?;
    assert j == i;
  }


  /** The builder run with the texts of searchEmployees. */
  method BuildSearchQuery(c: Criteria, parse: string -> Option<real>) returns (r: Result<Query, SearchError>)
    ensures r == CompileSearch(c, parse)
  {
    r := Build(c, parse, Sql);
  }

  /**
   * searchEmployees: the statement is built and bound, the engine answers it
   * with rows (None: it raises), and every row is mapped in the engine's
   * order.
   */
  method SearchEmployees(c: Criteria, parse: string -> Option<real>,
                         engine: (string, map<int, Param>) -> Option<seq<ResultRow>>)
    returns (r: Result<seq<Employee>, SearchFailure>)
    ensures CompileSearch(c, parse).Err? ==> r == Err(BadCriteria(CompileSearch(c, parse).error))
    ensures CompileSearch(c, parse).Ok? ==>
              var q := CompileSearch(c, parse).value;
              var answer := engine(q.sql, Jdbc.Positions(q.params));
              (answer.None? ==> r == Err(EngineFailed))
              && (answer.Some? ==>
                    (r.Ok? <==> MapRows(answer.value).Ok?)
                    && (r.Err? ==> r == Err(BadRow(MapRows(answer.value).error)))
                    && (r.Ok? ==> Records(r.value) == MapRows(answer.value).value))
  {
    var q := BuildSearchQuery(c, parse);
    if q.Err? {
      return Err(BadCriteria(q.error));
    }
    var bound := Jdbc.BindAll(q.value.params);
    var answer := engine(q.value.sql, bound);
    if answer.None? {
      return Err(EngineFailed);
    }
    var employees := GetAllEmployees(answer.value);
    if employees.Err? {
      return Err(BadRow(employees.error));
    }
    r := Ok(employees.value);
  }

  // --- Placeholders ---------------------------------------------------------

  lemma Select1Unmarked() ensures '?' !in Select1 {}
  lemma Select2Unmarked() ensures '?' !in Select2 {}
  lemma Select3Unmarked() ensures '?' !in Select3 {}
  lemma Select4Unmarked() ensures '?' !in Select4 {}
  lemma Select5Unmarked() ensures '?' !in Select5 {}
  lemma From1Unmarked() ensures '?' !in From1 {}
  lemma From2Unmarked() ensures '?' !in From2 {}
  lemma From3Unmarked() ensures '?' !in From3 {}
  lemma Where1Unmarked() ensures '?' !in Where1 {}
  lemma NameOpenUnmarked() ensures '?' !in NameOpen {}
  lemma NameLikeUnmarked() ensures '?' !in NameLike {}
  lemma OpensUnmarked() ensures '?' !in DepartmentOpen && '?' !in SexOpen {}
  lemma SingleOpensUnmarked()
    ensures '?' !in " AND e.Ssn = " && '?' !in " AND e.Bdate = "
    ensures '?' !in " AND e.Address LIKE " && '?' !in " AND e.Super_ssn = "
    ensures '?' !in " AND e.Salary >= "
  {}

  lemma BaseQueryHasNoMark()
    ensures '?' !in BaseQuery
  {
    Select1Unmarked(); Select2Unmarked(); Select3Unmarked(); Select4Unmarked(); Select5Unmarked();
    From1Unmarked(); From2Unmarked(); From3Unmarked(); Where1Unmarked();
  }

  /** The base query has no parameter mark. */
  lemma BaseQueryUnmarked()
    ensures Placeholders(BaseQuery) == 0
  {
    BaseQueryHasNoMark();
    NoPlaceholders(BaseQuery);
  }

  lemma NameClauseMarked() ensures Placeholders(NameClause) == 1 {
    NameOpenUnmarked(); NameLikeUnmarked();
    OnePlaceholder(NameOpen + NameLike, ")");
  }

  lemma SsnClauseMarked() ensures Placeholders(SsnClause) == 1 {
    SingleOpensUnmarked();
    OnePlaceholder(" AND e.Ssn = ", "");
  }

  lemma BdateClauseMarked() ensures Placeholders(BdateClause) == 1 {
    SingleOpensUnmarked();
    OnePlaceholder(" AND e.Bdate = ", "");
  }

  lemma AddressClauseMarked() ensures Placeholders(AddressClause) == 1 {
    SingleOpensUnmarked();
    OnePlaceholder(" AND e.Address LIKE ", "");
  }

  lemma SupervisorClauseMarked() ensures Placeholders(SupervisorClause) == 1 {
    SingleOpensUnmarked();
    OnePlaceholder(" AND e.Super_ssn = ", "");
  }

  lemma SalaryClauseMarked() ensures Placeholders(SalaryClause) == 1 {
    SingleOpensUnmarked();
    OnePlaceholder(" AND e.Salary >= ", "");
  }

  /** The texts of searchEmployees place their marks as WellMarked requires. */
  lemma SqlWellMarked()
    ensures WellMarked(Sql)
  {
    BaseQueryUnmarked(); OpensUnmarked();
    NameClauseMarked(); SsnClauseMarked(); BdateClauseMarked(); AddressClauseMarked();
    SupervisorClauseMarked(); SalaryClauseMarked();
  }

  /** A single-value predicate adds one mark exactly when it adds one parameter. */
  lemma SingleStepMarked(sql: string, c: Criteria, key: string, clause: string)
    requires Placeholders(clause) == 1
    ensures Placeholders(WithSingle(sql, c, key, clause)) == Placeholders(sql) + (if Given(c, key) then 1 else 0)
  {
    PlaceholdersAdd(sql, clause);
  }

  /** An IN predicate adds one mark per value. */
  lemma InStepMarked(sql: string, c: Criteria, key: string, open: string)
    requires '?' !in open
    ensures Placeholders(WithIn(sql, c, key, open)) == Placeholders(sql) + (if Given(c, key) then |c[key]| else 0)
  {
    if Given(c, key) {
      var marks := Join(",", Repeat("?", |c[key]|));
      JoinedMarks(",", |c[key]|);
      NoPlaceholders(open);
      NoPlaceholders(")");
      PlaceholdersAdd(sql, open);
      PlaceholdersAdd(sql + open, marks);
      PlaceholdersAdd(sql + open + marks, ")");
    }
  }

  /** n salary bounds add n marks. */
  lemma {:induction false} BoundsMarked(sql: string, clause: string, n: nat)
    requires Placeholders(clause) == 1
    ensures Placeholders(WithBounds(sql, clause, n)) == Placeholders(sql) + n
  {
    if n > 0 {
      BoundsMarked(sql, clause, n - 1);
      PlaceholdersAdd(WithBounds(sql, clause, n - 1), clause);
    }
  }

  /** The single-value predicates carry one mark per parameter. */
  lemma SinglesMarked(c: Criteria, t: SqlText)
    requires WellMarked(t)
    ensures var s1 := WithSingle(t.base, c, NameKey, t.name);
            var s2 := WithSingle(s1, c, SsnKey, t.ssn);
            var s3 := WithSingle(s2, c, BdateKey, t.bdate);
            var s4 := WithSingle(s3, c, AddressKey, t.address);
            var p1 := WithSingleParam([], c, NameKey, true);
            var p2 := WithSingleParam(p1, c, SsnKey, false);
            var p3 := WithSingleParam(p2, c, BdateKey, false);
            var p4 := WithSingleParam(p3, c, AddressKey, true);
            Placeholders(WithSingle(s4, c, SupervisorKey, t.supervisor))
              == |WithSingleParam(p4, c, SupervisorKey, false)|
  {
    var s1 := WithSingle(t.base, c, NameKey, t.name);
    var s2 := WithSingle(s1, c, SsnKey, t.ssn);
    var s3 := WithSingle(s2, c, BdateKey, t.bdate);
    var s4 := WithSingle(s3, c, AddressKey, t.address);
    SingleStepMarked(t.base, c, NameKey, t.name);
    SingleStepMarked(s1, c, SsnKey, t.ssn);
    SingleStepMarked(s2, c, BdateKey, t.bdate);
    SingleStepMarked(s3, c, AddressKey, t.address);
    SingleStepMarked(s4, c, SupervisorKey, t.supervisor);
  }

  /** The predicates before the salary bounds carry one mark per parameter. */
  lemma FilterMarked(c: Criteria, t: SqlText)
    requires WellMarked(t)
    ensures Placeholders(FilteredSql(c, t)) == |FilterParams(c)|
  {
    SinglesMarked(c, t);
    var s1 := WithSingle(t.base, c, NameKey, t.name);
    var s2 := WithSingle(s1, c, SsnKey, t.ssn);
    var s3 := WithSingle(s2, c, BdateKey, t.bdate);
    var s4 := WithSingle(s3, c, AddressKey, t.address);
    var s5 := WithSingle(s4, c, SupervisorKey, t.supervisor);
    var s6 := WithIn(s5, c, DepartmentKey, t.departmentOpen);
    InStepMarked(s5, c, DepartmentKey, t.departmentOpen);
    InStepMarked(s6, c, SexKey, t.sexOpen);
  }

  /** With well-marked texts, the statement has exactly one mark per parameter. */
  lemma MarksMatchParams(c: Criteria, parse: string -> Option<real>, t: SqlText)
    requires WellMarked(t) && Compile(c, parse, t).Ok?
    ensures Placeholders(Compile(c, parse, t).value.sql) == |Compile(c, parse, t).value.params|
  {
    FilterMarked(c, t);
    BoundsMarked(FilteredSql(c, t), t.salary, |SalaryValues(c)|);
  }

  /** The statement of searchEmployees has exactly one mark per parameter, so every mark is bound. */
  lemma PlaceholdersMatchParams(c: Criteria, parse: string -> Option<real>)
    requires CompileSearch(c, parse).Ok?
    ensures Placeholders(CompileSearch(c, parse).value.sql) == |CompileSearch(c, parse).value.params|
  {
    SqlWellMarked();
    MarksMatchParams(c, parse, Sql);
  }

  // --- The shape of the query ----------------------------------------------

  /** With no recognised key given, the query is the bare base text with no parameter. */
  lemma NoCriteria(c: Criteria, parse: string -> Option<real>, t: SqlText)
    requires forall k :: k in Keys ==> !Given(c, k)
    ensures Compile(c, parse, t) == Ok(Query(t.base, []))
  {
    assert !Given(c, NameKey) && !Given(c, SsnKey) && !Given(c, BdateKey) && !Given(c, AddressKey);
    assert !Given(c, SupervisorKey) && !Given(c, DepartmentKey) && !Given(c, SexKey) && !Given(c, SalaryKey);
    assert SalaryValues(c) == [];
    assert FilteredSql(c, t) == t.base;
    assert SearchSql(c, t) == t.base;
    assert FilterParams(c) == [];
    assert SalaryBounds([], parse) == Ok([]);
    assert FilterParams(c) + [] == [];
  }

  lemma PrefixTransitive(a: string, b: string, d: string)
    requires a <= b && b <= d
    ensures a <= d
  {
    assert d[..|b|][..|a|] == d[..|a|];
  }

  /** Every statement, whatever the criteria, starts with the base text. */
  lemma AlwaysAllColumns(c: Criteria, t: SqlText)
    ensures t.base <= SearchSql(c, t)
  {
    var s1 := WithSingle(t.base, c, NameKey, t.name);
    var s2 := WithSingle(s1, c, SsnKey, t.ssn);
    var s3 := WithSingle(s2, c, BdateKey, t.bdate);
    var s4 := WithSingle(s3, c, AddressKey, t.address);
    var s5 := WithSingle(s4, c, SupervisorKey, t.supervisor);
    var s6 := WithIn(s5, c, DepartmentKey, t.departmentOpen);
    PrefixTransitive(t.base, s1, s2);
    PrefixTransitive(t.base, s2, s3);
    PrefixTransitive(t.base, s3, s4);
    PrefixTransitive(t.base, s4, s5);
    PrefixTransitive(t.base, s5, s6);
    PrefixTransitive(t.base, s6, FilteredSql(c, t));
    PrefixTransitive(t.base, FilteredSql(c, t), SearchSql(c, t));
  }

  /** The criteria with every unrecognised key and every empty list dropped. */
  function Recognised(c: Criteria): (d: Criteria)
    ensures forall k :: k in d <==> k in Keys && Given(c, k)
  {
    map k | k in c && k in Keys && |c[k]| > 0 :: c[k]
  }

  /** Keys outside the eight, and keys mapped to an empty list, change nothing. */
  lemma OnlyRecognisedKeysMatter(c: Criteria, parse: string -> Option<real>, t: SqlText)
    ensures Compile(Recognised(c), parse, t) == Compile(c, parse, t)
  {
    var d := Recognised(c);
    RecognisedAgrees(c, NameKey);
    RecognisedAgrees(c, SsnKey);
    RecognisedAgrees(c, BdateKey);
    RecognisedAgrees(c, AddressKey);
    RecognisedAgrees(c, SupervisorKey);
    RecognisedAgrees(c, DepartmentKey);
    RecognisedAgrees(c, SexKey);
    RecognisedAgrees(c, SalaryKey);
    FiltersAgree(c, d, t);
    assert SalaryValues(d) == SalaryValues(c);
  }

  /** Two criteria maps that give a key, and give it the same values, or both leave it out. */
  predicate Agree(c: Criteria, d: Criteria, key: string) {
    Given(c, key) == Given(d, key) && (Given(c, key) ==> c[key] == d[key])
  }

  lemma RecognisedAgrees(c: Criteria, key: string)
    requires key in Keys
    ensures Agree(c, Recognised(c), key)
  {
  }

  /** Maps that agree on the seven filter keys give the same filters. */
  lemma FiltersAgree(c: Criteria, d: Criteria, t: SqlText)
    requires Agree(c, d, NameKey) && Agree(c, d, SsnKey) && Agree(c, d, BdateKey) && Agree(c, d, AddressKey)
    requires Agree(c, d, SupervisorKey) && Agree(c, d, DepartmentKey) && Agree(c, d, SexKey)
    ensures FilteredSql(d, t) == FilteredSql(c, t) && FilterParams(d) == FilterParams(c)
  {
  }

  /** Two criteria maps with the same keys given, each with as many values. */
  predicate SameShape(c: Criteria, d: Criteria) {
    forall k :: k in Keys ==> Given(c, k) == Given(d, k) && (Given(c, k) ==> |c[k]| == |d[k]|)
  }

  /** The values never reach the statement text: it depends on the shape of the criteria alone. */
  lemma TextIgnoresValues(c: Criteria, d: Criteria, t: SqlText)
    requires SameShape(c, d)
    ensures SearchSql(c, t) == SearchSql(d, t)
  {
    assert Given(c, NameKey) == Given(d, NameKey) && Given(c, SsnKey) == Given(d, SsnKey);
    assert Given(c, BdateKey) == Given(d, BdateKey) && Given(c, AddressKey) == Given(d, AddressKey);
    assert Given(c, SupervisorKey) == Given(d, SupervisorKey);
    assert Given(c, DepartmentKey) == Given(d, DepartmentKey);
    assert Given(c, DepartmentKey) ==> |c[DepartmentKey]| == |d[DepartmentKey]|;
    assert Given(c, SexKey) == Given(d, SexKey);
    assert Given(c, SexKey) ==> |c[SexKey]| == |d[SexKey]|;
    assert Given(c, SalaryKey) == Given(d, SalaryKey);
    assert |SalaryValues(c)| == |SalaryValues(d)|;
  }

  /** A Name criterion adds its predicate right after the base text and binds "%first%" first. */
  lemma NameComesFirst(c: Criteria, parse: string -> Option<real>, t: SqlText)
    requires Given(c, NameKey) && Compile(c, parse, t).Ok?
    ensures Compile(c, parse, t).value.params[0] == Text("%" + c[NameKey][0] + "%")
    ensures t.base + t.name <= Compile(c, parse, t).value.sql
  {
    var s1 := WithSingle(t.base, c, NameKey, t.name);
    var s2 := WithSingle(s1, c, SsnKey, t.ssn);
    var s3 := WithSingle(s2, c, BdateKey, t.bdate);
    var s4 := WithSingle(s3, c, AddressKey, t.address);
    var s5 := WithSingle(s4, c, SupervisorKey, t.supervisor);
    var s6 := WithIn(s5, c, DepartmentKey, t.departmentOpen);
    assert s1 == t.base + t.name;
    PrefixTransitive(s1, s2, s3);
    PrefixTransitive(s1, s3, s4);
    PrefixTransitive(s1, s4, s5);
    PrefixTransitive(s1, s5, s6);
    PrefixTransitive(s1, s6, FilteredSql(c, t));
    PrefixTransitive(s1, FilteredSql(c, t), SearchSql(c, t));
    var p1 := WithSingleParam([], c, NameKey, true);
    assert p1 == [Text("%" + c[NameKey][0] + "%")];
    var p5 := WithSingleParam(WithSingleParam(WithSingleParam(WithSingleParam(p1, c, SsnKey, false), c, BdateKey, false), c, AddressKey, true), c, SupervisorKey, false);
    assert FilterParams(c)[..|p5|] == p5;
    assert p5[0] == p1[0];
  }

  /** The number of parameters: one per given single-value key, one per listed value, one per salary. */
  lemma ParameterCount(c: Criteria, parse: string -> Option<real>, t: SqlText)
    requires Compile(c, parse, t).Ok?
    ensures |Compile(c, parse, t).value.params|
         == (if Given(c, NameKey) then 1 else 0) + (if Given(c, SsnKey) then 1 else 0)
          + (if Given(c, BdateKey) then 1 else 0) + (if Given(c, AddressKey) then 1 else 0)
          + (if Given(c, SupervisorKey) then 1 else 0)
          + (if DepartmentKey in c then |c[DepartmentKey]| else 0)
          + (if SexKey in c then |c[SexKey]| else 0)
          + |SalaryValues(c)|
  {
  }

  /** The search fails exactly when some salary value does not parse, and it names the first such value. */
  lemma SalaryErrors(c: Criteria, parse: string -> Option<real>, t: SqlText)
    ensures Compile(c, parse, t).Err? <==> exists i :: 0 <= i < |SalaryValues(c)| && parse(SalaryValues(c)[i]).None?
    ensures Compile(c, parse, t).Err? ==>
              exists i :: 0 <= i < |SalaryValues(c)| && parse(SalaryValues(c)[i]).None?
                          && Compile(c, parse, t).error == InvalidSalaryFormat(SalaryValues(c)[i])
                          && forall j :: 0 <= j < i ==> parse(SalaryValues(c)[j]).Some?
  {
  }

  /** The salary bounds close the parameter list, one parsed value per salary, in list order. */
  lemma SalaryParamsLast(c: Criteria, parse: string -> Option<real>, t: SqlText)
    requires Compile(c, parse, t).Ok?
    ensures var ps := Compile(c, parse, t).value.params;
            var vs := SalaryValues(c);
            |ps| >= |vs|
            && forall i :: 0 <= i < |vs| ==> ps[|ps| - |vs| + i] == Number(parse(vs[i]).value)
  {
    var vs := SalaryValues(c);
    var front := FilterParams(c);
    var bounds := SalaryBounds(vs, parse).value;
    assert Compile(c, parse, t).value.params == front + bounds;
    assert |bounds| == |vs| && forall i :: 0 <= i < |vs| ==> bounds[i] == Number(parse(vs[i]).value);
    AppendedAtEnd(front, bounds);
  }

  lemma AppendedAtEnd<T>(front: seq<T>, back: seq<T>)
    ensures forall i :: 0 <= i < |back| ==> (front + back)[|front| + i] == back[i]
  {
  }
}
