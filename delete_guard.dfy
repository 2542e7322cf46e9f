/**
 * The delete panel (component DBDelete): the dependency checks run before a
 * delete and the gated batch delete of the selected employees. A selected
 * employee who supervises someone blocks the whole batch; one who manages a
 * department, works on a project or has a dependent only asks for a
 * confirmation. Every dialog answer is an input.
 */
module DeleteGuard {
  import opened Wrappers
  import opened CompanyStore
  import opened Widgets

  // --- Dependency checks ----------------------------------------------------

  /** The SELECT COUNT(*) queries of the checks, one per column that refers to an employee. */
  datatype DependencyQuery =
    | SupervisorOf   // EMPLOYEE.Super_ssn
    | ManagerOf      // DEPARTMENT.Mgr_ssn
    | WorksOnOf      // WORKS_ON.Essn
    | DependentOf    // DEPENDENT.Essn

  /** The query counts at least one row naming ssn. */
  predicate Hits(db: Database, q: DependencyQuery, ssn: string)
    reads db
  {
    match q
    case SupervisorOf => db.IsSupervisor(ssn)
    case ManagerOf => db.IsManager(ssn)
    case WorksOnOf => ssn in db.worksOn
    case DependentOf => ssn in db.dependents
  }

  /** The queries of hasOtherDependencies, in order. */
  const OtherQueries := [ManagerOf, WorksOnOf, DependentOf]

  /** The queries of hasDependencies, in order. */
  const AllQueries := [SupervisorOf, ManagerOf, WorksOnOf, DependentOf]

  /** A reference other than Super_ssn: department manager, project member or parent of a dependent. */
  predicate OtherDependency(db: Database, ssn: string)
    reads db
  {
    db.IsManager(ssn) || ssn in db.worksOn || ssn in db.dependents
  }

  /** Runs the queries in order and returns true at the first that counts a row. */
  method AnyHit(db: Database, queries: seq<DependencyQuery>, ssn: string) returns (found: bool)
    ensures found <==> exists i :: 0 <= i < |queries| && Hits(db, queries[i], ssn)
  {
    for i := 0 to |queries|
      invariant forall j :: 0 <= j < i ==> !Hits(db, queries[j], ssn)
    {
      if Hits(db, queries[i], ssn) {
        return true;
      }
    }
    return false;
  }

  /** hasSubordinates: some employee names ssn as Super_ssn. */
  method HasSubordinates(db: Database, ssn: string) returns (found: bool)
    ensures found <==> db.IsSupervisor(ssn)
  {
    found := AnyHit(db, [SupervisorOf], ssn);
    assert [SupervisorOf][0] == SupervisorOf;
  }

  /** hasOtherDependencies: the three queries other than Super_ssn. */
  method HasOtherDependencies(db: Database, ssn: string) returns (found: bool)
    ensures found <==> OtherDependency(db, ssn)
  {
    found := AnyHit(db, OtherQueries, ssn);
    assert OtherQueries[0] == ManagerOf && OtherQueries[1] == WorksOnOf && OtherQueries[2] == DependentOf;
  }

  /** hasDependencies: all four queries; it answers what the two checks above answer together. */
  method HasDependencies(db: Database, ssn: string) returns (found: bool)
    ensures found <==> db.IsSupervisor(ssn) || OtherDependency(db, ssn)
  {
    found := AnyHit(db, AllQueries, ssn);
    assert AllQueries[0] == SupervisorOf && AllQueries[1] == ManagerOf;
    assert AllQueries[2] == WorksOnOf && AllQueries[3] == DependentOf;
  }

  // --- The blocked list -----------------------------------------------------

  /** The selected SSNs that some employee reports to, in selection order. */
  function Supervisors(db: Database, ssns: seq<string>): (r: seq<string>)
    reads db
    ensures |r| <= |ssns|
    ensures forall s :: s in r <==> s in ssns && db.IsSupervisor(s)
  {
    if ssns == [] then []
    else
      var last := ssns[|ssns| - 1];
      Supervisors(db, ssns[..|ssns| - 1]) + (if db.IsSupervisor(last) then [last] else [])
  }

  /** The loop that fills supervisorsWithSubordinates. */
  method CollectSupervisors(db: Database, ssns: seq<string>) returns (r: seq<string>)
    ensures r == Supervisors(db, ssns)
  {
    r := [];
    for i := 0 to |ssns|
      invariant r == Supervisors(db, ssns[..i])
    {
      assert ssns[..i + 1][..i] == ssns[..i];
      var blocked := HasSubordinates(db, ssns[i]);
      if blocked {
        r := r + [ssns[i]];
      }
    }
    assert ssns[..|ssns|] == ssns;
  }

  /** List.indexOf: the first index of x, or -1. */
  function IndexOf(xs: seq<string>, x: string): (i: int)
    ensures -1 <= i < |xs|
    ensures i == -1 <==> x !in xs
    ensures i >= 0 ==> xs[i] == x && forall j :: 0 <= j < i ==> xs[j] != x
  {
    if xs == [] then -1
    else if xs[0] == x then 0
    else
      var k := IndexOf(xs[1..], x);
      if k == -1 then -1 else k + 1
  }

  /**
   * The names in the blocked message: each blocked SSN is looked up in the
   * SSN list and reported by the name at that index. None when a lookup
   * falls outside the name list (get throws and no message is shown).
   */
  function BlockedNames(blocked: seq<string>, ssns: seq<string>, names: seq<string>): (r: Option<seq<string>>)
    ensures r.Some? <==> forall i :: 0 <= i < |blocked| ==> IndexOf(ssns, blocked[i]) < |names|
    ensures r.Some? && (forall i :: 0 <= i < |blocked| ==> blocked[i] in ssns) ==>
              |r.value| == |blocked|
              && forall i :: 0 <= i < |blocked| ==> r.value[i] == names[IndexOf(ssns, blocked[i])]
  {
    if blocked == [] then Some([])
    else
      var k := IndexOf(ssns, blocked[|blocked| - 1]);
      match BlockedNames(blocked[..|blocked| - 1], ssns, names)
      case None => None
      case Some(ns) =>
        if k == -1 then Some(ns)
        else if k < |names| then Some(ns + [names[k]])
        else None
  }

  /** With index-aligned lists, every blocked employee is reported by the name selected with it. */
  lemma AlignedListsReportEveryName(db: Database, ssns: seq<string>, names: seq<string>)
    requires |names| == |ssns|
    ensures var blocked := Supervisors(db, ssns);
            BlockedNames(blocked, ssns, names).Some?
            && |BlockedNames(blocked, ssns, names).value| == |blocked|
            && forall i :: 0 <= i < |blocked| ==>
                 exists j :: 0 <= j < |ssns| && ssns[j] == blocked[i]
                             && BlockedNames(blocked, ssns, names).value[i] == names[j]
  {
    var blocked := Supervisors(db, ssns);
    forall i | 0 <= i < |blocked|
      ensures blocked[i] in ssns
    {
      assert blocked[i] in blocked;
    }
  }

  /** Whether any selected SSN has a reference other than Super_ssn. */
  predicate AnyOtherDependency(db: Database, ssns: seq<string>)
    reads db
  {
    exists i :: 0 <= i < |ssns| && OtherDependency(db, ssns[i])
  }

  /** The hasAnyOtherDependencies loop: it stops at the first SSN that has one. */
  method FindOtherDependency(db: Database, ssns: seq<string>) returns (any: bool)
    ensures any <==> AnyOtherDependency(db, ssns)
  {
    any := false;
    var i := 0;
    while i < |ssns|
      invariant 0 <= i <= |ssns|
      invariant !any && forall j :: 0 <= j < i ==> !OtherDependency(db, ssns[j])
    {
      var has := HasOtherDependencies(db, ssns[i]);
      if has {
        any := true;
        break;
      }
      i := i + 1;
    }
  }

  // --- The batch delete -----------------------------------------------------

  /** The distinct entries of a list. */
  function Elements(xs: seq<string>): set<string> {
    set s | s in xs
  }

  /** The selected SSNs that still have a row, each counted once. */
  function Present(keys: set<string>, ssns: seq<string>): set<string> {
    Elements(ssns) * keys
  }

  lemma ElementsSnoc(xs: seq<string>, x: string)
    ensures Elements(xs + [x]) == Elements(xs) + {x}
  {
    assert forall s :: s in xs + [x] <==> s in xs || s == x;
  }

  /** The success count never exceeds the number of selected SSNs. */
  lemma {:induction false} PresentBounded(keys: set<string>, ssns: seq<string>)
    ensures |Present(keys, ssns)| <= |ssns|
  {
    if ssns != [] {
      var rest, last := ssns[..|ssns| - 1], ssns[|ssns| - 1];
      assert ssns == rest + [last];
      ElementsSnoc(rest, last);
      PresentBounded(keys, rest);
      if last in keys && last !in Present(keys, rest) {
        assert Present(keys, ssns) == Present(keys, rest) + {last};
      } else {
        assert Present(keys, ssns) == Present(keys, rest);
      }
    }
  }

  /** Deleting one more SSN removes it from what is left. */
  lemma RemoveOneMore(rows: map<string, EmployeeRow>, xs: seq<string>, x: string)
    ensures (rows - Elements(xs)) - {x} == rows - Elements(xs + [x])
  {
    ElementsSnoc(xs, x);
    var lhs, rhs := (rows - Elements(xs)) - {x}, rows - (Elements(xs) + {x});
    assert lhs.Keys == rhs.Keys;
    assert forall k :: k in lhs ==> lhs[k] == rhs[k];
  }

  /** Deleting the next SSN removes it from what is left and counts it iff it was still there. */
  lemma NextDeletion(rows: map<string, EmployeeRow>, ssns: seq<string>, i: nat)
    requires i < |ssns|
    ensures (rows - Elements(ssns[..i])) - {ssns[i]} == rows - Elements(ssns[..i + 1])
    ensures |Present(rows.Keys, ssns[..i + 1])|
         == |Present(rows.Keys, ssns[..i])| + (if ssns[i] in rows - Elements(ssns[..i]) then 1 else 0)
  {
    assert ssns[..i + 1] == ssns[..i] + [ssns[i]];
    RemoveOneMore(rows, ssns[..i], ssns[i]);
    CountOneMore(rows.Keys, ssns[..i], ssns[i]);
  }

  /** The count grows by one exactly when the next SSN still had a row. */
  lemma CountOneMore(keys: set<string>, xs: seq<string>, x: string)
    ensures |Present(keys, xs + [x])|
         == |Present(keys, xs)| + (if x in keys && x !in Elements(xs) then 1 else 0)
  {
    ElementsSnoc(xs, x);
    if x in keys && x !in Elements(xs) {
      assert Present(keys, xs + [x]) == Present(keys, xs) + {x};
    } else {
      assert Present(keys, xs + [x]) == Present(keys, xs);
    }
  }

  /**
   * deleteEmployee once per SSN, in order, counting the calls that removed
   * a row: a repeated SSN finds nothing the second time. When the call at
   * index raisesAt raises, the loop ends there with the earlier deletions
   * kept and no count.
   */
  method DeleteEach(db: Database, ssns: seq<string>, raisesAt: Option<nat>) returns (succeeded: Option<nat>)
    requires db.Valid()
    modifies db`employees
    ensures db.Valid()
    ensures db.employees == old(db.employees) - Elements(ssns[..Completed(raisesAt, |ssns|)])
    ensures succeeded.None? <==> Completed(raisesAt, |ssns|) < |ssns|
    ensures succeeded.Some? ==> succeeded.value == |Present(old(db.employees).Keys, ssns)|
  {
    var count := 0;
    ghost var rows := db.employees;
    ghost var n := Completed(raisesAt, |ssns|);
    for i := 0 to |ssns|
      invariant i <= n
      invariant db.Valid()
      invariant db.employees == rows - Elements(ssns[..i])
      invariant count == |Present(rows.Keys, ssns[..i])|
    {
      var removed := DeleteOne(db, rows, ssns, i, raisesAt == Some(i));
      if removed.None? {
        assert n == i;
        return None;
      }
      if removed.value {
        count := count + 1;
      }
    }
    assert n == |ssns| && ssns[..n] == ssns;
    succeeded := Some(count);
  }

  /** One call of the delete loop: it raises and changes nothing, or removes the i-th SSN's row if any. */
  method DeleteOne(db: Database, ghost rows: map<string, EmployeeRow>, ssns: seq<string>, i: nat, raises: bool)
    returns (removed: Option<bool>)
    requires db.Valid()
    requires i < |ssns|
    requires db.employees == rows - Elements(ssns[..i])
    modifies db`employees
    ensures db.Valid()
    ensures removed.None? <==> raises
    ensures removed.None? ==> db.employees == old(db.employees)
    ensures removed.Some? ==> db.employees == rows - Elements(ssns[..i + 1])
    ensures removed.Some? ==>
              |Present(rows.Keys, ssns[..i + 1])| == |Present(rows.Keys, ssns[..i])| + (if removed.value then 1 else 0)
  {
    NextDeletion(rows, ssns, i);
    removed := db.DeleteEmployee(ssns[i], raises);
  }

  /**
   * Where the engine raises during a click: on the dependency queries
   * (checksRaise), or on the DELETE of the SSN at index deleteRaisesAt.
   */
  datatype Faults = Faults(checksRaise: bool, deleteRaisesAt: Option<nat>)

  /** How many selected SSNs the delete loop gets through before the error dialog. */
  function ReachedBeforeError(faults: Faults, n: nat): (k: nat)
    ensures k <= n
  {
    if faults.checksRaise then 0 else Completed(faults.deleteRaisesAt, n)
  }

  /** What the delete button ends with; each tag stands for the dialog shown. */
  datatype DeleteOutcome =
    | NeedNameAndSsn                               // the Name and Ssn boxes must be ticked
    | NothingSelected
    | MultipleDeclined                             // "n employees selected, continue?" answered no
    | Blocked(report: Option<seq<string>>)         // supervisors cannot be deleted; None: the name lookup threw
    | DependenciesDeclined                         // the dependency warning answered no
    | FinalDeclined                                // the final confirmation answered no
    | Deleted(total: nat, succeeded: nat, refreshed: bool)  // "succeeded of total deleted"; refreshTable called?
    | DatabaseError                                // the SQLException dialog; earlier deletions stay

  /** Every box labelled Name or Ssn is ticked (vacuously true when there is none). */
  predicate NameAndSsnSelected(boxes: seq<CheckBox>) {
    forall i :: 0 <= i < |boxes| && (boxes[i].text == "Name" || boxes[i].text == "Ssn") ==> boxes[i].selected
  }

  /** The questions before the dependency checks are passed: the boxes, a selection, "continue?". */
  predicate Prompted(ancestors: seq<Container>, boxes: seq<CheckBox>, selection: seq<string>, confirmMultiple: bool) {
    BoxesAllow(ancestors, boxes) && selection != [] && (|selection| > 1 ==> confirmMultiple)
  }

  /** Nobody selected supervises anyone, and the remaining questions are answered yes. */
  predicate DeleteConfirmed(db: Database, selection: seq<string>, confirmDependencies: bool, confirmFinal: bool)
    reads db
  {
    Supervisors(db, selection) == [] && (AnyOtherDependency(db, selection) ==> confirmDependencies) && confirmFinal
  }

  /** A container above the panel: the report frame or any other Swing container. */
  datatype Container = ReportFrame | OtherContainer

  /** The getParent() walk finds the report frame somewhere above the panel. */
  predicate ViewFound(ancestors: seq<Container>) {
    ReportFrame in ancestors
  }

  /** The walk up the parents, stopping at the first report frame. */
  method FindView(ancestors: seq<Container>) returns (found: bool)
    ensures found <==> ViewFound(ancestors)
  {
    var i := 0;
    while i < |ancestors| && ancestors[i] != ReportFrame
      invariant 0 <= i <= |ancestors|
      invariant forall j :: 0 <= j < i ==> ancestors[j] != ReportFrame
    {
      i := i + 1;
    }
    found := i < |ancestors|;
  }

  /** The check-box gate: it applies only when the report frame was found. */
  predicate BoxesAllow(ancestors: seq<Container>, boxes: seq<CheckBox>) {
    ViewFound(ancestors) ==> NameAndSsnSelected(boxes)
  }

  /** The refresh test after a delete, as written: the grandparent must be the report frame. */
  predicate RefreshAsWritten(ancestors: seq<Container>) {
    |ancestors| >= 2 && ancestors[1] == ReportFrame
  }

  class DeletePanel {
    /** The SSN list object last handed over; the report view may hold the same object. */
    var selectedSsns: StringList?
    /** A copy of the names handed over with it. */
    var selectedNames: seq<string>

    /** The SSNs the panel would delete; a null list selects nothing. */
    function Selection(): seq<string>
      reads this, selectedSsns
    {
      if selectedSsns == null then [] else selectedSsns.items
    }

    /** new DBDelete(): two fresh empty lists. */
    constructor ()
      ensures selectedSsns != null && fresh(selectedSsns) && Selection() == [] && selectedNames == []
    {
      selectedSsns := new StringList();
      selectedNames := [];
    }

    /** updateSelectedEmployees: keeps the SSN list object itself and a copy of the names. */
    method UpdateSelectedEmployees(names: seq<string>, ssns: StringList)
      modifies this
      ensures selectedSsns == ssns && selectedNames == names
    {
      selectedSsns := ssns;
      selectedNames := names;
    }

    /**
     * deleteSelectedEmployees. Each gate either stops with nothing deleted
     * or passes to the next; only after the final confirmation are the
     * selected SSNs deleted, and only a loop that completes clears the
     * (possibly shared) SSN list. An SQLException ends the click with the
     * error dialog, keeping whatever the loop had deleted.
     */
    method DeleteSelectedEmployees(db: Database, ancestors: seq<Container>, boxes: seq<CheckBox>,
                                   confirmMultiple: bool, confirmDependencies: bool, confirmFinal: bool,
                                   faults: Faults)
      returns (outcome: DeleteOutcome)
      requires db.Valid()
      modifies db`employees, selectedSsns
      ensures db.Valid()
      ensures !BoxesAllow(ancestors, boxes) ==> outcome == NeedNameAndSsn
      ensures BoxesAllow(ancestors, boxes) && old(Selection()) == [] ==> outcome == NothingSelected
      ensures BoxesAllow(ancestors, boxes) && old(Selection()) != [] && |old(Selection())| > 1 && !confirmMultiple
              ==> outcome == MultipleDeclined
      ensures outcome.Blocked? <==>
                old(Prompted(ancestors, boxes, Selection(), confirmMultiple)) && !faults.checksRaise
                && old(Supervisors(db, Selection())) != []
      ensures outcome.Blocked? ==>
                outcome.report == old(BlockedNames(Supervisors(db, Selection()), Selection(), selectedNames))
      ensures outcome == DependenciesDeclined <==>
                old(Prompted(ancestors, boxes, Selection(), confirmMultiple)) && !faults.checksRaise
                && old(Supervisors(db, Selection())) == []
                && old(AnyOtherDependency(db, Selection())) && !confirmDependencies
      ensures outcome.Deleted? <==>
                old(Prompted(ancestors, boxes, Selection(), confirmMultiple)) && !faults.checksRaise
                && old(DeleteConfirmed(db, Selection(), confirmDependencies, confirmFinal))
                && Completed(faults.deleteRaisesAt, |old(Selection())|) == |old(Selection())|
      ensures outcome == DatabaseError <==>
                old(Prompted(ancestors, boxes, Selection(), confirmMultiple))
                && (faults.checksRaise
                    || (old(DeleteConfirmed(db, Selection(), confirmDependencies, confirmFinal))
                        && Completed(faults.deleteRaisesAt, |old(Selection())|) < |old(Selection())|))
      ensures outcome.Deleted? ==>
                outcome == Deleted(|old(Selection())|, |Present(old(db.employees).Keys, old(Selection()))|,
                                   RefreshAsWritten(ancestors))
                && db.employees == old(db.employees) - Elements(old(Selection()))
                && Selection() == []
      ensures outcome == DatabaseError ==>
                db.employees == old(db.employees) - Elements(old(Selection())[..ReachedBeforeError(faults, |old(Selection())|)])
                && Selection() == old(Selection())
      ensures !outcome.Deleted? && outcome != DatabaseError ==>
                db.employees == old(db.employees) && Selection() == old(Selection())
    {
      var found := FindView(ancestors);
      if found && !NameAndSsnSelected(boxes) {
        return NeedNameAndSsn;
      }
      if selectedSsns == null || selectedSsns.items == [] {
        return NothingSelected;
      }
      var ssns := selectedSsns.items;
      if |ssns| > 1 && !confirmMultiple {
        return MultipleDeclined;
      }
      if faults.checksRaise {
        assert ssns[..0] == [];
        assert Elements([]) == {};
        return DatabaseError;
      }
      outcome := CheckAndDelete(db, ssns, selectedNames, confirmDependencies, confirmFinal,
                                faults.deleteRaisesAt, |ancestors| >= 2 && ancestors[1] == ReportFrame);
      if outcome.Deleted? {
        selectedSsns.Clear();
      }
    }
  }

  /**
   * The part of deleteSelectedEmployees after the prompts: the supervisor
   * check, the dependency warning, the final confirmation and the loop.
   */
  method CheckAndDelete(db: Database, ssns: seq<string>, names: seq<string>,
                        confirmDependencies: bool, confirmFinal: bool, raisesAt: Option<nat>, refreshed: bool)
    returns (outcome: DeleteOutcome)
    requires db.Valid()
    modifies db`employees
    ensures db.Valid()
    ensures outcome.Blocked? <==> old(Supervisors(db, ssns)) != []
    ensures outcome.Blocked? ==> outcome.report == old(BlockedNames(Supervisors(db, ssns), ssns, names))
    ensures outcome == DependenciesDeclined <==>
              old(Supervisors(db, ssns)) == [] && old(AnyOtherDependency(db, ssns)) && !confirmDependencies
    ensures outcome.Deleted? <==>
              old(DeleteConfirmed(db, ssns, confirmDependencies, confirmFinal)) && Completed(raisesAt, |ssns|) == |ssns|
    ensures outcome == DatabaseError <==>
              old(DeleteConfirmed(db, ssns, confirmDependencies, confirmFinal)) && Completed(raisesAt, |ssns|) < |ssns|
    ensures outcome.Deleted? ==>
              outcome == Deleted(|ssns|, |Present(old(db.employees).Keys, ssns)|, refreshed)
              && db.employees == old(db.employees) - Elements(ssns)
    ensures outcome == DatabaseError ==> db.employees == old(db.employees) - Elements(ssns[..Completed(raisesAt, |ssns|)])
    ensures !outcome.Deleted? && outcome != DatabaseError ==> db.employees == old(db.employees)
  {
    var blocked := CollectSupervisors(db, ssns);
    if blocked != [] {
      return Blocked(BlockedNames(blocked, ssns, names));
    }
    var any := FindOtherDependency(db, ssns);
    if any && !confirmDependencies {
      return DependenciesDeclined;
    }
    if !confirmFinal {
      return FinalDeclined;
    }
    ghost var n := Completed(raisesAt, |ssns|);
    var succeeded := DeleteEach(db, ssns, raisesAt);
    if succeeded.None? {
      return DatabaseError;
    }
    assert n == |ssns| && ssns[..n] == ssns;
    outcome := Deleted(|ssns|, succeeded.value, refreshed);
  }

  /** A confirmed delete never reports more successes than selected SSNs. */
  lemma DeletedWithinSelection(keys: set<string>, ssns: seq<string>)
    ensures |Present(keys, ssns)| <= |ssns|
    ensures (forall s :: s in ssns ==> s in keys) && (forall i, j :: 0 <= i < j < |ssns| ==> ssns[i] != ssns[j])
            ==> |Present(keys, ssns)| == |ssns|
  {
    PresentBounded(keys, ssns);
    if (forall s :: s in ssns ==> s in keys) && (forall i, j :: 0 <= i < j < |ssns| ==> ssns[i] != ssns[j]) {
      DistinctCount(ssns);
      assert Present(keys, ssns) == Elements(ssns);
    }
  }

  /** A list without repeats has as many distinct elements as entries. */
  lemma {:induction false} DistinctCount(ssns: seq<string>)
    requires forall i, j :: 0 <= i < j < |ssns| ==> ssns[i] != ssns[j]
    ensures |Elements(ssns)| == |ssns|
  {
    if ssns != [] {
      var rest := ssns[..|ssns| - 1];
      DistinctCount(rest);
      assert ssns == rest + [ssns[|ssns| - 1]];
      ElementsSnoc(rest, ssns[|ssns| - 1]);
      assert ssns[|ssns| - 1] !in Elements(rest);
    }
  }
}
