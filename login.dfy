/**
 * LoginView: the login dialog's two flags and the rule its button applies.
 * The trimmed SSN is looked up in ADMIN first and in EMPLOYEE second; a
 * match sets flags that are never cleared, and the dialog closes once the
 * user is authenticated.
 */
module Login {
  import opened JavaText
  import opened CompanyStore

  /** What the login button ends with; each is one message dialog. */
  datatype LoginOutcome = AdminLogin | EmployeeLogin | InvalidSsn | DatabaseError

  /** The two flags of the dialog. */
  datatype Flags = Flags(authenticated: bool, isAdmin: bool)

  /**
   * The decision for an entered SSN; `fails` says the engine raised on a
   * lookup. ADMIN is asked first, so an SSN in both tables logs in as admin.
   */
  function Decide(admins: set<string>, employees: set<string>, entered: string, fails: bool): (o: LoginOutcome)
    ensures o == DatabaseError <==> fails
    ensures o == AdminLogin <==> !fails && Trim(entered) in admins
    ensures o == EmployeeLogin <==> !fails && Trim(entered) !in admins && Trim(entered) in employees
    ensures o == InvalidSsn <==> !fails && Trim(entered) !in admins && Trim(entered) !in employees
  {
    var ssn := Trim(entered);
    if fails then DatabaseError
    else if ssn in admins then AdminLogin
    else if ssn in employees then EmployeeLogin
    else InvalidSsn
  }

  /**
   * The flags after an outcome: only successful logins set them, nothing
   * clears them, and an admin is always authenticated.
   */
  function After(f: Flags, o: LoginOutcome): (g: Flags)
    ensures f.authenticated ==> g.authenticated
    ensures f.isAdmin ==> g.isAdmin
    ensures (f.isAdmin ==> f.authenticated) ==> (g.isAdmin ==> g.authenticated)
    ensures g.authenticated <==> f.authenticated || o == AdminLogin || o == EmployeeLogin
    ensures g.isAdmin <==> f.isAdmin || o == AdminLogin
  {
    match o
    case AdminLogin => Flags(true, true)
    case EmployeeLogin => f.(authenticated := true)
    case _ => f
  }

  class LoginView {
    var authenticated: bool
    var isAdmin: bool
    /** dispose() has been called. */
    var disposed: bool

    predicate Valid()
      reads this
    {
      isAdmin ==> authenticated
    }

    function State(): Flags
      reads this
    {
      Flags(authenticated, isAdmin)
    }

    /** A new dialog: neither flag set. */
    constructor ()
      ensures Valid() && !authenticated && !isAdmin && !disposed
    {
      authenticated := false;
      isAdmin := false;
      disposed := false;
    }

    /** The login button's handler. */
    method LoginClicked(db: Database, entered: string, fails: bool) returns (outcome: LoginOutcome)
      requires Valid()
      modifies this
      ensures Valid()
      ensures outcome == Decide(db.admins, db.employees.Keys, entered, fails)
      ensures State() == After(old(State()), outcome)
      ensures disposed == (old(disposed) || (!fails && authenticated))
    {
      var ssn := Trim(entered);
      if fails {
        return DatabaseError;
      }
      var admin := db.IsAdminSsn(ssn);
      if admin {
        isAdmin := true;
        authenticated := true;
        outcome := AdminLogin;
      } else {
        var employee := db.IsEmployeeSsnExists(ssn);
        if employee {
          authenticated := true;
          outcome := EmployeeLogin;
        } else {
          outcome := InvalidSsn;
        }
      }
      if authenticated {
        disposed := true;
      }
    }
  }

  /** Logging in again with the trimmed text gives the same outcome. */
  lemma TrimmedEntryAgrees(admins: set<string>, employees: set<string>, entered: string, fails: bool)
    ensures Decide(admins, employees, Trim(entered), fails) == Decide(admins, employees, entered, fails)
  {
    TrimIdempotent(entered);
  }
}
