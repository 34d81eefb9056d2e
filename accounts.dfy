/**
 * The student-account table and the two decisions taken over it:
 * whether a registration is accepted and what a login attempt yields.
 * The table is the list of rows read from the accounts file, in file order.
 */
module Accounts {
  import opened Wrappers
  import opened Text

  /** One row of the accounts table. */
  datatype Student = Student(name: string, email: string, passwordHash: string)

  /** The shortest password registration accepts. */
  const MinPasswordLength: nat := 6

  /** `student_exists`: some row's email equals `email` once both are lower-cased. */
  function StudentExists(students: seq<Student>, email: string): (b: bool)
    ensures b <==> exists i :: 0 <= i < |students| && Lower(students[i].email) == Lower(email)
  {
    if students == [] then false
    else if Lower(students[0].email) == Lower(email) then true
    else
      var rest := StudentExists(students[1..], email);
      assert forall i :: 1 <= i < |students| ==> students[i] == students[1..][i - 1];
      rest
  }

  /** The index of the first row whose lower-cased email is `key`, if there is one. */
  function FirstMatch(students: seq<Student>, key: string): (r: Option<nat>)
    ensures r.Some? ==> r.value < |students| && Lower(students[r.value].email) == key
    ensures r.Some? ==> forall j :: 0 <= j < r.value ==> Lower(students[j].email) != key
    ensures r.None? <==> forall j :: 0 <= j < |students| ==> Lower(students[j].email) != key
  {
    if students == [] then None
    else if Lower(students[0].email) == key then Some(0)
    else
      match FirstMatch(students[1..], key)
      case None =>
        assert forall j :: 1 <= j < |students| ==> students[j] == students[1..][j - 1];
        None
      case Some(k) => Some(k + 1)
  }

  /** No two rows carry the same email up to case. */
  ghost predicate UniqueEmails(students: seq<Student>) {
    forall i, j :: 0 <= i < j < |students| ==> Lower(students[i].email) != Lower(students[j].email)
  }

  /** A lookup by lower-cased key finds a row exactly when `StudentExists` says one exists. */
  lemma ExistsIffFound(students: seq<Student>, email: string)
    ensures StudentExists(students, email) <==> FirstMatch(students, Lower(email)).Some?
  {
    LowerIdempotent(email);
  }

  // ---------------------------------------------------------------- register

  /** The outcome of a registration form submission. */
  datatype RegisterResult =
    | AlreadyLoggedIn
    | MissingFields
    | PasswordTooShort
    | AlreadyRegistered
    | Registered(name: string, email: string)

  /**
   * The checks of `register`, in the order the handler runs them: an active
   * student session, then a blank field, then the password length, then an
   * existing account under the same email.
   */
  function RegisterDecision(loggedIn: bool, students: seq<Student>,
                            name: string, email: string, password: string): RegisterResult
  {
    var n := Strip(name);
    var e := Lower(Strip(email));
    if loggedIn then AlreadyLoggedIn
    else if n == "" || e == "" || password == "" then MissingFields
    else if |password| < MinPasswordLength then PasswordTooShort
    else if StudentExists(students, e) then AlreadyRegistered
    else Registered(n, e)
  }

  /** Registration succeeds exactly when every check passes, and keys the account by the stripped, lower-cased email. */
  lemma RegisterAccepts(students: seq<Student>, name: string, email: string, password: string)
    ensures RegisterDecision(false, students, name, email, password).Registered?
        <==> (&& Strip(name) != ""
              && Strip(email) != ""
              && |password| >= MinPasswordLength
              && forall i :: 0 <= i < |students| ==> Lower(students[i].email) != Lower(Strip(email)))
    ensures RegisterDecision(false, students, name, email, password).Registered? ==>
              RegisterDecision(false, students, name, email, password) == Registered(Strip(name), Lower(Strip(email)))
  {
    var e := Lower(Strip(email));
    LowerIdempotent(Strip(email));
    assert |e| == |Strip(email)|;
    assert StudentExists(students, e) <==> exists i :: 0 <= i < |students| && Lower(students[i].email) == e;
  }

  /** A password shorter than six characters is never accepted. */
  lemma ShortPasswordRejected(loggedIn: bool, students: seq<Student>, name: string, email: string, password: string)
    requires |password| < MinPasswordLength
    ensures !RegisterDecision(loggedIn, students, name, email, password).Registered?
  {
  }

  /** After a registration, the same email in any letter case and with any surrounding blanks is refused. */
  lemma {:induction false} RegisterTwiceRejected(students: seq<Student>, name: string, email: string, password: string,
                                                 hash: string, name2: string, email2: string, password2: string)
    requires RegisterDecision(false, students, name, email, password).Registered?
    requires Strip(name2) != "" && |password2| >= MinPasswordLength
    requires Lower(Strip(email2)) == Lower(Strip(email))
    ensures var d := RegisterDecision(false, students, name, email, password);
            RegisterDecision(false, students + [Student(d.name, d.email, hash)], name2, email2, password2) == AlreadyRegistered
  {
    var d := RegisterDecision(false, students, name, email, password);
    var s' := students + [Student(d.name, d.email, hash)];
    LowerIdempotent(Strip(email));
    assert Lower(s'[|students|].email) == Lower(Lower(Strip(email2)));
  }

  /** Registration keeps the accounts table free of case-insensitive duplicates. */
  lemma RegisterKeepsUnique(students: seq<Student>, name: string, email: string, password: string, hash: string)
    requires UniqueEmails(students)
    requires RegisterDecision(false, students, name, email, password).Registered?
    ensures var d := RegisterDecision(false, students, name, email, password);
            UniqueEmails(students + [Student(d.name, d.email, hash)])
  {
    LowerIdempotent(Strip(email));
  }

  // ------------------------------------------------------------------- login

  /** The outcome of a login form submission. */
  datatype LoginResult =
    | LoginMissingFields
    | LoggedIn(email: string, name: string)
    | IncorrectPassword
    | NoAccount

  /**
   * `student_login`: blank email or password is refused before any lookup; otherwise the
   * first row whose lower-cased email is the lower-cased input decides, by its password hash.
   */
  function LoginDecision(students: seq<Student>, email: string, password: string,
                         check: (string, string) -> bool): LoginResult
  {
    var e := Lower(Strip(email));
    if e == "" || password == "" then LoginMissingFields
    else
      match FirstMatch(students, e)
      case None => NoAccount
      case Some(i) =>
        if check(students[i].passwordHash, password) then LoggedIn(e, students[i].name)
        else IncorrectPassword
  }

  /** Rows after the first matching one are never consulted. */
  lemma {:induction false} LoginIgnoresLaterRows(students: seq<Student>, later: seq<Student>, email: string,
                                                 password: string, check: (string, string) -> bool)
    requires FirstMatch(students, Lower(Strip(email))).Some?
    ensures LoginDecision(students + later, email, password, check) == LoginDecision(students, email, password, check)
  {
    var e := Lower(Strip(email));
    var k := FirstMatch(students, e).value;
    var s' := students + later;
    assert s'[k] == students[k];
    assert forall j :: 0 <= j < k ==> s'[j] == students[j];
    var k' := FirstMatch(s', e);
    assert k'.Some?;
    assert k'.value == k;
  }

  /**
   * Registering and then logging in with the same email and password yields the identity that
   * registration established, provided the hash check accepts the password registration hashed.
   */
  lemma {:induction false} RegisterThenLogin(students: seq<Student>, name: string, email: string, password: string,
                                             hash: string, check: (string, string) -> bool)
    requires RegisterDecision(false, students, name, email, password).Registered?
    requires check(hash, password)
    ensures var d := RegisterDecision(false, students, name, email, password);
            LoginDecision(students + [Student(d.name, d.email, hash)], email, password, check) == LoggedIn(d.email, d.name)
  {
    var d := RegisterDecision(false, students, name, email, password);
    var e := Lower(Strip(email));
    var s' := students + [Student(d.name, d.email, hash)];
    LowerIdempotent(Strip(email));
    assert Lower(s'[|students|].email) == e;
    assert forall j :: 0 <= j < |students| ==> s'[j] == students[j];
    var k := FirstMatch(s', e);
    assert k.Some?;
    assert k.value == |students|;
  }
}
