/**
 * The application state behind the web handlers: the accounts table, the
 * review table, the rating store, the menu and one client's session; and
 * the handlers that change it, each with its effect on every field.
 */
module FlavorSense {
  import opened Wrappers
  import opened Text
  import opened Accounts
  import opened ReviewTracker
  import opened RatingStore
  import opened MenuBoard
  import opened Reminders

  /** The student part of a session: `student_email` and `student_name`. */
  datatype Identity = Identity(email: string, name: string)

  /** A client's session: the student identity, if any, and `staff_logged_in`. */
  datatype Session = Session(student: Option<Identity>, staff: bool)

  const NoSession: Session := Session(None, false)

  datatype RateResponse =
    | RateRedirect                                  // to the registration page
    | RateRejected(error: string)                   // a 400 with this `error` text
    | RateSaved(item: string, rating: int)          // "Rating saved"

  datatype StaffLoginResult = StaffAlreadyIn | StaffAccepted | StaffRejected

  datatype MenuResponse =
    | MenuRedirect                                  // to the staff login page
    | MenuSaved(menu: Menu)

  datatype ReminderResponse =
    | ReminderRedirect                              // to the staff login page
    | ReminderReport(recipients: seq<string>, sent: nat, skipped: nat, message: string)

  class App {
    var students: seq<Student>
    var reviews: seq<ReviewRow>
    var ratings: Ratings
    var menu: Menu
    var session: Session

    /** `student_required`: the session holds a (non-empty) student email. */
    predicate StudentLoggedIn()
      reads this
    {
      session.student.Some? && session.student.value.email != ""
    }

    /** `staff_required`: the session has the staff flag. */
    predicate StaffLoggedIn()
      reads this
    {
      session.staff
    }

    /**
     * What the handlers maintain: emails unique up to case, one review row per account in the
     * same order and under the same email, and every stored rating in 1..5.
     */
    ghost predicate Consistent()
      reads this
    {
      && UniqueEmails(students)
      && |reviews| == |students|
      && (forall i :: 0 <= i < |students| ==> reviews[i].email == students[i].email)
      && AllInRange(ratings)
    }

    /** Start-up: the tables as read from their files, no ratings, the default menu, no session. */
    constructor (students0: seq<Student>, reviews0: seq<ReviewRow>)
      ensures students == students0 && reviews == reviews0
      ensures ratings == map[] && menu == DefaultMenu && session == NoSession
      ensures students0 == [] && reviews0 == [] ==> Consistent()
    {
      students := students0;
      reviews := reviews0;
      ratings := map[];
      menu := DefaultMenu;
      session := NoSession;
    }

    /** `save_student`: append one account row; no uniqueness check. */
    method SaveStudent(name: string, email: string, hash: string)
      modifies this
      ensures students == old(students) + [Student(name, email, hash)]
      ensures reviews == old(reviews) && ratings == old(ratings)
      ensures menu == old(menu) && session == old(session)
    {
      students := students + [Student(name, email, hash)];
    }

    /** `create_reviews_row`: append one review row with every weekday "no". */
    method CreateReviewsRow(email: string)
      modifies this
      ensures reviews == old(reviews) + [FreshRow(email)]
      ensures students == old(students) && ratings == old(ratings)
      ensures menu == old(menu) && session == old(session)
    {
      reviews := reviews + [FreshRow(email)];
    }

    /**
     * `update_review_for_today`: set `today` to "yes" on every row of `email`, case-insensitively,
     * then write the whole table back, every row with all seven weekday columns.
     */
    method UpdateReviewForToday(email: string, today: Weekday)
      modifies this
      ensures reviews == MarkReviewed(old(reviews), email, today)
      ensures students == old(students) && ratings == old(ratings)
      ensures menu == old(menu) && session == old(session)
    {
      var rows := reviews;
      var i := 0;
      while i < |rows|
        invariant 0 <= i <= |rows| && |rows| == |reviews|
        invariant forall k :: 0 <= k < i ==> rows[k] == SetToday(reviews[k], email, today)
        invariant forall k :: i <= k < |rows| ==> rows[k] == reviews[k]
      {
        if Lower(rows[i].email) == Lower(email) {
          rows := rows[i := rows[i].(flags := rows[i].flags[today := "yes"])];
        }
        i := i + 1;
      }
      var written: seq<ReviewRow> := [];
      for j := 0 to |rows|
        invariant |written| == j
        invariant forall k :: 0 <= k < j ==> written[k] == Filled(rows[k])
      {
        written := written + [Filled(rows[j])];
      }
      reviews := written;
    }

    /**
     * POST `/register` with the form's name, email and password; `hash` is what the password
     * hashing produced for `password`. On success both tables grow by one row under the stripped,
     * lower-cased email and the session holds the new identity; otherwise nothing changes.
     */
    method Register(name: string, email: string, password: string, hash: string) returns (r: RegisterResult)
      modifies this
      ensures r == RegisterDecision(old(StudentLoggedIn()), old(students), name, email, password)
      ensures r.Registered? ==>
                && students == old(students) + [Student(r.name, r.email, hash)]
                && reviews == old(reviews) + [FreshRow(r.email)]
                && session == old(session).(student := Some(Identity(r.email, r.name)))
      ensures !r.Registered? ==>
                students == old(students) && reviews == old(reviews) && session == old(session)
      ensures ratings == old(ratings) && menu == old(menu)
      ensures old(Consistent()) ==> Consistent()
    {
      r := RegisterDecision(StudentLoggedIn(), students, name, email, password);
      if r.Registered? {
        if Consistent() {
          RegisterKeepsUnique(students, name, email, password, hash);
        }
        SaveStudent(r.name, r.email, hash);
        CreateReviewsRow(r.email);
        session := session.(student := Some(Identity(r.email, r.name)));
      }
    }

    /**
     * POST `/student-login`. The first account whose email matches decides; `check` is the
     * password-hash verification. Only a successful login changes anything: the session's student.
     */
    method StudentLogin(email: string, password: string, check: (string, string) -> bool) returns (r: LoginResult)
      modifies this
      ensures r == LoginDecision(old(students), email, password, check)
      ensures r.LoggedIn? ==> session == old(session).(student := Some(Identity(r.email, r.name)))
      ensures !r.LoggedIn? ==> session == old(session)
      ensures students == old(students) && reviews == old(reviews)
      ensures ratings == old(ratings) && menu == old(menu)
    {
      var e := Lower(Strip(email));
      if e == "" || password == "" {
        return LoginMissingFields;
      }
      var rows := students;
      var i := 0;
      while i < |rows|
        invariant 0 <= i <= |rows|
        invariant forall j :: 0 <= j < i ==> Lower(rows[j].email) != e
      {
        if Lower(rows[i].email) == e {
          if check(rows[i].passwordHash, password) {
            session := session.(student := Some(Identity(e, rows[i].name)));
            return LoggedIn(e, rows[i].name);
          } else {
            return IncorrectPassword;
          }
        }
        i := i + 1;
      }
      return NoAccount;
    }

    /** GET `/logout`: forget the student identity. */
    method Logout()
      modifies this
      ensures session == old(session).(student := None)
      ensures students == old(students) && reviews == old(reviews)
      ensures ratings == old(ratings) && menu == old(menu)
    {
      session := session.(student := None);
    }

    /**
     * POST `/rate` with the JSON body on weekday `today`. A valid rating is appended to the
     * store and the session's student is marked reviewed for today; a rejected one, or a
     * request without a student session, changes nothing.
     */
    method Rate(body: Option<RateBody>, today: Weekday) returns (resp: RateResponse)
      modifies this
      ensures !old(StudentLoggedIn()) ==>
                resp == RateRedirect && ratings == old(ratings) && reviews == old(reviews)
      ensures old(StudentLoggedIn()) && Validate(body).Err? ==>
                resp == RateRejected(ErrorMessage(Validate(body).error)) && ratings == old(ratings) && reviews == old(reviews)
      ensures old(StudentLoggedIn()) && Validate(body).Ok? ==>
                var s := Validate(body).value;
                && resp == RateSaved(s.item, s.rating)
                && ratings == Record(old(ratings), s.date, s.item, s.rating)
                && reviews == MarkReviewed(old(reviews), old(session.student.value.email), today)
      ensures students == old(students) && menu == old(menu) && session == old(session)
      ensures old(Consistent()) ==> Consistent()
    {
      if !StudentLoggedIn() {
        return RateRedirect;
      }
      var v := Validate(body);
      if v.Err? {
        return RateRejected(ErrorMessage(v.error));
      }
      var s := v.value;
      if Consistent() {
        RecordKeepsRange(ratings, s.date, s.item, s.rating);
      }
      if s.date !in ratings {
        ratings := ratings[s.date := map[]];
      }
      var day := ratings[s.date];
      var list := if s.item in day then day[s.item] else [];
      ratings := ratings[s.date := day[s.item := list + [s.rating]]];
      MarkReviewedEffect(reviews, session.student.value.email, today);
      UpdateReviewForToday(session.student.value.email, today);
      resp := RateSaved(s.item, s.rating);
    }

    /** GET `/ratings/<date>`: the item map of `date`; the empty mapping for a date never rated. */
    function GetRatings(date: string): (r: map<string, seq<int>>)
      reads this
      ensures date !in ratings ==> r == map[]
      ensures date in ratings ==> r == ratings[date]
      ensures forall item :: item in r ==> r[item] == Lookup(ratings, date, item)
    {
      ForDate(ratings, date)
    }

    /** POST `/staff-login` against the configured staff username and password. */
    method StaffLogin(username: string, password: string, staffUser: string, staffPass: string)
      returns (r: StaffLoginResult)
      modifies this
      ensures old(StaffLoggedIn()) ==> r == StaffAlreadyIn
      ensures !old(StaffLoggedIn()) ==>
                (r == StaffAccepted <==> Strip(username) == staffUser && password == staffPass)
      ensures !old(StaffLoggedIn()) ==> r != StaffAlreadyIn
      ensures session == old(session).(staff := old(session.staff) || r == StaffAccepted)
      ensures students == old(students) && reviews == old(reviews)
      ensures ratings == old(ratings) && menu == old(menu)
    {
      if StaffLoggedIn() {
        return StaffAlreadyIn;
      }
      if Strip(username) == staffUser && password == staffPass {
        session := session.(staff := true);
        return StaffAccepted;
      }
      return StaffRejected;
    }

    /** GET `/staff-logout`: drop the staff flag. */
    method StaffLogout()
      modifies this
      ensures session == old(session).(staff := false)
      ensures students == old(students) && reviews == old(reviews)
      ensures ratings == old(ratings) && menu == old(menu)
    {
      session := session.(staff := false);
    }

    /** POST `/update-menu`: overwrite each meal whose submitted text is not blank. */
    method UpdateMenu(breakfast: string, lunch: string, dinner: string) returns (resp: MenuResponse)
      modifies this
      ensures !old(StaffLoggedIn()) ==> resp == MenuRedirect && menu == old(menu)
      ensures old(StaffLoggedIn()) ==> menu == Updated(old(menu), breakfast, lunch, dinner) && resp == MenuSaved(menu)
      ensures students == old(students) && reviews == old(reviews)
      ensures ratings == old(ratings) && session == old(session)
    {
      if !StaffLoggedIn() {
        return MenuRedirect;
      }
      var b := Strip(breakfast);
      var l := Strip(lunch);
      var d := Strip(dinner);
      if b != "" { menu := menu.(breakfast := b); }
      if l != "" { menu := menu.(lunch := l); }
      if d != "" { menu := menu.(dinner := d); }
      resp := MenuSaved(menu);
    }

    /**
     * POST `/send-reminders` on weekday `today`. `transport` stands for `send_email`: given the
     * attempt number and the message, whether it was sent. One attempt per due row, in table
     * order; every attempt is counted as sent or skipped; nothing in the state changes.
     */
    method SendReminders(today: Weekday, transport: (nat, Mail) -> bool) returns (resp: ReminderResponse)
      ensures !StaffLoggedIn() ==> resp == ReminderRedirect
      ensures StaffLoggedIn() ==>
                && resp.ReminderReport?
                && resp.recipients == Due(reviews, today)
                && resp.sent + resp.skipped == |resp.recipients|
                && resp.sent == Delivered(resp.recipients, Body(menu), transport)
                && resp.message == Summary(resp.sent, resp.skipped)
    {
      if !StaffLoggedIn() {
        return ReminderRedirect;
      }
      var to, sent, skipped := RemindAll(reviews, today, Body(menu), transport);
      resp := ReminderReport(to, sent, skipped, Summary(sent, skipped));
    }
  }
}
