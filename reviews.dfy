/**
 * The review table: one row per student, an email and a flag per weekday
 * saying whether the student rated anything on that weekday.
 */
module ReviewTracker {
  import opened Text

  /** The seven weekday columns, Mon..Sun, as `strftime("%a")` names them. */
  datatype Weekday = Mon | Tue | Wed | Thu | Fri | Sat | Sun

  const AllDays: set<Weekday> := {Mon, Tue, Wed, Thu, Fri, Sat, Sun}

  /** Every weekday is one of the seven columns. */
  lemma InAllDays(d: Weekday)
    ensures d in AllDays
  {
  }

  /**
   * A row of the review table. A weekday absent from `flags` is a column the
   * file does not have; the value of a present one is whatever text the file holds.
   */
  datatype ReviewRow = ReviewRow(email: string, flags: map<Weekday, string>)

  /** `create_reviews_row`: the row for a new student, with all seven flags "no". */
  function FreshRow(email: string): (r: ReviewRow)
    ensures r.email == email
    ensures forall d: Weekday :: d in r.flags && r.flags[d] == "no"
  {
    var r := ReviewRow(email, map d | d in AllDays :: "no");
    assert forall d: Weekday :: d in r.flags by {
      forall d: Weekday ensures d in r.flags { InAllDays(d); }
    }
    r
  }

  /** Whether the row belongs to `email`, compared after lower-casing both. */
  predicate Owns(row: ReviewRow, email: string) {
    Lower(row.email) == Lower(email)
  }

  /** The loop body of `update_review_for_today`: a matching row gets "yes" in the `day` column. */
  function SetToday(row: ReviewRow, email: string, day: Weekday): ReviewRow {
    if Owns(row, email) then row.(flags := row.flags[day := "yes"]) else row
  }

  /** A row that has all seven weekday columns. */
  predicate Complete(row: ReviewRow) {
    forall d: Weekday :: d in row.flags
  }

  /**
   * A row as the rewrite of the table stores it: the writer emits all seven weekday columns,
   * and a column the row lacks is written as the empty text.
   */
  function Filled(row: ReviewRow): (r: ReviewRow)
    ensures r.email == row.email && Complete(r)
    ensures forall d :: d in row.flags ==> r.flags[d] == row.flags[d]
    ensures forall d :: d !in row.flags ==> r.flags[d] == ""
  {
    var r := row.(flags := map d | d in AllDays :: if d in row.flags then row.flags[d] else "");
    assert Complete(r) by {
      forall d: Weekday ensures d in r.flags { InAllDays(d); }
    }
    r
  }

  /** One row of the table after `update_review_for_today`: marked if it matches, then rewritten. */
  function MarkRow(row: ReviewRow, email: string, day: Weekday): ReviewRow {
    Filled(SetToday(row, email, day))
  }

  /** The review table after `update_review_for_today(email)` on weekday `day`. */
  function MarkReviewed(rows: seq<ReviewRow>, email: string, day: Weekday): seq<ReviewRow> {
    seq(|rows|, i requires 0 <= i < |rows| => MarkRow(rows[i], email, day))
  }

  /**
   * Marking keeps the number and order of rows and every email, and leaves every row with all
   * seven columns. On each matching row it sets the `day` column to "yes"; every other column
   * keeps its text, and a column the row lacked becomes the empty text. A non-matching row keeps
   * every column it had and gets the empty text in the ones it lacked.
   */
  lemma MarkReviewedEffect(rows: seq<ReviewRow>, email: string, day: Weekday)
    ensures var r := MarkReviewed(rows, email, day);
            && |r| == |rows|
            && (forall i :: 0 <= i < |rows| ==> r[i].email == rows[i].email && Complete(r[i]))
            && (forall i :: 0 <= i < |rows| && Owns(rows[i], email) ==>
                  r[i].flags[day] == "yes" &&
                  forall d :: d != day ==> r[i].flags[d] == (if d in rows[i].flags then rows[i].flags[d] else ""))
            && (forall i :: 0 <= i < |rows| && !Owns(rows[i], email) ==>
                  forall d :: r[i].flags[d] == (if d in rows[i].flags then rows[i].flags[d] else ""))
  {
  }

  /** A row that already has all seven columns is stored as it is. */
  lemma FilledComplete(row: ReviewRow)
    requires Complete(row)
    ensures Filled(row) == row
  {
    assert Filled(row).flags == row.flags;
  }

  /**
   * If no row belongs to `email`, only the rewrite acts: each row is stored with its missing
   * columns blank, so a table whose rows have all seven columns is unchanged.
   */
  lemma MarkReviewedNoMatch(rows: seq<ReviewRow>, email: string, day: Weekday)
    requires forall i :: 0 <= i < |rows| ==> !Owns(rows[i], email)
    ensures forall i :: 0 <= i < |rows| ==> MarkReviewed(rows, email, day)[i] == Filled(rows[i])
    ensures (forall i :: 0 <= i < |rows| ==> Complete(rows[i])) ==> MarkReviewed(rows, email, day) == rows
  {
    if forall i :: 0 <= i < |rows| ==> Complete(rows[i]) {
      forall i | 0 <= i < |rows| ensures MarkReviewed(rows, email, day)[i] == rows[i] {
        FilledComplete(rows[i]);
      }
    }
  }

  /** Marking twice is marking once. */
  lemma MarkReviewedIdempotent(rows: seq<ReviewRow>, email: string, day: Weekday)
    ensures MarkReviewed(MarkReviewed(rows, email, day), email, day) == MarkReviewed(rows, email, day)
  {
    var once := MarkReviewed(rows, email, day);
    var twice := MarkReviewed(once, email, day);
    forall i | 0 <= i < |rows| ensures twice[i] == once[i] {
      if Owns(rows[i], email) {
        assert once[i].flags[day := "yes"] == once[i].flags;
      }
      FilledComplete(SetToday(once[i], email, day));
    }
  }
}
