/**
 * `send_reminders`: which review rows are sent a reminder on a weekday,
 * what each reminder says, and how the sent and skipped counts and the
 * summary line come out.
 */
module Reminders {
  import opened Text
  import opened ReviewTracker
  import opened MenuBoard

  /** One send attempt: recipient, subject and body. */
  datatype Mail = Mail(to: string, subject: string, body: string)

  const Subject: string := "\U{1F4E2} Reminder: Rate today's mess on Flavorsense"

  /** The reminder text, quoting the current menu. */
  function Body(m: Menu): string {
    "Hello,\n\n"
    + "We noticed you haven't rated today's mess on Flavorsense yet.\n\n"
    + "Today's Menu:\n"
    + "  Breakfast : " + m.breakfast + "\n"
    + "  Lunch     : " + m.lunch + "\n"
    + "  Dinner    : " + m.dinner + "\n\n"
    + "Please visit the portal and share your feedback \U{2014} it helps us improve!\n\n"
    + "Thanks,\nFlavorsense Team"
  }

  /** The reminder to one recipient, with the body built from the menu. */
  function Reminder(to: string, body: string): Mail {
    Mail(to, Subject, body)
  }

  /** `row.get(weekday, "no")`: a missing column reads as "no". */
  function FlagOf(row: ReviewRow, day: Weekday): string {
    if day in row.flags then row.flags[day] else "no"
  }

  /** `flag.lower() == "no"`, spelled out character by character. */
  predicate IsNo(flag: string) {
    |flag| == 2 && LowerChar(flag[0]) == 'n' && LowerChar(flag[1]) == 'o'
  }

  lemma IsNoLower(flag: string)
    ensures IsNo(flag) <==> Lower(flag) == "no"
  {
    if Lower(flag) == "no" {
      assert Lower(flag)[0] == 'n' && Lower(flag)[1] == 'o';
    }
  }

  /** A row is due a reminder when its flag for `day`, lower-cased, is "no". */
  predicate NeedsReminder(row: ReviewRow, day: Weekday) {
    IsNo(FlagOf(row, day))
  }

  /** The recipients of the send attempts of `send_reminders`, in table order: one per due row. */
  function Due(rows: seq<ReviewRow>, day: Weekday): (to: seq<string>)
    ensures |to| <= |rows|
  {
    if rows == [] then []
    else
      var last := rows[|rows| - 1];
      Due(rows[..|rows| - 1], day) + (if NeedsReminder(last, day) then [last.email] else [])
  }

  /**
   * The attempts over a table split in two are the attempts over each part, one after the
   * other; together with `Due([row])` this says: one attempt per due row, in table order.
   */
  lemma {:induction false} DueAppend(a: seq<ReviewRow>, b: seq<ReviewRow>, day: Weekday)
    ensures Due(a + b, day) == Due(a, day) + Due(b, day)
  {
    if b != [] {
      var ab := a + b;
      assert ab[..|ab| - 1] == a + b[..|b| - 1];
      assert ab[|ab| - 1] == b[|b| - 1];
      DueAppend(a, b[..|b| - 1], day);
    } else {
      assert a + b == a;
    }
  }

  /** A single row gets one reminder if it is due and none otherwise. */
  lemma DueSingle(row: ReviewRow, day: Weekday)
    ensures Due([row], day) == if NeedsReminder(row, day) then [row.email] else []
  {
    assert [row][..0] == [];
  }

  /** Every attempt goes to the email of some due row. */
  lemma {:induction false} DueFromDueRows(rows: seq<ReviewRow>, day: Weekday, k: nat)
    requires k < |Due(rows, day)|
    ensures exists i :: 0 <= i < |rows| && NeedsReminder(rows[i], day) && Due(rows, day)[k] == rows[i].email
  {
    var init := rows[..|rows| - 1];
    if k < |Due(init, day)| {
      DueFromDueRows(init, day, k);
      var i :| 0 <= i < |init| && NeedsReminder(init[i], day) && Due(init, day)[k] == init[i].email;
      assert rows[i] == init[i];
    }
  }

  /** Every due row gets an attempt. */
  lemma {:induction false} DueRowsCovered(rows: seq<ReviewRow>, day: Weekday, i: nat)
    requires i < |rows| && NeedsReminder(rows[i], day)
    ensures rows[i].email in Due(rows, day)
  {
    var init := rows[..|rows| - 1];
    if i < |rows| - 1 {
      assert rows[i] == init[i];
      DueRowsCovered(init, day, i);
    }
  }

  /** A row marked "yes" for `day` (in any letter case) gets no attempt. */
  lemma ReviewedNotDue(row: ReviewRow, day: Weekday)
    requires day in row.flags && Lower(row.flags[day]) == "yes"
    ensures !NeedsReminder(row, day)
  {
    IsNoLower(row.flags[day]);
  }

  /** A student who has just been marked reviewed for `day` is sent no reminder that day. */
  lemma NoReminderAfterReview(rows: seq<ReviewRow>, email: string, day: Weekday)
    ensures forall to :: to in Due(MarkReviewed(rows, email, day), day) ==> Lower(to) != Lower(email)
  {
    var marked := MarkReviewed(rows, email, day);
    MarkReviewedEffect(rows, email, day);
    forall to | to in Due(marked, day) ensures Lower(to) != Lower(email) {
      var k :| 0 <= k < |Due(marked, day)| && Due(marked, day)[k] == to;
      DueFromDueRows(marked, day, k);
      var i :| 0 <= i < |marked| && NeedsReminder(marked[i], day) && to == marked[i].email;
    }
  }

  /**
   * A row lacking the `day` column is due on `day` before any rating, since the missing column
   * reads as "no"; once the table has been rewritten after someone else's rating, the column
   * holds the empty text and the row is no longer due.
   */
  lemma RewriteBlanksMissingColumn(rows: seq<ReviewRow>, email: string, marked: Weekday, day: Weekday, i: nat)
    requires i < |rows| && !Owns(rows[i], email) && day !in rows[i].flags
    ensures NeedsReminder(rows[i], day)
    ensures !NeedsReminder(MarkReviewed(rows, email, marked)[i], day)
  {
    MarkReviewedEffect(rows, email, marked);
  }

  /**
   * How many of the reminders to `to` the transport accepted. The transport is told the attempt
   * number as well as the message, so successive attempts may fare differently.
   */
  function Delivered(to: seq<string>, body: string, transport: (nat, Mail) -> bool): (n: nat)
    ensures n <= |to|
  {
    if to == [] then 0
    else
      var k := |to| - 1;
      Delivered(to[..k], body, transport) + (if transport(k, Reminder(to[k], body)) then 1 else 0)
  }

  /** Extending the table by one row extends the attempts by that row's, if it is due. */
  lemma DueStep(rows: seq<ReviewRow>, i: nat, day: Weekday)
    requires i < |rows|
    ensures Due(rows[..i + 1], day) == Due(rows[..i], day) + (if NeedsReminder(rows[i], day) then [rows[i].email] else [])
  {
    assert rows[..i + 1][..i] == rows[..i];
  }

  /** One more attempt adds one to the delivered count exactly when the transport accepts it. */
  lemma DeliveredStep(to: seq<string>, email: string, body: string, transport: (nat, Mail) -> bool)
    ensures Delivered(to + [email], body, transport)
         == Delivered(to, body, transport) + (if transport(|to|, Reminder(email, body)) then 1 else 0)
  {
    assert (to + [email])[..|to|] == to;
  }

  /**
   * The loop of `send_reminders`: one send attempt per due row, in table order, each counted
   * as sent when the transport accepts it and as skipped otherwise. Every attempt carries the
   * same `body`, the text `Body` builds from the menu.
   */
  method RemindAll(rows: seq<ReviewRow>, day: Weekday, body: string, transport: (nat, Mail) -> bool)
    returns (to: seq<string>, sent: nat, skipped: nat)
    ensures to == Due(rows, day)
    ensures sent + skipped == |to|
    ensures sent == Delivered(to, body, transport)
  {
    sent, skipped := 0, 0;
    to := [];
    for i := 0 to |rows|
      invariant to == Due(rows[..i], day)
      invariant sent + skipped == |to|
      invariant sent == Delivered(to, body, transport)
    {
      var row := rows[i];
      DueStep(rows, i, day);
      if NeedsReminder(row, day) {
        var ok := transport(|to|, Reminder(row.email, body));
        DeliveredStep(to, row.email, body, transport);
        if ok {
          sent := sent + 1;
        } else {
          skipped := skipped + 1;
        }
        to := to + [row.email];
      }
    }
    assert rows[..|rows|] == rows;
  }

  const SentLabel: string := "Reminders sent: "
  const SkippedWord: string := "Skipped"

  /** The summary line shown to staff. */
  function Summary(sent: nat, skipped: nat): string {
    SentLabel + NatToString(sent)
    + (if skipped > 0 then " | " + SkippedWord + " (email not configured): " + NatToString(skipped) else "")
  }

  /** With nothing skipped the line has no capital S, so it cannot mention skipping. */
  lemma NoSkipsNotMentioned(sent: nat)
    ensures !Contains(Summary(sent, 0), SkippedWord)
  {
    var s := Summary(sent, 0);
    var digits := NatToString(sent);
    NatToStringDigits(sent);
    assert s == SentLabel + digits;
    forall i: nat | i <= |s| ensures !OccursAt(s, SkippedWord, i) {
      if i + |SkippedWord| <= |s| {
        if i < |SentLabel| {
          assert s[i] == SentLabel[i];
        } else {
          assert s[i] == digits[i - |SentLabel|];
        }
        assert s[i] != 'S';
        assert s[i..i + |SkippedWord|][0] == s[i];
      }
    }
  }

  /** The summary mentions skipped reminders exactly when some were skipped. */
  lemma SummaryMentionsSkips(sent: nat, skipped: nat)
    ensures Contains(Summary(sent, skipped), SkippedWord) <==> skipped > 0
  {
    if skipped > 0 {
      var s := Summary(sent, skipped);
      var p := |SentLabel + NatToString(sent)| + 3;
      var tail := " (email not configured): " + NatToString(skipped);
      assert s == (SentLabel + NatToString(sent) + " | ") + SkippedWord + tail;
      assert s[p..p + |SkippedWord|] == SkippedWord;
      assert OccursAt(s, SkippedWord, p);
    } else {
      NoSkipsNotMentioned(sent);
    }
  }

  /** The number of sent reminders can be read back from the summary line. */
  lemma SummaryShowsSent(sent: nat, skipped: nat)
    ensures var s := Summary(sent, skipped);
            var n := |NatToString(sent)|;
            && |SentLabel| + n <= |s| && s[..|SentLabel|] == SentLabel
            && AllDigits(s[|SentLabel|..|SentLabel| + n])
            && ParseDigits(s[|SentLabel|..|SentLabel| + n]) == sent
  {
    var s := Summary(sent, skipped);
    var n := |NatToString(sent)|;
    NatToStringDigits(sent);
    assert s[|SentLabel|..|SentLabel| + n] == NatToString(sent);
    ParseNatToString(sent);
  }
}
