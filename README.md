# FlavorSense: a verified model of the mess-feedback application

FlavorSense is a small web application for a canteen ("mess"). Students register, log in and rate
the day's menu items from 1 to 5. A review table records, per student and per weekday, whether the
student has rated anything. Staff log in, edit the menu and e-mail a reminder to every student who
has not rated today.

This project models the state behind those handlers and proves what each handler does to it:

- `Accounts`: the accounts table, `student_exists`, and the registration and login decisions.
- `ReviewTracker`: the review table, the fresh row a new student gets, and the
  "mark today reviewed" update.
- `RatingStore`: the in-memory rating store (date -> item -> ratings), the append-only recording
  of a rating, and the validation of a rating request.
- `MenuBoard`: the menu and the partial update staff make to it.
- `Reminders`: which rows are sent a reminder, the reminder text, the sent and skipped counts and
  the summary line.
- `Text`: the string operations the handlers rely on: `strip()` with Python's whitespace set,
  `lower()` and decimal formatting; and a substring test, which the handlers do not use but which
  states what the reminder summary says.
- `FlavorSense.App`: one class holding the accounts table, the review table, the rating store, the
  menu and one client's session. Its methods are the handlers. Each states its outcome and its effect
  on every field. `Register` and `Rate` keep the invariant `Consistent`:
  - emails are unique up to case;
  - there is one review row per account;
  - every stored rating is in 1..5.

The access guards `student_required` and `staff_required` are not preconditions. They are modelled
as a redirect outcome that changes nothing.

Outside effects are parameters of the operations:

- the weekday `strftime("%a")` gives is `today`;
- the salted password hash is `hash`;
- `check_password_hash` is `check`;
- `send_email` is `transport`, which is also told the attempt number;
- the configured staff credentials are `staffUser` and `staffPass`.

## Model

| member | source | states |
|---|---|---|
| Text.Strip | app.py:198-199 | definition of `strip()` with Python's whitespace set; characterised by `StripSpec` |
| Text.Lower | app.py:199 | `lower()` on ASCII letters; keeps the length |
| Text.NatToString | app.py:395 | definition of `f"{n}"` for a count; characterised by `ParseNatToString` |
| Text.StripSpec | app.py:198-199 | `strip()` removes a whitespace prefix and a whitespace suffix and keeps the middle, which starts and ends with a non-whitespace character |
| Text.StripBlank | app.py:203 | a stripped field is empty exactly when every character of the input is whitespace |
| Text.StripIdempotent | app.py:198 | stripping twice is stripping once |
| Text.ParseNatToString | app.py:395 | the decimal text of a count is all digits and reads back as that count |
| Accounts.StudentExists | app.py:68-69 | true exactly when some row's lower-cased email equals the lower-cased argument |
| Accounts.FirstMatch | app.py:233-234 | the first row whose lower-cased email is the key, if there is one; none exactly when no row matches |
| Accounts.ExistsIffFound | app.py:69 | `student_exists` holds exactly when the login lookup finds a row |
| Accounts.RegisterDecision | app.py:194-219 | definition of the ordered checks of `register`; characterised by `RegisterAccepts`, `ShortPasswordRejected` and `RegisterTwiceRejected` |
| Accounts.LoginDecision | app.py:226-244 | definition of the `student_login` outcome through the first matching row; characterised by `LoginIgnoresLaterRows`, `RegisterThenLogin` and `App.StudentLogin` |
| Accounts.RegisterAccepts | app.py:198-219 | without a student session, registration succeeds exactly when name and email are not blank, the password has at least 6 characters and no row has the email up to case; the account gets the stripped name and the stripped, lower-cased email |
| Accounts.ShortPasswordRejected | app.py:206-208 | a password shorter than 6 characters is never accepted |
| Accounts.RegisterTwiceRejected | app.py:209-214 | once an account is saved, registering the same email again (any case, any surrounding blanks) is refused as already registered |
| Accounts.RegisterKeepsUnique | app.py:209-214 | a successful registration keeps emails unique up to case |
| Accounts.LoginIgnoresLaterRows | app.py:233-241 | once a row matches, rows after it do not affect the login outcome |
| Accounts.RegisterThenLogin | app.py:213-238 | logging in with the credentials just registered gives the registered email and name, if the hash check accepts the password |
| ReviewTracker.FreshRow | app.py:87-97 | the new row has the given email and "no" in all seven weekday columns |
| ReviewTracker.SetToday | app.py:111-113 | definition of the loop body: a row whose email matches up to case gets "yes" in the day's column; other rows pass unchanged |
| ReviewTracker.Filled | app.py:115-118 | the row as the rewrite stores it: same email, all seven weekday columns, each column it had keeps its text and each column it lacked is written as the empty text |
| ReviewTracker.MarkRow | app.py:111-118 | definition: one row marked, then rewritten |
| ReviewTracker.MarkReviewed | app.py:111-118 | definition: every row marked and rewritten, in table order; characterised by `MarkReviewedEffect` |
| ReviewTracker.MarkReviewedEffect | app.py:111-118 | row count, order and emails are kept and every row ends with all seven columns; every matching row gets "yes" for the day, keeps the text of its other columns and gets the empty text in the ones it lacked; every other row keeps every column it had and gets the empty text in the ones it lacked |
| ReviewTracker.FilledComplete | app.py:115-118 | a row that already has all seven columns is written back unchanged |
| ReviewTracker.MarkReviewedNoMatch | app.py:111-118 | with no matching row only the rewrite acts: each row is stored with its missing columns blank, so a table whose rows have all seven columns is unchanged |
| ReviewTracker.MarkReviewedIdempotent | app.py:111-118 | marking twice is marking once |
| RatingStore.ForDate | app.py:308 | definition of `RATINGS.get(date, {})`; characterised by `UnseenDateEmpty` and `App.GetRatings` |
| RatingStore.Record | app.py:293-296 | definition of the create-if-absent-then-append update; characterised by `RecordEffect` |
| RatingStore.UnseenDateEmpty | app.py:308 | a date never recorded reads as the empty mapping |
| RatingStore.RecordEffect | app.py:293-296 | the rating is appended after the earlier ones for (date, item); the date and item entries are created if absent; every other (date, item) and every other date is unchanged |
| RatingStore.ReplayHistory | app.py:293-296 | after any run of submissions, (date, item) holds its old ratings followed by exactly the ratings submitted for it, in submission order |
| RatingStore.RecordKeepsRange | app.py:287-296 | recording a rating in 1..5 keeps every stored rating in 1..5 |
| RatingStore.ErrorMessage | app.py:274-290 | definition of the three `error` texts of `rate` (lines 276, 284, 290), returned in `App.Rate`'s rejection |
| RatingStore.ErrorMessagesDistinct | app.py:274-290 | the three error texts are pairwise different, so each rejection is reported distinctly |
| RatingStore.Validate | app.py:274-290 | an accepted submission has a rating in 1..5 and a non-empty item and date |
| RatingStore.ValidateEmptyBody | app.py:274-276 | a missing body, or one with no keys, is rejected as invalid JSON whatever its fields hold |
| RatingStore.ValidateBounds | app.py:285-290 | with a body and a non-blank item and date, exactly the present integer ratings 1..5 (both ends included) are accepted, carrying the stripped item and date; an absent or non-integer rating and an out-of-range one fail with the rating error |
| RatingStore.ValidateItemDateFirst | app.py:283-284 | a blank item or date is reported as such before the rating is looked at |
| RatingStore.WhitespaceItemRejected | app.py:278-284 | an item made only of whitespace is reported as missing |
| MenuBoard.Overwrite | app.py:351-357 | definition of one field's update: the stripped submission if not blank, else the current text |
| MenuBoard.Updated | app.py:351-357 | definition of the three-field update; characterised by `UpdatedFieldwise` |
| MenuBoard.UpdatedFieldwise | app.py:351-357 | each meal becomes its stripped submission exactly when that is not blank and is kept otherwise |
| MenuBoard.OnlyLunch | app.py:351-357 | submitting only a lunch changes only the lunch |
| MenuBoard.UpdatedIdempotent | app.py:351-357 | submitting the same form twice is submitting it once |
| Reminders.Reminder | app.py:377-389 | definition of the message passed to `send_email`: the row's email, the fixed subject `Subject` of line 378, and the body |
| Reminders.Body | app.py:379-388 | definition of the reminder text quoting the current menu |
| Reminders.FlagOf | app.py:376 | definition of `row.get(weekday, "no")`: a missing column reads as "no" |
| Reminders.NeedsReminder | app.py:376 | definition of the due test: the flag, lower-cased, is "no" |
| Reminders.Due | app.py:375-377 | the recipients of the send attempts, one per due row in table order (at most one per row); characterised by `DueAppend`, `DueSingle`, `DueFromDueRows` and `DueRowsCovered` |
| Reminders.IsNoLower | app.py:376 | the character-wise test used for reminders is `lower() == "no"` |
| Reminders.DueAppend | app.py:375-377 | the attempts over a split table are the attempts over each part, in order |
| Reminders.DueSingle | app.py:376 | a single row gets one attempt if its flag reads "no" (a missing column reads "no") and none otherwise |
| Reminders.DueFromDueRows | app.py:375-377 | every attempt goes to the email of a row whose flag reads "no" |
| Reminders.DueRowsCovered | app.py:375-377 | every row whose flag reads "no" gets an attempt |
| Reminders.ReviewedNotDue | app.py:376 | a row marked "yes" for the day, in any letter case, gets no attempt |
| Reminders.NoReminderAfterReview | app.py:111-113 | after a student is marked reviewed for the day, no reminder that day (the `lower() == "no"` test of line 376) goes to that email |
| Reminders.RewriteBlanksMissingColumn | app.py:115-118 | a row lacking the day's column is due on that day (the missing column reads as "no"), but after another student's rating rewrites the table the column holds the empty text and the row is no longer due |
| Reminders.Delivered | app.py:389-392 | the sent count never exceeds the number of attempts |
| Reminders.RemindAll | app.py:375-392 | the loop attempts exactly the due rows, in table order; `sent` is the number the transport accepted, and `sent + skipped` is the number of attempts |
| Reminders.Summary | app.py:395-397 | definition of the summary line; characterised by `SummaryMentionsSkips` and `SummaryShowsSent` |
| Reminders.SummaryMentionsSkips | app.py:395-397 | the summary mentions "Skipped" exactly when something was skipped |
| Reminders.SummaryShowsSent | app.py:395 | the summary starts with the label, followed by the sent count in decimal |
| FlavorSense.App.constructor | app.py:21-28 | start-up state: the tables as loaded, no ratings, the default menu, no session; with empty tables `Consistent` holds from the start |
| FlavorSense.App.SaveStudent | app.py:72-77 | appends exactly one account row, with no uniqueness check; nothing else changes |
| FlavorSense.App.CreateReviewsRow | app.py:87-97 | appends exactly the fresh row for the email; nothing else changes |
| FlavorSense.App.UpdateReviewForToday | app.py:100-118 | the marking loop and then the rewrite loop leave exactly the marked and rewritten table (`MarkReviewed`, with missing columns written blank); nothing else changes |
| FlavorSense.App.Register | app.py:192-221 | the outcome is the registration decision, guard included; on success both tables grow by one row under the stripped, lower-cased email and the session holds that email and the name; otherwise tables and session are unchanged; `Consistent` is kept |
| FlavorSense.App.StudentLogin | app.py:225-244 | the outcome is the first-match login decision; only a successful login changes the session, to that email and the row's name; the tables are unchanged |
| FlavorSense.App.StudentLoggedIn | app.py:156-164 | definition of the `student_required` guard (also the guard of `register`, line 194): the session holds a non-empty student email |
| FlavorSense.App.StaffLoggedIn | app.py:167-175 | definition of the `staff_required` guard (also the guard of `staff_login`, line 316): the session has the staff flag |
| FlavorSense.App.Logout | app.py:248-251 | only the session's student identity is removed |
| FlavorSense.App.Rate | app.py:271-301 | without a session: redirect, nothing changes; a rejected body: the error text of the first failing check, nothing changes; an accepted one: the rating is recorded and the session's email is marked reviewed today; `Consistent` is kept |
| FlavorSense.App.GetRatings | app.py:304-308 | exactly the stored item map of a recorded date; empty for a date never recorded |
| FlavorSense.App.StaffLogin | app.py:315-329 | already logged in: no change; otherwise accepted exactly when the stripped username and the password equal the configured ones, and only then is the staff flag set |
| FlavorSense.App.StaffLogout | app.py:333-335 | only the staff flag is cleared |
| FlavorSense.App.UpdateMenu | app.py:348-364 | without staff: redirect, menu unchanged; with staff: the menu becomes the partially updated menu; nothing else changes |
| FlavorSense.App.SendReminders | app.py:367-402 | without staff: redirect; with staff: the recipients are the due rows of today, the counts add up to the attempts, the sent count is what the transport accepted, and the message is the summary; no state changes |

## Left out

- Flask routing, templates, `jsonify`, redirects and the 404/500 handlers are out. Each handler returns an outcome datatype instead.
- The `index`, `student_review` and `staff_dashboard` routes only redirect or render, so they have no member.
- CSV files and `ensure_csv_files` are out. The two tables are sequence fields.
- A review row with a missing column is modelled as an absent key; the rewrite after a rating fills such a column with the empty text on every row. A short CSV row, which reads as `None`, is not modelled. A row with an extra field is not modelled either (next line).
- FlavorSense.App.UpdateReviewForToday and FlavorSense.App.Rate: a review row holds only the email and the seven weekday columns. In the source, a row with a field outside those eight names makes the rewrite raise after the file has already been emptied: the request fails with a server error (after `rate` has recorded the rating) and the rows from the bad one on are lost. Such a field comes from an extra header column, or from the spill-over of a row appended under a header that lacks a weekday. This failure is not modelled: the model always completes the rewrite and keeps every row.
- Every row of the accounts table is taken to have an email. A row without one, which would raise in `student_exists`, is not modelled.
- `send_email` and SMTP are out. The `transport` parameter stands for them and is also told the attempt number.
- Password hashing is out, because it is salted and foreign. The hash is a parameter of `Register`, and `check_password_hash` is the parameter `check`.
- The clock is out. The weekday is the parameter `today`.
- Locks and concurrency are out. Every handler is one atomic sequential step.
- The environment and configuration are out. The staff credentials are parameters.
- The session has one client. It holds the student identity and the staff flag.
- Rate requests:
  - Python's `int()` coercion of floats and numeric strings is not modelled. The rating arrives already coerced, or as `None` when absent or when `int()` raises `TypeError` or `ValueError`.
  - A JSON rating of `Infinity` or `-Infinity` makes `int()` raise `OverflowError`, which the handler does not catch, so the source answers with a server error. The model has no such input, and `None` stands for the rejected ratings only.
  - `.strip()` on a non-string JSON value, which would raise, is not modelled.
  - A JSON body that is not an object is not modelled.
- Text.Lower: only ASCII letters are lower-cased. Python's `lower()` also maps non-ASCII letters, so emails differing only in non-ASCII case compare equal in the source and unequal here.
- FlavorSense.App.GetRatings: the JSON serialisation of the mapping is not modelled.
- FlavorSense.App.SendReminders: the reminder summary is returned as a value. The re-read of the review table for display is not modelled, because it changes nothing.
