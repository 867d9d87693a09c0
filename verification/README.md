# Loan lifecycle and due-date reminders

A Dafny model of the loan core of a small library-circulation web
application: the loan store's time-windowed queries, the in-memory mail
gateway, the automated "due tomorrow" reminder cycle, and the decisions taken
by the three loan actions that change state (return a book, save an edited
loan, send a manual overdue notification).

Everything is a pure function. The loan store is a `seq<Loan>` and the mail
log a `seq<EmailMessage>`, kept together in `AppState.State`. Instants are
.NET `DateTime` ticks held as `int`. `Time.DAY` is the tick count of one day.
The clock is not modelled: `today` (a midnight, as `DateTime.Today` gives) and
`now` are parameters of every operation that reads them.

Files, one module each:

- `maybe.dfy`: `Option`, standing for `null` and `Nullable<T>`.
- `time.dfy`: instants, `DAY`, midnight and `Date`.
- `seqs.dfy`: the order-preserving filter behind every `Where` query.
- `loans.dfy`: the `Loan` entity (`Models/Loan.cs`). The borrower's name and
  address and the book's title are carried as plain fields (`Related`).
  These are the fields the queries load with `Include`.
- `loan_service.dfy`: queries, lookup, create, update and delete
  (`Services/LoanService.cs`).
- `email_service.dfy`: send and read back (`Services/EmailService.cs`).
- `app_state.dfy`: the store and the mail log together.
- `loan_reminder_service.dfy`: the reminder cycle
  (`Services/LoanReminderService.cs`).
- `loan_controller.dfy`: the Return, Edit (POST) and SendOverdueNotification
  decisions (`Controllers/LoanController.cs`).
- `scenarios.dfy`: the six-loan store of `Tests/LoanServiceTests.cs`. The
  query, lookup, create and delete results those tests expect are proved for
  every `today`. Two further scenarios on the same store, which no test
  there covers, are proved too: one reminder cycle, and the controller
  actions for a `now` in `[today, today + 2*DAY)`.

Facts about the code that a reader might not expect, all modelled as
written:

- The due-tomorrow window is the half-open tick interval
  `[today + DAY, today + 2*DAY)`. `DueTomorrowIsNextCalendarDay` shows that,
  for a midnight `today`, this is exactly the loans whose due date falls on
  the next calendar day.
- A manual notification is allowed when the loan has no return date and
  `DueDate <= now`. So a loan due at the midnight that starts today can be
  notified, yet the overdue query (`DueDate < today`) does not list it
  (`NotifiableNeedNotBeOverdue`).
- The manual notification's subject is "Manual Reminder: Book Due Tomorrow",
  and its body is the automated "is due tomorrow" text, word for word.
- Edit POST does not check whether the loan is returned, and it can clear the
  return date (`EditCanReopenReturnedLoan`). It also accepts due or return
  dates before the loan date.
- The reminder cycle has no per-loan failure isolation. The mail gateway has
  no failure path, so in the model every send succeeds.
- Neither the cycle nor the manual action deduplicates anything
  (`RepeatedCycleResends`, `RepeatedNotificationResends`).

## Model

| member | source | states |
|---|---|---|
| LoanService.DueTomorrow | Services/LoanService.cs:26-33 | a loan is in the result iff it is in the store, has no return date and `today + DAY <= dueDate < today + 2*DAY`; each such loan appears exactly as often as it is stored |
| LoanService.Overdue | Services/LoanService.cs:35-42 | a loan is in the result iff it is in the store, has no return date and is due before `today`; each such loan appears exactly as often as it is stored |
| LoanService.Active | Services/LoanService.cs:44-51 | a loan is in the result iff it is in the store and has no return date, whatever its due date; each such loan appears exactly as often as it is stored |
| LoanService.ById | Services/LoanService.cs:53-59 | nothing iff no loan has that id; otherwise a stored loan with that id, and with distinct ids it is exactly that loan |
| LoanService.ByUser | Services/LoanService.cs:61-67 | a loan is in the result iff it is in the store and belongs to that user; each such loan appears exactly as often as it is stored |
| LoanService.ByBook | Services/LoanService.cs:69-75 | a loan is in the result iff it is in the store and lends that book; each such loan appears exactly as often as it is stored |
| LoanService.Create | Services/LoanService.cs:77-82 | a taken key fails and leaves the store as it was; otherwise the store grows by one, existing loans stay in place, the new loan is found by its id, and keys stay distinct |
| LoanService.Update | Services/LoanService.cs:84-88 | the loan with that key is replaced and found by its id afterwards; the length and every loan with another key are unchanged; keys stay distinct |
| LoanService.Delete | Services/LoanService.cs:90-98 | a missing id changes nothing; a present one drops the count by one; with distinct keys that id is gone and every other loan remains |
| LoanService.WindowsDisjoint | Services/LoanService.cs:31-47 | no loan is both overdue and due tomorrow, and both results are subsets of the active loans |
| LoanService.DueTomorrowIsNextCalendarDay | Services/LoanService.cs:31 | for a midnight `today`, a loan is due tomorrow iff it is outstanding and its due date falls on the calendar day after `today` |
| LoanService.DeleteUndoesCreate | Services/LoanService.cs:77-98 | deleting the id a successful create just added restores the original store |
| LoanService.CreateExtendsDueTomorrow | Services/LoanService.cs:77-82 | after a create, the due-tomorrow result is the old one, followed by the new loan when it is due tomorrow |
| EmailService.SendEmail | Services/EmailService.cs:15-27 | a send always succeeds and appends exactly one message with the given recipient, subject and body, stamped `now`; earlier entries are unchanged |
| EmailService.GetSentEmails | Services/EmailService.cs:29-32 | the read-back is the recorded log itself and reading changes nothing; the insertion-order promise is proved by `SentEmailsInInsertionOrder` |
| EmailService.SendEach | Services/LoanReminderService.cs:20-27 | sending a batch one message at a time grows the log by the batch size and keeps the earlier entries as a prefix |
| EmailService.SentEmailsInInsertionOrder | Services/EmailService.cs:24-32 | after any run of sends, reading the log gives the earlier log followed by the sent messages in sending order |
| LoanReminderService.Reminders | Services/LoanReminderService.cs:20-27 | one message per loan, in order, each the loan's reminder: to the loan user's address, with subject "Automatic Reminder: Book Due Tomorrow" and the reminder body |
| LoanReminderService.SendAutomatedDueReminders | Services/LoanReminderService.cs:16-28 | the store is untouched; the log gains one reminder per due-tomorrow loan, in query order, after the earlier entries; every new mail is the reminder for a stored loan that is due tomorrow |
| LoanReminderService.RepeatedCycleResends | Services/LoanReminderService.cs:16-28 | two cycles on the same day and store append the same batch twice and leave the store unchanged |
| LoanController.Return | Controllers/LoanController.cs:242-278 | NotFound iff the id is missing; AlreadyReturned iff the loan has a return date; BookReturned iff the loan is outstanding; the first two leave the state unchanged; otherwise return and update dates become `now` with the identity, user, book and dates kept; other loans and the mail log are unchanged |
| LoanController.Edit | Controllers/LoanController.cs:151-196 | NotFound iff the id is missing; NoChanges iff the three stored dates equal the form's, with no write; LoanUpdated iff the loan exists and some date differs, and then only the three dates are copied and the update date set, while id, user and book stay as stored whatever the form holds |
| LoanController.SendOverdueNotification | Controllers/LoanController.cs:280-315 | the store is never changed; NotFound iff the id is missing; a mail is sent iff the loan has no return date and `dueDate <= now`; then exactly one mail to the user's address with subject "Manual Reminder: Book Due Tomorrow" is appended; otherwise the log is unchanged |
| LoanController.MarkReturned | Controllers/LoanController.cs:264-265 | the loan is no longer outstanding, its return and update dates are `now`, and its id, user, book, loan and due dates and related data are kept |
| LoanController.NotifyEligible | Controllers/LoanController.cs:295 | a loan may be notified iff it is outstanding and its due date is not after `now`, that is iff it is overdue as seen from the next tick |
| LoanController.EditTwiceIsNoChange | Controllers/LoanController.cs:166-181 | saving the same form a second time is detected as no change and writes nothing |
| LoanController.ReturnTwiceKeepsFirstDate | Controllers/LoanController.cs:257-266 | a second return is refused without a write, and the return date stays the first call's |
| LoanController.ReturnStopsReminders | Controllers/LoanController.cs:264-266 | with distinct ids, the store a successful return leaves lists that id in no due-tomorrow result, for any `today`; a later Edit can reopen the loan (`EditCanReopenReturnedLoan`) |
| LoanController.EditCanReopenReturnedLoan | Controllers/LoanController.cs:166-181 | an edit of a returned loan whose form has no return date is written, and the loan becomes outstanding again |
| LoanController.OverdueLoansAreNotifiable | Controllers/LoanController.cs:295-304 | every loan of the overdue query can be notified once `now` has reached the query's `today` |
| LoanController.NotifiableNeedNotBeOverdue | Controllers/LoanController.cs:295 | for a stored outstanding loan due at today's midnight, the notification action sends a mail at any later `now`, but the loan is not in the overdue query's result for `today` |
| LoanController.RepeatedNotificationResends | Controllers/LoanController.cs:302-304 | repeating a successful notification sends a second, identical mail |
| LoanController.ReturnedLoanNotNotifiable | Controllers/LoanController.cs:264-300 | after a successful return, a notification request for that loan is refused |
| Scenarios.FixtureDueTomorrow | Tests/LoanServiceTests.cs:117-128 | in the test store, exactly loans 2 and 3 are due tomorrow |
| Scenarios.FixtureOverdue | Tests/LoanServiceTests.cs:105-115 | in the test store, only loan 1 is overdue; returned loan 4 is not |
| Scenarios.FixtureActive | Tests/LoanServiceTests.cs:144-157 | in the test store, loans 1, 2, 3 and 5 are active |
| Scenarios.FixtureByUserAndBook | Tests/LoanServiceTests.cs:172-192 | in the test store, user 1 has two loans and book 1 has one |
| Scenarios.FixtureById | Tests/LoanServiceTests.cs:159-170 | in the test store, lookups of ids 1 and 2 return those loans |
| Scenarios.FixtureCreateAndDelete | Tests/LoanServiceTests.cs:194-251 | creating loan 9 gives seven loans; deleting loan 3 leaves five |
| Scenarios.FixtureReminderCycle | Tests/LoanServiceTests.cs:25-82 | a scenario on the test store, not one of its tests: one cycle sends two automated reminders, to user1 and to user2, in store order |
| Scenarios.FixtureControllerActions | Tests/LoanServiceTests.cs:28-72 | a scenario on the test store, not one of its tests: for every `now` in `[today, today + 2*DAY)`, returning loan 4 again is refused, loan 1 can be notified, and loan 5 cannot |

## Left out

- The background scheduler (`Services/LoanReminderBackgroundService.cs`) is
  not modelled. It is a host-managed timed loop with a delay and a
  cancellation token, so its subject is scheduling and cancellation. Its
  cycle has no exception handling; the model does not claim that failures
  are swallowed.
- `GetAllLoansAsync` returns the store unchanged, so it has no member of its
  own.
- MVC concerns are not modelled: views, TempData messages, redirects (these
  become `Response` values), `ModelState` validation (the model assumes the
  bound form is valid), antiforgery, routing, the GET actions, and the Create
  and DeleteConfirmed POST actions. The last two only call
  `CreateLoanAsync`/`DeleteLoanAsync`.
- Exceptions from the store, and the `catch` branches that render the error
  view, are not modelled. A duplicate key is the exception: it appears as
  `Create` returning nothing.
- LoanService.Create: the model takes the loan's id as its key. The
  database's key generation for a loan posted without an id is not modelled.
- LoanService.Update: EF change tracking and `EntityState.Modified` are
  modelled as replacing the stored loan that has the same key. The model
  requires that key to exist, because EF throws when the row is missing.
- Lazy or missing navigation properties are not modelled. The model assumes
  the user and book data are always loaded; in the code a missing `User` or
  `Book` would throw a null reference exception.
- Clock reads are simplified. Each action or cycle uses one `now`, so all
  mails of one cycle carry the same `SentAt`, and Return's return and update
  dates are equal. The code reads `DateTime.Now` separately each time.
- `DateTime` range limits are not modelled (`AddDays` throws past year
  9999), nor time zones.
- `GetSentEmails` returns a read-only view of the live list. Later sends
  would show through that view; the model returns the log as a value.
- Logging, seed data, the book and user controllers, and the DbContext are
  not modelled.
- `BaseEntity` is not part of this model. Its `UpdatedDate` field is inferred
  from how the controller uses it.
- Result order: every query returns its rows in store order. The queries
  have no `OrderBy`, so the database promises no order at all; the model
  fixes one. The order claims rest on that choice: "in query order" for
  `SendAutomatedDueReminders`, "to user1 and to user2, in store order" in
  `FixtureReminderCycle`, and "followed by the new loan" in `CreateExtendsDueTomorrow`.
  Membership and multiplicity do not depend on it.
- Concurrency is not modelled. Every operation is one atomic step on the
  state.
