/** The decisions behind the loan actions that change state: returning a
    book, saving an edited loan, and sending a manual overdue notification.
    Redirects and flash messages become a `Response`; the store write and
    the mail become the new `State`. */
module LoanController {
  import opened Maybe
  import opened Time
  import opened Loans
  import opened EmailService
  import opened AppState
  import opened LoanService
  import LoanReminderService

  datatype Response =
    | NotFound          // no loan has the requested id
    | AlreadyReturned   // return of a loan that has a return date
    | BookReturned
    | NoChanges         // edit whose three dates equal the stored ones
    | LoanUpdated
    | NotOverdue        // notification for a returned or not yet due loan
    | NotificationSent

  datatype Step = Step(response: Response, state: State)

  /** The fields of an edit form (`Bind("Id,BookId,UserId,LoanDate,DueDate,ReturnDate")`). */
  datatype LoanForm = LoanForm(
    id: int,
    userId: int,
    bookId: int,
    loanDate: Instant,
    dueDate: Instant,
    returnDate: Option<Instant>)

  const ManualSubject: string := "Manual Reminder: Book Due Tomorrow"

  /** A manual notification may go out for an outstanding loan whose due
      instant is not after `now`. */
  predicate NotifyEligible(l: Loan, now: Instant)
    ensures NotifyEligible(l, now) <==> IsOverdue(l, now + 1)
  {
    l.returnDate.None? && l.dueDate <= now
  }

  /** The loan `l` as recorded returned at `now`. */
  function MarkReturned(l: Loan, now: Instant): (r: Loan)
    ensures !IsActive(r) && r.returnDate == Some(now) && r.updatedDate == Some(now)
    ensures r.id == l.id && r.userId == l.userId && r.bookId == l.bookId
    ensures r.loanDate == l.loanDate && r.dueDate == l.dueDate && r.related == l.related
  {
    l.(returnDate := Some(now), updatedDate := Some(now))
  }

  /** POST Return/id at `now`. */
  function Return(s: State, id: int, now: Instant): (r: Step)
    ensures r.state.sent == s.sent
    ensures r.response == NotFound <==> !HasId(s.loans, id)
    ensures r.response == AlreadyReturned <==> HasId(s.loans, id) && ById(s.loans, id).value.returnDate.Some?
    ensures r.response == BookReturned <==> HasId(s.loans, id) && IsActive(ById(s.loans, id).value)
    ensures r.response != BookReturned ==> r.state == s
    ensures r.response == BookReturned ==>
      var before := ById(s.loans, id).value;
      var after := ById(r.state.loans, id);
      && after.Some?
      && after.value.returnDate == Some(now) && after.value.updatedDate == Some(now)
      && after.value.id == before.id && after.value.userId == before.userId
      && after.value.bookId == before.bookId && after.value.loanDate == before.loanDate
      && after.value.dueDate == before.dueDate && after.value.related == before.related
    ensures |r.state.loans| == |s.loans|
    ensures forall i :: 0 <= i < |s.loans| && s.loans[i].id != id ==> r.state.loans[i] == s.loans[i]
    ensures UniqueIds(s.loans) ==> UniqueIds(r.state.loans)
  {
    match ById(s.loans, id)
    case None => Step(NotFound, s)
    case Some(l) =>
      if l.returnDate.Some? then Step(AlreadyReturned, s)
      else Step(BookReturned, s.(loans := Update(s.loans, MarkReturned(l, now))))
  }

  /** POST Edit/id with the bound `form` at `now`. Only the three dates are
      copied from the form; nothing stops a returned loan from being edited
      or its return date from being cleared. */
  function Edit(s: State, id: int, form: LoanForm, now: Instant): (r: Step)
    ensures r.state.sent == s.sent
    ensures r.response == NotFound <==> !HasId(s.loans, id)
    ensures r.response == NoChanges <==>
      && HasId(s.loans, id)
      && var stored := ById(s.loans, id).value;
         stored.loanDate == form.loanDate && stored.dueDate == form.dueDate
         && stored.returnDate == form.returnDate
    ensures r.response == LoanUpdated <==>
      && HasId(s.loans, id)
      && var stored := ById(s.loans, id).value;
         !(stored.loanDate == form.loanDate && stored.dueDate == form.dueDate
           && stored.returnDate == form.returnDate)
    ensures r.response != LoanUpdated ==> r.state == s
    ensures r.response == LoanUpdated ==>
      var before := ById(s.loans, id).value;
      var after := ById(r.state.loans, id);
      && after.Some?
      && after.value.loanDate == form.loanDate && after.value.dueDate == form.dueDate
      && after.value.returnDate == form.returnDate && after.value.updatedDate == Some(now)
      && after.value.id == before.id && after.value.userId == before.userId
      && after.value.bookId == before.bookId && after.value.related == before.related
    ensures |r.state.loans| == |s.loans|
    ensures forall i :: 0 <= i < |s.loans| && s.loans[i].id != id ==> r.state.loans[i] == s.loans[i]
    ensures UniqueIds(s.loans) ==> UniqueIds(r.state.loans)
  {
    match ById(s.loans, id)
    case None => Step(NotFound, s)
    case Some(l) =>
      if l.loanDate == form.loanDate && l.dueDate == form.dueDate && l.returnDate == form.returnDate then
        Step(NoChanges, s)
      else
        var edited := l.(loanDate := form.loanDate, dueDate := form.dueDate,
                         returnDate := form.returnDate, updatedDate := Some(now));
        Step(LoanUpdated, s.(loans := Update(s.loans, edited)))
  }

  /** POST SendOverdueNotification/id at `now`. */
  function SendOverdueNotification(s: State, id: int, now: Instant): (r: Step)
    ensures r.state.loans == s.loans
    ensures r.response == NotFound <==> !HasId(s.loans, id)
    ensures r.response == NotOverdue <==> HasId(s.loans, id) && !NotifyEligible(ById(s.loans, id).value, now)
    ensures r.response == NotificationSent <==> HasId(s.loans, id) && NotifyEligible(ById(s.loans, id).value, now)
    ensures r.response != NotificationSent ==> r.state == s
    ensures r.response == NotificationSent ==>
      var l := ById(s.loans, id).value;
      && |r.state.sent| == |s.sent| + 1
      && r.state.sent[..|s.sent|] == s.sent
      && r.state.sent[|s.sent|] == EmailMessage(
           l.related.userEmail, ManualSubject,
           LoanReminderService.ReminderBody(l.related.userName, l.related.bookTitle), now)
  {
    match ById(s.loans, id)
    case None => Step(NotFound, s)
    case Some(l) =>
      if l.returnDate.Some? || l.dueDate > now then Step(NotOverdue, s)
      else
        var body := LoanReminderService.ReminderBody(l.related.userName, l.related.bookTitle);
        Step(NotificationSent, s.(sent := SendEmail(s.sent, l.related.userEmail, ManualSubject, body, now)))
  }

  /** A second return is rejected and keeps the first call's return date. */
  lemma ReturnTwiceKeepsFirstDate(s: State, id: int, first: Instant, second: Instant)
    requires HasId(s.loans, id) && IsActive(ById(s.loans, id).value)
    ensures var r1 := Return(s, id, first);
            var r2 := Return(r1.state, id, second);
            && r1.response == BookReturned
            && r2.response == AlreadyReturned
            && r2.state == r1.state
            && ById(r2.state.loans, id).value.returnDate == Some(first)
  {
  }

  /** The store a successful return leaves lists that loan in no
      due-tomorrow result, whatever the day. A later Edit can reopen the loan
      (`EditCanReopenReturnedLoan`), so this is not a promise for every later
      store. */
  lemma ReturnStopsReminders(s: State, id: int, now: Instant, today: Instant)
    requires UniqueIds(s.loans)
    requires Return(s, id, now).response == BookReturned
    ensures forall l :: l in DueTomorrow(Return(s, id, now).state.loans, today) ==> l.id != id
  {
  }

  /** Edit has no terminal-state guard: a form without a return date reopens
      a returned loan. */
  lemma EditCanReopenReturnedLoan(s: State, id: int, form: LoanForm, now: Instant)
    requires HasId(s.loans, id) && ById(s.loans, id).value.returnDate.Some?
    requires form.returnDate.None?
    ensures Edit(s, id, form, now).response == LoanUpdated
    ensures IsActive(ById(Edit(s, id, form, now).state.loans, id).value)
  {
  }

  /** Submitting the same form again changes nothing more: the second save
      finds the dates already stored. */
  lemma EditTwiceIsNoChange(s: State, id: int, form: LoanForm, first: Instant, second: Instant)
    requires HasId(s.loans, id)
    ensures var r1 := Edit(s, id, form, first);
            var r2 := Edit(r1.state, id, form, second);
            r2.response == NoChanges && r2.state == r1.state
  {
  }

  /** Every loan the overdue query lists can be notified, once `now` has
      reached the `today` the query ran with. */
  lemma OverdueLoansAreNotifiable(s: State, id: int, today: Instant, now: Instant)
    requires UniqueIds(s.loans)
    requires today <= now
    requires exists l :: l in Overdue(s.loans, today) && l.id == id
    ensures SendOverdueNotification(s, id, now).response == NotificationSent
  {
  }

  /** The converse fails: a loan due at the midnight that starts `today` is
      notified later that day, yet the overdue query does not list it. */
  lemma NotifiableNeedNotBeOverdue(s: State, id: int, today: Instant, now: Instant)
    requires HasId(s.loans, id)
    requires IsActive(ById(s.loans, id).value) && ById(s.loans, id).value.dueDate == today
    requires today <= now
    ensures SendOverdueNotification(s, id, now).response == NotificationSent
    ensures ById(s.loans, id).value !in Overdue(s.loans, today)
  {
  }

  /** Nothing records an earlier manual notification: repeating the request
      mails the same message again. */
  lemma RepeatedNotificationResends(s: State, id: int, now: Instant)
    requires SendOverdueNotification(s, id, now).response == NotificationSent
    ensures var r1 := SendOverdueNotification(s, id, now);
            var r2 := SendOverdueNotification(r1.state, id, now);
            && r2.response == NotificationSent
            && |r2.state.sent| == |s.sent| + 2
            && r2.state.sent[|s.sent|] == r2.state.sent[|s.sent| + 1]
  {
  }

  /** A returned loan cannot be notified. */
  lemma ReturnedLoanNotNotifiable(s: State, id: int, returnedAt: Instant, now: Instant)
    requires Return(s, id, returnedAt).response == BookReturned
    ensures SendOverdueNotification(Return(s, id, returnedAt).state, id, now).response == NotOverdue
  {
  }
}
