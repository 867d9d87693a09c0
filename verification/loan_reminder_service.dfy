/** The automated reminder cycle: one "due tomorrow" mail per loan the
    due-tomorrow query returns, with no memory of earlier cycles. */
module LoanReminderService {
  import opened Time
  import opened Loans
  import opened EmailService
  import opened AppState
  import LoanService

  const AutomaticSubject: string := "Automatic Reminder: Book Due Tomorrow"

  /** The reminder text; the manual notification reuses it word for word. */
  function ReminderBody(userName: string, bookTitle: string): string {
    "Dear " + userName + ",\n\nThis is a reminder that your book '" + bookTitle
      + "' is due tomorrow. Please return it to avoid late fees.\n\nThank you,\nYour Library"
  }

  /** The automated reminder for loan `l`, sent at `now`. */
  function Reminder(l: Loan, now: Instant): EmailMessage {
    EmailMessage(l.related.userEmail, AutomaticSubject,
                 ReminderBody(l.related.userName, l.related.bookTitle), now)
  }

  /** One reminder per loan, in the order of `loans`. */
  function Reminders(loans: seq<Loan>, now: Instant): (r: seq<EmailMessage>)
    ensures |r| == |loans|
    ensures forall i :: 0 <= i < |loans| ==> r[i] == Reminder(loans[i], now)
  {
    if |loans| == 0 then []
    else [Reminder(loans[0], now)] + Reminders(loans[1..], now)
  }

  /** Every reminder of a batch is the reminder of one of its loans. */
  lemma RemindersComeFromLoans(loans: seq<Loan>, now: Instant)
    ensures forall e :: e in Reminders(loans, now) ==> exists l :: l in loans && e == Reminder(l, now)
  {
    var batch := Reminders(loans, now);
    forall e | e in batch
      ensures exists l :: l in loans && e == Reminder(l, now)
    {
      var i :| 0 <= i < |batch| && batch[i] == e;
      assert loans[i] in loans;
    }
  }

  /** One reminder cycle run at `now` against the store as of `today`. */
  function SendAutomatedDueReminders(s: State, today: Instant, now: Instant): (r: State)
    ensures r.loans == s.loans
    ensures r.sent == s.sent + Reminders(LoanService.DueTomorrow(s.loans, today), now)
    ensures |r.sent| == |s.sent| + |LoanService.DueTomorrow(s.loans, today)|
    ensures forall e :: e in r.sent[|s.sent|..] ==>
      exists l :: l in s.loans && IsDueTomorrow(l, today) && e == Reminder(l, now)
  {
    var due := LoanService.DueTomorrow(s.loans, today);
    var batch := Reminders(due, now);
    SentEmailsInInsertionOrder(s.sent, batch);
    RemindersComeFromLoans(due, now);
    var r := State(s.loans, SendEach(s.sent, batch));
    assert r.sent[|s.sent|..] == batch;
    r
  }

  /** Nothing records which loans were already reminded: a second cycle on
      the same day and store sends the same batch again. */
  lemma RepeatedCycleResends(s: State, today: Instant, now: Instant)
    ensures var batch := Reminders(LoanService.DueTomorrow(s.loans, today), now);
            SendAutomatedDueReminders(SendAutomatedDueReminders(s, today, now), today, now)
              == State(s.loans, s.sent + batch + batch)
  {
  }
}
