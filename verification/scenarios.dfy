/** The six-loan store of the loan service tests, with `today` left open: the
    query, lookup, create and delete outcomes those tests expect, proved for
    every `today`, and two further scenarios on the same store (one reminder
    cycle, and the controller actions for a `now` within two days of
    `today`). */
module Scenarios {
  import opened Maybe
  import opened Time
  import opened Loans
  import opened EmailService
  import opened AppState
  import opened LoanService
  import LoanReminderService
  import LoanController

  /** Loan `id` of book `id`, with its dates given in days from `today`. */
  function L(id: int, userId: int, who: Related, loanDay: int, dueDay: int, returned: bool, today: Instant): Loan {
    Loan(id, userId, id, today + loanDay * DAY, today + dueDay * DAY,
         if returned then Some(today - DAY) else None, None, who)
  }

  function Fixture(today: Instant): seq<Loan> {
    [ L(1, 1, Related("User 1", "user1@example.com", "Book 1"), -14, -1, false, today),
      L(2, 1, Related("User 1", "user1@example.com", "Book 2"), -13, 1, false, today),
      L(3, 2, Related("User 2", "user2@example.com", "Book 3"), -14, 1, false, today),
      L(4, 3, Related("User 3", "user3@example.com", "Book 4"), -16, -2, true, today),
      L(5, 4, Related("User 4", "user4@example.com", "Book 5"), -12, 2, false, today),
      L(6, 5, Related("User 5", "user5@example.com", "Book 6"), -12, 2, true, today) ]
  }

  function Keep<T>(x: T, p: T -> bool): seq<T> {
    if p(x) then [x] else []
  }

  /** One filtering step: the head is kept or dropped, the tail filtered. */
  lemma FilterStep<T(!new)>(x: T, t: seq<T>, p: T -> bool)
    ensures Seqs.Filter([x] + t, p) == Keep(x, p) + Seqs.Filter(t, p)
  {
    var s := [x] + t;
    assert s[0] == x && s[1..] == t;
  }

  /** Filters a six-element store one element at a time. */
  lemma FilterSix<T(!new)>(a: T, b: T, c: T, d: T, e: T, g: T, p: T -> bool)
    ensures Seqs.Filter([a, b, c, d, e, g], p)
              == Keep(a, p) + (Keep(b, p) + (Keep(c, p) + (Keep(d, p) + (Keep(e, p) + Keep(g, p)))))
  {
    var t5: seq<T> := [g];
    var t4 := [e] + t5;
    var t3 := [d] + t4;
    var t2 := [c] + t3;
    var t1 := [b] + t2;
    var t0 := [a] + t1;
    assert t0 == [a, b, c, d, e, g];
    FilterStep(g, [], p);
    assert [g] + [] == t5;
    FilterStep(e, t5, p);
    FilterStep(d, t4, p);
    FilterStep(c, t3, p);
    FilterStep(b, t2, p);
    FilterStep(a, t1, p);
  }

  /** Filters `Fixture(today)` one loan at a time. */
  lemma FilterFixture(today: Instant, p: Loan -> bool)
    ensures var f := Fixture(today);
            Seqs.Filter(f, p)
              == Keep(f[0], p) + (Keep(f[1], p) + (Keep(f[2], p) + (Keep(f[3], p) + (Keep(f[4], p) + Keep(f[5], p)))))
  {
    var f := Fixture(today);
    FilterSix(f[0], f[1], f[2], f[3], f[4], f[5], p);
    assert f == [f[0], f[1], f[2], f[3], f[4], f[5]];
  }

  /** Loans 2 and 3 are due tomorrow (GetLoansDueTomorrow test). */
  lemma FixtureDueTomorrow(today: Instant)
    ensures var f := Fixture(today);
            DueTomorrow(f, today) == [f[1], f[2]] && f[1].id == 2 && f[2].id == 3
  {
    FilterFixture(today, l => IsDueTomorrow(l, today));
  }

  /** Only loan 1 is overdue; returned loan 4 is not (GetOverdueLoans test). */
  lemma FixtureOverdue(today: Instant)
    ensures var f := Fixture(today);
            Overdue(f, today) == [f[0]] && f[0].id == 1
  {
    FilterFixture(today, l => IsOverdue(l, today));
  }

  /** Active filtering of a six-loan store whose fourth and sixth loans are
      returned. */
  lemma ActiveOfSix(a: Loan, b: Loan, c: Loan, d: Loan, e: Loan, g: Loan)
    requires IsActive(a) && IsActive(b) && IsActive(c) && !IsActive(d) && IsActive(e) && !IsActive(g)
    ensures Active([a, b, c, d, e, g]) == [a, b, c, e]
  {
    FilterSix(a, b, c, d, e, g, IsActive);
    assert [a] + ([b] + ([c] + ([] + ([e] + [])))) == [a, b, c, e];
  }

  /** Loans 1, 2, 3 and 5 are active (GetActiveLoans test). */
  lemma FixtureActive(today: Instant)
    ensures var f := Fixture(today);
            Active(f) == [f[0], f[1], f[2], f[4]]
  {
    var f := Fixture(today);
    ActiveOfSix(f[0], f[1], f[2], f[3], f[4], f[5]);
    assert f == [f[0], f[1], f[2], f[3], f[4], f[5]];
  }

  /** User 1 has two loans and book 1 one (by-user and by-book tests). */
  lemma FixtureByUserAndBook(today: Instant)
    ensures |ByUser(Fixture(today), 1)| == 2
    ensures |ByBook(Fixture(today), 1)| == 1
  {
    FilterFixture(today, (l: Loan) => l.userId == 1);
    FilterFixture(today, (l: Loan) => l.bookId == 1);
  }

  /** Looking up ids 1 and 2 finds those loans (GetCorrectLoanById test). */
  lemma FixtureById(today: Instant)
    ensures ById(Fixture(today), 1) == Some(Fixture(today)[0])
    ensures ById(Fixture(today), 2) == Some(Fixture(today)[1])
  {
  }

  /** Creating loan 9 gives seven loans, deleting loan 3 leaves five
      (CreateNewLoan and DeleteExistingLoan tests). */
  lemma FixtureCreateAndDelete(today: Instant)
    ensures var f := Fixture(today);
            var nine := L(9, 9, Related("User 9", "user9@example.com", "Book 9"), -2, 12, false, today);
            Create(f, nine).Some? && |Create(f, nine).value| == 7
    ensures |Delete(Fixture(today), 3)| == 5
  {
    var f := Fixture(today);
    assert f[2].id == 3;
    assert forall i :: 0 <= i < |f| ==> f[i].id <= 6;
  }

  /** The reminder cycle over the fixture mails the borrowers of loans 2 and
      3, in that order. */
  lemma FixtureReminderCycle(today: Instant, now: Instant)
    ensures var sent := LoanReminderService.SendAutomatedDueReminders(State(Fixture(today), []), today, now).sent;
            && |sent| == 2
            && sent[0].to == "user1@example.com" && sent[1].to == "user2@example.com"
            && sent[0].subject == LoanReminderService.AutomaticSubject
            && sent[1].subject == LoanReminderService.AutomaticSubject
  {
    FixtureDueTomorrow(today);
  }

  /** Returning the already returned loan 4 is refused; loan 1, overdue by a
      day, can be notified; loan 5, due in two days, cannot. */
  lemma FixtureControllerActions(today: Instant, now: Instant)
    requires today <= now < today + 2 * DAY
    ensures LoanController.Return(State(Fixture(today), []), 4, now).response == LoanController.AlreadyReturned
    ensures LoanController.SendOverdueNotification(State(Fixture(today), []), 1, now).response
              == LoanController.NotificationSent
    ensures LoanController.SendOverdueNotification(State(Fixture(today), []), 5, now).response
              == LoanController.NotOverdue
  {
    var f := Fixture(today);
    assert f[0].id == 1 && f[3].id == 4 && f[4].id == 5;
    assert UniqueIds(f);
  }
}
