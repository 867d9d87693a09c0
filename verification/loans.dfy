/** The `Loan` entity and the date predicates the loan queries filter on. */
module Loans {
  import opened Maybe
  import opened Time

  /** The borrower and book data a query materialises alongside a loan
      (`Include(l => l.User)`, `Include(l => l.Book)`), as plain fields. */
  datatype Related = Related(userName: string, userEmail: string, bookTitle: string)

  /** One borrowing of one book by one user. `returnDate == None` means the
      loan is outstanding; `updatedDate` is the audit stamp of the last edit
      or return. */
  datatype Loan = Loan(
    id: int,
    userId: int,
    bookId: int,
    loanDate: Instant,
    dueDate: Instant,
    returnDate: Option<Instant>,
    updatedDate: Option<Instant>,
    related: Related)

  /** Not yet returned. */
  predicate IsActive(l: Loan) {
    l.returnDate.None?
  }

  /** Outstanding and due at some instant of the day after `today`: the
      window is half-open because a due date may carry a time of day. */
  predicate IsDueTomorrow(l: Loan, today: Instant) {
    IsActive(l) && today + DAY <= l.dueDate < today + 2 * DAY
  }

  /** Outstanding and due before `today` began. */
  predicate IsOverdue(l: Loan, today: Instant) {
    IsActive(l) && l.dueDate < today
  }

  /** Some loan of the store has primary key `id`. */
  predicate HasId(loans: seq<Loan>, id: int) {
    exists i :: 0 <= i < |loans| && loans[i].id == id
  }

  /** Primary keys are distinct, as the database enforces. */
  predicate UniqueIds(loans: seq<Loan>) {
    forall i, j :: 0 <= i < j < |loans| ==> loans[i].id != loans[j].id
  }
}
