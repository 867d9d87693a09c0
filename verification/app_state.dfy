/** What the lifecycle actions and the reminder cycle act on: the loan store
    and the log of sent mail. */
module AppState {
  import opened Loans
  import opened EmailService

  datatype State = State(loans: seq<Loan>, sent: seq<EmailMessage>)
}
