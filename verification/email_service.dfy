/** The in-memory mail gateway: sending only records the message in an
    insertion-ordered log, which can be read back. */
module EmailService {
  import opened Time

  datatype EmailMessage = EmailMessage(to: string, subject: string, body: string, sentAt: Instant)

  /** Records one message stamped with the send time `now`; there is no
      failure path. */
  function SendEmail(log: seq<EmailMessage>, to: string, subject: string, body: string, now: Instant)
    : (r: seq<EmailMessage>)
    ensures |r| == |log| + 1
    ensures r[..|log|] == log
    ensures r[|log|].to == to && r[|log|].subject == subject && r[|log|].body == body
    ensures r[|log|].sentAt == now
  {
    log + [EmailMessage(to, subject, body, now)]
  }

  /** The log as recorded so far; reading it changes nothing. */
  function GetSentEmails(log: seq<EmailMessage>): (r: seq<EmailMessage>)
    ensures r == log
  {
    log
  }

  /** Sends each message of `msgs` in turn, oldest first. */
  function SendEach(log: seq<EmailMessage>, msgs: seq<EmailMessage>): (r: seq<EmailMessage>)
    ensures |r| == |log| + |msgs|
    ensures r[..|log|] == log
    decreases |msgs|
  {
    if |msgs| == 0 then log
    else
      var m := msgs[0];
      SendEach(SendEmail(log, m.to, m.subject, m.body, m.sentAt), msgs[1..])
  }

  /** A run of sends leaves every earlier entry in place and adds the
      messages behind them in the order they were sent. */
  lemma {:induction false} SentEmailsInInsertionOrder(log: seq<EmailMessage>, msgs: seq<EmailMessage>)
    ensures GetSentEmails(SendEach(log, msgs)) == log + msgs
    decreases |msgs|
  {
    if |msgs| == 0 {
      assert log + msgs == log;
    } else {
      var m := msgs[0];
      var log' := SendEmail(log, m.to, m.subject, m.body, m.sentAt);
      assert log' == log + [m];
      SentEmailsInInsertionOrder(log', msgs[1..]);
      assert msgs == [m] + msgs[1..];
    }
  }
}
