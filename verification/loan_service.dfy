/** The loan store and its queries: every query is a filter of the store in
    store order, `today` is the midnight captured when the service is built. */
module LoanService {
  import opened Maybe
  import opened Time
  import opened Loans
  import Seqs

  /** Outstanding loans due during the day after `today`. */
  function DueTomorrow(loans: seq<Loan>, today: Instant): (r: seq<Loan>)
    ensures |r| <= |loans|
    ensures forall l :: l in r <==> l in loans && IsDueTomorrow(l, today)
    ensures forall l {:trigger Seqs.Count(r, l)} :: Seqs.Count(r, l) == if IsDueTomorrow(l, today) then Seqs.Count(loans, l) else 0
  {
    Seqs.Filter(loans, l => IsDueTomorrow(l, today))
  }

  /** Outstanding loans whose due date lies before `today`. */
  function Overdue(loans: seq<Loan>, today: Instant): (r: seq<Loan>)
    ensures |r| <= |loans|
    ensures forall l :: l in r <==> l in loans && IsOverdue(l, today)
    ensures forall l {:trigger Seqs.Count(r, l)} :: Seqs.Count(r, l) == if IsOverdue(l, today) then Seqs.Count(loans, l) else 0
  {
    Seqs.Filter(loans, l => IsOverdue(l, today))
  }

  /** Outstanding loans, whatever their due date. */
  function Active(loans: seq<Loan>): (r: seq<Loan>)
    ensures |r| <= |loans|
    ensures forall l :: l in r <==> l in loans && IsActive(l)
    ensures forall l {:trigger Seqs.Count(r, l)} :: Seqs.Count(r, l) == if IsActive(l) then Seqs.Count(loans, l) else 0
  {
    Seqs.Filter(loans, IsActive)
  }

  /** Loans made by user `userId`, returned or not. */
  function ByUser(loans: seq<Loan>, userId: int): (r: seq<Loan>)
    ensures |r| <= |loans|
    ensures forall l :: l in r <==> l in loans && l.userId == userId
    ensures forall l {:trigger Seqs.Count(r, l)} :: Seqs.Count(r, l) == if l.userId == userId then Seqs.Count(loans, l) else 0
  {
    Seqs.Filter(loans, (l: Loan) => l.userId == userId)
  }

  /** Loans of book `bookId`, returned or not. */
  function ByBook(loans: seq<Loan>, bookId: int): (r: seq<Loan>)
    ensures |r| <= |loans|
    ensures forall l :: l in r <==> l in loans && l.bookId == bookId
    ensures forall l {:trigger Seqs.Count(r, l)} :: Seqs.Count(r, l) == if l.bookId == bookId then Seqs.Count(loans, l) else 0
  {
    Seqs.Filter(loans, (l: Loan) => l.bookId == bookId)
  }

  /** Position of the first loan with primary key `id`. */
  function FindIndex(loans: seq<Loan>, id: int): (r: Option<nat>)
    ensures r.None? <==> !HasId(loans, id)
    ensures r.Some? ==> r.value < |loans| && loans[r.value].id == id
    ensures r.Some? ==> forall j :: 0 <= j < r.value ==> loans[j].id != id
  {
    if |loans| == 0 then None
    else if loans[0].id == id then Some(0)
    else
      match FindIndex(loans[1..], id)
      case None =>
        assert forall i :: 1 <= i < |loans| ==> loans[i] == loans[1..][i - 1];
        None
      case Some(j) => Some(j + 1)
  }

  /** `FirstOrDefault(l => l.Id == id)`: the first loan with that key, or
      nothing. */
  function ById(loans: seq<Loan>, id: int): (r: Option<Loan>)
    ensures r.None? <==> !HasId(loans, id)
    ensures r.Some? ==> r.value in loans && r.value.id == id
    ensures UniqueIds(loans) ==> forall i :: 0 <= i < |loans| && loans[i].id == id ==> r == Some(loans[i])
  {
    match FindIndex(loans, id)
    case None => None
    case Some(i) => Some(loans[i])
  }

  /** Adds `loan`; a key that is already taken makes the save fail and
      leaves the store as it was. */
  function Create(loans: seq<Loan>, loan: Loan): (r: Option<seq<Loan>>)
    ensures r.None? <==> HasId(loans, loan.id)
    ensures r.Some? ==> |r.value| == |loans| + 1 && r.value[..|loans|] == loans
    ensures r.Some? ==> ById(r.value, loan.id) == Some(loan)
    ensures r.Some? && UniqueIds(loans) ==> UniqueIds(r.value)
  {
    if HasId(loans, loan.id) then None
    else
      var s := loans + [loan];
      assert s[|loans|] == loan;
      Some(s)
  }

  /** Writes `loan` over the stored loan with the same key. */
  function Update(loans: seq<Loan>, loan: Loan): (r: seq<Loan>)
    requires HasId(loans, loan.id)
    ensures |r| == |loans|
    ensures ById(r, loan.id) == Some(loan)
    ensures forall i :: 0 <= i < |loans| && loans[i].id != loan.id ==> r[i] == loans[i]
    ensures UniqueIds(loans) ==> UniqueIds(r)
  {
    var k := FindIndex(loans, loan.id).value;
    var r := loans[k := loan];
    assert FindIndex(r, loan.id) == Some(k) by {
      assert r[k].id == loan.id;
      assert HasId(r, loan.id);
      var j := FindIndex(r, loan.id);
      assert !(j.value < k);
      assert !(j.value > k);
    }
    r
  }

  /** Removes the loan with key `id`, if there is one. */
  function Delete(loans: seq<Loan>, id: int): (r: seq<Loan>)
    ensures !HasId(loans, id) ==> r == loans
    ensures HasId(loans, id) ==> |r| == |loans| - 1
    ensures forall l :: l in r ==> l in loans
    ensures UniqueIds(loans) ==> UniqueIds(r) && !HasId(r, id)
    ensures UniqueIds(loans) ==> forall l :: l in loans && l.id != id ==> l in r
  {
    match FindIndex(loans, id)
    case None => loans
    case Some(k) =>
      var r := loans[..k] + loans[k + 1..];
      assert forall i :: 0 <= i < |r| ==> r[i] == if i < k then loans[i] else loans[i + 1];
      assert forall i :: 0 <= i < |loans| && i != k ==> loans[i] == if i < k then r[i] else r[i - 1];
      r
  }

  /** No loan is both overdue and due tomorrow, and both windows lie inside
      the active loans. */
  lemma WindowsDisjoint(loans: seq<Loan>, today: Instant)
    ensures forall l :: l in Overdue(loans, today) ==> l !in DueTomorrow(loans, today)
    ensures forall l :: l in Overdue(loans, today) ==> l in Active(loans)
    ensures forall l :: l in DueTomorrow(loans, today) ==> l in Active(loans)
  {
  }

  /** For a midnight `today`, the half-open window is exactly the calendar
      day after `today`, whatever time of day the due date carries. */
  lemma DueTomorrowIsNextCalendarDay(l: Loan, today: Instant)
    requires IsMidnight(today) && l.dueDate >= 0
    ensures IsDueTomorrow(l, today) <==> IsActive(l) && Date(l.dueDate) == today + DAY
  {
  }

  /** Deleting the key a successful create just used gives the store back. */
  lemma DeleteUndoesCreate(loans: seq<Loan>, loan: Loan)
    requires Create(loans, loan).Some?
    ensures Delete(Create(loans, loan).value, loan.id) == loans
  {
  }

  /** A created loan joins the due-tomorrow result at its end, and the loans
      already there keep their order. */
  lemma CreateExtendsDueTomorrow(loans: seq<Loan>, loan: Loan, today: Instant)
    requires Create(loans, loan).Some?
    ensures DueTomorrow(Create(loans, loan).value, today)
         == DueTomorrow(loans, today) + (if IsDueTomorrow(loan, today) then [loan] else [])
  {
    Seqs.FilterAppend(loans, [loan], l => IsDueTomorrow(l, today));
    assert Seqs.Filter([loan], l => IsDueTomorrow(l, today))
        == (if IsDueTomorrow(loan, today) then [loan] else []);
  }
}
