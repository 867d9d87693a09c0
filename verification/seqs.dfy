/** Order-preserving filtering of a sequence, the shape of every LINQ `Where`
    query over the loan store. */
module Seqs {

  /** How many times `x` occurs in `s`. */
  ghost function Count<T>(s: seq<T>, x: T): nat {
    multiset(s)[x]
  }

  /** The elements of `s` satisfying `p`, in their original order and with
      their original multiplicity. */
  function Filter<T(!new)>(s: seq<T>, p: T -> bool): (r: seq<T>)
    ensures |r| <= |s|
    ensures forall x :: x in r <==> x in s && p(x)
    ensures forall x {:trigger Count(r, x)} :: Count(r, x) == if p(x) then Count(s, x) else 0
  {
    if |s| == 0 then []
    else
      var rest := Filter(s[1..], p);
      var r := if p(s[0]) then [s[0]] + rest else rest;
      assert s == [s[0]] + s[1..];
      assert multiset(s) == multiset([s[0]]) + multiset(s[1..]);
      assert multiset(r) == (if p(s[0]) then multiset([s[0]]) else multiset{}) + multiset(rest);
      assert forall x :: Count(s, x) == (if x == s[0] then 1 else 0) + Count(s[1..], x);
      assert forall x :: Count(r, x) == (if p(s[0]) && x == s[0] then 1 else 0) + Count(rest, x);
      r
  }

  /** Filtering distributes over concatenation, so a filter never reorders. */
  lemma {:induction false} FilterAppend<T(!new)>(a: seq<T>, b: seq<T>, p: T -> bool)
    ensures Filter(a + b, p) == Filter(a, p) + Filter(b, p)
  {
    if |a| == 0 {
      assert a + b == b;
    } else {
      var ab := a + b;
      assert ab[0] == a[0];
      assert ab[1..] == a[1..] + b;
      FilterAppend(a[1..], b, p);
      if p(a[0]) {
        calc {
          Filter(ab, p);
          [a[0]] + Filter(a[1..] + b, p);
          [a[0]] + (Filter(a[1..], p) + Filter(b, p));
          ([a[0]] + Filter(a[1..], p)) + Filter(b, p);
        }
      }
    }
  }
}
