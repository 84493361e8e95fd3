/** Facts about the result of a "no index" query: a list of row positions. */
module Positions {

  /** Every element is smaller than every element after it. */
  ghost predicate StrictlyAscending(s: seq<int>)
  {
    forall j, k :: 0 <= j < k < |s| ==> s[j] < s[k]
  }

  /** A strictly ascending sequence is determined by its elements: the
      ensures clauses of the query methods (ascending, and membership)
      therefore pin their result down completely. */
  lemma {:induction false} AscendingDetermined(a: seq<int>, b: seq<int>)
    requires StrictlyAscending(a) && StrictlyAscending(b)
    requires forall x :: x in a <==> x in b
    ensures a == b
    decreases |a|
  {
    if a == [] {
      assert forall i :: 0 <= i < |b| ==> b[i] in a;
    } else {
      assert a[0] in a;
      assert b != [];
      assert b[0] in a;
      assert a[0] == b[0] by {
        var i :| 0 <= i < |a| && a[i] == b[0];
        var j :| 0 <= j < |b| && b[j] == a[0];
        assert a[0] <= a[i] && b[0] <= b[j];
      }
      forall x
        ensures x in a[1..] <==> x in b[1..]
      {
        AscendingTail(a, x);
        AscendingTail(b, x);
      }
      AscendingDetermined(a[1..], b[1..]);
    }
  }

  /** The tail of a nonempty strictly ascending sequence holds exactly the
      elements other than its head. */
  lemma AscendingTail(s: seq<int>, x: int)
    requires StrictlyAscending(s) && s != []
    ensures StrictlyAscending(s[1..])
    ensures x in s[1..] <==> x in s && x != s[0]
  {
  }

  /** An ascending list of positions below two is fixed by which of 0 and
      1 it holds. */
  lemma PositionsBelowTwo(s: seq<int>, has0: bool, has1: bool)
    requires StrictlyAscending(s)
    requires forall k :: 0 <= k < |s| ==> 0 <= s[k] < 2
    requires 0 in s <==> has0
    requires 1 in s <==> has1
    ensures s == (if has0 then [0] else []) + (if has1 then [1] else [])
  {
    var t := (if has0 then [0] else []) + (if has1 then [1] else []);
    forall x
      ensures x in s <==> x in t
    {
      if x in s {
        var k :| 0 <= k < |s| && s[k] == x;
      }
    }
    AscendingDetermined(s, t);
  }
}
