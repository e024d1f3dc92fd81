/** Counting the elements of a sequence that equal a value. */
module Counting {

  ghost function Count<T>(s: seq<T>, x: T): nat {
    if s == [] then 0 else Count(s[..|s|-1], x) + if s[|s|-1] == x then 1 else 0
  }

  lemma {:induction false} CountUpdate<T>(s: seq<T>, i: nat, to: T, x: T)
    requires i < |s|
    ensures Count(s[i := to], x) == Count(s, x) - (if s[i] == x then 1 else 0) + (if to == x then 1 else 0)
  {
    var n := |s| - 1;
    if i < n {
      CountUpdate(s[..n], i, to, x);
      assert s[i := to][..n] == s[..n][i := to];
    } else {
      assert s[i := to][..n] == s[..n];
    }
  }

  lemma {:induction false} CountZero<T>(s: seq<T>, x: T)
    ensures Count(s, x) == 0 <==> x !in s
  {
    if s != [] {
      var n := |s| - 1;
      CountZero(s[..n], x);
      assert s == s[..n] + [s[n]];
    }
  }

  lemma {:induction false} CountAll<T>(s: seq<T>, x: T)
    ensures Count(s, x) <= |s|
    ensures Count(s, x) == |s| <==> forall i :: 0 <= i < |s| ==> s[i] == x
  {
    if s != [] {
      var n := |s| - 1;
      CountAll(s[..n], x);
      assert forall i :: 0 <= i < n ==> s[i] == s[..n][i];
    }
  }
}
