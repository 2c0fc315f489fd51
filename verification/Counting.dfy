/** Counting the elements of a sequence, and the total length of a sequence of sequences. */
module Counting {

  function Count<T>(s: seq<T>, p: T -> bool): (c: nat)
    ensures c <= |s|
  {
    if s == [] then 0 else (if p(s[0]) then 1 else 0) + Count(s[1..], p)
  }

  lemma {:induction false} CountUpdate<T>(s: seq<T>, p: T -> bool, i: nat, x: T)
    requires i < |s|
    ensures Count(s[i := x], p) == Count(s, p) - (if p(s[i]) then 1 else 0) + (if p(x) then 1 else 0)
  {
    if i == 0 {
      assert s[0 := x][1..] == s[1..];
    } else {
      assert s[i := x][1..] == s[1..][i - 1 := x];
      CountUpdate(s[1..], p, i - 1, x);
    }
  }

  lemma {:induction false} CountZero<T>(s: seq<T>, p: T -> bool)
    ensures Count(s, p) == 0 <==> forall i :: 0 <= i < |s| ==> !p(s[i])
  {
    if s != [] {
      CountZero(s[1..], p);
      if Count(s, p) == 0 {
        forall i | 0 <= i < |s| ensures !p(s[i]) {
          assert i > 0 ==> !p(s[1..][i - 1]);
        }
      } else if p(s[0]) {
      } else {
        var i :| 0 <= i < |s[1..]| && p(s[1..][i]);
        assert p(s[i + 1]);
      }
    }
  }

  lemma CountPositive<T>(s: seq<T>, p: T -> bool, i: nat)
    requires i < |s| && p(s[i])
    ensures Count(s, p) > 0
  {
    CountZero(s, p);
  }

  function Total<T>(s: seq<seq<T>>): nat {
    if s == [] then 0 else |s[0]| + Total(s[1..])
  }

  lemma {:induction false} TotalUpdate<T>(s: seq<seq<T>>, i: nat, x: seq<T>)
    requires i < |s|
    ensures Total(s[i := x]) == Total(s) - |s[i]| + |x|
  {
    if i == 0 {
      assert s[0 := x][1..] == s[1..];
    } else {
      assert s[i := x][1..] == s[1..][i - 1 := x];
      TotalUpdate(s[1..], i - 1, x);
    }
  }

  lemma {:induction false} TotalZero<T>(s: seq<seq<T>>)
    requires forall i :: 0 <= i < |s| ==> s[i] == []
    ensures Total(s) == 0
  {
    if s != [] {
      TotalZero(s[1..]);
    }
  }
}
