/** Picking the elements of a sequence that satisfy a predicate, in order. */
module Filtering {
  function Filter<T(!new)>(s: seq<T>, p: T -> bool): (r: seq<T>)
    ensures |r| <= |s|
    ensures forall x :: x in r <==> x in s && p(x)
  {
    if s == [] then []
    else if p(s[|s| - 1]) then Filter(s[..|s| - 1], p) + [s[|s| - 1]]
    else Filter(s[..|s| - 1], p)
  }

  lemma FilterAppend<T(!new)>(s: seq<T>, x: T, p: T -> bool)
    ensures Filter(s + [x], p) == Filter(s, p) + if p(x) then [x] else []
  {
    assert (s + [x])[..|s|] == s;
  }

  lemma {:induction false} FilterConcat<T(!new)>(a: seq<T>, b: seq<T>, p: T -> bool)
    ensures Filter(a + b, p) == Filter(a, p) + Filter(b, p)
  {
    if b == [] {
      assert a + b == a;
    } else {
      var c, x := b[..|b| - 1], b[|b| - 1];
      assert a + b == (a + c) + [x];
      FilterAppend(a + c, x, p);
      FilterConcat(a, c, p);
    }
  }

  lemma {:induction false} FilterAll<T(!new)>(s: seq<T>, p: T -> bool)
    requires forall x :: x in s ==> p(x)
    ensures Filter(s, p) == s
  {
    if s != [] {
      FilterAll(s[..|s| - 1], p);
    }
  }

  lemma FilterNone<T(!new)>(s: seq<T>, p: T -> bool)
    requires forall x :: x in s ==> !p(x)
    ensures Filter(s, p) == []
  {
    if s != [] {
      FilterNone(s[..|s| - 1], p);
    }
  }

  /** An element put in before parts that have nothing to pick comes last. */
  lemma FilterInsert<T(!new)>(pre: seq<T>, c: seq<T>, post: seq<T>, last: seq<T>, x: T, p: T -> bool)
    requires p(x) ==> Filter(post, p) == [] && Filter(last, p) == []
    ensures Filter(pre + (c + [x]) + post + last, p) == Filter(pre + c + post + last, p) + if p(x) then [x] else []
  {
    hide Filter;
    Filter4(pre, c, post, last, p);
    Filter4(pre, c + [x], post, last, p);
    FilterAppend(c, x, p);
  }

  lemma Filter4<T(!new)>(a: seq<T>, b: seq<T>, c: seq<T>, d: seq<T>, p: T -> bool)
    ensures Filter(a + b + c + d, p) == Filter(a, p) + Filter(b, p) + Filter(c, p) + Filter(d, p)
  {
    hide Filter;
    FilterConcat(a + b + c, d, p);
    FilterConcat(a + b, c, p);
    FilterConcat(a, b, p);
  }

  /** Moving the front a of a line to the end of what came out, as d. */
  lemma FilterMove<T(!new)>(out: seq<T>, d: seq<T>, a: seq<T>, b: seq<T>, p: T -> bool)
    requires Filter(d, p) == Filter(a, p)
    ensures Filter(out + d, p) + Filter(b, p) == Filter(out, p) + Filter(a + b, p)
  {
    hide Filter;
    FilterConcat(out, d, p);
    FilterConcat(a, b, p);
  }
}
