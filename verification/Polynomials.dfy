/** Polynomials over GF(2), written as bit strings with the highest power first, and their
    division by the CCITT generator x^16 + x^12 + x^5 + 1.  Nothing here mentions a register
    or a table: this is the arithmetic that the flow accelerator's CRC is measured against. */
module Polynomials {

  type Bits = seq<bool>

  /** x^16 + x^12 + x^5 + 1, seventeen coefficients. */
  const GENERATOR: Bits := [
    true, false, false, false, true, false, false, false, false,
    false, false, true, false, false, false, false, true]

  function Zeros(n: nat): (z: Bits)
    ensures |z| == n
  {
    seq(n, _ => false)
  }

  /** The sum of two polynomials with the same number of coefficients. */
  function Xor(a: Bits, b: Bits): (c: Bits)
    requires |a| == |b|
    ensures |c| == |a|
  {
    seq(|a|, i requires 0 <= i < |a| => a[i] != b[i])
  }

  /** GENERATOR times x^n when `bit` is set, and zero otherwise. */
  function Multiple(bit: bool, n: nat): (m: Bits)
    ensures |m| == n + 17
    ensures m[0] == bit
  {
    if bit then GENERATOR + Zeros(n) else Zeros(n + 17)
  }

  /** The product of the polynomial q and the generator. */
  function Times(q: Bits): (p: Bits)
    ensures |p| == |q| + 16
  {
    if q == [] then Zeros(16)
    else Xor(Multiple(q[0], |q| - 1), [false] + Times(q[1..]))
  }

  /** Schoolbook long division: what is left of d after subtracting multiples of the generator. */
  function Remainder(d: Bits): (r: Bits)
    requires |d| >= 16
    ensures |r| == 16
    decreases |d|
  {
    if |d| == 16 then d else Remainder(Xor(d, Multiple(d[0], |d| - 17))[1..])
  }

  function Quotient(d: Bits): (q: Bits)
    requires |d| >= 16
    ensures |q| == |d| - 16
    decreases |d|
  {
    if |d| == 16 then [] else [d[0]] + Quotient(Xor(d, Multiple(d[0], |d| - 17))[1..])
  }

  /** Dividing d by the generator gives quotient q and remainder r: d = q * generator + r. */
  ghost predicate IsDivision(d: Bits, q: Bits, r: Bits) {
    |r| == 16 && |d| == |q| + 16 && d == Xor(Times(q), Zeros(|q|) + r)
  }

  // ------------------------------------------------------------------ addition

  lemma XorCancel(a: Bits, b: Bits)
    requires |a| == |b|
    ensures Xor(Xor(a, b), b) == a
  {
  }

  lemma XorRotate(a: Bits, b: Bits, c: Bits)
    requires |a| == |b| == |c|
    ensures Xor(Xor(a, b), c) == Xor(Xor(c, a), b)
  {
  }

  lemma XorInterchange(a: Bits, b: Bits, c: Bits, d: Bits)
    requires |a| == |b| == |c| == |d|
    ensures Xor(Xor(a, b), Xor(c, d)) == Xor(Xor(a, c), Xor(b, d))
  {
  }

  lemma XorTranspose(a: Bits, b: Bits, c: Bits, d: Bits)
    requires |a| == |b| == |c| == |d| && Xor(a, b) == Xor(c, d)
    ensures Xor(a, c) == Xor(b, d)
  {
    forall i | 0 <= i < |a| ensures Xor(a, c)[i] == Xor(b, d)[i] {
      assert Xor(a, b)[i] == Xor(c, d)[i];
    }
  }

  lemma XorConcat(a: Bits, b: Bits, c: Bits, d: Bits)
    requires |a| == |c| && |b| == |d|
    ensures Xor(a + b, c + d) == Xor(a, c) + Xor(b, d)
  {
  }

  lemma XorZeros(n: nat)
    ensures Xor(Zeros(n), Zeros(n)) == Zeros(n)
  {
  }

  lemma XorZeroLeft(r: Bits)
    ensures Xor(Zeros(|r|), r) == r
    ensures Zeros(0) + r == r
  {
  }

  lemma XorIsZero(a: Bits, b: Bits)
    requires |a| == |b| && Xor(a, b) == Zeros(|a|)
    ensures a == b
  {
    forall i | 0 <= i < |a| ensures a[i] == b[i] {
      assert !Xor(a, b)[i];
    }
  }

  lemma XorCons(a: Bits, b: Bits)
    requires |a| == |b| > 0
    ensures Xor(a, b)[0] == (a[0] != b[0])
    ensures Xor(a, b)[1..] == Xor(a[1..], b[1..])
    ensures Xor([false], [false]) == [false]
  {
  }

  lemma FirstCancels(d: Bits, n: nat)
    requires |d| == n + 17
    ensures !Xor(d, Multiple(d[0], n))[0]
    ensures Xor([false], [false]) == [false]
  {
  }

  lemma MultipleXor(a: bool, b: bool, n: nat)
    ensures Multiple(a != b, n) == Xor(Multiple(a, n), Multiple(b, n))
  {
  }

  // ------------------------------------------------------------------ division

  lemma {:induction false} DivisionIdentity(d: Bits)
    requires |d| >= 16
    ensures IsDivision(d, Quotient(d), Remainder(d))
    decreases |d|
  {
    hide Xor, Multiple;
    var q, r, n := Quotient(d), Remainder(d), |d| - 16;
    if n == 0 {
      XorZeroLeft(d);
    } else {
      var m := Multiple(d[0], n - 1);
      var rest := Xor(d, m)[1..];
      DivisionIdentity(rest);
      assert q[1..] == Quotient(rest);
      var t, z := Times(q[1..]), Zeros(n - 1) + r;
      FirstCancels(d, n - 1);
      assert Xor(d, m) == [false] + rest;
      assert Zeros(n) + r == [false] + z;
      XorConcat([false], t, [false], z);
      XorCancel(d, m);
      XorRotate([false] + t, [false] + z, m);
    }
  }

  lemma {:induction false} TimesXor(p: Bits, q: Bits)
    requires |p| == |q|
    ensures Times(Xor(p, q)) == Xor(Times(p), Times(q))
    decreases |p|
  {
    hide Xor, Multiple;
    if p == [] {
      XorZeros(16);
    } else {
      var n := |p| - 1;
      var t, u := Times(p[1..]), Times(q[1..]);
      TimesXor(p[1..], q[1..]);
      XorCons(p, q);
      MultipleXor(p[0], q[0], n);
      XorConcat([false], t, [false], u);
      XorInterchange(Multiple(p[0], n), Multiple(q[0], n), [false] + t, [false] + u);
    }
  }

  /** No non-zero multiple of the generator has degree below 16. */
  lemma {:induction false} SmallMultipleIsZero(q: Bits)
    requires forall i :: 0 <= i < |q| ==> !Times(q)[i]
    ensures q == Zeros(|q|)
    ensures Times(q) == Zeros(|q| + 16)
    decreases |q|
  {
    if q != [] {
      var t := Times(q[1..]);
      assert !Times(q)[0];
      assert !q[0];
      assert Times(q) == [false] + t;
      forall i | 0 <= i < |q[1..]| ensures !t[i] {
        assert t[i] == Times(q)[i + 1];
      }
      SmallMultipleIsZero(q[1..]);
      assert q == [q[0]] + q[1..];
    }
  }

  /** Division has one answer: whatever quotient and remainder satisfy the identity are the
      ones that long division finds. */
  lemma RemainderUnique(d: Bits, q: Bits, r: Bits)
    requires IsDivision(d, q, r)
    ensures r == Remainder(d) && q == Quotient(d)
  {
    hide Xor, Times;
    DivisionIdentity(d);
    var q', r' := Quotient(d), Remainder(d);
    var z := Zeros(|q|);
    XorTranspose(Times(q), z + r, Times(q'), z + r');
    TimesXor(q, q');
    XorConcat(z, r, z, r');
    XorZeros(|q|);
    SmallMultipleIsZero(Xor(q, q'));
    assert Xor(r, r') == Times(Xor(q, q'))[|q|..];
    XorIsZero(q, q');
    XorIsZero(r, r');
  }

  /** Division is linear. */
  lemma RemainderXor(a: Bits, b: Bits)
    requires |a| == |b| >= 16
    ensures Remainder(Xor(a, b)) == Xor(Remainder(a), Remainder(b))
  {
    var qa, qb, ra, rb := Quotient(a), Quotient(b), Remainder(a), Remainder(b);
    hide Xor, Times;
    DivisionIdentity(a);
    DivisionIdentity(b);
    var z := Zeros(|qa|);
    XorInterchange(Times(qa), z + ra, Times(qb), z + rb);
    TimesXor(qa, qb);
    XorConcat(z, ra, z, rb);
    XorZeros(|qa|);
    RemainderUnique(Xor(a, b), Xor(qa, qb), Xor(ra, rb));
  }

  /** Leading zero coefficients do not change a remainder. */
  lemma {:induction false} LeadingZeros(n: nat, d: Bits)
    requires |d| >= 16
    ensures Remainder(Zeros(n) + d) == Remainder(d)
  {
    if n == 0 {
      assert Zeros(0) + d == d;
    } else {
      LeadingZeros(n - 1, d);
      var z := Zeros(n) + d;
      assert Xor(z, Multiple(z[0], |z| - 17))[1..] == Zeros(n - 1) + d;
    }
  }
}
