/** Polynomials over GF(2) as coefficient sequences, the highest power first. */
module Polynomials {

  type Poly = seq<bool>

  function Zeros(n: nat): (p: Poly)
    ensures |p| == n
  {
    seq(n, _ => false)
  }

  function Add(p: Poly, q: Poly): (r: Poly)
    requires |p| == |q|
    ensures |r| == |p|
  {
    seq(|p|, i requires 0 <= i < |p| => p[i] != q[i])
  }

  /** The product, by Horner's rule on q: (q*x + t) * g = (q*g)*x + t*g. */
  function Mul(q: Poly, g: Poly): (r: Poly)
    requires |g| >= 1
    ensures |r| == |q| + |g| - 1
  {
    if q == [] then Zeros(|g| - 1)
    else
      var n := |q| - 1;
      Add(Mul(q[..n], g) + [false], Zeros(n) + (if q[n] then g else Zeros(|g|)))
  }

  lemma MulUnfold(q: Poly, t: bool, g: Poly)
    requires |g| >= 1
    ensures Mul(q + [t], g) == Add(Mul(q, g) + [false], Zeros(|q|) + (if t then g else Zeros(|g|)))
  {
    var p := q + [t];
    assert p[..|q|] == q && p[|q|] == t;
  }

  /** The coefficients of x^16 .. x^0 of x^16 + x^12 + x^5 + 1. */
  const GENERATOR: Poly :=
    [true, false, false, false, true, false, false, false, false, false, false, true, false, false, false, false, true]

  /** q and r divide m(x) * x^16 by the generator. */
  ghost predicate IsDivision(m: Poly, q: Poly, r: Poly) {
    |r| == 16 && |q| == |m| && m + Zeros(16) == Add(Mul(q, GENERATOR), Zeros(|m|) + r)
  }

  /** r is a remainder of m(x) * x^16 modulo the generator. */
  ghost predicate IsRemainder(m: Poly, r: Poly) {
    exists q: Poly :: IsDivision(m, q, r)
  }

  /** Multiplication of a remainder by x. */
  function TimesX(r: Poly): (r': Poly)
    requires |r| == 16
    ensures |r'| == 16
  {
    Add(r[1..] + [false], if r[0] then GENERATOR[1..] else Zeros(16))
  }

  function TimesXs(r: Poly, n: nat): (r': Poly)
    requires |r| == 16
    ensures |r'| == 16
  {
    if n == 0 then r else TimesX(TimesXs(r, n - 1))
  }

  /** Long division, one message coefficient at a time. */
  function Feed(r: Poly, m: bool): (r': Poly)
    requires |r| == 16
    ensures |r'| == 16
  {
    TimesX([r[0] != m] + r[1..])
  }

  function Serial(r: Poly, bits: Poly): (r': Poly)
    requires |r| == 16
    ensures |r'| == 16
  {
    if bits == [] then r else Feed(Serial(r, bits[..|bits| - 1]), bits[|bits| - 1])
  }

  lemma SerialSnoc(r: Poly, bits: Poly, m: bool)
    requires |r| == 16
    ensures Serial(r, bits + [m]) == Feed(Serial(r, bits), m)
  {
    assert (bits + [m])[..|bits|] == bits;
  }

  lemma {:induction false} SerialConcat(r: Poly, a: Poly, b: Poly)
    requires |r| == 16
    ensures Serial(r, a + b) == Serial(Serial(r, a), b)
  {
    hide Feed;
    if b == [] {
      assert a + b == a;
    } else {
      var init := b[..|b| - 1];
      assert (a + b)[..|a + b| - 1] == a + init;
      SerialConcat(r, a, init);
    }
  }

  /** Only the first pending coefficient takes part in a step; the others just move up. */
  lemma PendingInput(r: Poly, w: Poly)
    requires |r| == |w| == 16
    ensures TimesX(Add(r, w)) == Add(Feed(r, w[0]), w[1..] + [false])
  {
  }

  /** So n steps on a whole word of input are the same as feeding its first n coefficients. */
  lemma {:induction false} WordIsSerial(r: Poly, w: Poly, n: nat)
    requires |r| == |w| == 16 && n <= 16
    ensures TimesXs(Add(r, w), n) == Add(Serial(r, w[..n]), w[n..] + Zeros(n))
  {
    hide TimesX, Feed;
    if n == 0 {
      assert w[0..] + Zeros(0) == w && w[..0] == [];
    } else {
      WordIsSerial(r, w, n - 1);
      var rest := w[n - 1..] + Zeros(n - 1);
      PendingInput(Serial(r, w[..n - 1]), rest);
      assert rest[1..] + [false] == w[n..] + Zeros(n);
      assert w[..n] == w[..n - 1] + [w[n - 1]];
      SerialSnoc(r, w[..n - 1], w[n - 1]);
    }
  }

  /** One step of long division. */
  lemma DivisionStep(m: Poly, q: Poly, r: Poly, b: bool)
    requires IsDivision(m, q, r)
    ensures IsDivision(m + [b], q + [r[0] != b], Feed(r, b))
  {
    hide Mul;
    var n := |m|;
    var t := r[0] != b;
    MulUnfold(q, t, GENERATOR);
    var product := Mul(q, GENERATOR);
    var subtrahend := Zeros(n) + (if t then GENERATOR else Zeros(17));
    var lhs := m + [b] + Zeros(16);
    var rhs := Add(Mul(q + [t], GENERATOR), Zeros(n + 1) + Feed(r, b));
    forall i | 0 <= i < n + 17
      ensures lhs[i] == rhs[i]
    {
      assert i < n + 16 ==> (m + Zeros(16))[i] == Add(product, Zeros(n) + r)[i];
      if i == n {
        assert GENERATOR[0];
      } else if i > n {
        FeedAt(r, b, i - n - 1);
        assert subtrahend[i] == (t && GENERATOR[i - n]);
      }
    }
    assert lhs == rhs;
  }

  lemma FeedAt(r: Poly, b: bool, j: nat)
    requires |r| == 16 && j < 16
    ensures Feed(r, b)[j] == ((if j < 15 then r[j + 1] else false) != (r[0] != b && GENERATOR[j + 1]))
  {
    var fed := [r[0] != b] + r[1..];
    assert (fed[1..] + [false])[j] == if j < 15 then r[j + 1] else false;
  }

  /** The coefficients that long division shifts out are the quotient. */
  function Quotient(bits: Poly): (q: Poly)
    ensures |q| == |bits|
  {
    if bits == [] then []
    else
      var n := |bits| - 1;
      Quotient(bits[..n]) + [Serial(Zeros(16), bits[..n])[0] != bits[n]]
  }

  lemma DivisionOfNothing()
    ensures IsDivision([], [], Serial(Zeros(16), []))
  {
    assert [] + Zeros(16) == Add(Mul([], GENERATOR), Zeros(0) + Zeros(16));
  }

  lemma {:induction false} SerialDivides(bits: Poly)
    ensures IsDivision(bits, Quotient(bits), Serial(Zeros(16), bits))
  {
    if bits == [] {
      DivisionOfNothing();
    } else {
      hide IsDivision, Feed, Mul, Add, Zeros;
      var n := |bits| - 1;
      SerialDivides(bits[..n]);
      DivisionStep(bits[..n], Quotient(bits[..n]), Serial(Zeros(16), bits[..n]), bits[n]);
      assert bits == bits[..n] + [bits[n]];
    }
  }

  lemma {:induction false} MulSnoc(q: Poly, t: bool)
    ensures var n := |q|;
            && (forall i :: 0 <= i < n ==> Mul(q + [t], GENERATOR)[i] == Mul(q, GENERATOR)[i])
            && Mul(q + [t], GENERATOR)[n] == (Mul(q, GENERATOR)[n] != t)
            && Mul(q + [t], GENERATOR)[n + 16] == t
            && (!t ==> Mul(q + [t], GENERATOR) == Mul(q, GENERATOR) + [false])
  {
    hide Mul;
    MulUnfold(q, t, GENERATOR);
    var n := |q|;
    var sum := Zeros(n) + (if t then GENERATOR else Zeros(17));
    assert sum[n] == t && sum[n + 16] == t;
  }

  /** The leading coefficients of a multiple of the generator determine the factor. */
  lemma {:induction false} FactorUnique(p: Poly, q: Poly)
    requires |p| == |q|
    requires forall i :: 0 <= i < |p| ==> Mul(p, GENERATOR)[i] == Mul(q, GENERATOR)[i]
    ensures p == q
  {
    hide Mul;
    if p != [] {
      var n := |p| - 1;
      assert p == p[..n] + [p[n]] && q == q[..n] + [q[n]];
      MulSnoc(p[..n], p[n]);
      MulSnoc(q[..n], q[n]);
      FactorUnique(p[..n], q[..n]);
    }
  }

  lemma RemainderUnique(m: Poly, q: Poly, r: Poly, q': Poly, r': Poly)
    requires IsDivision(m, q, r) && IsDivision(m, q', r')
    ensures q == q' && r == r'
  {
    var n := |m|;
    var u, v := Mul(q, GENERATOR), Mul(q', GENERATOR);
    var a, b := Add(u, Zeros(n) + r), Add(v, Zeros(n) + r');
    assert a == b;
    forall i | 0 <= i < n
      ensures u[i] == v[i]
    {
      assert a[i] == u[i] && b[i] == v[i];
    }
    FactorUnique(q, q');
    forall j | 0 <= j < 16
      ensures r[j] == r'[j]
    {
      assert a[n + j] == (u[n + j] != r[j]) && b[n + j] == (v[n + j] != r'[j]);
    }
  }

  /** Long division from the zero register finds the one remainder. */
  lemma SerialIsRemainder(m: Poly, r: Poly)
    ensures IsRemainder(m, r) <==> r == Serial(Zeros(16), m)
  {
    hide IsDivision;
    SerialDivides(m);
    if IsRemainder(m, r) {
      var q :| IsDivision(m, q, r);
      RemainderUnique(m, q, r, Quotient(m), Serial(Zeros(16), m));
    }
  }
}
