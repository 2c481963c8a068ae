/** Exponent arithmetic in a subgroup of order dividing q of the integers modulo p. */
module ModGroup {
  import opened Arith

  function Pow(b: nat, e: nat): nat {
    if e == 0 then 1 else b * Pow(b, e - 1)
  }

  /** `BN_mod_exp` */
  function ModExp(b: nat, e: nat, p: nat): (r: nat)
    requires p > 1
    ensures r < p
  {
    Pow(b, e) % p
  }

  /** `BN_mod_mul` */
  function ModMul(a: nat, b: nat, p: nat): (r: nat)
    requires p > 0
    ensures r < p
  {
    (a * b) % p
  }

  /** `BN_mod_sub`: the non-negative remainder of the difference. */
  function ModSub(a: int, b: int, q: nat): (r: nat)
    requires q > 0
    ensures r < q
  {
    (a - b) % q
  }

  /** A group description; `g` has order dividing `q`. */
  datatype Group = Group(p: nat, q: nat, g: nat) {
    ghost predicate Valid() {
      p > 1 && q > 0 && g < p && Pow(g, q) % p == 1
    }

    /** The power of the generator with an arbitrary integer exponent, read modulo the order. */
    ghost function G(e: int): (r: nat)
      requires p > 1 && q > 0
      ensures r < p
    {
      ModExp(g, e % q, p)
    }
  }

  lemma ModAddMultiple(x: int, k: int, m: int)
    requires m > 0
    ensures (x + k * m) % m == x % m
  {
    DivDef(x, m);
    assert x + k * m == (x / m + k) * m + x % m;
    RemainderIs(x + k * m, m, x / m + k, x % m);
  }

  lemma MulModLeft(a: int, b: int, m: int)
    requires m > 0
    ensures ((a % m) * b) % m == (a * b) % m
  {
    DivDef(a, m);
    assert a * b == (a % m) * b + ((a / m) * b) * m;
    ModAddMultiple((a % m) * b, (a / m) * b, m);
  }

  lemma MulMod(a: int, b: int, m: int)
    requires m > 0
    ensures ((a % m) * (b % m)) % m == (a * b) % m
  {
    MulModLeft(a, b % m, m);
    MulModLeft(b, a, m);
  }

  lemma {:induction false} PowAdd(b: nat, x: nat, y: nat)
    ensures Pow(b, x + y) == Pow(b, x) * Pow(b, y)
    decreases x
  {
    if x > 0 {
      PowAdd(b, x - 1, y);
      assert Pow(b, x + y) == b * (Pow(b, x - 1) * Pow(b, y));
    }
  }

  lemma {:induction false} PowPow(b: nat, x: nat, y: nat)
    ensures x * y >= 0 && Pow(Pow(b, x), y) == Pow(b, x * y)
    decreases y
  {
    if y > 0 {
      PowPow(b, x, y - 1);
      assert x * y == x + x * (y - 1);
      PowAdd(b, x, x * (y - 1));
    }
  }

  lemma MulCongruent(a: int, a': int, c: int, c': int, m: int)
    requires m > 0 && a % m == a' % m && c % m == c' % m
    ensures (a * c) % m == (a' * c') % m
  {
    MulMod(a, c, m);
    MulMod(a', c', m);
  }

  lemma {:induction false} PowCongruent(a: nat, b: nat, e: nat, p: nat)
    requires p > 0 && a % p == b % p
    ensures Pow(a, e) % p == Pow(b, e) % p
  {
    if e > 0 {
      PowCongruent(a, b, e - 1, p);
      MulCongruent(a, b, Pow(a, e - 1), Pow(b, e - 1), p);
    }
  }

  lemma {:induction false} OnePow(k: nat)
    ensures Pow(1, k) == 1
  {
    if k > 0 { OnePow(k - 1); }
  }

  lemma UnitPow(b: nat, k: nat, p: nat)
    requires p > 1 && b % p == 1
    ensures Pow(b, k) % p == 1
  {
    assert 1 % p == 1;
    PowCongruent(b, 1, k, p);
    OnePow(k);
  }

  lemma DropUnitFactor(b: nat, x: nat, r: nat, p: nat)
    requires p > 1 && Pow(b, x) % p == 1
    ensures Pow(b, x + r) % p == Pow(b, r) % p
  {
    PowAdd(b, x, r);
    MulModLeft(Pow(b, x), Pow(b, r), p);
  }

  /** Exponents matter only modulo the order. */
  lemma PowReduces(grp: Group, e: nat)
    requires grp.Valid()
    ensures Pow(grp.g, e) % grp.p == grp.G(e)
  {
    var k, x := e / grp.q, e - e % grp.q;
    DivDef(e, grp.q);
    assert x == grp.q * k >= 0;
    UnitPow(Pow(grp.g, grp.q), k, grp.p);
    PowPow(grp.g, grp.q, k);
    DropUnitFactor(grp.g, x, e % grp.q, grp.p);
  }

  lemma CongruentExponents(grp: Group, x: int, y: int, k: int)
    requires grp.Valid() && x == y + k * grp.q
    ensures grp.G(x) == grp.G(y)
  {
    ModAddMultiple(y, k, grp.q);
  }

  /** Multiplying powers adds exponents. */
  lemma MulAddsExponents(grp: Group, x: int, y: int)
    requires grp.Valid()
    ensures ModMul(grp.G(x), grp.G(y), grp.p) == grp.G(x + y)
  {
    var q := grp.q;
    var a, b := x % q, y % q;
    PowAdd(grp.g, a, b);
    MulMod(Pow(grp.g, a), Pow(grp.g, b), grp.p);
    PowReduces(grp, a + b);
    DivDef(x, q);
    DivDef(y, q);
    assert x + y == a + b + (x / q + y / q) * q;
    ModAddMultiple(a + b, x / q + y / q, q);
  }

  /** Raising a power multiplies exponents. */
  lemma ExpMultipliesExponents(grp: Group, x: int, e: nat)
    requires grp.Valid()
    ensures ModExp(grp.G(x), e, grp.p) == grp.G(x * e)
  {
    var q := grp.q;
    var a := x % q;
    PowCongruent(grp.G(x), Pow(grp.g, a), e, grp.p);
    PowPow(grp.g, a, e);
    PowReduces(grp, a * e);
    MulModLeft(x, e, q);
  }

  lemma UnitExponent(grp: Group)
    requires grp.Valid()
    ensures grp.G(0) == 1
  {
    assert 0 % grp.q == 0;
    assert Pow(grp.g, 0) == 1;
  }

  lemma Cancel(u: nat, v: nat, w: nat, n: nat, p: nat)
    requires p > 1 && v < p && ModMul(u, v, p) == w && ModMul(w, n, p) == u && ModMul(v, n, p) == 1
    ensures w == v <==> u == 1
  {
    assert 1 * v == v;
  }

  /** Two powers agree exactly when the power of the difference is one. */
  lemma EqualIffDifferenceIsUnit(grp: Group, x: int, y: int)
    requires grp.Valid()
    ensures grp.G(x) == grp.G(y) <==> grp.G(x - y) == 1
  {
    MulAddsExponents(grp, x, -y);
    MulAddsExponents(grp, y, -y);
    MulAddsExponents(grp, x - y, y);
    assert x + -y == x - y && y + -y == 0 && x - y + y == x;
    UnitExponent(grp);
    Cancel(grp.G(x - y), grp.G(y), grp.G(x), grp.G(-y), grp.p);
  }
}
