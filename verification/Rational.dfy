/** boost::rational: comparison by continued fractions, and arithmetic that divides out only the common
    factors that can occur. Components are unbounded integers. */
module Rational {
  import opened NumberTheory

  predicate Normal(n: int, d: int) {
    d > 0 && Gcd(n, d) == 1
  }

  /** `n / d` and `p / q` are the same number. */
  predicate SameRatio(n: int, d: int, p: int, q: int) {
    n * q == p * d
  }

  /** A number has only one normal form, so comparing components, as `operator==` does, is exact. */
  lemma NormalFormIsUnique(n: int, d: int, p: int, q: int)
    requires Normal(n, d) && Normal(p, q)
    ensures SameRatio(n, d, p, q) <==> n == p && d == q
  {
    if SameRatio(n, d, p, q) {
      CoprimeIsGcdOne(n, d);
      CoprimeIsGcdOne(p, q);
      var k := DenominatorDivides(n, d, p, q);
      var k' := DenominatorDivides(p, q, n, d);
      assert q == k * d && d == k' * q;
      PositiveFactor(q, k, d);
      PositiveFactor(d, k', q);
      CancelFactor(n, p, d);
    }
  }

  lemma PositiveFactor(q: int, k: int, d: int)
    requires q > 0 && d > 0 && q == k * d
    ensures q >= d
  {
    assert k <= 0 ==> k * d <= 0;
  }

  lemma DenominatorDivides(n: int, d: int, p: int, q: int) returns (k: int)
    requires Coprime(n, d) && n * q == p * d
    ensures q == k * d
  {
    var x, y :| Comb(n, x, d, y) == 1;
    k := p * x + q * y;
    Spread(q, n * x, d * y);
    Regroup(q, n, x, p, d);
    Swap(q, d, y);
    Gather(p * x, q * y, d);
  }

  lemma Spread(q: int, a: int, b: int)
    ensures q * (a + b) == q * a + q * b
  {}

  lemma Gather(a: int, b: int, d: int)
    ensures a * d + b * d == (a + b) * d
  {}

  lemma Regroup(q: int, n: int, x: int, p: int, d: int)
    requires n * q == p * d
    ensures q * (n * x) == (p * x) * d
  {
    assert q * (n * x) == (n * q) * x;
    assert (p * d) * x == (p * x) * d;
  }

  lemma Swap(q: int, d: int, y: int)
    ensures q * (d * y) == (q * y) * d
  {}

  // ----- the algebra behind the compound assignments

  /** Why dividing a sum by only the gcd of its numerator and the gcd of the denominators is enough: the
      operands are `a / (b1 * g)` and `c / (d1 * g)`, the sum of the scaled numerators is `n * h`, and the
      shared part `g` of the denominators is `k * h`. */
  lemma SumCoprime(a: int, c: int, b1: int, d1: int, g: int, n: int, h: int, k: int)
    requires Coprime(a, b1 * g) && Coprime(c, d1 * g) && Coprime(b1, d1)
    requires a * d1 + c * b1 == n * h && g == k * h && Coprime(n, k)
    ensures Coprime(n, b1 * (d1 * k))
  {
    CoprimeFactor(a, b1, g);
    CoprimeFactor(c, d1, g);
    CoprimeSym(b1, d1);
    PartCoprime(a, d1, b1, c, n, h);
    PartCoprime(c, b1, d1, a, n, h);
    CoprimeMul(n, d1, k);
    CoprimeMul(n, b1, d1 * k);
  }

  /** `a * u + c * v` shares no factor with `v` when neither `a` nor `u` does. */
  lemma PartCoprime(a: int, u: int, v: int, c: int, n: int, h: int)
    requires Coprime(a, v) && Coprime(u, v) && a * u + c * v == n * h
    ensures Coprime(n, v)
  {
    CoprimeSym(a, v);
    CoprimeSym(u, v);
    CoprimeMul(v, a, u);
    CoprimeSym(v, a * u);
    CoprimeShift(a * u, v, c);
    CoprimeSym(n * h, v);
    CoprimeFactor(v, n, h);
    CoprimeSym(v, n);
  }

  lemma SumExact(a: int, c: int, b1: int, d1: int, g: int, n: int, h: int, k: int)
    requires a * d1 + c * b1 == n * h && g == k * h
    ensures SameRatio(n, b1 * (d1 * k), a * (d1 * g) + c * (b1 * g), (b1 * g) * (d1 * g))
  {
    var m := b1 * (d1 * k);
    assert a * (d1 * g) + c * (b1 * g) == (a * d1 + c * b1) * g == n * h * g;
    assert (b1 * g) * (d1 * g) == (b1 * (d1 * g)) * g;
    assert b1 * (d1 * (k * h)) == m * h by {
      assert d1 * (k * h) == (d1 * k) * h;
      assert b1 * ((d1 * k) * h) == m * h;
    }
    assert n * ((m * h) * g) == (n * h * g) * m;
  }

  /** What `operator+=` computes, with its two gcds; `operator-=` is the same with `-c`. */
  lemma FrugalSum(a: int, b: int, c: int, d: int)
    requires Normal(a, b) && Normal(c, d)
    ensures Gcd(b, d) > 0
    ensures var g := Gcd(b, d);
      var n := a * Quot(d, g) + c * Quot(b, g);
      Gcd(n, g) > 0
    ensures var g := Gcd(b, d);
      var n := a * Quot(d, g) + c * Quot(b, g);
      var h := Gcd(n, g);
      && Normal(Quot(n, h), Quot(b, g) * Quot(d, h))
      && SameRatio(Quot(n, h), Quot(b, g) * Quot(d, h), a * d + c * b, b * d)
  {
    hide Gcd, Coprime, Quot;
    var g := Gcd(b, d);
    var b1, d1 := GcdReduces(b, d);
    QuotExact(b1, g);
    QuotExact(d1, g);
    var n := a * d1 + c * b1;
    var h := Gcd(n, g);
    var n', k := GcdReduces(n, g);
    QuotExact(n', h);
    assert d1 * (k * h) == (d1 * k) * h;
    QuotExact(d1 * k, h);
    CoprimeIsGcdOne(a, b);
    CoprimeIsGcdOne(c, d);
    SumCoprime(a, c, b1, d1, g, n', h, k);
    SumExact(a, c, b1, d1, g, n', h, k);
    CoprimeIsGcdOne(n', b1 * (d1 * k));
    FactorPositive(b1, g);
    FactorPositive(d1, g);
    FactorPositive(k, h);
    ProductPositive(d1, k);
    ProductPositive(b1, d1 * k);
  }

  lemma FactorPositive(k: int, g: int)
    requires k * g > 0 && g > 0
    ensures k > 0
  {
    assert k <= 0 ==> k * g <= 0;
  }

  lemma ProductPositive(a: int, b: int)
    requires a > 0 && b > 0
    ensures a * b > 0
  {}

  /** Cross-cancelling: `(a / g1) * (c / g2)` over `(b / g2) * (d / g1)`. Dividing is the same with the
      second operand turned over, whose sign may be negative. */
  lemma FrugalProduct(a: int, b: int, c: int, d: int)
    requires Gcd(a, b) == 1 && Gcd(c, d) == 1 && b != 0 && d != 0
    ensures Gcd(a, d) > 0 && Gcd(c, b) > 0
    ensures var g1, g2 := Gcd(a, d), Gcd(c, b);
      var n, m := Quot(a, g1) * Quot(c, g2), Quot(b, g2) * Quot(d, g1);
      && m != 0 && (b > 0 && d > 0 ==> m > 0) && Gcd(n, m) == 1 && SameRatio(n, m, a * c, b * d)
  {
    hide Gcd, Coprime, Quot;
    var g1, g2 := Gcd(a, d), Gcd(c, b);
    var a', d' := GcdReduces(a, d);
    var c', b' := GcdReduces(c, b);
    QuotExact(a', g1);
    QuotExact(d', g1);
    QuotExact(c', g2);
    QuotExact(b', g2);
    ProductCoprime(a', b', c', d', g1, g2);
    ProductExact(a', b', c', d', g1, g2);
    CoprimeIsGcdOne(a' * c', b' * d');
    NonZeroProduct(b', g2);
    NonZeroProduct(d', g1);
    NonZeroProduct(b', d');
    if b > 0 && d > 0 {
      FactorPositive(b', g2);
      FactorPositive(d', g1);
      ProductPositive(b', d');
    }
  }

  lemma ProductCoprime(a: int, b: int, c: int, d: int, g1: int, g2: int)
    requires Gcd(a * g1, b * g2) == 1 && Gcd(c * g2, d * g1) == 1 && Coprime(a, d) && Coprime(c, b)
    ensures Coprime(a * c, b * d)
  {
    CoprimeIsGcdOne(a * g1, b * g2);
    CoprimeIsGcdOne(c * g2, d * g1);
    PartsCoprime(a, g1, b, g2);
    PartsCoprime(c, g2, d, g1);
    CrossCoprime(a, b, c, d);
  }

  lemma CrossCoprime(a: int, b: int, c: int, d: int)
    requires Coprime(a, b) && Coprime(a, d) && Coprime(c, b) && Coprime(c, d)
    ensures Coprime(a * c, b * d)
  {
    hide Coprime;
    CoprimeMul(a, b, d);
    CoprimeMul(c, b, d);
    CoprimeSym(a, b * d);
    CoprimeSym(c, b * d);
    CoprimeMul(b * d, a, c);
    CoprimeSym(b * d, a * c);
  }

  lemma PartsCoprime(a: int, u: int, b: int, v: int)
    requires Coprime(a * u, b * v)
    ensures Coprime(a, b)
  {
    CoprimeFactor(a * u, b, v);
    CoprimeSym(a * u, b);
    CoprimeFactor(b, a, u);
    CoprimeSym(b, a);
  }

  lemma ProductExact(a: int, b: int, c: int, d: int, g1: int, g2: int)
    ensures SameRatio(a * c, b * d, (a * g1) * (c * g2), (b * g2) * (d * g1))
  {
    assert (a * g1) * (c * g2) == (a * c) * (g1 * g2);
    assert (b * g2) * (d * g1) == (b * d) * (g1 * g2);
    var x, y, z := a * c, b * d, g1 * g2;
    assert x * (y * z) == (x * z) * y;
  }

  // ----- the class

  class Rational {
    var num: int
    var den: int

    predicate IsNormal()
      reads this
    {
      Normal(num, den)
    }

    /** With a zero denominator the constructor throws and there is no object. */
    constructor (n: int, d: int)
      requires d != 0
      ensures IsNormal() && SameRatio(num, den, n, d)
    {
      num, den := n, d;
      new;
      var ok := Normalize();
    }

    /** `normalize`; false stands for the bad_rational it throws. */
    method Normalize() returns (ok: bool)
      modifies this
      ensures ok <==> old(den) != 0
      ensures ok ==> IsNormal() && SameRatio(num, den, old(num), old(den))
      ensures !ok ==> num == old(num) && den == old(den)
    {
      if den == 0 {
        return false;
      }
      if num == 0 {
        den := 1;
        return true;
      }
      NormalizeStep(num, den);
      var g := Gcd(num, den);
      num := Quot(num, g);
      den := Quot(den, g);
      if den < 0 {
        NegateBoth(num, den, old(num), old(den));
        num, den := -num, -den;
      }
      return true;
    }

    /** `operator+=`; `r` may be this object. */
    method AddAssign(r: Rational)
      requires IsNormal() && r.IsNormal()
      modifies this
      ensures IsNormal()
      ensures SameRatio(num, den, old(num) * old(r.den) + old(r.num) * old(den), old(den) * old(r.den))
    {
      FrugalSum(num, den, r.num, r.den);
      var rNum, rDen := r.num, r.den;
      var g := Gcd(den, rDen);
      den := Quot(den, g);
      num := num * Quot(rDen, g) + rNum * den;
      g := Gcd(num, g);
      num := Quot(num, g);
      den := den * Quot(rDen, g);
    }

    /** `operator-=`; `r` may be this object. */
    method SubAssign(r: Rational)
      requires IsNormal() && r.IsNormal()
      modifies this
      ensures IsNormal()
      ensures SameRatio(num, den, old(num) * old(r.den) - old(r.num) * old(den), old(den) * old(r.den))
    {
      NegateNormal(r.num, r.den);
      FrugalSum(num, den, -r.num, r.den);
      var rNum, rDen := r.num, r.den;
      var g := Gcd(den, rDen);
      den := Quot(den, g);
      ProductNegate(rNum, den);
      ProductNegate(rNum, old(den));
      num := num * Quot(rDen, g) - rNum * den;
      g := Gcd(num, g);
      num := Quot(num, g);
      den := den * Quot(rDen, g);
    }

    /** `operator*=`; `r` may be this object. */
    method MulAssign(r: Rational)
      requires IsNormal() && r.IsNormal()
      modifies this
      ensures IsNormal()
      ensures SameRatio(num, den, old(num) * old(r.num), old(den) * old(r.den))
    {
      FrugalProduct(num, den, r.num, r.den);
      var rNum, rDen := r.num, r.den;
      var gcd1 := Gcd(num, rDen);
      var gcd2 := Gcd(rNum, den);
      num := Quot(num, gcd1) * Quot(rNum, gcd2);
      den := Quot(den, gcd2) * Quot(rDen, gcd1);
    }

    /** `operator/=`; `r` may be this object. False stands for the bad_rational thrown for a zero divisor. */
    method DivAssign(r: Rational) returns (ok: bool)
      requires IsNormal() && r.IsNormal()
      modifies this
      ensures IsNormal()
      ensures ok <==> old(r.num) != 0
      ensures ok ==> SameRatio(num, den, old(num) * old(r.den), old(den) * old(r.num))
      ensures !ok ==> num == old(num) && den == old(den)
    {
      var rNum, rDen := r.num, r.den;
      if rNum == 0 {
        return false;
      }
      if num == 0 {
        return true;
      }
      CoprimeIsGcdOne(rNum, rDen);
      CoprimeSym(rNum, rDen);
      CoprimeIsGcdOne(rDen, rNum);
      FrugalProduct(num, den, rDen, rNum);
      var gcd1 := Gcd(num, rNum);
      var gcd2 := Gcd(rDen, den);
      num := Quot(num, gcd1) * Quot(rDen, gcd2);
      den := Quot(den, gcd2) * Quot(rNum, gcd1);
      if den < 0 {
        NegateBoth(num, den, old(num) * rDen, old(den) * rNum);
        num, den := -num, -den;
      }
      return true;
    }

    /** `operator<`: compares the continued fraction expansions of two numbers with positive denominators,
        term by term. */
    method LessThan(r: Rational) returns (less: bool)
      requires den > 0 && r.den > 0
      ensures less <==> num * r.den < r.num * den
    {
      var tn, td, tq, tr := num, den, Quot(num, den), Rem(num, den);
      var rn, rd, rq, rr := r.num, r.den, Quot(r.num, r.den), Rem(r.num, r.den);
      var reverse := false;
      RemBounds(num, den);
      RemBounds(r.num, r.den);
      while tr < 0
        invariant tn == tq * td + tr && -td < tr < td == den && tn == num
        decreases -tr
      {
        tr := tr + td;
        tq := tq - 1;
      }
      while rr < 0
        invariant rn == rq * rd + rr && -rd < rr < rd == r.den && rn == r.num
        decreases -rr
      {
        rr := rr + rd;
        rq := rq - 1;
      }
      while true
        invariant tn == tq * td + tr && 0 <= tr < td
        invariant rn == rq * rd + rr && 0 <= rr < rd
        invariant num * r.den < r.num * den <==> if reverse then rn * td < tn * rd else tn * rd < rn * td
        decreases td
      {
        if tq != rq {
          QuotientsDecide(tn, td, tq, tr, rn, rd, rq, rr);
          return if reverse then tq > rq else tq < rq;
        }
        SameQuotients(tn, td, tr, rn, rd, rr, tq);
        reverse := !reverse;
        if tr == 0 || rr == 0 {
          break;
        }
        tn, td := td, tr;
        tq, tr := Quot(tn, td), Rem(tn, td);
        RemBounds(tn, td);
        rn, rd := rd, rr;
        rq, rr := Quot(rn, rd), Rem(rn, rd);
        RemBounds(rn, rd);
      }
      ZeroRemainder(td, tr, rd, rr);
      if tr == rr {
        return false;
      } else {
        return (tr != 0) != reverse;
      }
    }
  }

  lemma NormalizeStep(n: int, d: int)
    requires n != 0 && d != 0
    ensures Gcd(n, d) > 0
    ensures var n', d' := Quot(n, Gcd(n, d)), Quot(d, Gcd(n, d));
      d' != 0 && Gcd(n', d') == 1 && SameRatio(n', d', n, d)
  {
    hide Gcd, Coprime, Quot;
    var g := Gcd(n, d);
    var i, j := GcdReduces(n, d);
    QuotExact(i, g);
    QuotExact(j, g);
    CoprimeIsGcdOne(i, j);
    NonZeroProduct(j, g);
    assert i * (j * g) == (i * g) * j;
  }

  lemma NegateNormal(n: int, d: int)
    requires Normal(n, d)
    ensures Normal(-n, d)
  {
    CoprimeIsGcdOne(n, d);
    CoprimeNegate(n, d);
    CoprimeIsGcdOne(-n, d);
  }

  lemma ProductNegate(a: int, b: int)
    ensures -a * b == -(a * b)
  {}

  lemma NegateBoth(n: int, d: int, p: int, q: int)
    requires Gcd(n, d) == 1 && SameRatio(n, d, p, q)
    ensures Gcd(-n, -d) == 1 && SameRatio(-n, -d, p, q)
  {
    CoprimeIsGcdOne(n, d);
    CoprimeNegate(n, d);
    CoprimeIsGcdOne(-n, -d);
    ProductNegate(n, q);
    ProductNegate(d, p);
  }

  // ----- the steps of the comparison

  /** Different whole parts decide. */
  lemma QuotientsDecide(tn: int, td: int, tq: int, tr: int, rn: int, rd: int, rq: int, rr: int)
    requires tn == tq * td + tr && 0 <= tr < td && rn == rq * rd + rr && 0 <= rr < rd && tq != rq
    ensures tn * rd < rn * td <==> tq < rq
    ensures rn * td < tn * rd <==> rq < tq
  {
    if tq < rq {
      SmallerQuotient(tn, td, tq, tr, rn, rd, rq, rr);
    } else {
      SmallerQuotient(rn, rd, rq, rr, tn, td, tq, tr);
    }
  }

  lemma SmallerQuotient(tn: int, td: int, tq: int, tr: int, rn: int, rd: int, rq: int, rr: int)
    requires tn == tq * td + tr && 0 <= tr < td && rn == rq * rd + rr && 0 <= rr < rd && tq < rq
    ensures tn * rd < rn * td
  {
    assert (tq + 1) * td == tq * td + td;
    Monotone(tq + 1, rq, td);
    StrictlyMonotone(tn, rq * td, rd);
    Monotone(rq * rd, rn, td);
    assert (rq * td) * rd == (rq * rd) * td;
  }

  lemma Monotone(a: int, b: int, k: int)
    requires a <= b && k > 0
    ensures a * k <= b * k
  {}

  lemma StrictlyMonotone(a: int, b: int, k: int)
    requires a < b && k > 0
    ensures a * k < b * k
  {}

  /** With equal whole parts, the order of the numbers is the reverse order of the inverted remainders. */
  lemma SameQuotients(tn: int, td: int, tr: int, rn: int, rd: int, rr: int, q: int)
    requires tn == q * td + tr && rn == q * rd + rr
    ensures tn * rd < rn * td <==> rd * tr < td * rr
    ensures rn * td < tn * rd <==> td * rr < rd * tr
  {
    assert tn * rd == q * (td * rd) + rd * tr;
    assert rn * td == q * (td * rd) + td * rr;
  }

  /** When an expansion has ended, its number is at the bound that the other one stays above. */
  lemma ZeroRemainder(td: int, tr: int, rd: int, rr: int)
    requires 0 <= tr < td && 0 <= rr < rd && (tr == 0 || rr == 0)
    ensures rd * tr < td * rr <==> tr == 0 && rr != 0
    ensures td * rr < rd * tr <==> rr == 0 && tr != 0
  {
    if rr > 0 { ProductPositive(td, rr); }
    if tr > 0 { ProductPositive(rd, tr); }
  }

  // ----- the normal-form test of converting constructors

  /** `inner_gcd`, Euclid's algorithm on truncating remainders: the result may be negative. */
  function InnerGcd(a: int, b: int): int
    decreases Abs(b)
  {
    if b == 0 then a else RemSmaller(a, b); InnerGcd(b, Rem(a, b))
  }

  lemma RemSmaller(a: int, b: int)
    requires b != 0
    ensures Abs(Rem(a, b)) < Abs(b)
  {}

  /** `is_normalized` */
  predicate IsNormalized(n: int, d: int) {
    d > 0 && (n != 0 || d == 1) && Abs(InnerGcd(n, d)) == 1
  }

  lemma {:induction false} InnerGcdIsGcd(a: int, b: int)
    ensures Abs(InnerGcd(a, b)) == Gcd(a, b)
    decreases Abs(b)
  {
    if b != 0 {
      RemSmaller(a, b);
      InnerGcdIsGcd(b, Rem(a, b));
      RemKeepsGcd(a, b);
      hide Gcd, Rem;
      assert InnerGcd(a, b) == InnerGcd(b, Rem(a, b));
    }
  }

  lemma RemKeepsGcd(a: int, b: int)
    requires b != 0
    ensures Gcd(b, Rem(a, b)) == Gcd(a, b)
  {
    hide Gcd, Quot;
    var k := -Quot(a, b);
    assert Rem(a, b) == a + k * b;
    ShiftGcd(a, b, k);
  }

  /** Adding multiples of one number to the other keeps their gcd. */
  lemma ShiftGcd(a: int, b: int, k: int)
    ensures Gcd(b, a + k * b) == Gcd(a, b)
  {
    hide Gcd;
    var u := ShiftDivides(a, b, k);
    var w := UnshiftDivides(a, b, k);
    MutualDivisors(Gcd(a, b), Gcd(b, a + k * b), w, u);
  }

  lemma ShiftDivides(a: int, b: int, k: int) returns (u: int)
    ensures Gcd(b, a + k * b) == u * Gcd(a, b)
  {
    hide Gcd;
    var g := Gcd(a, b);
    var i, j := GcdDivides(a, b);
    assert i * g + k * (j * g) == (i + k * j) * g;
    u := GcdGreatest(b, a + k * b, g, j, i + k * j);
  }

  lemma UnshiftDivides(a: int, b: int, k: int) returns (v: int)
    ensures Gcd(a, b) == v * Gcd(b, a + k * b)
  {
    hide Gcd;
    var g := Gcd(b, a + k * b);
    var i, j := GcdDivides(b, a + k * b);
    assert j * g - k * (i * g) == (j - k * i) * g;
    v := GcdGreatest(a, b, g, j - k * i, i);
  }

  lemma MutualDivisors(g: nat, g': nat, v: int, u: int)
    requires g == v * g' && g' == u * g
    ensures g == g'
  {
    assert v <= 0 ==> v * g' <= 0;
    assert u <= 0 ==> u * g <= 0;
    assert v >= 1 ==> v * g' >= g';
    assert u >= 1 ==> u * g >= g;
  }

  lemma IsNormalizedIsNormal(n: int, d: int)
    ensures IsNormalized(n, d) <==> Normal(n, d)
  {
    InnerGcdIsGcd(n, d);
    if n == 0 && d > 0 {
      assert Gcd(0, d) == Gcd(d, 0 % d) == d;
    }
  }
}
