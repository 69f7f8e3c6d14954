/** Greatest common divisors and coprimality, as far as boost/rational.hpp relies on them, and C++'s
    integer division, which truncates toward zero. */
module NumberTheory {

  function Abs(n: int): nat {
    if n < 0 then -n else n
  }

  /** The non-negative greatest common divisor, `integer::gcd`. */
  function Gcd(a: int, b: int): (g: nat)
    decreases Abs(b)
  {
    if b == 0 then Abs(a) else Gcd(b, a % b)
  }

  /** C++ `/` and `%`. */
  function Quot(a: int, b: int): int
    requires b != 0
  {
    if a >= 0 then a / b else -((-a) / b)
  }

  function Rem(a: int, b: int): int
    requires b != 0
  {
    a - Quot(a, b) * b
  }

  /** `a * x + b * y` */
  function Comb(a: int, x: int, b: int, y: int): int {
    a * x + b * y
  }

  ghost predicate Coprime(a: int, b: int) {
    exists x, y :: Comb(a, x, b, y) == 1
  }

  // ----- characterising Gcd

  /** One step of Euclid's algorithm. */
  lemma EuclidStep(a: int, b: int) returns (q: int, r: int)
    requires b != 0
    ensures a == q * b + r && 0 <= r < Abs(b) && Gcd(a, b) == Gcd(b, r)
  {
    q, r := a / b, a % b;
  }

  lemma {:induction false} Bezout(a: int, b: int) returns (x: int, y: int)
    ensures Comb(a, x, b, y) == Gcd(a, b)
    decreases Abs(b)
  {
    if b == 0 {
      x, y := if a < 0 then -1 else 1, 0;
    } else {
      var q, r := EuclidStep(a, b);
      var x', y' := Bezout(b, r);
      x, y := y', x' - q * y';
      BezoutStep(a, b, q, r, x', y');
    }
  }

  lemma BezoutStep(a: int, b: int, q: int, r: int, x: int, y: int)
    requires a == q * b + r
    ensures Comb(a, y, b, x - q * y) == Comb(b, x, r, y)
  {
    assert a * y == q * b * y + r * y;
    assert b * (x - q * y) == b * x - q * b * y;
  }

  lemma {:induction false} GcdDivides(a: int, b: int) returns (i: int, j: int)
    ensures a == i * Gcd(a, b) && b == j * Gcd(a, b)
    decreases Abs(b)
  {
    if b == 0 {
      i, j := if a < 0 then -1 else 1, 0;
    } else {
      var q, r := EuclidStep(a, b);
      var i', j' := GcdDivides(b, r);
      i, j := q * i' + j', i';
      DividesStep(q, i', j', Gcd(a, b));
    }
  }

  lemma DividesStep(q: int, i: int, j: int, g: int)
    ensures q * (i * g) + j * g == (q * i + j) * g
  {
    assert q * (i * g) == (q * i) * g;
  }

  lemma GcdPositive(a: int, b: int)
    requires a != 0 || b != 0
    ensures Gcd(a, b) > 0
  {
    var i, j := GcdDivides(a, b);
    assert Gcd(a, b) == 0 ==> i * Gcd(a, b) == 0 && j * Gcd(a, b) == 0;
  }

  /** Every common divisor divides the greatest one. */
  lemma GcdGreatest(a: int, b: int, d: int, i: int, j: int) returns (k: int)
    requires a == i * d && b == j * d
    ensures Gcd(a, b) == k * d
  {
    var x, y := Bezout(a, b);
    k := i * x + j * y;
    assert (i * d) * x + (j * d) * y == (i * x + j * y) * d;
  }

  lemma CoprimeIsGcdOne(a: int, b: int)
    ensures Coprime(a, b) <==> Gcd(a, b) == 1
  {
    if Gcd(a, b) == 1 {
      var x, y := Bezout(a, b);
      assert Comb(a, x, b, y) == 1;
    }
    if Coprime(a, b) {
      CoprimeGcd(a, b);
    }
  }

  lemma CoprimeGcd(a: int, b: int)
    requires Coprime(a, b)
    ensures Gcd(a, b) == 1
  {
    var x, y :| Comb(a, x, b, y) == 1;
    var i, j := GcdDivides(a, b);
    CombOfMultiples(i, j, x, y, Gcd(a, b));
    OnlyUnitsDivideOne(Gcd(a, b), i * x + j * y);
  }

  lemma CombOfMultiples(i: int, j: int, x: int, y: int, g: int)
    ensures Comb(i * g, x, j * g, y) == (i * x + j * y) * g
  {
    assert (i * g) * x == (i * x) * g && (j * g) * y == (j * y) * g;
  }

  lemma OnlyUnitsDivideOne(g: nat, k: int)
    requires k * g == 1
    ensures g == 1
  {
    assert g == 0 ==> k * g == 0;
    assert k >= 1 ==> k * g >= g;
    assert k <= 0 ==> k * g <= 0;
  }

  // ----- rules for coprimality

  lemma CoprimeWitness(a: int, x: int, b: int, y: int)
    requires a * x + b * y == 1
    ensures Coprime(a, b)
  {
    assert Comb(a, x, b, y) == 1;
  }

  lemma CoprimeSym(a: int, b: int)
    requires Coprime(a, b)
    ensures Coprime(b, a)
  {
    var x, y :| Comb(a, x, b, y) == 1;
    CoprimeWitness(b, y, a, x);
  }

  lemma CoprimeMul(n: int, u: int, v: int)
    requires Coprime(n, u) && Coprime(n, v)
    ensures Coprime(n, u * v)
  {
    var x, y :| Comb(n, x, u, y) == 1;
    var x', y' :| Comb(n, x', v, y') == 1;
    var p, q, r, s := n * x, u * y, n * x', v * y';
    assert (p + q) * (r + s) == p * r + p * s + q * r + q * s;
    assert p * r == n * (x * r) && p * s == n * (x * s);
    assert q * r == (u * y) * (n * x') == n * (x' * q);
    assert q * s == (u * y) * (v * y') == (u * v) * (y * y');
    assert n * (x * r) + n * (x * s) + n * (x' * q) == n * (x * r + x * s + x' * q);
    CoprimeWitness(n, x * r + x * s + x' * q, u * v, y * y');
  }

  lemma CoprimeFactor(n: int, u: int, v: int)
    requires Coprime(n, u * v)
    ensures Coprime(n, u) && Coprime(n, v)
  {
    var x, y :| Comb(n, x, u * v, y) == 1;
    assert (u * v) * y == u * (v * y) == v * (u * y);
    CoprimeWitness(n, x, u, v * y);
    CoprimeWitness(n, x, v, u * y);
  }

  lemma CoprimeShift(n: int, u: int, k: int)
    requires Coprime(n, u)
    ensures Coprime(n + k * u, u)
  {
    var x, y :| Comb(n, x, u, y) == 1;
    assert (n + k * u) * x == n * x + u * (k * x);
    assert u * (y - k * x) == u * y - u * (k * x);
    CoprimeWitness(n + k * u, x, u, y - k * x);
  }

  lemma CoprimeNegate(n: int, u: int)
    requires Coprime(n, u)
    ensures Coprime(-n, -u) && Coprime(-n, u)
  {
    var x, y :| Comb(n, x, u, y) == 1;
    CoprimeWitness(-n, -x, -u, -y);
    CoprimeWitness(-n, -x, u, y);
  }

  /** Dividing two numbers by their greatest common divisor leaves coprime ones. */
  lemma GcdReduces(a: int, b: int) returns (i: int, j: int)
    requires a != 0 || b != 0
    ensures Gcd(a, b) > 0 && a == i * Gcd(a, b) && b == j * Gcd(a, b) && Coprime(i, j)
  {
    var g := Gcd(a, b);
    GcdPositive(a, b);
    i, j := GcdDivides(a, b);
    var x, y := Bezout(a, b);
    assert (i * g) * x + (j * g) * y == (i * x + j * y) * g;
    CancelFactor(i * x + j * y, 1, g);
    CoprimeWitness(i, x, j, y);
  }

  lemma CancelFactor(a: int, b: int, g: int)
    requires g != 0 && a * g == b * g
    ensures a == b
  {
    assert (a - b) * g == 0;
    NonZeroProduct(a - b, g);
  }

  lemma NonZeroProduct(a: int, b: int)
    ensures a * b == 0 <==> a == 0 || b == 0
  {}

  // ----- C++ division

  lemma QuotExact(k: int, g: int)
    requires g != 0
    ensures Quot(k * g, g) == k
  {
    if k * g >= 0 {
      DivExact(k, g);
    } else {
      assert -(k * g) == (-k) * g;
      DivExact(-k, g);
    }
  }

  lemma DivExact(k: int, g: int)
    requires g != 0
    ensures k * g / g == k
  {
    var q, r := k * g / g, k * g % g;
    assert k * g == q * g + r && 0 <= r < Abs(g);
    assert r == (k - q) * g;
    if k != q {
      assert Abs((k - q) * g) >= Abs(g) by { AbsProduct(k - q, g); }
    }
  }

  lemma AbsProduct(a: int, b: int)
    requires a != 0
    ensures Abs(a * b) >= Abs(b)
  {}

  /** C++ remainders are smaller than the divisor and have the sign of the dividend. */
  lemma RemBounds(a: int, b: int)
    requires b > 0
    ensures a == Quot(a, b) * b + Rem(a, b)
    ensures a >= 0 ==> 0 <= Rem(a, b) < b
    ensures a < 0 ==> -b < Rem(a, b) <= 0
  {}
}
