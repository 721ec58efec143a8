/**
  Arithmetic modulo a prime: the scalars of the group, and (because the group has prime
  order and generator g) the points too, each point being written as its multiple of g.
*/
module PrimeField {

  ghost predicate Divides(d: nat, n: int)
    requires d > 0
  {
    n % d == 0
  }

  ghost predicate Prime(q: nat) {
    q >= 2 && forall d: nat | 2 <= d < q :: !Divides(d, q)
  }

  // ---- Operations on canonical residues ----

  function Add(q: nat, a: nat, b: nat): (r: nat)
    requires q > 0
    ensures r < q
  {
    (a + b) % q
  }

  function Sub(q: nat, a: nat, b: nat): (r: nat)
    requires q > 0
    ensures r < q
  {
    (a - b) % q
  }

  function Mul(q: nat, a: nat, b: nat): (r: nat)
    requires q > 0
    ensures r < q
  {
    (a * b) % q
  }

  // ---- Congruence, the bridge from integer identities to residues ----

  ghost predicate Cong(q: nat, a: int, b: int)
    requires q > 0
  {
    exists k: int :: IsQuotient(q, a, b, k)
  }

  ghost predicate IsQuotient(q: nat, a: int, b: int, k: int) {
    a - b == k * q
  }

  lemma CongWitness(q: nat, a: int, b: int, k: int)
    requires q > 0 && a - b == k * q
    ensures Cong(q, a, b)
  {
    assert IsQuotient(q, a, b, k);
  }

  lemma CongMod(q: nat, a: int)
    requires q > 0
    ensures Cong(q, a % q, a)
  {
    CongWitness(q, a % q, a, -(a / q));
  }

  lemma SmallMultipleIsZero(q: nat, k: int)
    requires q > 0 && 0 < k * q + q && k * q < q
    ensures k == 0
  {
  }

  lemma CongSmall(q: nat, a: int, b: int)
    requires q > 0 && 0 <= a < q && 0 <= b < q && Cong(q, a, b)
    ensures a == b
  {
    var k :| IsQuotient(q, a, b, k);
    SmallMultipleIsZero(q, k);
  }

  lemma CongTrans(q: nat, a: int, b: int, c: int)
    requires q > 0 && Cong(q, a, b) && Cong(q, b, c)
    ensures Cong(q, a, c)
  {
    var k :| IsQuotient(q, a, b, k);
    var l :| IsQuotient(q, b, c, l);
    CongWitness(q, a, c, k + l);
  }

  lemma CongSym(q: nat, a: int, b: int)
    requires q > 0 && Cong(q, a, b)
    ensures Cong(q, b, a)
  {
    var k :| IsQuotient(q, a, b, k);
    CongWitness(q, b, a, -k);
  }

  lemma CongAdd(q: nat, a: int, a': int, b: int, b': int)
    requires q > 0 && Cong(q, a, a') && Cong(q, b, b')
    ensures Cong(q, a + b, a' + b') && Cong(q, a - b, a' - b')
  {
    var k :| IsQuotient(q, a, a', k);
    var l :| IsQuotient(q, b, b', l);
    CongWitness(q, a + b, a' + b', k + l);
    CongWitness(q, a - b, a' - b', k - l);
  }

  lemma CongMul(q: nat, a: int, a': int, b: int, b': int)
    requires q > 0 && Cong(q, a, a') && Cong(q, b, b')
    ensures Cong(q, a * b, a' * b')
  {
    var k :| IsQuotient(q, a, a', k);
    var l :| IsQuotient(q, b, b', l);
    calc {
      a * b - a' * b';
      (a - a') * b + a' * (b - b');
      k * q * b + a' * (l * q);
      (k * b + a' * l) * q;
    }
    CongWitness(q, a * b, a' * b', k * b + a' * l);
  }

  /** A residue congruent to `y` equals any other residue congruent to it. */
  lemma ResidueUnique(q: nat, r: int, s: int, y: int)
    requires q > 0 && 0 <= r < q && 0 <= s < q && Cong(q, r, y) && Cong(q, s, y)
    ensures r == s
  {
    CongSym(q, s, y);
    CongTrans(q, r, y, s);
    CongSmall(q, r, s);
  }

  // ---- Ring laws ----

  lemma AddComm(q: nat, a: nat, b: nat)
    requires q > 0
    ensures Add(q, a, b) == Add(q, b, a)
  {
  }

  lemma MulComm(q: nat, a: nat, b: nat)
    requires q > 0
    ensures Mul(q, a, b) == Mul(q, b, a)
  {
    assert a * b == b * a;
  }

  lemma MulOne(q: nat, a: nat)
    requires a < q
    ensures Mul(q, 1, a) == a && Mul(q, a, 1) == a
  {
  }

  lemma AddZero(q: nat, a: nat)
    requires a < q
    ensures Add(q, a, 0) == a && Add(q, 0, a) == a && Sub(q, a, 0) == a && Sub(q, a, a) == 0
  {
  }

  lemma MulZero(q: nat, a: nat)
    requires q > 0
    ensures Mul(q, 0, a) == 0 && Mul(q, a, 0) == 0
  {
    assert 0 * a == 0 && a * 0 == 0;
  }

  lemma AddAssoc(q: nat, a: nat, b: nat, c: nat)
    requires q > 0
    ensures Add(q, Add(q, a, b), c) == Add(q, a, Add(q, b, c))
  {
    CongMod(q, a + b); CongMod(q, b + c);
    CongWitness(q, a, a, 0); CongWitness(q, c, c, 0);
    CongAdd(q, (a + b) % q, a + b, c, c);
    CongAdd(q, a, a, (b + c) % q, b + c);
    CongMod(q, Add(q, a, b) + c); CongMod(q, a + Add(q, b, c));
    CongTrans(q, Add(q, Add(q, a, b), c), Add(q, a, b) + c, a + b + c);
    CongTrans(q, Add(q, a, Add(q, b, c)), a + Add(q, b, c), a + b + c);
    ResidueUnique(q, Add(q, Add(q, a, b), c), Add(q, a, Add(q, b, c)), a + b + c);
  }

  lemma MulAssoc(q: nat, a: nat, b: nat, c: nat)
    requires q > 0
    ensures Mul(q, Mul(q, a, b), c) == Mul(q, a, Mul(q, b, c))
  {
    CongMod(q, a * b); CongMod(q, b * c);
    CongWitness(q, a, a, 0); CongWitness(q, c, c, 0);
    CongMul(q, (a * b) % q, a * b, c, c);
    CongMul(q, a, a, (b * c) % q, b * c);
    CongMod(q, Mul(q, a, b) * c); CongMod(q, a * Mul(q, b, c));
    assert a * b * c == a * (b * c);
    CongTrans(q, Mul(q, Mul(q, a, b), c), Mul(q, a, b) * c, a * b * c);
    CongTrans(q, Mul(q, a, Mul(q, b, c)), a * Mul(q, b, c), a * b * c);
    ResidueUnique(q, Mul(q, Mul(q, a, b), c), Mul(q, a, Mul(q, b, c)), a * b * c);
  }

  lemma Distribute(q: nat, a: nat, b: nat, c: nat)
    requires q > 0
    ensures Mul(q, a, Add(q, b, c)) == Add(q, Mul(q, a, b), Mul(q, a, c))
  {
    CongWitness(q, a, a, 0);
    CongMod(q, b + c); CongMod(q, a * b); CongMod(q, a * c);
    CongMul(q, a, a, (b + c) % q, b + c);
    CongAdd(q, (a * b) % q, a * b, (a * c) % q, a * c);
    CongMod(q, a * Add(q, b, c)); CongMod(q, Mul(q, a, b) + Mul(q, a, c));
    assert a * (b + c) == a * b + a * c;
    CongTrans(q, Mul(q, a, Add(q, b, c)), a * Add(q, b, c), a * (b + c));
    CongTrans(q, Add(q, Mul(q, a, b), Mul(q, a, c)), Mul(q, a, b) + Mul(q, a, c), a * (b + c));
    ResidueUnique(q, Mul(q, a, Add(q, b, c)), Add(q, Mul(q, a, b), Mul(q, a, c)), a * (b + c));
  }

  /** Subtraction undoes addition, in both orders. */
  lemma SubAdd(q: nat, a: nat, b: nat)
    requires a < q
    ensures Add(q, Sub(q, a, b), b) == a && Sub(q, Add(q, a, b), b) == a
  {
    CongWitness(q, b, b, 0);
    CongMod(q, a - b); CongMod(q, a + b);
    CongAdd(q, (a - b) % q, a - b, b, b);
    CongAdd(q, (a + b) % q, a + b, b, b);
    CongMod(q, Sub(q, a, b) + b); CongMod(q, Add(q, a, b) - b);
    CongTrans(q, Add(q, Sub(q, a, b), b), Sub(q, a, b) + b, a);
    CongTrans(q, Sub(q, Add(q, a, b), b), Add(q, a, b) - b, a);
    CongSmall(q, Add(q, Sub(q, a, b), b), a);
    CongSmall(q, Sub(q, Add(q, a, b), b), a);
  }

  lemma AddCancel(q: nat, a: nat, b: nat, c: nat)
    requires a < q && b < q && Add(q, a, c) == Add(q, b, c)
    ensures a == b
  {
    SubAdd(q, a, c);
    SubAdd(q, b, c);
  }

  /** x = y - z exactly when x + z = y. */
  lemma SubIff(q: nat, x: nat, y: nat, z: nat)
    requires x < q && y < q
    ensures x == Sub(q, y, z) <==> Add(q, x, z) == y
  {
    SubAdd(q, y, z);
    SubAdd(q, x, z);
  }

  lemma DistributeSub(q: nat, a: nat, b: nat, c: nat)
    requires b < q
    ensures Mul(q, a, Sub(q, b, c)) == Sub(q, Mul(q, a, b), Mul(q, a, c))
  {
    Distribute(q, a, Sub(q, b, c), c);
    SubAdd(q, b, c);
    SubIff(q, Mul(q, a, Sub(q, b, c)), Mul(q, a, b), Mul(q, a, c));
  }

  /** (a + b) - (a + c) = b - c. */
  lemma SubOfSums(q: nat, a: nat, b: nat, c: nat)
    requires b < q
    ensures Sub(q, Add(q, a, b), Add(q, a, c)) == Sub(q, b, c)
  {
    SubAdd(q, b, c);
    AddComm(q, a, c);
    AddAssoc(q, Sub(q, b, c), c, a);
    AddComm(q, a, b);
    SubIff(q, Sub(q, b, c), Add(q, a, b), Add(q, a, c));
  }

  lemma SubNonZero(q: nat, a: nat, b: nat)
    requires a < q && b < q && a != b
    ensures Sub(q, a, b) != 0
  {
    SubAdd(q, a, b);
    AddZero(q, b);
  }

  // ---- Multiplicative inverses ----

  /** Bezout coefficients by the extended Euclidean algorithm. */
  function Bezout(a: nat, b: nat): (r: (nat, int, int))
    ensures r.0 == a * r.1 + b * r.2
    decreases b
  {
    if b == 0 then (a, 1, 0)
    else
      var (g, x, y) := Bezout(b, a % b);
      assert a * y + b * (x - (a / b) * y) == g by {
        BezoutStep(a, b, x, y);
      }
      (g, y, x - (a / b) * y)
  }

  lemma BezoutStep(a: nat, b: nat, x: int, y: int)
    requires b > 0
    ensures a * y + b * (x - (a / b) * y) == b * x + (a % b) * y
  {
    var d := a / b;
    assert a == b * d + a % b;
    calc {
      a * y + b * (x - d * y);
      (b * d + a % b) * y + b * (x - d * y);
      b * d * y + (a % b) * y + b * x - b * (d * y);
    }
    assert b * d * y == b * (d * y);
  }

  lemma DivisorOfDividend(a: nat, b: nat, g: nat, k: int, l: int)
    requires b > 0 && b == k * g && a % b == l * g
    ensures a == (k * (a / b) + l) * g
  {
    var d := a / b;
    assert a == b * d + a % b;
    assert k * g * d == k * d * g;
  }

  lemma {:induction false} BezoutDivides(a: nat, b: nat)
    requires a > 0 || b > 0
    ensures Bezout(a, b).0 > 0
    ensures Cong(Bezout(a, b).0, a, 0) && Cong(Bezout(a, b).0, b, 0)
    decreases b
  {
    var g := Bezout(a, b).0;
    if b == 0 {
      CongWitness(g, a, 0, 1);
      CongWitness(g, b, 0, 0);
    } else {
      BezoutDivides(b, a % b);
      var k :| IsQuotient(g, b, 0, k);
      var l :| IsQuotient(g, a % b, 0, l);
      DivisorOfDividend(a, b, g, k, l);
      CongWitness(g, a, 0, k * (a / b) + l);
    }
  }

  lemma DivisorOfPrime(q: nat, g: nat)
    requires Prime(q) && g > 0 && Cong(g, q, 0)
    ensures g == 1 || g == q
  {
    var k :| IsQuotient(g, q, 0, k);
    assert k >= 1;
    assert (k - 1) * g >= 0;
    CongMod(g, q);
    CongTrans(g, q % g, q, 0);
    CongSmall(g, q % g, 0);
    assert Divides(g, q);
  }

  function Inv(q: nat, a: nat): (r: nat)
    requires q > 0
    ensures r < q
  {
    Bezout(a, q).1 % q
  }

  lemma InverseIsInverse(q: nat, a: nat)
    requires Prime(q) && 0 < a < q
    ensures Mul(q, a, Inv(q, a)) == 1
  {
    var (g, x, y) := Bezout(a, q);
    BezoutDivides(a, q);
    DivisorOfPrime(q, g);
    if g == q {
      CongSmall(q, a, 0);
    }
    assert a * x - 1 == (-y) * q;
    CongWitness(q, a * x, 1, -y);
    CongMod(q, x);
    CongWitness(q, a, a, 0);
    CongMul(q, a, a, x % q, x);
    CongMod(q, a * Inv(q, a));
    CongTrans(q, Mul(q, a, Inv(q, a)), a * Inv(q, a), a * x);
    ResidueUnique(q, Mul(q, a, Inv(q, a)), 1, 1) by {
      CongTrans(q, Mul(q, a, Inv(q, a)), a * x, 1);
      CongWitness(q, 1, 1, 0);
    }
  }

  function Div(q: nat, a: nat, b: nat): (r: nat)
    requires q > 0
    ensures r < q
  {
    Mul(q, a, Inv(q, b))
  }

  lemma DivIsQuotient(q: nat, a: nat, b: nat)
    requires Prime(q) && a < q && 0 < b < q
    ensures Mul(q, b, Div(q, a, b)) == a
  {
    MulComm(q, a, Inv(q, b));
    MulAssoc(q, b, Inv(q, b), a);
    InverseIsInverse(q, b);
    MulOne(q, a);
  }

  lemma MulCancel(q: nat, a: nat, b: nat, c: nat)
    requires Prime(q) && 0 < a < q && b < q && c < q && Mul(q, a, b) == Mul(q, a, c)
    ensures b == c
  {
    InverseIsInverse(q, a);
    MulComm(q, a, Inv(q, a));
    MulAssoc(q, Inv(q, a), a, b);
    MulAssoc(q, Inv(q, a), a, c);
    MulOne(q, b);
    MulOne(q, c);
  }

  lemma NoZeroDivisors(q: nat, a: nat, b: nat)
    requires Prime(q) && a < q && b < q
    ensures Mul(q, a, b) == 0 <==> a == 0 || b == 0
  {
    MulZero(q, a);
    MulZero(q, b);
    if Mul(q, a, b) == 0 && a != 0 {
      MulCancel(q, a, b, 0);
    }
  }
}
