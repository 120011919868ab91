/**
 Multiplication as repeated addition. The solver's own products stay inside the few lemmas here;
 everywhere else a product is a function with these laws.
 */
module Arith {
  function Times(a: nat, b: nat): (r: nat) {
    if a == 0 then 0 else Times(a - 1, b) + b
  }

  lemma {:induction false} TimesIs(a: nat, b: nat)
    ensures Times(a, b) == a * b
  {
    if a > 0 {
      TimesIs(a - 1, b);
    }
  }

  lemma TimesCommutes(a: nat, b: nat)
    ensures Times(a, b) == Times(b, a)
  {
    TimesIs(a, b);
    TimesIs(b, a);
  }

  lemma {:induction false} TimesMonotone(a: nat, b: nat, c: nat)
    requires a <= b
    ensures Times(a, c) <= Times(b, c)
  {
    if a < b {
      TimesMonotone(a, b - 1, c);
    }
  }

  lemma {:induction false} TimesDistributes(a: nat, b: nat, c: nat)
    ensures Times(a + b, c) == Times(a, c) + Times(b, c)
  {
    if a > 0 {
      TimesDistributes(a - 1, b, c);
    }
  }

  lemma {:induction false} TimesAssociates(a: nat, b: nat, c: nat)
    ensures Times(Times(a, b), c) == Times(a, Times(b, c))
  {
    if a > 0 {
      TimesAssociates(a - 1, b, c);
      TimesDistributes(Times(a - 1, b), b, c);
    }
  }

  lemma TimesPositive(a: nat, b: nat)
    requires a > 0 && b > 0
    ensures Times(a, b) >= a && Times(a, b) >= b
  {
    TimesMonotone(1, a, b);
    TimesCommutes(a, b);
    TimesMonotone(1, b, a);
  }

  lemma DivMod(a: nat, b: nat)
    requires b > 0
    ensures a == Times(a / b, b) + a % b && 0 <= a % b < b && 0 <= a / b <= a
  {
    assert a == (a / b) * b + a % b;
    TimesIs(a / b, b);
    if a / b > 0 {
      TimesPositive(a / b, b);
    }
  }

  lemma LessQuotient(q: nat, r: nat, p: nat, s: nat, b: nat)
    requires q < p && r < b
    ensures Times(q, b) + r < Times(p, b) + s
  {
    TimesMonotone(q + 1, p, b);
  }

  lemma SameQuotient(q: nat, r: nat, p: nat, s: nat, b: nat)
    requires r < b && s < b
    requires Times(q, b) + r == Times(p, b) + s
    ensures q == p && r == s
  {
    if q < p {
      LessQuotient(q, r, p, s, b);
    } else if p < q {
      LessQuotient(p, s, q, r, b);
    }
  }

  lemma DivUnique(q: nat, r: nat, b: nat)
    requires r < b
    ensures (Times(q, b) + r) / b == q && (Times(q, b) + r) % b == r
  {
    var a := Times(q, b) + r;
    DivMod(a, b);
    SameQuotient(q, r, a / b, a % b, b);
  }
}
