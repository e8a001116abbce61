// Unsigned shifts and masks on naturals, as the C operators compute them.
module Bits {

  function Pow2(k: nat): (p: nat)
    ensures p > 0
  {
    if k == 0 then 1 else 2 * Pow2(k - 1)
  }

  // x & y, bit by bit.
  function And(x: nat, y: nat): nat {
    if x == 0 || y == 0 then 0
    else (if x % 2 == 1 && y % 2 == 1 then 1 else 0) + 2 * And(x / 2, y / 2)
  }

  // x >> k: the low bit dropped k times.
  function Shr(x: nat, k: nat): nat {
    if k == 0 then x else Shr(x / 2, k - 1)
  }

  lemma ModDouble(x: nat, m: nat)
    requires m > 0
    ensures x % (2 * m) == x % 2 + 2 * ((x / 2) % m)
    ensures x / (2 * m) == (x / 2) / m
  {
    var q, r := (x / 2) / m, (x / 2) % m;
    assert x / 2 == q * m + r;
    assert x == (2 * m) * q + (2 * r + x % 2);
    DivUnique(x, 2 * m, q, 2 * r + x % 2);
  }

  lemma DivUnique(x: nat, m: nat, q: nat, r: nat)
    requires m > 0 && x == m * q + r && r < m
    ensures x / m == q && x % m == r
  {
    var q', r' := x / m, x % m;
    assert x == m * q' + r';
    if q' < q {
      assert m * (q' + 1) <= m * q by { MulMono(m, q' + 1, q); }
    } else if q < q' {
      assert m * (q + 1) <= m * q' by { MulMono(m, q + 1, q'); }
    }
  }

  lemma MulMono(m: nat, a: nat, b: nat)
    requires a <= b
    ensures m * a <= m * b
  {
  }

  // Masking with a power of two minus one is the remainder.
  lemma {:induction false} AndMask(x: nat, k: nat)
    ensures And(x, Pow2(k) - 1) == x % Pow2(k)
  {
    if k > 0 {
      var m := Pow2(k - 1);
      ModDouble(x, m);
      AndMask(x / 2, k - 1);
      assert (2 * m - 1) / 2 == m - 1 && (2 * m - 1) % 2 == 1;
      if m == 1 {
        assert And(x / 2, 0) == 0;
      }
    }
  }

  // Shifting right is division by a power of two.
  lemma {:induction false} ShrDiv(x: nat, k: nat)
    ensures Shr(x, k) == x / Pow2(k)
  {
    if k > 0 {
      ModDouble(x, Pow2(k - 1));
      ShrDiv(x / 2, k - 1);
    }
  }

  // The shift and mask pair that uthash uses in place of a division.
  function CeilShift(n: nat, k: nat): nat {
    Shr(n, k) + if And(n, Pow2(k) - 1) != 0 then 1 else 0
  }

  // c is n / m rounded up.
  predicate IsCeil(c: nat, n: nat, m: nat) {
    m * c >= n && (c > 0 ==> m * (c - 1) < n)
  }

  lemma CeilDiv(n: nat, k: nat)
    ensures IsCeil(CeilShift(n, k), n, Pow2(k))
  {
    AndMask(n, k);
    ShrDiv(n, k);
    var c := CeilShift(n, k);
    CeilQuotient(n, Pow2(k), c);
    if c > 0 {
      CeilQuotient(n, Pow2(k), c - 1);
    }
  }

  lemma CeilPositive(n: nat, k: nat)
    requires n > 0
    ensures CeilShift(n, k) > 0
  {
    CeilDiv(n, k);
  }

  lemma CeilQuotient(n: nat, p: nat, c: nat)
    requires p > 0
    ensures c >= n / p + (if n % p != 0 then 1 else 0) <==> p * c >= n
  {
    CeilArith(p, n / p, n % p, c);
  }

  lemma CeilArith(p: nat, q: nat, r: nat, c: nat)
    requires r < p
    ensures c >= q + (if r != 0 then 1 else 0) <==> p * c >= p * q + r
  {
    if c > q {
      MulMono(p, q + 1, c);
      assert p * (q + 1) == p * q + p;
    } else {
      MulMono(p, c, q);
      if c < q {
        MulMono(p, c + 1, q);
        assert p * (c + 1) == p * c + p;
      }
    }
  }
}
