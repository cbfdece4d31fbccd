/**
 Arithmetic on numbers that are put together from a high and a low part. Products, quotients and
 remainders have names of their own, so that their laws can be used one at a time.
 */
module MachineArithmetic {

  function Times(a: int, b: int): (r: int)
    ensures a >= 0 && b >= 0 ==> r >= 0
  {
    a * b
  }

  function Quot(a: int, m: int): (r: int)
    requires m > 0
    ensures a >= 0 ==> r >= 0
  {
    a / m
  }

  function Rem(a: int, m: int): (r: int)
    requires m > 0
    ensures 0 <= r < m
  {
    a % m
  }

  // ---- laws ----

  lemma TimesSum(a: int, b: int, c: int)
    ensures Times(a + b, c) == Times(a, c) + Times(b, c) && Times(a - b, c) == Times(a, c) - Times(b, c)
    ensures Times(c, a + b) == Times(c, a) + Times(c, b)
  {
  }

  lemma TimesTimes(a: int, b: int, c: int)
    ensures Times(Times(a, b), c) == Times(a, Times(b, c)) && Times(a, b) == Times(b, a)
  {
    assert (a * b) * c == a * (b * c);
  }

  lemma TimesOne(a: int)
    ensures Times(1, a) == a == Times(a, 1) && Times(0, a) == 0 == Times(a, 0) && Times(2, a) == 2 * a
  {
  }

  lemma TimesGrows(a: int, b: int, c: int)
    requires a <= b && c >= 0
    ensures Times(a, c) <= Times(b, c)
  {
    assert (b - a) * c >= 0;
  }

  lemma TimesPositive(a: int, b: int)
    requires a > 0 && b > 0
    ensures Times(a, b) > 0
  {
  }

  lemma Division(a: int, m: int)
    requires m > 0
    ensures a == Times(Quot(a, m), m) + Rem(a, m) && 0 <= Rem(a, m) < m
  {
  }

  lemma DivModIs(a: int, m: int, q: int, r: int)
    requires 0 <= r < m && a == Times(q, m) + r
    ensures Quot(a, m) == q && Rem(a, m) == r
  {
    hide Times, Quot, Rem;
    Division(a, m);
    var q' := Quot(a, m);
    TimesSum(q', q, m);
    TimesSum(q, q', m);
    TimesOne(m);
    if q' > q {
      TimesGrows(1, q' - q, m);
    } else if q' < q {
      TimesGrows(1, q - q', m);
    }
  }

  lemma RemTwice(a: int, b: int, m: nat)
    requires m > 0
    ensures Rem(Rem(a, m) + b, m) == Rem(a + b, m)
  {
    hide Times, Quot, Rem;
    Division(a, m);
    Division(Rem(a, m) + b, m);
    TimesSum(Quot(a, m), Quot(Rem(a, m) + b, m), m);
    DivModIs(a + b, m, Quot(a, m) + Quot(Rem(a, m) + b, m), Rem(Rem(a, m) + b, m));
  }

  function Pow2(n: nat): (r: nat)
    ensures r > 0
  {
    if n == 0 then 1 else 2 * Pow2(n - 1)
  }

  lemma {:induction false} Pow2Add(a: nat, b: nat)
    ensures Pow2(a + b) == Times(Pow2(a), Pow2(b))
  {
    hide Times;
    TimesOne(Pow2(b));
    if a > 0 {
      Pow2Add(a - 1, b);
      var p := Pow2(a - 1);
      TimesSum(p, p, Pow2(b));
    }
  }

  // ---- high and low parts ----

  /** A high and a low part make a whole. */
  lemma Parts(hi: int, lo: int, h: int, b: int)
    requires 0 <= hi < h && 0 <= lo < b
    ensures Times(h, b) > 0 && 0 <= Times(hi, b) + lo < Times(h, b)
    ensures Rem(Times(hi, b) + lo, b) == lo && Quot(Times(hi, b) + lo, b) == hi && Rem(hi, h) == hi
  {
    hide Times, Quot, Rem;
    TimesPositive(h, b);
    TimesGrows(0, hi, b);
    TimesGrows(hi + 1, h, b);
    TimesSum(hi, 1, b);
    TimesOne(b);
    DivModIs(Times(hi, b) + lo, b, hi, lo);
    TimesOne(h);
    DivModIs(hi, h, 0, hi);
  }

  /**
   A whole made of any two numbers, reduced: what the low part has too much is carried into the
   high part, and what that has too much is carried out.
   */
  lemma Carry(x: int, y: int, h: int, b: int)
    requires h > 0 && b > 0
    ensures Times(h, b) > 0
    ensures Rem(Times(x, b) + y, Times(h, b)) == Times(Rem(x + Quot(y, b), h), b) + Rem(y, b)
    ensures Quot(Times(x, b) + y, Times(h, b)) == Quot(x + Quot(y, b), h)
  {
    hide Times, Quot, Rem;
    Division(y, b);
    var c, lo := Quot(y, b), Rem(y, b);
    Division(x + c, h);
    var d, hi := Quot(x + c, h), Rem(x + c, h);
    Parts(hi, lo, h, b);
    TimesSum(x, c, b);
    TimesSum(Times(d, h), hi, b);
    TimesTimes(d, h, b);
    DivModIs(Times(x, b) + y, Times(h, b), d, Times(hi, b) + lo);
  }

  /** Halving a whole halves both parts, and moves the high part's odd bit to the top of the low part. */
  lemma Halved(hi: nat, lo: nat, b: nat)
    requires b > 0 && lo < 2 * b
    ensures Quot(Times(hi, 2 * b) + lo, 2) == Times(Quot(hi, 2), 2 * b) + (Quot(lo, 2) + Times(Rem(hi, 2), b))
    ensures 0 <= Quot(lo, 2) + Times(Rem(hi, 2), b) < 2 * b
    ensures Rem(Times(hi, 2 * b) + lo, 2) == Rem(lo, 2)
  {
    hide Times, Quot, Rem;
    Division(hi, 2);
    Division(lo, 2);
    var k, odd := Quot(hi, 2), Rem(hi, 2);
    TimesTimes(Quot(lo, 2), 2, 1);
    TimesOne(Quot(lo, 2));
    TimesTimes(2, k, 2 * b);
    TimesOne(Times(k, 2 * b));
    TimesTimes(k, 2, 1);
    TimesSum(Times(k, 2), odd, 2 * b);
    TimesSum(b, b, odd);
    TimesTimes(odd, b, 1);
    TimesTimes(odd, 2 * b, 1);
    TimesOne(b);
    var x := Times(k, 2 * b) + (Quot(lo, 2) + Times(odd, b));
    TimesTimes(2, x, 1);
    TimesOne(x);
    DivModIs(Times(hi, 2 * b) + lo, 2, x, Rem(lo, 2));
  }

  /** The top bit of a whole is that of its high part. */
  lemma TopBit(hi: nat, lo: nat, h: nat, b: nat)
    requires b > 0 && lo < b
    ensures Times(hi, b) + lo >= Times(h, b) <==> hi >= h
  {
    hide Times;
    TimesSum(hi, 1, b);
    TimesOne(b);
    if hi >= h {
      TimesGrows(h, hi, b);
    } else {
      TimesGrows(hi + 1, h, b);
    }
  }

  /** Shifting a whole right by at most the low part's width. */
  lemma Spilled(hi: nat, lo: nat, p: nat, q: nat)
    requires p > 0 && q > 0 && lo < Times(p, q)
    ensures Times(p, q) > 0 && 0 <= Quot(lo, q) < p
    ensures Quot(Times(hi, Times(p, q)) + lo, q) == Times(hi, p) + Quot(lo, q)
    ensures Rem(Times(hi, p) + Quot(lo, q), Times(p, q)) == Rem(Times(hi, p), Times(p, q)) + Quot(lo, q)
    ensures Quot(Times(hi, p) + Quot(lo, q), Times(p, q)) == Quot(hi, q)
    ensures Rem(Times(hi, p), Times(p, q)) == Times(Rem(hi, q), p)
  {
    hide Times, Quot, Rem;
    TimesPositive(p, q);
    Division(lo, q);
    Division(hi, q);
    var l, d, r := Quot(lo, q), Quot(hi, q), Rem(hi, q);
    TimesTimes(hi, p, q);
    TimesSum(Times(hi, p), l, q);
    DivModIs(Times(hi, Times(p, q)) + lo, q, Times(hi, p) + l, Rem(lo, q));
    if l >= p {
      TimesGrows(p, l, q);
    }
    if l < 0 {
      TimesGrows(l, -1, q);
      TimesSum(0, 1, q);
      TimesOne(q);
      TimesSum(-1, 1, q);
    }
    TimesSum(Times(d, q), r, p);
    TimesTimes(d, q, p);
    TimesTimes(q, p, 1);
    TimesGrows(0, r, p);
    TimesGrows(r + 1, q, p);
    TimesSum(r, 1, p);
    TimesOne(p);
    DivModIs(Times(hi, p), Times(p, q), d, Times(r, p));
    DivModIs(Times(hi, p) + l, Times(p, q), d, Times(r, p) + l);
  }

  // ---- bits ----

  function BitOr(a: nat, b: nat): nat {
    if a == 0 then b
    else if b == 0 then a
    else 2 * BitOr(a / 2, b / 2) + (if a % 2 == 1 || b % 2 == 1 then 1 else 0)
  }

  lemma {:induction false} OrCommutes(a: nat, b: nat)
    ensures BitOr(a, b) == BitOr(b, a)
  {
    if a > 0 && b > 0 {
      OrCommutes(a / 2, b / 2);
    }
  }

  lemma {:induction false} OrWithAllOnes(h: nat, n: nat)
    requires h < Pow2(n)
    ensures BitOr(Pow2(n) - 1, h) == Pow2(n) - 1
  {
    if n > 0 && h > 0 {
      OrWithAllOnes(h / 2, n - 1);
      assert (Pow2(n) - 1) / 2 == Pow2(n - 1) - 1 && (Pow2(n) - 1) % 2 == 1;
    }
  }

  /** Or-ing into the part above the low `n` bits. */
  lemma {:induction false} OrOfHighParts(a: nat, k: nat, h: nat, n: nat)
    requires a < Pow2(n)
    ensures Times(k, Pow2(n)) >= 0 && Times(h, Pow2(n)) >= 0
    ensures BitOr(a + Times(k, Pow2(n)), Times(h, Pow2(n))) == a + Times(BitOr(k, h), Pow2(n))
  {
    hide Times, BitOr;
    TimesOne(k);
    TimesOne(h);
    TimesOne(BitOr(k, h));
    TimesOne(Pow2(n));
    TimesGrows(0, k, Pow2(n));
    TimesGrows(0, h, Pow2(n));
    if n > 0 {
      var p := Pow2(n - 1);
      OrOfHighParts(a / 2, k, h, n - 1);
      TimesSum(p, p, k);
      TimesSum(p, p, h);
      TimesSum(p, p, BitOr(k, h));
      OrOfHalves(a, Times(k, p), Times(h, p));
    }
  }

  lemma OrOfHalves(a: nat, k: nat, h: nat)
    ensures BitOr(a + 2 * k, 2 * h) == 2 * BitOr(a / 2 + k, h) + a % 2
  {
    assert (a + 2 * k) / 2 == a / 2 + k && (a + 2 * k) % 2 == a % 2;
  }

  /** Numbers that share no bit are or-ed by adding them. */
  lemma OrOfDisjoint(a: nat, k: nat, n: nat)
    requires a < Pow2(n)
    ensures Times(k, Pow2(n)) >= 0 && BitOr(a, Times(k, Pow2(n))) == a + Times(k, Pow2(n))
  {
    hide Times;
    TimesOne(Pow2(n));
    OrOfHighParts(a, 0, k, n);
  }
}
