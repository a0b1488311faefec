/** Integer quotients and remainders by variable divisors, and the little algebra they need. */
module Division {

  lemma {:induction false} Grows(a: nat, b: nat, c: nat)
    requires a <= b
    ensures a * c <= b * c && c * a <= c * b
  {
  }

  lemma {:induction false} Regroup(a: nat, b: nat, c: nat)
    ensures (a * b) * c == a * (b * c) == (a * c) * b
  {
  }

  lemma {:induction false} OneMore(a: nat, b: nat)
    ensures (a + 1) * b == a * b + b
  {
  }

  /** The integer quotient. */
  function Quot(a: nat, b: nat): (q: nat)
    requires b > 0
    ensures q * b <= a < (q + 1) * b
    decreases a
  {
    if a < b then 0
    else
      var q := Quot(a - b, b);
      OneMore(q, b);
      OneMore(q + 1, b);
      q + 1
  }

  /** There is only one quotient. */
  lemma {:induction false} QuotIs(a: nat, b: nat, q: nat)
    requires b > 0 && q * b <= a < (q + 1) * b
    ensures q == Quot(a, b)
  {
    var r := Quot(a, b);
    if q < r {
      Grows(q + 1, r, b);
    } else if r < q {
      Grows(r + 1, q, b);
    }
  }

  lemma {:induction false} QuotIsDivision(a: nat, b: nat)
    requires b > 0
    ensures Quot(a, b) == a / b
  {
    QuotIs(a, b, a / b);
  }

  lemma {:induction false} QuotBetween(a: nat, b: nat, lo: nat, hi: nat)
    requires b > 0 && lo * b <= a < hi * b
    ensures lo <= Quot(a, b) < hi
  {
    var q := Quot(a, b);
    if q < lo {
      Grows(q + 1, lo, b);
    } else if hi <= q {
      Grows(hi, q, b);
    }
  }

  lemma {:induction false} Spread(a: nat, b: nat, c: nat)
    ensures a * (b + c) == a * b + a * c
  {
  }

  /** The remainder. */
  function Rem(a: nat, b: nat): (r: nat)
    requires b > 0
    ensures r < b
  {
    OneMore(Quot(a, b), b);
    a - Quot(a, b) * b
  }

  lemma {:induction false} RemIsModulo(a: nat, b: nat)
    requires b > 0
    ensures Rem(a, b) == a % b
  {
    QuotIsDivision(a, b);
  }

  /** Counting up by one. */
  lemma {:induction false} NextRem(a: nat, b: nat)
    requires b > 0
    ensures if Rem(a, b) + 1 < b then Quot(a + 1, b) == Quot(a, b) && Rem(a + 1, b) == Rem(a, b) + 1
            else Quot(a + 1, b) == Quot(a, b) + 1 && Rem(a + 1, b) == 0
  {
    var q := Quot(a, b);
    OneMore(q, b);
    OneMore(q + 1, b);
    QuotIs(a + 1, b, if Rem(a, b) + 1 < b then q else q + 1);
  }

  /** A number names its quotient and remainder. */
  lemma {:induction false} Unique(q: nat, r: nat, q': nat, r': nat, b: nat)
    requires r < b && r' < b && q * b + r == q' * b + r'
    ensures q == q' && r == r'
  {
    if q < q' {
      Grows(q + 1, q', b);
      OneMore(q, b);
    } else if q' < q {
      Grows(q' + 1, q, b);
      OneMore(q', b);
    }
  }
}
