/** The 64-bit divider of 32-bit kernels, which shifts both operands until the divisor fits in 32 bits. */
module Div64 {
  import opened Division
  import opened Machine

  // ---------------------------------------------------------------- the divider

  function Pow2(n: nat): (p: nat)
    ensures p >= 1
  {
    if n == 0 then 1 else 2 * Pow2(n - 1)
  }

  /** fls: the position of the highest bit, counted from 1; 0 for 0. */
  function Fls(u: nat): nat {
    if u == 0 then 0 else 1 + Fls(u / 2)
  }

  /** What both operands are divided by: a power of two that fls picks. */
  function Shift(divisor: nat): (p: nat)
    ensures p >= 1
  {
    Pow2(Fls(divisor / 0x1_0000_0000))
  }

  /** kfio_div64_64.  The shifted divisor is cut to 32 bits. */
  function Div(dividend: nat, divisor: nat): nat
    requires 0 < divisor < U64 && dividend < U64
  {
    if divisor < U32 then Quot(dividend, divisor)
    else
      var p := Shift(divisor);
      ShiftedFits(divisor);
      Quot(Quot(dividend, p), Quot(divisor, p))
  }

  lemma {:induction false} FlsBounds(u: nat)
    requires u > 0
    ensures Fls(u) > 0 && Pow2(Fls(u) - 1) <= u < Pow2(Fls(u))
  {
    if u > 1 {
      FlsBounds(u / 2);
    }
  }

  /** The shifted divisor is at least 2^31 and still a 32-bit number: the cast loses nothing. */
  lemma {:induction false} ShiftedFits(divisor: nat)
    requires U32 <= divisor < U64
    ensures var p := Shift(divisor); (p == 2 || p >= 4) && 0x8000_0000 <= Quot(divisor, p) < U32
  {
    var upper := divisor / 0x1_0000_0000;
    var p := Shift(divisor);
    FlsBounds(upper);
    assert p == 2 * Pow2(Fls(upper) - 1);
    QuotBetween(divisor, p, 0x8000_0000, U32);
  }

  // ---------------------------------------------------------------- how far off it is

  /** Never less than the quotient: the bits dropped from the divisor can only make the result larger. */
  lemma {:induction false} NotLess(n: nat, d: nat, p: nat)
    requires p > 0 && d > 0 && Quot(d, p) > 0
    ensures Quot(n, d) <= Quot(Quot(n, p), Quot(d, p))
  {
    var q, n', d' := Quot(n, d), Quot(n, p), Quot(d, p);
    var r := Quot(n', d');
    if r < q {
      Grows(r + 1, q, d');
      Grows(n' + 1, q * d', p);
      Regroup(q, d', p);
      Grows(d' * p, d, q);
    }
  }

  /** What the dropped bits of the divisor add up to is less than one shifted divisor. */
  lemma {:induction false} SmallCarry(n: nat, n': nat, d': nat, p: nat, r: nat, e: nat)
    requires n < U64 && d' >= 0x8000_0000 && r > 0 && r * d' <= n' && n' * p <= n && e < p && (p == 2 || p >= 4)
    ensures (r - 1) * e <= d' * p
  {
    Grows(0x8000_0000, d', r);
    Grows(r * 0x8000_0000, n', p);
    Regroup(r, 0x8000_0000, p);
    assert r * p < 0x2_0000_0000;
    if p == 2 {
      Grows(e, 1, r - 1);
    } else {
      Grows(e, p, r - 1);
      Grows(r - 1, r, p);
      Grows(4, p, d');
    }
  }

  /** At most one more. */
  lemma {:induction false} AtMostOneMore(n: nat, d: nat, p: nat)
    requires n < U64 && d > 0 && (p == 2 || p >= 4) && 0x8000_0000 <= Quot(d, p)
    ensures Quot(Quot(n, p), Quot(d, p)) <= Quot(n, d) + 1
  {
    var q, n', d' := Quot(n, d), Quot(n, p), Quot(d, p);
    var r := Quot(n', d');
    var e := d - d' * p;
    OneMore(d', p);
    if r > q + 1 {
      SmallCarry(n, n', d', p, r, e);
      Grows(r * d', n', p);
      Regroup(r, d', p);
      OneMore(r - 1, d' * p);
      assert (r - 1) * d == (r - 1) * (d' * p) + (r - 1) * e by {
        Spread(r - 1, d' * p, e);
      }
      Grows(q + 1, r - 1, d);
    }
  }

  /** The divider returns the quotient or one more, and the quotient itself for 32-bit divisors. */
  lemma {:induction false} DivIsQuotientOrOneMore(dividend: nat, divisor: nat)
    requires 0 < divisor < U64 && dividend < U64
    ensures dividend / divisor <= Div(dividend, divisor) <= dividend / divisor + 1
    ensures divisor < U32 ==> Div(dividend, divisor) == dividend / divisor
  {
    QuotIsDivision(dividend, divisor);
    if divisor >= U32 {
      ShiftedFits(divisor);
      NotLess(dividend, divisor, Shift(divisor));
      AtMostOneMore(dividend, divisor, Shift(divisor));
    }
  }

  // ---------------------------------------------------------------- when it is exact

  /** The divisor without the bits that the shift drops. */
  function Kept(divisor: nat): nat {
    if divisor < U32 then divisor else Quot(divisor, Shift(divisor)) * Shift(divisor)
  }

  lemma {:induction false} NothingDropped(n: nat, d: nat, p: nat)
    requires d > 0 && p > 0 && d * p > 0
    ensures Quot(Quot(n, p), d) == Quot(n, d * p)
  {
    var n' := Quot(n, p);
    var r := Quot(n', d);
    Grows(r * d, n', p);
    Grows(n' + 1, (r + 1) * d, p);
    Regroup(r, d, p);
    Regroup(r + 1, d, p);
    QuotIs(n, d * p, r);
  }

  /** A dividend of just the kept bits gives 1, though it is less than the divisor. */
  lemma {:induction false} DroppedShows(divisor: nat)
    requires U32 <= divisor < U64 && Kept(divisor) != divisor
    ensures Kept(divisor) < divisor && Div(Kept(divisor), divisor) == 1 && Kept(divisor) / divisor == 0
  {
    var p := Shift(divisor);
    ShiftedFits(divisor);
    var d := Quot(divisor, p);
    OneMore(d, p);
    QuotIs(d * p, p, d);
    QuotIs(d, d, 1);
    QuotIs(d * p, divisor, 0);
    QuotIsDivision(d * p, divisor);
  }

  /** For a given divisor the divider is exact on every dividend if and only if the shift drops no bit. */
  lemma {:induction false} ExactIffNothingDropped(divisor: nat)
    requires 0 < divisor < U64
    ensures (forall n: nat :: n < U64 ==> Div(n, divisor) == n / divisor) <==> Kept(divisor) == divisor
  {
    if Kept(divisor) == divisor {
      forall n: nat | n < U64
        ensures Div(n, divisor) == n / divisor
      {
        QuotIsDivision(n, divisor);
        if divisor >= U32 {
          ShiftedFits(divisor);
          NothingDropped(n, Quot(divisor, Shift(divisor)), Shift(divisor));
        }
      }
    } else {
      DroppedShows(divisor);
    }
  }
}
