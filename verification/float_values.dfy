/** What the bit patterns of floating-point numbers stand for, as multiples of the smallest positive number. */
module FloatValues {
  import opened Values

  /** `a` doubled `n` times. */
  function Doubled(a: nat, n: nat): nat {
    if n == 0 then a else 2 * Doubled(a, n - 1)
  }

  function Exponent(b: f64): nat {
    b / 0x10_0000_0000_0000 % 0x800
  }

  function Fraction(b: f64): nat {
    b % 0x10_0000_0000_0000
  }

  predicate Negative(b: f64) {
    b >= 0x8000_0000_0000_0000
  }

  /** IEEE 754 double precision, section 3.4: exponent 0 holds the subnormal numbers, and otherwise a hidden bit
      leads the fraction. Infinity is beyond every finite number. */
  function Magnitude(exponent: nat, fraction: nat): (units: int)
    ensures units >= 0
  {
    if exponent == 0 then fraction else Doubled(0x10_0000_0000_0000 + fraction, exponent - 1)
  }

  /** The number, in units of 2 to the power -1074. */
  function Units(b: f64): int {
    if Negative(b) then -Magnitude(Exponent(b), Fraction(b)) else Magnitude(Exponent(b), Fraction(b))
  }

  lemma {:induction false} DoubledGrows(a: nat, b: nat, n: nat)
    ensures a < b ==> Doubled(a, n) < Doubled(b, n)
    ensures a <= b ==> Doubled(a, n) <= Doubled(b, n)
    ensures Doubled(a, n) >= a
  {
    if n > 0 {
      DoubledGrows(a, b, n - 1);
    }
  }

  lemma {:induction false} DoubledAgain(a: nat, n: nat)
    ensures Doubled(2 * a, n) == Doubled(a, n + 1)
  {
    if n > 0 {
      DoubledAgain(a, n - 1);
    }
  }

  lemma {:induction false} DoubledMore(a: nat, m: nat, n: nat)
    requires m <= n
    ensures Doubled(a, m) <= Doubled(a, n)
    decreases n
  {
    if m < n {
      DoubledMore(a, m, n - 1);
    }
  }

  /** Larger exponents, and larger fractions under the same exponent, are larger numbers. */
  lemma MagnitudeGrows(e: nat, f: nat, e': nat, f': nat)
    requires f < 0x10_0000_0000_0000 && f' < 0x10_0000_0000_0000
    requires e < e' || (e == e' && f < f')
    ensures Magnitude(e, f) < Magnitude(e', f')
  {
    var hidden := 0x10_0000_0000_0000;
    if e == e' {
      if e > 0 {
        DoubledGrows(hidden + f, hidden + f', e - 1);
      }
    } else if e == 0 {
      DoubledGrows(hidden + f', hidden + f', e' - 1);
    } else {
      DoubledGrows(hidden + f, 2 * hidden, e - 1);
      DoubledAgain(hidden, e - 1);
      DoubledMore(hidden, e, e' - 1);
      DoubledGrows(hidden, hidden + f', e' - 1);
    }
  }

  /** The magnitude bits are the exponent, then the fraction. */
  lemma KeyParts(b: f64)
    ensures Exponent(b) < 0x800 && Fraction(b) < 0x10_0000_0000_0000
    ensures Key64(b) == if Negative(b) then -(Exponent(b) * 0x10_0000_0000_0000 + Fraction(b))
                        else Exponent(b) * 0x10_0000_0000_0000 + Fraction(b)
  {
  }

  /** The keys that order bit patterns order the numbers they stand for, and both zeros are one number. */
  lemma KeysOrderNumbers(a: f64, b: f64)
    ensures Key64(a) < Key64(b) <==> Units(a) < Units(b)
    ensures Key64(a) == Key64(b) <==> Units(a) == Units(b)
  {
    hide Magnitude, Exponent, Fraction, Key64;
    KeyParts(a);
    KeyParts(b);
    Compare(Exponent(a), Fraction(a), Exponent(b), Fraction(b));
    Compare(Exponent(b), Fraction(b), Exponent(a), Fraction(a));
    AtLeastZero(Exponent(a), Fraction(a));
    AtLeastZero(Exponent(b), Fraction(b));
  }

  lemma Compare(e: nat, f: nat, e': nat, f': nat)
    requires f < 0x10_0000_0000_0000 && f' < 0x10_0000_0000_0000
    ensures e * 0x10_0000_0000_0000 + f < e' * 0x10_0000_0000_0000 + f' ==> Magnitude(e, f) < Magnitude(e', f')
    ensures e * 0x10_0000_0000_0000 + f == e' * 0x10_0000_0000_0000 + f' ==> e == e' && f == f'
  {
    hide Magnitude;
    if e * 0x10_0000_0000_0000 + f < e' * 0x10_0000_0000_0000 + f' {
      MagnitudeGrows(e, f, e', f');
    }
  }

  lemma AtLeastZero(e: nat, f: nat)
    ensures Magnitude(0, 0) == 0
    ensures e * 0x10_0000_0000_0000 + f > 0 ==> Magnitude(e, f) > 0
  {
    if e > 0 {
      DoubledGrows(0x10_0000_0000_0000 + f, 0, e - 1);
    }
  }
}
