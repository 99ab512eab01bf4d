/**
  Division by x^8 + x^2 + x + 1 of polynomials over the two-element field: what a remainder is, that
  there is exactly one, and that long division with an eight-bit register finds it.
 */
module Division {

  // ---------------------------------------------------------------- polynomials over {0, 1}

  /** Coefficients, the highest exponent first. */
  type Poly = seq<bool>

  /** The coefficient of x^i. */
  function Coef(p: Poly, i: int): bool {
    0 <= i < |p| && p[|p| - 1 - i]
  }

  predicate Odd(a: bool, b: bool) {
    a != b
  }

  /** The coefficient of x^i in q * (x^8 + x^2 + x + 1). */
  function Product(q: Poly, i: int): bool {
    Odd(Odd(Coef(q, i), Coef(q, i - 1)), Odd(Coef(q, i - 2), Coef(q, i - 8)))
  }

  /** The coefficient of x^i in the register. */
  function Bit(r: bv8, i: int): bool {
    match i
    case 0 => r & 0x01 != 0
    case 1 => r & 0x02 != 0
    case 2 => r & 0x04 != 0
    case 3 => r & 0x08 != 0
    case 4 => r & 0x10 != 0
    case 5 => r & 0x20 != 0
    case 6 => r & 0x40 != 0
    case 7 => r & 0x80 != 0
    case _ => false
  }

  ghost predicate Divides(m: Poly, q: Poly, r: bv8) {
    forall i :: Coef(m, i) == Odd(Product(q, i), Bit(r, i))
  }

  /** m = q * (x^8 + x^2 + x + 1) + r for some q; r has a lower degree than the divisor */
  ghost predicate IsRemainder(m: Poly, r: bv8) {
    exists q :: Divides(m, q, r)
  }

  // ---------------------------------------------------------------- long division

  /** The next coefficient comes down; the divisor is subtracted when the leading one is set. */
  function Feed(r: bv8, b: bool): bv8 {
    var shifted := (r << 1) | (if b then 1 else 0);
    if r & 0x80 != 0 then shifted ^ 0x07 else shifted
  }

  function FeedAll(r: bv8, p: Poly): bv8 {
    if p == [] then r else Feed(FeedAll(r, p[..|p| - 1]), p[|p| - 1])
  }

  function Remainder(m: Poly): bv8 {
    FeedAll(0, m)
  }

  lemma FeedBit(r: bv8, b: bool, i: nat)
    ensures Bit(Feed(r, b), i) == if i == 0 then Odd(b, Bit(r, 7))
                                  else if i <= 2 then Odd(Bit(r, i - 1), Bit(r, 7))
                                  else i < 8 && Bit(r, i - 1)
  {
  }

  lemma CoefSnoc(p: Poly, b: bool, i: int)
    ensures Coef(p + [b], i) == if i == 0 then b else Coef(p, i - 1)
  {
  }

  lemma ProductSnoc(q: Poly, b: bool, i: nat)
    ensures Product(q + [b], i) == if i == 0 then b
                                   else if i == 1 || i == 2 || i == 8 then Odd(Product(q, i - 1), b)
                                   else Product(q, i - 1)
  {
  }

  lemma DividesStep(m: Poly, q: Poly, r: bv8, b: bool)
    requires Divides(m, q, r)
    ensures Divides(m + [b], q + [Bit(r, 7)], Feed(r, b))
  {
    forall i
      ensures Coef(m + [b], i) == Odd(Product(q + [Bit(r, 7)], i), Bit(Feed(r, b), i))
    {
      if i >= 0 {
        CoefSnoc(m, b, i);
        ProductSnoc(q, Bit(r, 7), i);
        FeedBit(r, b, i);
        assert Coef(m, i - 1) == Odd(Product(q, i - 1), Bit(r, i - 1));
      }
    }
  }

  lemma EmptyDivides()
    ensures Divides([], [], 0)
  {
  }

  /** Long division finds a remainder. */
  lemma {:induction false} RemainderDivides(m: Poly)
    ensures IsRemainder(m, Remainder(m))
  {
    if m == [] {
      EmptyDivides();
    } else {
      var front, last := m[..|m| - 1], m[|m| - 1];
      RemainderDivides(front);
      var q :| Divides(front, q, Remainder(front));
      DividesStep(front, q, Remainder(front), last);
      assert m == front + [last];
    }
  }

  /** Quotients of one polynomial agree from the highest coefficient down. */
  lemma {:induction false} QuotientsAgree(m: Poly, q1: Poly, r1: bv8, q2: Poly, r2: bv8, i: nat)
    requires Divides(m, q1, r1) && Divides(m, q2, r2)
    ensures Coef(q1, i) == Coef(q2, i)
    decreases |q1| + |q2| - i
  {
    if i < |q1| + |q2| {
      QuotientsAgree(m, q1, r1, q2, r2, i + 8);
      QuotientsAgree(m, q1, r1, q2, r2, i + 7);
      QuotientsAgree(m, q1, r1, q2, r2, i + 6);
      assert Coef(m, i + 8) == Odd(Product(q1, i + 8), Bit(r1, i + 8));
      assert Coef(m, i + 8) == Odd(Product(q2, i + 8), Bit(r2, i + 8));
    }
  }

  lemma BitsDecide(r1: bv8, r2: bv8)
    requires forall i :: 0 <= i < 8 ==> Bit(r1, i) == Bit(r2, i)
    ensures r1 == r2
  {
    assert Bit(r1, 0) == Bit(r2, 0) && Bit(r1, 1) == Bit(r2, 1) && Bit(r1, 2) == Bit(r2, 2) && Bit(r1, 3) == Bit(r2, 3);
    assert Bit(r1, 4) == Bit(r2, 4) && Bit(r1, 5) == Bit(r2, 5) && Bit(r1, 6) == Bit(r2, 6) && Bit(r1, 7) == Bit(r2, 7);
  }

  /** There is no other remainder. */
  lemma RemainderUnique(m: Poly, r1: bv8, r2: bv8)
    requires IsRemainder(m, r1) && IsRemainder(m, r2)
    ensures r1 == r2
  {
    var q1 :| Divides(m, q1, r1);
    var q2 :| Divides(m, q2, r2);
    forall i | 0 <= i < 8
      ensures Bit(r1, i) == Bit(r2, i)
    {
      forall k: int
        ensures Coef(q1, k) == Coef(q2, k)
      {
        if k >= 0 { QuotientsAgree(m, q1, r1, q2, r2, k); }
      }
      assert Coef(m, i) == Odd(Product(q1, i), Bit(r1, i)) == Odd(Product(q2, i), Bit(r2, i));
    }
    BitsDecide(r1, r2);
  }

  lemma RemainderIs(m: Poly, r: bv8)
    ensures IsRemainder(m, r) <==> r == Remainder(m)
  {
    RemainderDivides(m);
    if IsRemainder(m, r) { RemainderUnique(m, r, Remainder(m)); }
  }

  // ---------------------------------------------------------------- whole bytes

  /** The eight coefficients of a byte. */
  function Bits(b: bv8): (p: Poly)
    ensures |p| == 8
  {
    seq(8, k requires 0 <= k < 8 => Bit(b, 7 - k))
  }

  /** Eight zero coefficients, as multiplying by x^8 adds. */
  const ZEROS: Poly := [false, false, false, false, false, false, false, false]

  lemma {:induction false} FeedAppend(r: bv8, p: Poly, q: Poly)
    ensures FeedAll(r, p + q) == FeedAll(FeedAll(r, p), q)
  {
    if q == [] {
      assert p + q == p;
    } else {
      FeedAppend(r, p, q[..|q| - 1]);
      assert (p + q)[..|p + q| - 1] == p + q[..|q| - 1];
    }
  }

  lemma XorBit(r: bv8, s: bv8, i: int)
    ensures Bit(r ^ s, i) == Odd(Bit(r, i), Bit(s, i))
  {
    match i
    case 0 => case 1 => case 2 => case 3 =>
    case 4 => case 5 => case 6 => case 7 =>
    case _ =>
  }

  lemma CoefByte(m: Poly, b: bv8, i: int)
    ensures Coef(m + Bits(b), i) == Odd(Coef(m + ZEROS, i), Bit(b, i))
  {
  }

  /** A byte may come down first, or be added once eight zeros have. */
  lemma ByteLater(m: Poly, b: bv8)
    ensures Remainder(m + Bits(b)) == Remainder(m + ZEROS) ^ b
  {
    var r := Remainder(m + ZEROS);
    RemainderDivides(m + ZEROS);
    var q :| Divides(m + ZEROS, q, r);
    forall i
      ensures Coef(m + Bits(b), i) == Odd(Product(q, i), Bit(r ^ b, i))
    {
      CoefByte(m, b, i);
      XorBit(r, b, i);
      assert Coef(m + ZEROS, i) == Odd(Product(q, i), Bit(r, i));
    }
    assert Divides(m + Bits(b), q, r ^ b);
    RemainderIs(m + Bits(b), r ^ b);
  }

  // ---------------------------------------------------------------- division step backwards

  /** The lowest digit tells whether the divisor was subtracted. */
  function Unfeed(t: bv8): bv8 {
    if t & 1 != 0 then ((t ^ 0x07) >> 1) | 0x80 else t >> 1
  }

  lemma UnfeedInverts(r: bv8, t: bv8)
    ensures Feed(r, false) == t <==> r == Unfeed(t)
  {
  }

  function Unzero(t: bv8, n: nat): bv8
    decreases n
  {
    if n == 0 then t else Unzero(Unfeed(t), n - 1)
  }

  /** Feeding zeros is a bijection of the registers. */
  lemma {:induction false} UnzeroInverts(r: bv8, t: bv8, p: Poly)
    requires forall k :: 0 <= k < |p| ==> !p[k]
    ensures FeedAll(r, p) == t <==> r == Unzero(t, |p|)
    decreases |p|
  {
    if p != [] {
      UnfeedInverts(FeedAll(r, p[..|p| - 1]), t);
      UnzeroInverts(r, Unfeed(t), p[..|p| - 1]);
    }
  }
}
