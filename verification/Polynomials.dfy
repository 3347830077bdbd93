/** Polynomials over the field of two elements, as their coefficients from the highest degree
    down, and their division. */
module Polynomials {

  function Plus(p: seq<bool>, q: seq<bool>): (r: seq<bool>)
    requires |p| == |q|
    ensures |r| == |p|
  {
    seq(|p|, i requires 0 <= i < |p| => p[i] != q[i])
  }

  function Zeros(n: nat): (r: seq<bool>)
    ensures |r| == n
  {
    seq(n, _ => false)
  }

  /** The step of long division by x^|g| + g: the leading term goes away, and if it is there the
      divisor is subtracted below it. */
  function Reduced(p: seq<bool>, g: seq<bool>): (r: seq<bool>)
    requires |p| > |g|
    ensures |r| == |p| - 1
  {
    var n := |g|;
    (if p[0] then Plus(p[1..n + 1], g) else p[1..n + 1]) + p[n + 1..]
  }

  /** Long division, most significant coefficient first. */
  function Remainder(p: seq<bool>, g: seq<bool>): (r: seq<bool>)
    requires |p| >= |g|
    ensures |r| == |g|
    decreases |p|
  {
    if |p| == |g| then p else Remainder(Reduced(p, g), g)
  }

  function Quotient(p: seq<bool>, g: seq<bool>): (q: seq<bool>)
    requires |p| >= |g|
    ensures |q| == |p| - |g|
    decreases |p|
  {
    if |p| == |g| then [] else [p[0]] + Quotient(Reduced(p, g), g)
  }

  /** The divisor x^|g| + g, or nothing. */
  function Divisor(there: bool, g: seq<bool>): (d: seq<bool>)
    ensures |d| == |g| + 1
  {
    if there then [true] + g else Zeros(|g| + 1)
  }

  /** The product of q and the divisor. */
  function Times(q: seq<bool>, g: seq<bool>): (r: seq<bool>)
    ensures |r| == |q| + |g|
  {
    if q == [] then Zeros(|g|)
    else Plus(Divisor(q[0], g) + Zeros(|q| - 1), [false] + Times(q[1..], g))
  }

  lemma StepBack(p: seq<bool>, g: seq<bool>)
    requires |p| > |g|
    ensures p == Plus(Divisor(p[0], g) + Zeros(|p| - |g| - 1), [false] + Reduced(p, g))
  {
    var n, d, r := |g|, Divisor(p[0], g) + Zeros(|p| - |g| - 1), [false] + Reduced(p, g);
    forall i | 0 <= i < |p|
      ensures p[i] == (d[i] != r[i])
    {
      if 0 < i <= n {
        assert r[i] == Reduced(p, g)[i - 1] && p[1..n + 1][i - 1] == p[i];
      } else if i > n {
        assert r[i] == Reduced(p, g)[i - 1] == p[n + 1..][i - 1 - n] && !d[i];
      }
    }
  }

  lemma PlusAssoc(a: seq<bool>, b: seq<bool>, c: seq<bool>)
    requires |a| == |b| == |c|
    ensures Plus(a, Plus(b, c)) == Plus(Plus(a, b), c)
  {
  }

  lemma NothingTimes(p: seq<bool>)
    ensures p == Plus(Zeros(|p|), Zeros(0) + p)
  {
  }

  lemma PlusInFront(a: seq<bool>, b: seq<bool>)
    requires |a| == |b|
    ensures Plus([false] + a, [false] + b) == [false] + Plus(a, b)
  {
  }

  /** Division: the dividend is the quotient times the divisor, and the remainder. */
  lemma {:induction false} DivisionLaw(p: seq<bool>, g: seq<bool>)
    requires |p| >= |g|
    ensures p == Plus(Times(Quotient(p, g), g), Zeros(|p| - |g|) + Remainder(p, g))
    decreases |p|
  {
    hide Divisor, Reduced, Plus;
    if |p| == |g| {
      NothingTimes(p);
    } else {
      var p1 := Reduced(p, g);
      var q1, r := Quotient(p1, g), Remainder(p, g);
      DivisionLaw(p1, g);
      StepBack(p, g);
      var lead, product, rest := Divisor(p[0], g) + Zeros(|q1|), [false] + Times(q1, g), Zeros(|p| - |g|) + r;
      PlusInFront(Times(q1, g), Zeros(|q1|) + r);
      assert rest == [false] + (Zeros(|q1|) + r);
      PlusAssoc(lead, product, rest);
      assert Quotient(p, g)[1..] == q1;
    }
  }

  // ----- the shift register that divides

  /** Takes in one more coefficient. */
  function Feed(r: seq<bool>, bit: bool, g: seq<bool>): (r': seq<bool>)
    requires |r| == |g| > 0
    ensures |r'| == |g|
  {
    if r[0] != bit then Plus(r[1..] + [false], g) else r[1..] + [false]
  }

  function FeedAll(r: seq<bool>, bits: seq<bool>, g: seq<bool>): (r': seq<bool>)
    requires |r| == |g| > 0
    ensures |r'| == |g|
    decreases |bits|
  {
    if bits == [] then r else FeedAll(Feed(r, bits[0], g), bits[1..], g)
  }

  /** The polynomial `bits`, shifted by the degree of the divisor, with `r` added at its front. */
  function Dividend(r: seq<bool>, bits: seq<bool>): (p: seq<bool>)
    ensures |p| == |bits| + |r|
  {
    Plus(bits + Zeros(|r|), r + Zeros(|bits|))
  }

  lemma FeedReduces(r: seq<bool>, bits: seq<bool>, g: seq<bool>)
    requires |r| == |g| > 0 && bits != []
    ensures Reduced(Dividend(r, bits), g) == Dividend(Feed(r, bits[0], g), bits[1..])
  {
    var n, p := |g|, Dividend(r, bits);
    var p1, p2 := Reduced(p, g), Dividend(Feed(r, bits[0], g), bits[1..]);
    assert p[0] == (bits[0] != r[0]);
    forall i | 0 <= i < |p1|
      ensures p1[i] == p2[i]
    {
      assert (bits + Zeros(n))[i + 1] == (bits[1..] + Zeros(n))[i];
      if i < n {
        assert p[1..n + 1][i] == p[i + 1];
        assert (r + Zeros(|bits|))[i + 1] == (r[1..] + [false])[i];
      } else {
        assert p1[i] == p[n + 1..][i - n] == p[i + 1];
      }
    }
  }

  /** The register ends with the remainder. */
  lemma {:induction false} RegisterDivides(r: seq<bool>, bits: seq<bool>, g: seq<bool>)
    requires |r| == |g| > 0
    ensures Remainder(Dividend(r, bits), g) == FeedAll(r, bits, g)
    decreases |bits|
  {
    if bits == [] {
      assert Dividend(r, bits) == r;
    } else {
      FeedReduces(r, bits, g);
      RegisterDivides(Feed(r, bits[0], g), bits[1..], g);
    }
  }

  /** The n low coefficients of a number, from x^(n-1) down. */
  function Coefficients(number: nat, n: nat): (r: seq<bool>)
    ensures |r| == n
  {
    if n == 0 then [] else Coefficients(number / 2, n - 1) + [number % 2 == 1]
  }
}
