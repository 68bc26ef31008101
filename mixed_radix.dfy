/**
 * Mixed-radix positional numbers.
 *
 * Every address computed by the 3-D FFT (the four data layouts, the Z-axis
 * workspace and the reordered reciprocal-space kernel) is a number written in
 * mixed radix: digit ds[0] in radix rs[0], digit ds[1] in radix rs[1], and so
 * on.  Bounds, injectivity and surjectivity of all of them follow from the
 * three lemmas about Value below.
 */
module MixedRadix {

  /** Value of the digits ds in the radices rs, least significant digit first. */
  function Value(ds: seq<int>, rs: seq<int>): int
    requires |ds| == |rs|
  {
    if |ds| == 0 then 0 else ds[0] + rs[0] * Value(ds[1..], rs[1..])
  }

  /** The number of distinct digit strings for the radices rs. */
  function Product(rs: seq<int>): int
  {
    if |rs| == 0 then 1 else rs[0] * Product(rs[1..])
  }

  /** Every digit is in range for its radix. */
  predicate Fits(ds: seq<int>, rs: seq<int>)
  {
    |ds| == |rs| && forall k :: 0 <= k < |ds| ==> 0 <= ds[k] < rs[k]
  }

  predicate AllPositive(rs: seq<int>)
  {
    forall k :: 0 <= k < |rs| ==> rs[k] > 0
  }

  lemma MulLeft(a: int, b: int, c: int)
    requires a >= 0 && b <= c
    ensures a * b <= a * c
  {
    assert a * c - a * b == a * (c - b);
  }

  /** One step of a mixed-radix decomposition is unique. */
  lemma DigitUnique(d: int, h: int, e: int, k: int, r: int)
    requires 0 <= d < r && 0 <= e < r
    requires d + r * h == e + r * k
    ensures d == e && h == k
  {
    assert r * (h - k) == e - d;
    if h > k {
      MulLeft(r, 1, h - k);
    } else if h < k {
      MulLeft(r, 1, k - h);
    }
  }

  /** Euclidean division of a number below r*p by r leaves a quotient below p. */
  lemma QuotientBound(a: int, r: int, p: int)
    requires r > 0 && 0 <= a < r * p
    ensures 0 <= a / r < p
  {
    if a / r >= p {
      MulLeft(r, p, a / r);
    }
  }

  /** a == q*r + m with 0 <= m < r fixes the quotient and the remainder. */
  lemma DivModOf(a: int, q: int, m: int, r: int)
    requires 0 <= m < r && a == q * r + m
    ensures a / r == q && a % r == m
  {
    DigitUnique(a % r, a / r, m, q, r);
  }

  lemma {:induction false} ValueBounds(ds: seq<int>, rs: seq<int>)
    requires Fits(ds, rs)
    ensures 0 <= Value(ds, rs) < Product(rs)
  {
    if |ds| > 0 {
      assert Fits(ds[1..], rs[1..]) by {
        forall k | 0 <= k < |ds| - 1 ensures 0 <= ds[1..][k] < rs[1..][k] {
          assert ds[1..][k] == ds[k + 1] && rs[1..][k] == rs[k + 1];
        }
      }
      ValueBounds(ds[1..], rs[1..]);
      var v, p := Value(ds[1..], rs[1..]), Product(rs[1..]);
      MulLeft(rs[0], v, p - 1);
      assert rs[0] * (p - 1) == rs[0] * p - rs[0];
    }
  }

  lemma {:induction false} ValueInjective(ds: seq<int>, es: seq<int>, rs: seq<int>)
    requires Fits(ds, rs) && Fits(es, rs)
    requires Value(ds, rs) == Value(es, rs)
    ensures ds == es
  {
    if |ds| > 0 {
      assert Fits(ds[1..], rs[1..]) by {
        forall k | 0 <= k < |ds| - 1 ensures 0 <= ds[1..][k] < rs[1..][k] {
          assert ds[1..][k] == ds[k + 1] && rs[1..][k] == rs[k + 1];
        }
      }
      assert Fits(es[1..], rs[1..]) by {
        forall k | 0 <= k < |es| - 1 ensures 0 <= es[1..][k] < rs[1..][k] {
          assert es[1..][k] == es[k + 1] && rs[1..][k] == rs[k + 1];
        }
      }
      DigitUnique(ds[0], Value(ds[1..], rs[1..]), es[0], Value(es[1..], rs[1..]), rs[0]);
      ValueInjective(ds[1..], es[1..], rs[1..]);
      assert ds == [ds[0]] + ds[1..] && es == [es[0]] + es[1..];
    }
  }

  /** The digits of a: every number below Product(rs) has a representation. */
  function Digits(a: int, rs: seq<int>): (ds: seq<int>)
    requires AllPositive(rs)
    requires 0 <= a < Product(rs)
    ensures Fits(ds, rs) && Value(ds, rs) == a
    decreases |rs|
  {
    if |rs| == 0 then []
    else
      QuotientBound(a, rs[0], Product(rs[1..]));
      var rest := Digits(a / rs[0], rs[1..]);
      var ds := [a % rs[0]] + rest;
      assert ds[1..] == rest;
      ds
  }

  lemma Value2(a: int, b: int, r0: int, r1: int)
    ensures Value([a, b], [r0, r1]) == a + r0 * b
    ensures Product([r0, r1]) == r0 * r1
  {
    assert [a, b][1..] == [b] && [r0, r1][1..] == [r1];
    assert [b][1..] == [] && [r1][1..] == [];
    assert Value([b], [r1]) == b + r1 * Value([], []);
    assert Product([r1]) == r1 * Product([]);
  }

  lemma Value3(a: int, b: int, c: int, r0: int, r1: int, r2: int)
    ensures Value([a, b, c], [r0, r1, r2]) == a + r0 * (b + r1 * c)
    ensures Product([r0, r1, r2]) == r0 * (r1 * r2)
  {
    assert [a, b, c][1..] == [b, c] && [r0, r1, r2][1..] == [r1, r2];
    Value2(b, c, r1, r2);
  }

  lemma Value4(a: int, b: int, c: int, d: int, r0: int, r1: int, r2: int, r3: int)
    ensures Value([a, b, c, d], [r0, r1, r2, r3]) == a + r0 * (b + r1 * (c + r2 * d))
    ensures Product([r0, r1, r2, r3]) == r0 * (r1 * (r2 * r3))
  {
    assert [a, b, c, d][1..] == [b, c, d] && [r0, r1, r2, r3][1..] == [r1, r2, r3];
    Value3(b, c, d, r1, r2, r3);
  }
}
