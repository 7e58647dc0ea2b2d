/** lib_stats.c, regression: the weighted least-squares line, over the reals. */
module Regression {
  import opened Options

  datatype Fit = Fit(a: real, b: real, chi2: real)

  // ----- weighted sums

  /** Sum of w[i] * v[i]. */
  function Dot(w: seq<real>, v: seq<real>): real
    requires |w| == |v|
  {
    if |w| == 0 then 0.0 else Dot(w[..|w| - 1], v[..|v| - 1]) + w[|w| - 1] * v[|v| - 1]
  }

  function Ones(n: nat): (r: seq<real>)
    ensures |r| == n
  {
    seq(n, _ => 1.0)
  }

  /** p * u + q * v, entry by entry. */
  function Comb(p: real, u: seq<real>, q: real, v: seq<real>): (r: seq<real>)
    requires |u| == |v|
    ensures |r| == |u|
  {
    seq(|u|, i requires 0 <= i < |u| => Mix(p, u[i], q, v[i]))
  }

  function Mix(p: real, u: real, q: real, v: real): real {
    p * u + q * v
  }

  function Product(u: real, v: real): real {
    u * v
  }

  lemma Prefixes(p: real, u: seq<real>, q: real, v: seq<real>, n: nat)
    requires |u| == |v| && n <= |u|
    ensures Comb(p, u, q, v)[..n] == Comb(p, u[..n], q, v[..n])
    ensures Times(u, v)[..n] == Times(u[..n], v[..n])
  {
    hide Mix, Product;
  }

  function Times(u: seq<real>, v: seq<real>): (r: seq<real>)
    requires |u| == |v|
    ensures |r| == |u|
  {
    seq(|u|, i requires 0 <= i < |u| => Product(u[i], v[i]))
  }

  lemma DotNext(w: seq<real>, v: seq<real>, i: nat)
    requires |w| == |v| && i < |w|
    ensures Dot(w[..i + 1], v[..i + 1]) == Dot(w[..i], v[..i]) + w[i] * v[i]
  {
    assert w[..i + 1][..i] == w[..i] && v[..i + 1][..i] == v[..i];
  }

  lemma TermLinear(w: real, p: real, u: real, q: real, v: real)
    ensures w * (p * u + q * v) == p * (w * u) + q * (w * v)
  {
  }

  lemma SumsLinear(p: real, a: real, a': real, q: real, b: real, b': real)
    ensures p * (a + a') + q * (b + b') == (p * a + q * b) + (p * a' + q * b')
  {
  }

  lemma {:induction false} DotLinear(w: seq<real>, p: real, u: seq<real>, q: real, v: seq<real>)
    requires |w| == |u| == |v|
    ensures Dot(w, Comb(p, u, q, v)) == Mix(p, Dot(w, u), q, Dot(w, v))
  {
    if |w| > 0 {
      var n := |w| - 1;
      DotLinear(w[..n], p, u[..n], q, v[..n]);
      Prefixes(p, u, q, v, n);
      TermLinear(w[n], p, u[n], q, v[n]);
      SumsLinear(p, Dot(w[..n], u[..n]), w[n] * u[n], q, Dot(w[..n], v[..n]), w[n] * v[n]);
    } else {
      assert p * 0.0 + q * 0.0 == 0.0;
    }
  }

  ghost predicate Positive(w: seq<real>) {
    forall i | 0 <= i < |w| :: w[i] > 0.0
  }

  lemma Square(x: real)
    ensures x * x >= 0.0 && (x != 0.0 ==> x * x > 0.0) && (x == 0.0 ==> x * x == 0.0)
  {
    if x > 0.0 {
      PositiveProduct(x, x);
    } else if x < 0.0 {
      NegativeSquare(x);
    } else {
      ZeroTimes(x, x);
    }
  }

  lemma ZeroTimes(x: real, y: real)
    requires x == 0.0
    ensures x * y == 0.0
  {
  }

  lemma NegativeSquare(x: real)
    requires x < 0.0
    ensures x * x > 0.0
  {
  }

  lemma PositiveProduct(x: real, y: real)
    requires x > 0.0 && y > 0.0
    ensures x * y > 0.0
  {
  }

  lemma PositiveTimes(w: real, x: real)
    requires w > 0.0 && x >= 0.0
    ensures w * x >= 0.0 && (x > 0.0 ==> w * x > 0.0) && (x == 0.0 ==> w * x == 0.0)
  {
  }

  /** A weighted sum of squares is zero only if all the squares are. */
  lemma {:induction false} DotSquares(w: seq<real>, v: seq<real>)
    requires |w| == |v| && Positive(w)
    ensures Dot(w, Times(v, v)) >= 0.0
    ensures (forall i | 0 <= i < |v| :: v[i] == 0.0) ==> Dot(w, Times(v, v)) == 0.0
    ensures Dot(w, Times(v, v)) == 0.0 ==> forall i | 0 <= i < |v| :: v[i] == 0.0
  {
    if |w| > 0 {
      var n := |w| - 1;
      DotSquares(w[..n], v[..n]);
      Prefixes(0.0, v, 0.0, v, n);
      TermSign(w[n], v[n]);
      assert Dot(w, Times(v, v)) == Dot(w[..n], Times(v[..n], v[..n])) + Term(w[n], v[n]);
      assert forall i | 0 <= i < n :: v[..n][i] == v[i];
      hide Dot, Times, Product, Term;
    }
  }

  function Term(w: real, v: real): real {
    w * Product(v, v)
  }

  lemma TermSign(w: real, v: real)
    requires w > 0.0
    ensures Term(w, v) >= 0.0 && (v != 0.0 ==> Term(w, v) > 0.0) && (v == 0.0 ==> Term(w, v) == 0.0)
  {
    hide Product;
    ProductSign(v);
    PositiveTimes(w, Product(v, v));
  }

  lemma ProductSign(v: real)
    ensures Product(v, v) >= 0.0 && (v != 0.0 ==> Product(v, v) > 0.0) && (v == 0.0 ==> Product(v, v) == 0.0)
  {
    hide Product;
    SameSign(v, v);
  }

  lemma SameSign(u: real, v: real)
    ensures u > 0.0 && v > 0.0 ==> Product(u, v) > 0.0
    ensures u < 0.0 && v < 0.0 ==> Product(u, v) > 0.0
    ensures u == 0.0 ==> Product(u, v) == 0.0
  {
    if u == 0.0 { ZeroTimes(u, v); }
  }

  lemma {:induction false} DotOnes(w: seq<real>)
    requires Positive(w)
    ensures Dot(w, Ones(|w|)) >= 0.0 && (|w| > 0 ==> Dot(w, Ones(|w|)) > 0.0)
  {
    if |w| > 0 {
      var n := |w| - 1;
      DotOnes(w[..n]);
      assert Ones(|w|)[..n] == Ones(n);
    }
  }

  // ----- the weights

  /** sig ? sig[i] : 1.0 */
  function Scale(sig: Option<seq<real>>, i: nat): real
    requires sig.Some? ==> i < |sig.value|
  {
    if sig.Some? then sig.value[i] else 1.0
  }

  /** No deviations, or one for each point, none of them 0. */
  predicate Weighable(sig: Option<seq<real>>, n: nat) {
    sig.Some? ==> |sig.value| == n && forall i | 0 <= i < n :: sig.value[i] != 0.0
  }

  function Weight(s: real): (w: real)
    requires s != 0.0
    ensures w > 0.0
  {
    Square(s);
    1.0 / (s * s)
  }

  function Weights(sig: Option<seq<real>>, n: nat): (w: seq<real>)
    requires Weighable(sig, n)
    ensures |w| == n && Positive(w)
  {
    seq(n, i requires 0 <= i < n => Weight(Scale(sig, i)))
  }

  /** Dividing both factors by the deviation is weighting the product. */
  lemma Weighted(p: real, q: real, s: real)
    requires s != 0.0
    ensures (p / s) * (q / s) == Weight(s) * (p * q) && (p / s) * q / s == Weight(s) * (p * q)
  {
    Square(s);
    var u, v, w := p / s, q / s, 1.0 / (s * s);
    assert u * s == p && v * s == q && w * (s * s) == 1.0;
    Regroup(u, v, s, w);
    assert u * q / s == u * v by { assert u * q == u * v * s; }
  }

  lemma Regroup(u: real, v: real, s: real, w: real)
    requires w * (s * s) == 1.0
    ensures u * v == w * ((u * s) * (v * s))
  {
    assert (u * s) * (v * s) == (u * v) * (s * s);
    assert w * ((u * v) * (s * s)) == (u * v) * (w * (s * s));
  }

  // ----- lines and what is left of y beside them

  /** a + b * x */
  function Line(x: seq<real>, a: real, b: real): seq<real> {
    Comb(a, Ones(|x|), b, x)
  }

  function Residuals(x: seq<real>, y: seq<real>, a: real, b: real): (r: seq<real>)
    requires |x| == |y|
    ensures |r| == |x|
  {
    Comb(1.0, y, -1.0, Line(x, a, b))
  }

  /** The merit function: the weighted sum of the squared residuals. */
  function Chi2(w: seq<real>, x: seq<real>, y: seq<real>, a: real, b: real): real
    requires |w| == |x| == |y|
  {
    Dot(w, Times(Residuals(x, y, a, b), Residuals(x, y, a, b)))
  }

  /** x - c */
  function Centred(x: seq<real>, c: real): (r: seq<real>)
    ensures |r| == |x|
  {
    Comb(1.0, x, -c, Ones(|x|))
  }

  /** Both derivatives of the merit function vanish. */
  ghost predicate NormalEquations(w: seq<real>, x: seq<real>, y: seq<real>, a: real, b: real)
    requires |w| == |x| == |y|
  {
    Dot(w, Residuals(x, y, a, b)) == 0.0 && Dot(w, Times(x, Residuals(x, y, a, b))) == 0.0
  }

  lemma ResidualTimes(d: real, y: real, a: real, b: real, x: real)
    ensures Product(d, Mix(1.0, y, -1.0, Mix(a, 1.0, b, x))) == Mix(1.0, Product(d, y), -1.0,
                                                                    Mix(a, d, b, Product(d, x)))
  {
  }

  lemma CentredTimes(x: real, c: real)
    ensures Product(Mix(1.0, x, -c, 1.0), x) == Mix(1.0, Product(Mix(1.0, x, -c, 1.0), Mix(1.0, x, -c, 1.0)), c,
                                                    Mix(1.0, x, -c, 1.0))
  {
    var d := x - c;
    assert d * x == d * d + c * d;
  }

  /** What Dot of d * residual comes to. */
  lemma DotResidual(w: seq<real>, d: seq<real>, x: seq<real>, y: seq<real>, a: real, b: real)
    requires |w| == |d| == |x| == |y|
    ensures Dot(w, Times(d, Residuals(x, y, a, b))) ==
            Mix(1.0, Dot(w, Times(d, y)), -1.0, Mix(a, Dot(w, d), b, Dot(w, Times(d, x))))
  {
    hide *;
    ResidualSplit(d, x, y, a, b);
    DotLinear(w, 1.0, Times(d, y), -1.0, Comb(a, d, b, Times(d, x)));
    DotLinear(w, a, d, b, Times(d, x));
  }

  lemma ResidualSplit(d: seq<real>, x: seq<real>, y: seq<real>, a: real, b: real)
    requires |d| == |x| == |y|
    ensures Times(d, Residuals(x, y, a, b)) == Comb(1.0, Times(d, y), -1.0, Comb(a, d, b, Times(d, x)))
  {
    forall i | 0 <= i < |x|
      ensures Times(d, Residuals(x, y, a, b))[i] == Comb(1.0, Times(d, y), -1.0, Comb(a, d, b, Times(d, x)))[i]
    {
      ResidualTimes(d[i], y[i], a, b, x[i]);
      hide Mix, Product;
    }
  }

  // ----- the normal equations

  lemma DotLine(w: seq<real>, x: seq<real>, y: seq<real>, a: real, b: real)
    requires |w| == |x| == |y|
    ensures Dot(w, Residuals(x, y, a, b)) == Mix(1.0, Dot(w, y), -1.0, Mix(a, Dot(w, Ones(|x|)), b, Dot(w, x)))
  {
    hide *;
    LineIs(x, y, a, b);
    DotLinear(w, 1.0, y, -1.0, Comb(a, Ones(|x|), b, x));
    DotLinear(w, a, Ones(|x|), b, x);
  }

  lemma LineIs(x: seq<real>, y: seq<real>, a: real, b: real)
    requires |x| == |y|
    ensures |Ones(|x|)| == |x| && Residuals(x, y, a, b) == Comb(1.0, y, -1.0, Comb(a, Ones(|x|), b, x))
  {
    hide Comb;
  }

  lemma DotCentred(w: seq<real>, x: seq<real>, c: real)
    requires |w| == |x|
    ensures Dot(w, Centred(x, c)) == Mix(1.0, Dot(w, x), -c, Dot(w, Ones(|x|)))
    ensures Dot(w, Times(Centred(x, c), x)) == Mix(1.0, Dot(w, Times(Centred(x, c), Centred(x, c))), c,
                                                   Dot(w, Centred(x, c)))
  {
    hide *;
    var d := Centred(x, c);
    CentredIs(x, c);
    DotLinear(w, 1.0, x, -c, Ones(|x|));
    DotLinear(w, 1.0, Times(d, d), c, d);
  }

  lemma CentredIs(x: seq<real>, c: real)
    ensures |Ones(|x|)| == |x| && Centred(x, c) == Comb(1.0, x, -c, Ones(|x|))
    ensures Times(Centred(x, c), x) == Comb(1.0, Times(Centred(x, c), Centred(x, c)), c, Centred(x, c))
  {
    var d := Centred(x, c);
    forall i | 0 <= i < |x| ensures Times(d, x)[i] == Comb(1.0, Times(d, d), c, d)[i] {
      CentredTimes(x[i], c);
      hide Mix, Product;
    }
  }

  /** x * residual is (x - c) * residual and c times the residual. */
  lemma DotUncentred(w: seq<real>, x: seq<real>, c: real, r: seq<real>)
    requires |w| == |x| == |r|
    ensures Dot(w, Times(x, r)) == Mix(1.0, Dot(w, Times(Centred(x, c), r)), c, Dot(w, r))
  {
    UncentredIs(x, c, r);
    hide *;
    DotLinear(w, 1.0, Times(Centred(x, c), r), c, r);
  }

  lemma UncentredIs(x: seq<real>, c: real, r: seq<real>)
    requires |x| == |r|
    ensures Times(x, r) == Comb(1.0, Times(Centred(x, c), r), c, r)
  {
    forall i | 0 <= i < |x| ensures Times(x, r)[i] == Comb(1.0, Times(Centred(x, c), r), c, r)[i] {
      UncentredTimes(x[i], c, r[i]);
      hide Mix, Product;
    }
  }

  lemma UncentredTimes(x: real, c: real, r: real)
    ensures Product(x, r) == Mix(1.0, Product(Mix(1.0, x, -c, 1.0), r), c, r)
  {
    var d := x - c;
    assert x * r == d * r + c * r;
  }

  lemma Quotient(p: real, q: real)
    requires q != 0.0
    ensures p / q * q == p
  {
  }

  lemma LineVanishes(S: real, Sx: real, Sy: real, a: real, b: real)
    requires S != 0.0 && a == (Sy - b * Sx) / S
    ensures Mix(1.0, Sy, -1.0, Mix(a, S, b, Sx)) == 0.0
  {
    Quotient(Sy - b * Sx, S);
  }

  lemma CentreVanishes(S: real, Sx: real, c: real)
    requires S != 0.0 && c == Sx / S
    ensures Mix(1.0, Sx, -c, S) == 0.0
  {
    Quotient(Sx, S);
  }

  lemma OnlyFirst(p: real, c: real)
    ensures Mix(1.0, p, c, 0.0) == p
  {
  }

  lemma SlopeVanishes(sum: real, stt: real, a: real, b: real)
    requires stt != 0.0 && b == sum / stt
    ensures Mix(1.0, sum, -1.0, Mix(a, 0.0, b, stt)) == 0.0
  {
    Quotient(sum, stt);
    ZeroTimes(0.0, a);
  }

  /** b = sum / Stt and a = (Sy - b * Sx) / S solve the normal equations. */
  lemma SolvesNormal(w: seq<real>, x: seq<real>, y: seq<real>, a: real, b: real)
    requires |w| == |x| == |y| && Dot(w, Ones(|x|)) != 0.0
    requires var c := Dot(w, x) / Dot(w, Ones(|x|));
             var stt := Dot(w, Times(Centred(x, c), Centred(x, c)));
             stt != 0.0 && b == Dot(w, Times(Centred(x, c), y)) / stt &&
             a == (Dot(w, y) - b * Dot(w, x)) / Dot(w, Ones(|x|))
    ensures NormalEquations(w, x, y, a, b)
  {
    hide *;
    var S, Sx, Sy := Dot(w, Ones(|x|)), Dot(w, x), Dot(w, y);
    var c := Sx / S;
    var d, r := Centred(x, c), Residuals(x, y, a, b);
    var stt := Dot(w, Times(d, d));
    DotLine(w, x, y, a, b);
    LineVanishes(S, Sx, Sy, a, b);
    DotCentred(w, x, c);
    CentreVanishes(S, Sx, c);
    OnlyFirst(stt, c);
    DotResidual(w, d, x, y, a, b);
    SlopeVanishes(Dot(w, Times(d, y)), stt, a, b);
    DotUncentred(w, x, c, r);
    OnlyFirst(0.0, c);
    NormalIs(w, x, y, a, b);
  }

  lemma NormalIs(w: seq<real>, x: seq<real>, y: seq<real>, a: real, b: real)
    requires |w| == |x| == |y|
    ensures NormalEquations(w, x, y, a, b) <==>
            Dot(w, Residuals(x, y, a, b)) == 0.0 && Dot(w, Times(x, Residuals(x, y, a, b))) == 0.0
  {
  }

  // ----- optimality

  lemma OtherResidual(y: real, x: real, a: real, b: real, a': real, b': real)
    ensures var r := Mix(1.0, y, -1.0, Mix(a, 1.0, b, x));
            var l := Mix(a' - a, 1.0, b' - b, x);
            var r' := Mix(1.0, y, -1.0, Mix(a', 1.0, b', x));
            Product(r', r') == Mix(1.0, Mix(1.0, Product(r, r), -2.0, Mix(a' - a, r, b' - b, Product(x, r))), 1.0,
                                   Product(l, l))
  {
    var r, l := y - (a + b * x), (a' - a) + (b' - b) * x;
    assert y - (a' + b' * x) == r - l;
    assert (r - l) * (r - l) == r * r - 2.0 * (r * l) + l * l;
    assert r * l == (a' - a) * r + (b' - b) * (x * r);
  }

  lemma OtherSquares(x: seq<real>, y: seq<real>, a: real, b: real, a': real, b': real)
    requires |x| == |y|
    ensures var r, l := Residuals(x, y, a, b), Line(x, a' - a, b' - b);
            Times(Residuals(x, y, a', b'), Residuals(x, y, a', b')) ==
            Comb(1.0, Comb(1.0, Times(r, r), -2.0, Comb(a' - a, r, b' - b, Times(x, r))), 1.0, Times(l, l))
  {
    var r, l, r' := Residuals(x, y, a, b), Line(x, a' - a, b' - b), Residuals(x, y, a', b');
    forall i | 0 <= i < |x|
      ensures Times(r', r')[i] == Comb(1.0, Comb(1.0, Times(r, r), -2.0, Comb(a' - a, r, b' - b, Times(x, r))), 1.0,
                                       Times(l, l))[i]
    {
      OtherResidual(y[i], x[i], a, b, a', b');
      hide Mix, Product;
    }
  }

  lemma LineLength(x: seq<real>, a: real, b: real)
    ensures |Line(x, a, b)| == |x|
  {
  }

  /** For the line that solves the normal equations, any other line adds the weighted squares of the
      difference between the two. */
  lemma Pythagoras(w: seq<real>, x: seq<real>, y: seq<real>, a: real, b: real, a': real, b': real)
    requires |w| == |x| == |y| && NormalEquations(w, x, y, a, b)
    ensures |Line(x, a' - a, b' - b)| == |x|
    ensures var l := Line(x, a' - a, b' - b);
            Chi2(w, x, y, a', b') == Chi2(w, x, y, a, b) + Dot(w, Times(l, l))
  {
    hide *;
    LineLength(x, a' - a, b' - b);
    var r, l := Residuals(x, y, a, b), Line(x, a' - a, b' - b);
    NormalIs(w, x, y, a, b);
    OtherSquares(x, y, a, b, a', b');
    var cross := Comb(a' - a, r, b' - b, Times(x, r));
    DotLinear(w, a' - a, r, b' - b, Times(x, r));
    DotLinear(w, 1.0, Times(r, r), -2.0, cross);
    DotLinear(w, 1.0, Comb(1.0, Times(r, r), -2.0, cross), 1.0, Times(l, l));
    NoCross(a' - a, b' - b, Dot(w, Times(r, r)), Dot(w, Times(l, l)));
    Chi2Is(w, x, y, a, b);
    Chi2Is(w, x, y, a', b');
  }

  lemma NoCross(da: real, db: real, p: real, q: real)
    ensures Mix(1.0, Mix(1.0, p, -2.0, Mix(da, 0.0, db, 0.0)), 1.0, q) == p + q
  {
    ZeroTimes(0.0, da);
    ZeroTimes(0.0, db);
  }

  lemma Chi2Is(w: seq<real>, x: seq<real>, y: seq<real>, a: real, b: real)
    requires |w| == |x| == |y|
    ensures Chi2(w, x, y, a, b) == Dot(w, Times(Residuals(x, y, a, b), Residuals(x, y, a, b)))
  {
  }

  ghost predicate AllEqual(x: seq<real>) {
    forall i, j | 0 <= i < j < |x| :: x[i] == x[j]
  }

  lemma Level(da: real, db: real, x: real, x': real)
    requires Mix(da, 1.0, db, x) == 0.0 && Mix(da, 1.0, db, x') == 0.0 && x != x'
    ensures da == 0.0 && db == 0.0
  {
    assert db * x == db * x';
    var d := x - x';
    assert db * d == 0.0;
    if db != 0.0 { NoZeroDivisors(db, d); }
    ZeroTimes(db, x);
  }

  lemma NoZeroDivisors(a: real, b: real)
    requires a * b == 0.0 && a != 0.0
    ensures b == 0.0
  {
  }

  /** No line has a smaller sum of squares, and with two different x no other line has the same. */
  lemma Optimal(w: seq<real>, x: seq<real>, y: seq<real>, a: real, b: real, a': real, b': real)
    requires |w| == |x| == |y| && Positive(w) && NormalEquations(w, x, y, a, b)
    ensures Chi2(w, x, y, a', b') >= Chi2(w, x, y, a, b)
    ensures !AllEqual(x) && (a', b') != (a, b) ==> Chi2(w, x, y, a', b') > Chi2(w, x, y, a, b)
  {
    var l := Line(x, a' - a, b' - b);
    Pythagoras(w, x, y, a, b, a', b');
    DotSquares(w, l);
    if !AllEqual(x) && Dot(w, Times(l, l)) == 0.0 {
      var i, j :| 0 <= i < j < |x| && x[i] != x[j];
      assert l[i] == Mix(a' - a, 1.0, b' - b, x[i]) && l[j] == Mix(a' - a, 1.0, b' - b, x[j]);
      Level(a' - a, b' - b, x[i], x[j]);
    }
    hide Chi2, Dot, Line, Times, Comb;
  }

  // ----- the spread of x

  function Mean(w: seq<real>, x: seq<real>): real
    requires |w| == |x|
  {
    var S := Dot(w, Ones(|x|));
    if S == 0.0 then 0.0 else Dot(w, x) / S
  }

  /** Stt */
  function Spread(w: seq<real>, x: seq<real>): real
    requires |w| == |x|
  {
    Dot(w, Times(Centred(x, Mean(w, x)), Centred(x, Mean(w, x))))
  }

  lemma LevelMean(w: seq<real>, x: seq<real>, v: real)
    requires |w| == |x| > 0 && Positive(w) && forall i | 0 <= i < |x| :: x[i] == v
    ensures Mean(w, x) == v
  {
    forall i | 0 <= i < |x| ensures x[i] == Comb(v, Ones(|x|), 0.0, Ones(|x|))[i] { LevelTerm(v); }
    assert x == Comb(v, Ones(|x|), 0.0, Ones(|x|));
    hide Comb, Dot, Ones;
    DotLinear(w, v, Ones(|x|), 0.0, Ones(|x|));
    DotOnes(w);
    LevelQuotient(v, Dot(w, Ones(|x|)));
  }

  lemma LevelTerm(v: real)
    ensures Mix(v, 1.0, 0.0, 1.0) == v
  {
  }

  lemma LevelQuotient(v: real, S: real)
    requires S > 0.0
    ensures Mix(v, S, 0.0, S) / S == v
  {
    ZeroTimes(0.0, S);
    var q := v * S / S;
    assert q * S == v * S;
    assert (q - v) * S == 0.0;
    NoZeroDivisors(S, q - v);
  }

  lemma CentredAt(x: seq<real>, c: real)
    ensures forall i | 0 <= i < |x| :: Centred(x, c)[i] == x[i] - c
  {
  }

  /** Stt is zero, and the slope undefined, exactly when all x are the same. */
  lemma SpreadZero(w: seq<real>, x: seq<real>)
    requires |w| == |x| > 0 && Positive(w)
    ensures Spread(w, x) == 0.0 <==> AllEqual(x)
  {
    var c := Mean(w, x);
    CentredAt(x, c);
    DotSquares(w, Centred(x, c));
    if AllEqual(x) { LevelMean(w, x, x[0]); }
    hide Dot, Times, Mean, Centred;
  }

  // ----- the loops

  lemma WeightedTerm(p: real, q: real, s: real)
    requires s != 0.0
    ensures p / s * (q / s) == Weight(s) * Product(p, q) && p / s * q / s == Weight(s) * Product(p, q)
  {
    Weighted(p, q, s);
  }

  /** regression. When all x are the same (or there is no point at all) the source divides by zero. */
  method Regress(x: seq<real>, y: seq<real>, sig: Option<seq<real>>) returns (fit: Option<Fit>)
    requires |x| == |y| && Weighable(sig, |x|)
    ensures fit.None? <==> AllEqual(x)
    ensures fit.Some? ==>
              && NormalEquations(Weights(sig, |x|), x, y, fit.value.a, fit.value.b)
              && fit.value.chi2 == Chi2(Weights(sig, |x|), x, y, fit.value.a, fit.value.b)
              && forall a', b' :: Chi2(Weights(sig, |x|), x, y, a', b') >= fit.value.chi2
  {
    hide *;
    var n := |x|;
    ghost var w := Weights(sig, n);
    var S, Sx, Sy := Sums(x, y, sig);
    DotOnes(w);
    if S == 0.0 {
      NoPoints(x);
      return None;
    }
    var Sx_S := Sx / S;
    MeanIs(w, x);
    var Stt, sum := Slope(x, y, sig, Sx_S);
    if n > 0 { SpreadZero(w, x); } else { NoWeight(w, x); }
    SpreadIs(w, x);
    if Stt == 0.0 {
      return None;
    }
    var b := sum / Stt;
    var a := (Sy - b * Sx) / S;
    SolvesNormal(w, x, y, a, b);
    var chi2 := Merit(x, y, sig, a, b);
    forall a', b' ensures Chi2(w, x, y, a', b') >= chi2 {
      Optimal(w, x, y, a, b, a', b');
    }
    fit := Some(Fit(a, b, chi2));
  }

  lemma NoPoints(x: seq<real>)
    ensures |x| == 0 ==> AllEqual(x)
  {
  }

  lemma NoWeight(w: seq<real>, x: seq<real>)
    requires |w| == |x| == 0
    ensures Dot(w, Ones(|x|)) == 0.0
  {
  }

  lemma MeanIs(w: seq<real>, x: seq<real>)
    requires |w| == |x| && Dot(w, Ones(|x|)) != 0.0
    ensures Mean(w, x) == Dot(w, x) / Dot(w, Ones(|x|))
  {
  }

  lemma SpreadIs(w: seq<real>, x: seq<real>)
    requires |w| == |x|
    ensures Spread(w, x) == Dot(w, Times(Centred(x, Mean(w, x)), Centred(x, Mean(w, x))))
  {
  }

  lemma WeightAt(sig: Option<seq<real>>, n: nat, i: nat)
    requires Weighable(sig, n) && i < n
    ensures (sig.Some? ==> i < |sig.value|) && Scale(sig, i) != 0.0 && Weights(sig, n)[i] == Weight(Scale(sig, i))
  {
  }

  lemma WholeSums(w: seq<real>, v: seq<real>)
    requires |w| == |v|
    ensures Dot(w[..0], v[..0]) == 0.0 && w[..|w|] == w && v[..|w|] == v
  {
  }

  /** One more point: the sum grows by its term. */
  lemma SumGrows(w: seq<real>, v: seq<real>, i: nat, term: real)
    requires |w| == |v| && i < |w| && term == w[i] * v[i]
    ensures Dot(w[..i + 1], v[..i + 1]) == Dot(w[..i], v[..i]) + term
  {
    DotNext(w, v, i);
  }

  lemma OnesTerm(n: nat, i: nat, w: real)
    requires i < n
    ensures w == w * Ones(n)[i]
  {
  }

  /** The first loop. */
  method Sums(x: seq<real>, y: seq<real>, sig: Option<seq<real>>) returns (S: real, Sx: real, Sy: real)
    requires |x| == |y| && Weighable(sig, |x|)
    ensures S == Dot(Weights(sig, |x|), Ones(|x|)) && Sx == Dot(Weights(sig, |x|), x) && Sy == Dot(Weights(sig, |x|), y)
  {
    hide *;
    var n := |x|;
    ghost var w, ones := Weights(sig, n), Ones(n);
    WholeSums(w, ones);
    WholeSums(w, x);
    WholeSums(w, y);
    S, Sx, Sy := 0.0, 0.0, 0.0;
    for i := 0 to n
      invariant S == Dot(w[..i], ones[..i]) && Sx == Dot(w[..i], x[..i]) && Sy == Dot(w[..i], y[..i])
    {
      WeightAt(sig, n, i);
      var weight := Weight(Scale(sig, i));
      OnesTerm(n, i, weight);
      SumGrows(w, ones, i, weight);
      SumGrows(w, x, i, weight * x[i]);
      SumGrows(w, y, i, weight * y[i]);
      S := S + weight;
      Sx := Sx + weight * x[i];
      Sy := Sy + weight * y[i];
    }
  }

  /** What a point adds to Stt and to the slope's sum. */
  lemma SlopeTerms(x: seq<real>, y: seq<real>, c: real, i: nat, s: real, t: real)
    requires |x| == |y| && i < |x| && s != 0.0 && t == (x[i] - c) / s
    ensures t * t == Weight(s) * Times(Centred(x, c), Centred(x, c))[i]
    ensures t * y[i] / s == Weight(s) * Times(Centred(x, c), y)[i]
  {
    CentredAt(x, c);
    WeightedTerm(x[i] - c, x[i] - c, s);
    WeightedTerm(x[i] - c, y[i], s);
    TimesAt(Centred(x, c), Centred(x, c), i);
    TimesAt(Centred(x, c), y, i);
    hide *;
  }

  lemma TimesAt(u: seq<real>, v: seq<real>, i: nat)
    requires |u| == |v| && i < |u|
    ensures Times(u, v)[i] == Product(u[i], v[i])
  {
  }

  /** The second loop. */
  method Slope(x: seq<real>, y: seq<real>, sig: Option<seq<real>>, c: real) returns (Stt: real, b: real)
    requires |x| == |y| && Weighable(sig, |x|)
    ensures Stt == Dot(Weights(sig, |x|), Times(Centred(x, c), Centred(x, c)))
    ensures b == Dot(Weights(sig, |x|), Times(Centred(x, c), y))
  {
    hide *;
    var n := |x|;
    ghost var w, d := Weights(sig, n), Centred(x, c);
    ghost var dd, dy := Times(d, d), Times(d, y);
    WholeSums(w, dd);
    WholeSums(w, dy);
    Stt, b := 0.0, 0.0;
    for i := 0 to n
      invariant Stt == Dot(w[..i], dd[..i]) && b == Dot(w[..i], dy[..i])
    {
      WeightAt(sig, n, i);
      var s := Scale(sig, i);
      var t := (x[i] - c) / s;
      SlopeTerms(x, y, c, i, s, t);
      SumGrows(w, dd, i, t * t);
      SumGrows(w, dy, i, t * y[i] / s);
      Stt := Stt + t * t;
      b := b + t * y[i] / s;
    }
  }

  lemma MeritTerm(x: seq<real>, y: seq<real>, a: real, b: real, i: nat, s: real, merit: real)
    requires |x| == |y| && i < |x| && s != 0.0 && merit == (y[i] - (a + b * x[i])) / s
    ensures merit * merit == Weight(s) * Times(Residuals(x, y, a, b), Residuals(x, y, a, b))[i]
  {
    ResidualAt(x, y, a, b, i);
    WeightedTerm(y[i] - (a + b * x[i]), y[i] - (a + b * x[i]), s);
    TimesAt(Residuals(x, y, a, b), Residuals(x, y, a, b), i);
    hide *;
  }

  lemma ResidualAt(x: seq<real>, y: seq<real>, a: real, b: real, i: nat)
    requires |x| == |y| && i < |x|
    ensures Residuals(x, y, a, b)[i] == y[i] - (a + b * x[i])
  {
  }

  /** The third loop. */
  method Merit(x: seq<real>, y: seq<real>, sig: Option<seq<real>>, a: real, b: real) returns (chi2: real)
    requires |x| == |y| && Weighable(sig, |x|)
    ensures chi2 == Chi2(Weights(sig, |x|), x, y, a, b)
  {
    hide *;
    var n := |x|;
    ghost var w, r := Weights(sig, n), Residuals(x, y, a, b);
    ghost var rr := Times(r, r);
    WholeSums(w, rr);
    Chi2Is(w, x, y, a, b);
    chi2 := 0.0;
    for i := 0 to n
      invariant chi2 == Dot(w[..i], rr[..i])
    {
      WeightAt(sig, n, i);
      var s := Scale(sig, i);
      var merit := (y[i] - (a + b * x[i])) / s;
      MeritTerm(x, y, a, b, i, s, merit);
      SumGrows(w, rr, i, merit * merit);
      chi2 := chi2 + merit * merit;
    }
  }
}
