/** TF-IDF drift between prompts: one minus the cosine similarity of two weighted term vectors, over the reals. */
module TfidfDrift {
  import opened Common
  import opened Reals

  datatype Term = Term(text: string)

  type Vector = map<Term, real>

  /** What `math.log` promises: the standard bounds 1 - 1/x <= ln x <= x - 1. */
  ghost predicate IsLog(log: real -> real) {
    forall x | x > 0.0 :: 1.0 - 1.0 / x <= log(x) <= x - 1.0
  }

  // ------------------------------------------------------- dot products over term sets

  function At(v: Vector, t: Term): real {
    if t in v then v[t] else 0.0
  }

  function ProductAt(a: Vector, b: Vector, t: Term): real {
    At(a, t) * At(b, t)
  }

  ghost function Dot(s: set<Term>, a: Vector, b: Vector): real {
    if s == {} then 0.0
    else
      var t :| t in s;
      ProductAt(a, b, t) + Dot(s - {t}, a, b)
  }

  /** Any term may be taken out first, so the iteration order of a set does not matter. */
  lemma {:induction false} DotTakeOut(s: set<Term>, a: Vector, b: Vector, x: Term)
    requires x in s
    ensures Dot(s, a, b) == ProductAt(a, b, x) + Dot(s - {x}, a, b)
    decreases s
  {
    var t :| t in s && Dot(s, a, b) == ProductAt(a, b, t) + Dot(s - {t}, a, b);
    if t != x {
      DotTakeOut(s - {t}, a, b, x);
      DotTakeOut(s - {x}, a, b, t);
      assert s - {t} - {x} == s - {x} - {t};
    }
  }

  lemma {:induction false} DotSign(s: set<Term>, a: Vector, b: Vector)
    requires forall t | t in s :: ProductAt(a, b, t) >= 0.0
    ensures Dot(s, a, b) >= 0.0
    ensures Dot(s, a, b) == 0.0 <==> forall t | t in s :: ProductAt(a, b, t) == 0.0
    decreases s
  {
    if s != {} {
      var x :| x in s;
      DotTakeOut(s, a, b, x);
      DotSign(s - {x}, a, b);
    }
  }

  lemma {:induction false} DotSymmetric(s: set<Term>, a: Vector, b: Vector)
    ensures Dot(s, a, b) == Dot(s, b, a)
    decreases s
  {
    if s != {} {
      var x :| x in s;
      DotTakeOut(s, a, b, x);
      DotTakeOut(s, b, a, x);
      DotSymmetric(s - {x}, a, b);
    }
  }

  /** Terms of neither vector contribute nothing. */
  lemma {:induction false} DotRestrict(s: set<Term>, sub: set<Term>, a: Vector, b: Vector)
    requires sub <= s && forall t | t in s && t !in sub :: t !in a
    ensures Dot(s, a, b) == Dot(sub, a, b)
    decreases s
  {
    if s != {} {
      var x :| x in s;
      DotTakeOut(s, a, b, x);
      if x in sub {
        DotTakeOut(sub, a, b, x);
      } else {
        assert sub - {x} == sub;
        assert ProductAt(a, b, x) == 0.0;
      }
      DotRestrict(s - {x}, sub - {x}, a, b);
    }
  }

  // ------------------------------------------------------------------- Cauchy-Schwarz

  /** One more coordinate keeps the square of the dot product below the product of the squared norms. */
  lemma CauchyStep(aa: real, bb: real, ab: real, x: real, y: real)
    requires aa >= 0.0 && bb >= 0.0 && ab * ab <= aa * bb
    ensures (ab + x * y) * (ab + x * y) <= (aa + x * x) * (bb + y * y)
  {
    var p, q := aa * (y * y), bb * (x * x);
    SquareNonNegative(x);
    SquareNonNegative(y);
    ProductNonNegative(aa, y * y);
    ProductNonNegative(bb, x * x);
    var c := ab * (x * y);
    // c^2 <= p q and (p - q)^2 >= 0 give 2 c <= p + q.
    SquareNonNegative(x * y);
    ProductMonotone(ab * ab, aa * bb, (x * y) * (x * y));
    assert c * c == ab * ab * ((x * y) * (x * y));
    assert p * q == aa * bb * ((x * y) * (x * y));
    TwiceBelowSum(c, p, q);
    assert (ab + x * y) * (ab + x * y) == ab * ab + 2.0 * c + (x * y) * (x * y);
    assert (aa + x * x) * (bb + y * y) == aa * bb + p + q + (x * y) * (x * y);
  }

  lemma TwiceBelowSum(c: real, p: real, q: real)
    requires p >= 0.0 && q >= 0.0 && c * c <= p * q
    ensures 2.0 * c <= p + q
  {
    var u, m := 2.0 * c, p + q;
    SquareNonNegative(p - q);
    assert m * m - 4.0 * (p * q) == (p - q) * (p - q);
    assert u * u == 4.0 * (c * c);
    SquaresCompare(u, m);
  }

  /** The square of a dot product is at most the product of the squared norms. */
  ghost predicate Cauchy(aa: real, bb: real, ab: real) {
    aa >= 0.0 && bb >= 0.0 && ab * ab <= aa * bb
  }

  lemma {:induction false} CauchySchwarz(s: set<Term>, a: Vector, b: Vector)
    ensures Cauchy(Dot(s, a, a), Dot(s, b, b), Dot(s, a, b))
    decreases s
  {
    if s != {} {
      var t :| t in s;
      CauchySchwarz(s - {t}, a, b);
      DotTakeOut(s, a, a, t);
      DotTakeOut(s, b, b, t);
      DotTakeOut(s, a, b, t);
      CauchyTerm(a, b, t, Dot(s - {t}, a, a), Dot(s - {t}, b, b), Dot(s - {t}, a, b),
                 Dot(s, a, a), Dot(s, b, b), Dot(s, a, b));
    }
  }

  lemma CauchyTerm(
      a: Vector, b: Vector, t: Term, aa: real, bb: real, ab: real, aa': real, bb': real, ab': real)
    requires Cauchy(aa, bb, ab)
    requires aa' == ProductAt(a, a, t) + aa && bb' == ProductAt(b, b, t) + bb && ab' == ProductAt(a, b, t) + ab
    ensures Cauchy(aa', bb', ab')
  {
    CauchyAdd(aa, bb, ab, At(a, t), At(b, t), ProductAt(a, a, t), ProductAt(b, b, t), ProductAt(a, b, t));
  }

  lemma CauchyAdd(aa: real, bb: real, ab: real, x: real, y: real, xx: real, yy: real, xy: real)
    requires Cauchy(aa, bb, ab) && xx == x * x && yy == y * y && xy == x * y
    ensures Cauchy(xx + aa, yy + bb, xy + ab)
  {
    SquareNonNegative(x);
    SquareNonNegative(y);
    CauchyStep(aa, bb, ab, x, y);
  }

  // ------------------------------------------------------------------ cosine similarity

  /** The set a similarity is summed over, and its three sums. */
  ghost function Terms(a: Vector, b: Vector): set<Term> {
    a.Keys + b.Keys
  }

  ghost function Cosine(a: Vector, b: Vector, sqrt: real -> real): real {
    var na, nb := sqrt(Dot(a.Keys, a, a)), sqrt(Dot(b.Keys, b, b));
    if a == map[] || b == map[] || na == 0.0 || nb == 0.0 then 0.0
    else
      NonZeroProduct(na, nb);
      Dot(Terms(a, b), a, b) / (na * nb)
  }

  method CosineSimilarity(a: Vector, b: Vector, sqrt: real -> real) returns (r: real)
    ensures r == Cosine(a, b, sqrt)
  {
    if a == map[] || b == map[] {
      return 0.0;
    }
    var dot := 0.0;
    var left := a.Keys + b.Keys;
    while left != {}
      invariant left <= Terms(a, b)
      invariant dot + Dot(left, a, b) == Dot(Terms(a, b), a, b)
    {
      var t :| t in left;
      DotTakeOut(left, a, b, t);
      dot := dot + ProductAt(a, b, t);
      left := left - {t};
    }
    var normA := SquaredNorm(a);
    var normB := SquaredNorm(b);
    normA := sqrt(normA);
    normB := sqrt(normB);
    if normA == 0.0 || normB == 0.0 {
      return 0.0;
    }
    NonZeroProduct(normA, normB);
    r := dot / (normA * normB);
  }

  lemma NonZeroProduct(x: real, y: real)
    requires x != 0.0 && y != 0.0
    ensures x * y != 0.0
  {
  }

  method SquaredNorm(v: Vector) returns (norm: real)
    ensures norm == Dot(v.Keys, v, v)
  {
    norm := 0.0;
    var left := v.Keys;
    while left != {}
      invariant left <= v.Keys
      invariant norm + Dot(left, v, v) == Dot(v.Keys, v, v)
    {
      var t :| t in left;
      DotTakeOut(left, v, v, t);
      norm := norm + ProductAt(v, v, t);
      left := left - {t};
    }
  }

  ghost predicate Positive(v: Vector) {
    forall t | t in v :: v[t] > 0.0
  }

  lemma NormOverTerms(a: Vector, b: Vector)
    ensures Dot(Terms(a, b), a, a) == Dot(a.Keys, a, a)
    ensures Dot(Terms(a, b), b, b) == Dot(b.Keys, b, b)
  {
    DotRestrict(Terms(a, b), a.Keys, a, a);
    DotRestrict(Terms(a, b), b.Keys, b, b);
  }

  lemma PositiveNorm(v: Vector, sqrt: real -> real)
    requires Positive(v) && v != map[] && IsSqrt(sqrt)
    ensures Dot(v.Keys, v, v) > 0.0 && sqrt(Dot(v.Keys, v, v)) > 0.0
  {
    var t :| t in v;
    forall u | u in v.Keys ensures ProductAt(v, v, u) > 0.0 {
      PositiveProduct(v[u], v[u], ProductAt(v, v, u));
    }
    DotSign(v.Keys, v, v);
    var s := sqrt(Dot(v.Keys, v, v));
    assert s * s == Dot(v.Keys, v, v);
  }

  lemma DotNonNegative(a: Vector, b: Vector)
    requires Positive(a) && Positive(b)
    ensures Dot(Terms(a, b), a, b) >= 0.0
    ensures Dot(Terms(a, b), a, b) == 0.0 <==> a.Keys !! b.Keys
  {
    forall t | t in Terms(a, b)
      ensures ProductAt(a, b, t) >= 0.0
      ensures ProductAt(a, b, t) == 0.0 <==> !(t in a && t in b)
    {
      if t in a && t in b {
        PositiveProduct(a[t], b[t], ProductAt(a, b, t));
      }
    }
    DotSign(Terms(a, b), a, b);
    if !(a.Keys !! b.Keys) {
      var t :| t in a.Keys && t in b.Keys;
      assert t in Terms(a, b);
    }
  }

  /** Cosine similarity of positive vectors is symmetric, in [0, 1], and zero exactly without common terms. */
  lemma CosineBounds(a: Vector, b: Vector, sqrt: real -> real)
    requires Positive(a) && Positive(b) && IsSqrt(sqrt)
    ensures 0.0 <= Cosine(a, b, sqrt) <= 1.0
    ensures Cosine(a, b, sqrt) == 0.0 <==> a.Keys !! b.Keys
  {
    if a != map[] && b != map[] {
      PositiveNorm(a, sqrt);
      PositiveNorm(b, sqrt);
      NormOverTerms(a, b);
      CauchySchwarz(Terms(a, b), a, b);
      DotNonNegative(a, b);
      var na, nb := sqrt(Dot(a.Keys, a, a)), sqrt(Dot(b.Keys, b, b));
      var dot := Dot(Terms(a, b), a, b);
      RatioInUnit(dot, na, nb);
      assert Cosine(a, b, sqrt) == dot / (na * nb);
    }
  }

  lemma CosineSymmetric(a: Vector, b: Vector, sqrt: real -> real)
    ensures Cosine(a, b, sqrt) == Cosine(b, a, sqrt)
  {
    assert Terms(a, b) == Terms(b, a);
    DotSymmetric(Terms(a, b), a, b);
    var na, nb := sqrt(Dot(a.Keys, a, a)), sqrt(Dot(b.Keys, b, b));
    assert na * nb == nb * na;
  }

  /** A nonempty positive vector is wholly similar to itself. */
  lemma CosineSelf(a: Vector, sqrt: real -> real)
    requires Positive(a) && a != map[] && IsSqrt(sqrt)
    ensures Cosine(a, a, sqrt) == 1.0
  {
    PositiveNorm(a, sqrt);
    assert Terms(a, a) == a.Keys;
    var na := sqrt(Dot(a.Keys, a, a));
    PositiveProduct(na, na, na * na);
    SelfQuotient(Dot(a.Keys, a, a), na * na);
  }

  lemma SelfQuotient(x: real, y: real)
    requires x == y && y > 0.0
    ensures x / y == 1.0
  {
  }

  lemma RatioInUnit(dot: real, na: real, nb: real)
    requires na > 0.0 && nb > 0.0 && dot >= 0.0 && dot * dot <= (na * na) * (nb * nb)
    ensures na * nb > 0.0 && 0.0 <= dot / (na * nb) <= 1.0
    ensures dot / (na * nb) == 0.0 <==> dot == 0.0
    ensures na * nb == nb * na
  {
    var m := na * nb;
    PositiveProduct(na, nb, m);
    assert m * m == (na * na) * (nb * nb);
    SquaresCompare(dot, m);
    DivideCompare(dot, 1.0, m);
    DivideCompare(dot, 0.0, m);
  }

  // --------------------------------------------------- when the cosine is one

  ghost predicate Times(x: real, y: real, l: real) {
    x == l * y
  }

  /** a is l times b. */
  ghost predicate Scaled(a: Vector, b: Vector, l: real) {
    l > 0.0 && forall t :: Times(At(a, t), At(b, t), l)
  }

  /** The vector m * a - d * b. */
  ghost function Combined(a: Vector, b: Vector, m: real, d: real): Vector {
    map t | t in Terms(a, b) :: m * At(a, t) - d * At(b, t)
  }

  ghost predicate IsCombined(z: real, x: real, y: real, m: real, d: real) {
    z == m * x - d * y
  }

  lemma CombinedAt(a: Vector, b: Vector, m: real, d: real, t: Term)
    ensures IsCombined(At(Combined(a, b, m, d), t), At(a, t), At(b, t), m, d)
  {
  }

  /** mm, md and dd are the products of m and d. */
  ghost predicate CombinedSums(aa: real, ab: real, bb: real, cc: real, mm: real, md: real, dd: real) {
    cc == mm * aa - 2.0 * (md * ab) + dd * bb
  }

  lemma CombinedSquare(x: real, y: real, z: real, m: real, d: real)
    requires IsCombined(z, x, y, m, d)
    ensures CombinedSums(x * x, x * y, y * y, z * z, m * m, m * d, d * d)
  {
    assert (m * x - d * y) * (m * x - d * y) == m * m * (x * x) - 2.0 * (m * d * (x * y)) + d * d * (y * y);
  }

  lemma CombineAdd(
      aa: real, ab: real, bb: real, cc: real, xx: real, xy: real, yy: real, zz: real, mm: real, md: real, dd: real)
    requires CombinedSums(aa, ab, bb, cc, mm, md, dd) && CombinedSums(xx, xy, yy, zz, mm, md, dd)
    ensures CombinedSums(xx + aa, xy + ab, yy + bb, zz + cc, mm, md, dd)
  {
    assert mm * (xx + aa) == mm * xx + mm * aa;
    assert md * (xy + ab) == md * xy + md * ab;
    assert dd * (yy + bb) == dd * yy + dd * bb;
  }

  lemma CombineTerm(a: Vector, b: Vector, c: Vector, t: Term, m: real, d: real)
    requires IsCombined(At(c, t), At(a, t), At(b, t), m, d)
    ensures CombinedSums(
        ProductAt(a, a, t), ProductAt(a, b, t), ProductAt(b, b, t), ProductAt(c, c, t), m * m, m * d, d * d)
  {
    CombinedSquare(At(a, t), At(b, t), At(c, t), m, d);
  }

  lemma NoTermsNoDot(a: Vector, b: Vector)
    ensures Dot({}, a, b) == 0.0
  {
  }

  lemma {:induction false} CombinedDot(s: set<Term>, a: Vector, b: Vector, c: Vector, m: real, d: real)
    requires forall t | t in s :: IsCombined(At(c, t), At(a, t), At(b, t), m, d)
    ensures CombinedSums(Dot(s, a, a), Dot(s, a, b), Dot(s, b, b), Dot(s, c, c), m * m, m * d, d * d)
    decreases s
  {
    if s == {} {
      NoTermsNoDot(a, a);
      NoTermsNoDot(a, b);
      NoTermsNoDot(b, b);
      NoTermsNoDot(c, c);
    } else {
      var t :| t in s;
      CombinedDot(s - {t}, a, b, c, m, d);
      DotTakeOut(s, a, a, t);
      DotTakeOut(s, a, b, t);
      DotTakeOut(s, b, b, t);
      DotTakeOut(s, c, c, t);
      CombineTerm(a, b, c, t, m, d);
      CombineAdd(Dot(s - {t}, a, a), Dot(s - {t}, a, b), Dot(s - {t}, b, b), Dot(s - {t}, c, c),
                 ProductAt(a, a, t), ProductAt(a, b, t), ProductAt(b, b, t), ProductAt(c, c, t), m * m, m * d, d * d);
    }
  }

  lemma CombinedAtTotals(aa: real, bb: real, ab: real, cc: real)
    requires Tight(aa, bb, ab) && CombinedSums(aa, ab, bb, cc, bb * bb, bb * ab, ab * ab)
    ensures cc == 0.0
  {
    assert bb * bb * aa == bb * (ab * ab);
    assert (bb * ab) * ab == bb * (ab * ab);
    assert ab * ab * bb == bb * (ab * ab);
  }

  lemma ScaleOf(x: real, y: real, m: real, d: real)
    requires m > 0.0 && Balanced(x, y, m, d)
    ensures Times(x, y, d / m)
  {
    var l := d / m;
    assert l * m == d;
    assert l * y * m == x * m;
    CancelFactor(l * y, x, m);
  }

  lemma ZeroSquare(x: real, square: real)
    requires square == x * x && square <= 0.0
    ensures x == 0.0
  {
    if x > 0.0 {
      PositiveProduct(x, x, square);
    } else if x < 0.0 {
      assert square == -x * -x;
      PositiveProduct(-x, -x, square);
    }
  }

  lemma SquareIsZero(v: Vector, t: Term)
    requires ProductAt(v, v, t) == 0.0
    ensures At(v, t) == 0.0
  {
    ZeroSquare(At(v, t), ProductAt(v, v, t));
  }

  lemma ZeroVector(s: set<Term>, v: Vector, t: Term)
    requires Dot(s, v, v) == 0.0 && t in s
    ensures At(v, t) == 0.0
  {
    forall u | u in s ensures ProductAt(v, v, u) >= 0.0 {
      SquareNonNegative(At(v, u));
    }
    DotSign(s, v, v);
    SquareIsZero(v, t);
  }

  ghost predicate Tight(aa: real, bb: real, ab: real) {
    ab * ab == aa * bb
  }

  ghost predicate Balanced(x: real, y: real, m: real, d: real) {
    m * x == d * y
  }

  lemma ZeroIsBalanced(z: real, x: real, y: real, m: real, d: real)
    requires IsCombined(z, x, y, m, d) && z == 0.0
    ensures Balanced(x, y, m, d)
  {
  }

  lemma CombinedIsZero(a: Vector, b: Vector, m: real, d: real, t: Term)
    requires m == Dot(Terms(a, b), b, b) && d == Dot(Terms(a, b), a, b) && Tight(Dot(Terms(a, b), a, a), m, d)
    ensures At(Combined(a, b, m, d), t) == 0.0
  {
    var s, c := Terms(a, b), Combined(a, b, m, d);
    forall u | u in s ensures IsCombined(At(c, u), At(a, u), At(b, u), m, d) {
      CombinedAt(a, b, m, d, u);
    }
    CombinedDot(s, a, b, c, m, d);
    CombinedAtTotals(Dot(s, a, a), m, d, Dot(s, c, c));
    if t in s {
      ZeroVector(s, c, t);
    }
  }

  lemma CombinedVanishes(a: Vector, b: Vector, m: real, d: real, t: Term)
    requires m == Dot(Terms(a, b), b, b) && d == Dot(Terms(a, b), a, b) && Tight(Dot(Terms(a, b), a, a), m, d)
    ensures Balanced(At(a, t), At(b, t), m, d)
  {
    CombinedIsZero(a, b, m, d, t);
    CombinedAt(a, b, m, d, t);
    ZeroIsBalanced(At(Combined(a, b, m, d), t), At(a, t), At(b, t), m, d);
  }

  /** The equality case of Cauchy and Schwarz: the vectors differ by a factor. */
  lemma EqualityScales(a: Vector, b: Vector) returns (l: real)
    requires Tight(Dot(Terms(a, b), a, a), Dot(Terms(a, b), b, b), Dot(Terms(a, b), a, b))
    requires Dot(Terms(a, b), b, b) > 0.0 && Dot(Terms(a, b), a, b) > 0.0
    ensures Scaled(a, b, l)
  {
    var d, m := Dot(Terms(a, b), a, b), Dot(Terms(a, b), b, b);
    PositiveQuotient(d, m);
    l := d / m;
    forall t ensures Times(At(a, t), At(b, t), l) {
      CombinedVanishes(a, b, m, d, t);
      ScaleOf(At(a, t), At(b, t), m, d);
    }
  }

  lemma PositiveQuotient(d: real, m: real)
    requires d > 0.0 && m > 0.0
    ensures d / m > 0.0
  {
    DivideCompare(d, 0.0, m);
  }

  ghost predicate ScaledSums(ab: real, aa: real, bb: real, l: real) {
    ab == l * bb && aa == l * (l * bb)
  }

  lemma ScaleStep(ab: real, aa: real, bb: real, x: real, y: real, xy: real, xx: real, yy: real, l: real)
    requires Times(x, y, l) && ScaledSums(ab, aa, bb, l) && xy == x * y && xx == x * x && yy == y * y
    ensures ScaledSums(xy + ab, xx + aa, yy + bb, l)
  {
    assert x * y == l * (y * y);
    assert x * x == l * (l * (y * y));
    assert l * (y * y + bb) == l * (y * y) + l * bb;
    assert l * (l * (y * y + bb)) == l * (l * (y * y)) + l * (l * bb);
  }

  lemma {:induction false} ScaledDots(s: set<Term>, a: Vector, b: Vector, l: real)
    requires Scaled(a, b, l)
    ensures ScaledSums(Dot(s, a, b), Dot(s, a, a), Dot(s, b, b), l)
    decreases s
  {
    if s == {} {
      NoTermsNoDot(a, a);
      NoTermsNoDot(a, b);
      NoTermsNoDot(b, b);
    } else {
      var t :| t in s;
      ScaledDots(s - {t}, a, b, l);
      DotTakeOut(s, a, a, t);
      DotTakeOut(s, a, b, t);
      DotTakeOut(s, b, b, t);
      ScaleTerm(a, b, t, Dot(s - {t}, a, b), Dot(s - {t}, a, a), Dot(s - {t}, b, b),
                Dot(s, a, b), Dot(s, a, a), Dot(s, b, b), l);
    }
  }

  lemma ScaleTerm(
      a: Vector, b: Vector, t: Term, ab: real, aa: real, bb: real, ab': real, aa': real, bb': real, l: real)
    requires ScaledSums(ab, aa, bb, l) && Times(At(a, t), At(b, t), l)
    requires ab' == ProductAt(a, b, t) + ab && aa' == ProductAt(a, a, t) + aa && bb' == ProductAt(b, b, t) + bb
    ensures ScaledSums(ab', aa', bb', l)
  {
    ScaleStep(ab, aa, bb, At(a, t), At(b, t), ProductAt(a, b, t), ProductAt(a, a, t), ProductAt(b, b, t), l);
  }

  lemma ScaledIsTight(d: real, aa: real, bb: real, l: real)
    requires ScaledSums(d, aa, bb, l)
    ensures Tight(aa, bb, d)
  {
    assert d * d == (l * bb) * (l * bb);
    assert (l * bb) * (l * bb) == l * (l * bb) * bb;
  }

  lemma QuotientIsOneIff(d: real, na: real, nb: real, aa: real, bb: real)
    requires na > 0.0 && nb > 0.0 && d >= 0.0 && na * na == aa && nb * nb == bb
    ensures na * nb > 0.0 && (d / (na * nb) == 1.0 <==> Tight(aa, bb, d))
  {
    var m := na * nb;
    PositiveProduct(na, nb, m);
    assert m * m == aa * bb;
    DivideCompare(d, 1.0, m);
    SquaresCompare(d, m);
    SquaresCompare(m, d);
  }

  lemma TightIsPositive(aa: real, bb: real, d: real)
    requires aa > 0.0 && bb > 0.0 && d >= 0.0 && Tight(aa, bb, d)
    ensures d > 0.0
  {
    PositiveProduct(aa, bb, aa * bb);
    assert d == 0.0 ==> d * d == 0.0;
  }

  lemma NormSquared(v: Vector, sqrt: real -> real) returns (norm: real)
    requires Positive(v) && v != map[] && IsSqrt(sqrt)
    ensures norm == sqrt(Dot(v.Keys, v, v)) && norm > 0.0 && norm * norm == Dot(v.Keys, v, v)
  {
    PositiveNorm(v, sqrt);
    norm := sqrt(Dot(v.Keys, v, v));
  }

  lemma CosineByNorms(a: Vector, b: Vector, sqrt: real -> real, na: real, nb: real)
    requires a != map[] && b != map[] && na > 0.0 && nb > 0.0
    requires na == sqrt(Dot(a.Keys, a, a)) && nb == sqrt(Dot(b.Keys, b, b))
    ensures na * nb > 0.0 && Cosine(a, b, sqrt) == Dot(Terms(a, b), a, b) / (na * nb)
  {
    PositiveProduct(na, nb, na * nb);
  }

  lemma CosineIsOneIffTight(a: Vector, b: Vector, sqrt: real -> real)
    requires Positive(a) && Positive(b) && IsSqrt(sqrt) && a != map[] && b != map[]
    ensures var s := Terms(a, b); Cosine(a, b, sqrt) == 1.0 <==> Tight(Dot(s, a, a), Dot(s, b, b), Dot(s, a, b))
  {
    var na := NormSquared(a, sqrt);
    var nb := NormSquared(b, sqrt);
    DotNonNegative(a, b);
    NormsDecide(a, b, sqrt, na, nb);
  }

  lemma NormsDecide(a: Vector, b: Vector, sqrt: real -> real, na: real, nb: real)
    requires a != map[] && b != map[] && na > 0.0 && nb > 0.0 && Dot(Terms(a, b), a, b) >= 0.0
    requires na == sqrt(Dot(a.Keys, a, a)) && nb == sqrt(Dot(b.Keys, b, b))
    requires na * na == Dot(a.Keys, a, a) && nb * nb == Dot(b.Keys, b, b)
    ensures var s := Terms(a, b); Cosine(a, b, sqrt) == 1.0 <==> Tight(Dot(s, a, a), Dot(s, b, b), Dot(s, a, b))
  {
    NormOverTerms(a, b);
    CosineByNorms(a, b, sqrt, na, nb);
    QuotientIsOneIff(Dot(Terms(a, b), a, b), na, nb, Dot(a.Keys, a, a), Dot(b.Keys, b, b));
  }

  lemma TightScales(a: Vector, b: Vector, sqrt: real -> real) returns (l: real)
    requires Positive(a) && Positive(b) && IsSqrt(sqrt) && a != map[] && b != map[]
    requires Tight(Dot(Terms(a, b), a, a), Dot(Terms(a, b), b, b), Dot(Terms(a, b), a, b))
    ensures Scaled(a, b, l)
  {
    PositiveNorm(a, sqrt);
    PositiveNorm(b, sqrt);
    NormOverTerms(a, b);
    DotNonNegative(a, b);
    TightIsPositive(Dot(Terms(a, b), a, a), Dot(Terms(a, b), b, b), Dot(Terms(a, b), a, b));
    l := EqualityScales(a, b);
  }

  lemma ScaledVectorsAreTight(s: set<Term>, a: Vector, b: Vector, l: real)
    requires Scaled(a, b, l)
    ensures Tight(Dot(s, a, a), Dot(s, b, b), Dot(s, a, b))
  {
    ScaledDots(s, a, b, l);
    ScaledIsTight(Dot(s, a, b), Dot(s, a, a), Dot(s, b, b), l);
  }

  /** Positive vectors are wholly similar exactly when one is a multiple of the other. */
  lemma CosineIsOneIff(a: Vector, b: Vector, sqrt: real -> real)
    requires Positive(a) && Positive(b) && IsSqrt(sqrt) && a != map[] && b != map[]
    ensures Cosine(a, b, sqrt) == 1.0 <==> exists l :: Scaled(a, b, l)
  {
    CosineIsOneIffTight(a, b, sqrt);
    if Cosine(a, b, sqrt) == 1.0 {
      var l := TightScales(a, b, sqrt);
    }
    if l :| Scaled(a, b, l) {
      ScaledVectorsAreTight(Terms(a, b), a, b, l);
    }
  }

  // ----------------------------------------------------------------------- the vectors

  type Doc = seq<Term>

  /** In how many documents a term occurs. */
  function DocFrequency(docs: seq<Doc>, t: Term): (n: nat)
    ensures n <= |docs| && (n > 0 <==> exists d | d in docs :: t in d)
  {
    if docs == [] then 0
    else
      assert docs == docs[..|docs| - 1] + [docs[|docs| - 1]];
      DocFrequency(docs[..|docs| - 1], t) + if t in docs[|docs| - 1] then 1 else 0
  }

  /** The smoothed inverse document frequency. */
  function Idf(size: nat, frequency: nat, log: real -> real): real {
    1.0 + log(size as real / (frequency + 1) as real)
  }

  function Weigh(size: nat, frequency: nat, count: nat, log: real -> real): real {
    count as real * Idf(size, frequency, log)
  }

  function Weight(docs: seq<Doc>, doc: Doc, t: Term, log: real -> real): real {
    Weigh(|docs|, DocFrequency(docs, t), multiset(doc)[t], log)
  }

  function VectorOf(docs: seq<Doc>, doc: Doc, log: real -> real): Vector {
    map t | t in doc :: Weight(docs, doc, t, log)
  }

  /** The documents that hold the term. */
  ghost function Holding(docs: seq<Doc>, t: Term): set<int> {
    set k | 0 <= k < |docs| && t in docs[k]
  }

  lemma {:induction false} FrequencyIsSize(docs: seq<Doc>, t: Term)
    ensures DocFrequency(docs, t) == |Holding(docs, t)|
  {
    if docs != [] {
      var n := |docs| - 1;
      FrequencyIsSize(docs[..n], t);
      assert Holding(docs, t) == Holding(docs[..n], t) + if t in docs[n] then {n} else {};
    }
  }

  /** Exactly the document's terms, each weighed by its count times one plus the log of n / (k + 1). */
  ghost predicate IsWeighted(docs: seq<Doc>, doc: Doc, log: real -> real, v: Vector) {
    && (forall t :: t in v <==> t in doc)
    && forall t | t in v :: IsWeight(|docs|, |Holding(docs, t)|, multiset(doc)[t], log, v[t])
  }

  ghost predicate IsWeight(n: nat, k: nat, count: nat, log: real -> real, weight: real) {
    weight == count as real * (1.0 + log(n as real / (k + 1) as real))
  }

  lemma VectorIsWeighted(docs: seq<Doc>, doc: Doc, log: real -> real)
    ensures IsWeighted(docs, doc, log, VectorOf(docs, doc, log))
  {
    forall t | t in doc
      ensures IsWeight(|docs|, |Holding(docs, t)|, multiset(doc)[t], log, Weight(docs, doc, t, log))
    {
      FrequencyIsSize(docs, t);
    }
  }

  function Get(df: map<Term, nat>, t: Term): nat {
    if t in df then df[t] else 0
  }

  /** Count one document's distinct terms, in any order. */
  method CountDocument(df: map<Term, nat>, doc: Doc) returns (df': map<Term, nat>)
    ensures forall t :: Get(df', t) == Get(df, t) + if t in doc then 1 else 0
  {
    df' := df;
    var left := set t | t in doc;
    while left != {}
      invariant left <= set t | t in doc
      invariant forall t :: Get(df', t) == Get(df, t) + if t in doc && t !in left then 1 else 0
    {
      var t :| t in left;
      df' := df'[t := Get(df', t) + 1];
      left := left - {t};
    }
  }

  method CountDocuments(docs: seq<Doc>) returns (df: map<Term, nat>)
    ensures forall t :: Get(df, t) == DocFrequency(docs, t)
  {
    df := map[];
    for i := 0 to |docs|
      invariant forall t :: Get(df, t) == DocFrequency(docs[..i], t)
    {
      assert docs[..i + 1][..i] == docs[..i];
      df := CountDocument(df, docs[i]);
    }
    assert docs[..|docs|] == docs;
  }

  method TfidfVectors(docs: seq<Doc>, log: real -> real) returns (vectors: seq<Vector>)
    ensures |vectors| == |docs| && forall i | 0 <= i < |docs| :: vectors[i] == VectorOf(docs, docs[i], log)
    ensures forall i | 0 <= i < |docs| :: IsWeighted(docs, docs[i], log, vectors[i])
  {
    var df := CountDocuments(docs);
    vectors := [];
    for i := 0 to |docs|
      invariant |vectors| == i && forall k | 0 <= k < i :: vectors[k] == VectorOf(docs, docs[k], log)
    {
      var vector := WeightTerms(docs, docs[i], df, log);
      vectors := vectors + [vector];
    }
    forall i | 0 <= i < |docs| ensures IsWeighted(docs, docs[i], log, vectors[i]) {
      VectorIsWeighted(docs, docs[i], log);
    }
  }

  /** One document's vector, from the document frequencies. */
  method WeightTerms(docs: seq<Doc>, doc: Doc, df: map<Term, nat>, log: real -> real) returns (vector: Vector)
    requires forall t :: Get(df, t) == DocFrequency(docs, t)
    ensures vector == VectorOf(docs, doc, log)
  {
    vector := map[];
    for i := 0 to |doc|
      invariant vector.Keys == set t | t in doc[..i]
      invariant forall t | t in vector :: vector[t] == Weight(docs, doc, t, log)
    {
      assert doc[..i + 1] == doc[..i] + [doc[i]];
      vector := vector[doc[i] := Weigh(|docs|, Get(df, doc[i]), multiset(doc)[doc[i]], log)];
    }
    assert doc[..|doc|] == doc;
  }

  /** With two or more documents every term's weight is positive. */
  lemma IdfPositive(size: nat, frequency: nat, log: real -> real)
    requires size >= 2 && frequency <= size && IsLog(log)
    ensures Idf(size, frequency, log) > 0.0
  {
    LogOfRatio(size as real, (frequency + 1) as real, log);
  }

  lemma LogOfRatio(n: real, k: real, log: real -> real)
    requires n >= 2.0 && 0.0 < k <= n + 1.0 && IsLog(log)
    ensures log(n / k) > -1.0
  {
    var x := n / k;
    assert x * k == n;
    StrictProduct(0.0, x, k);
    assert x > 0.0;
    StrictProduct(1.0, 1.5 * x, k);
    assert 1.5 * x * k == 1.5 * n;
    DivideCompare(1.0, 1.5, x);
  }

  lemma VectorsPositive(docs: seq<Doc>, doc: Doc, log: real -> real)
    requires |docs| >= 2 && IsLog(log)
    ensures Positive(VectorOf(docs, doc, log))
    ensures VectorOf(docs, doc, log).Keys == set t | t in doc
  {
    var v := VectorOf(docs, doc, log);
    forall t | t in v ensures v[t] > 0.0 {
      WeightPositive(docs, doc, t, log);
    }
  }

  lemma WeighPositive(size: nat, frequency: nat, count: nat, log: real -> real)
    requires size >= 2 && frequency <= size && count >= 1 && IsLog(log)
    ensures Weigh(size, frequency, count, log) > 0.0
  {
    IdfPositive(size, frequency, log);
    PositiveProduct(count as real, Idf(size, frequency, log), Weigh(size, frequency, count, log));
  }

  lemma WeightPositive(docs: seq<Doc>, doc: Doc, t: Term, log: real -> real)
    requires |docs| >= 2 && IsLog(log) && t in doc
    ensures Weight(docs, doc, t, log) > 0.0
  {
    assert t in multiset(doc);
    WeighPositive(|docs|, DocFrequency(docs, t), multiset(doc)[t], log);
  }

  // ------------------------------------------------------------------------- the drift

  /** The pieces of the environment the measure is computed with. */
  datatype Library = Library(
    strip: string -> string, tokenize: string -> Doc, log: real -> real, sqrt: real -> real)

  ghost predicate Lawful(lib: Library) {
    IsLog(lib.log) && IsSqrt(lib.sqrt)
  }

  ghost function Drift(lib: Library, a: string, b: string): real {
    if lib.strip(a) == lib.strip(b) then 0.0
    else
      var docs := [lib.tokenize(a), lib.tokenize(b)];
      1.0 - Cosine(VectorOf(docs, docs[0], lib.log), VectorOf(docs, docs[1], lib.log), lib.sqrt)
  }

  method ComputeDrift(lib: Library, a: string, b: string) returns (drift: real)
    ensures drift == Drift(lib, a, b)
  {
    if lib.strip(a) == lib.strip(b) {
      return 0.0;
    }
    var vectors := TfidfVectors([lib.tokenize(a), lib.tokenize(b)], lib.log);
    var similarity := CosineSimilarity(vectors[0], vectors[1], lib.sqrt);
    drift := 1.0 - similarity;
  }

  lemma {:induction false} FrequencyOfPair(x: Doc, y: Doc, t: Term)
    ensures DocFrequency([x, y], t) == DocFrequency([y, x], t)
  {
    assert [x, y][..1] == [x] && [y, x][..1] == [y] && [x][..0] == [] && [y][..0] == [];
  }

  lemma VectorOfPair(x: Doc, y: Doc, doc: Doc, log: real -> real)
    ensures VectorOf([x, y], doc, log) == VectorOf([y, x], doc, log)
  {
    forall t | t in doc ensures Weight([x, y], doc, t, log) == Weight([y, x], doc, t, log) {
      FrequencyOfPair(x, y, t);
    }
  }

  /** Drift is in [0, 1] and symmetric for any two prompts. */
  lemma DriftBounds(lib: Library, a: string, b: string)
    requires Lawful(lib)
    ensures 0.0 <= Drift(lib, a, b) <= 1.0
    ensures Drift(lib, a, b) == Drift(lib, b, a)
  {
    var x, y := lib.tokenize(a), lib.tokenize(b);
    VectorsPositive([x, y], x, lib.log);
    VectorsPositive([x, y], y, lib.log);
    CosineBounds(VectorOf([x, y], x, lib.log), VectorOf([x, y], y, lib.log), lib.sqrt);
    VectorOfPair(x, y, x, lib.log);
    VectorOfPair(x, y, y, lib.log);
    CosineSymmetric(VectorOf([x, y], x, lib.log), VectorOf([x, y], y, lib.log), lib.sqrt);
  }

  /** Drift is maximal exactly when the texts differ and share no token. */
  lemma DriftIsOneIff(lib: Library, a: string, b: string)
    requires Lawful(lib)
    ensures Drift(lib, a, b) == 1.0 <==>
            lib.strip(a) != lib.strip(b) && forall t | t in lib.tokenize(a) :: t !in lib.tokenize(b)
  {
    var x, y := lib.tokenize(a), lib.tokenize(b);
    VectorsPositive([x, y], x, lib.log);
    VectorsPositive([x, y], y, lib.log);
    var u, v := VectorOf([x, y], x, lib.log), VectorOf([x, y], y, lib.log);
    CosineBounds(u, v, lib.sqrt);
    if u.Keys !! v.Keys {
      forall t | t in x ensures t !in y {
        assert t in u.Keys;
      }
    } else {
      var t :| t in u.Keys && t in v.Keys;
    }
  }

  ghost predicate Cross(a: nat, b: nat, c: nat, d: nat) {
    a * d == b * c
  }

  /** The counts of the two bags are in one proportion. */
  ghost predicate Proportional(x: Doc, y: Doc) {
    forall t, u :: Cross(multiset(x)[t], multiset(x)[u], multiset(y)[t], multiset(y)[u])
  }

  /** One bag has l times the counts of the other. */
  ghost predicate CountsScaled(x: Doc, y: Doc, l: real) {
    l > 0.0 && forall t :: Times(multiset(x)[t] as real, multiset(y)[t] as real, l)
  }

  lemma WeighZero(size: nat, frequency: nat, log: real -> real)
    ensures Weigh(size, frequency, 0, log) == 0.0
  {
  }

  lemma AtIsWeigh(docs: seq<Doc>, doc: Doc, t: Term, log: real -> real)
    ensures At(VectorOf(docs, doc, log), t) == Weigh(|docs|, DocFrequency(docs, t), multiset(doc)[t], log)
  {
    if t !in doc {
      assert multiset(doc)[t] == 0;
      WeighZero(|docs|, DocFrequency(docs, t), log);
    }
  }

  lemma CancelWeight(c: real, l: real, k: real, idf: real)
    requires idf > 0.0
    ensures Times(c * idf, k * idf, l) <==> Times(c, k, l)
  {
    assert l * (k * idf) == l * k * idf;
    if c * idf == l * k * idf {
      CancelFactor(c, l * k, idf);
    }
  }

  lemma WeightsScaleIff(size: nat, frequency: nat, c: nat, k: nat, log: real -> real, l: real)
    requires size >= 2 && frequency <= size && IsLog(log)
    ensures Times(Weigh(size, frequency, c, log), Weigh(size, frequency, k, log), l) <==> Times(c as real, k as real, l)
  {
    IdfPositive(size, frequency, log);
    CancelWeight(c as real, l, k as real, Idf(size, frequency, log));
  }

  lemma TermScalesIff(x: Doc, y: Doc, log: real -> real, l: real, t: Term)
    requires IsLog(log)
    ensures Times(At(VectorOf([x, y], x, log), t), At(VectorOf([x, y], y, log), t), l) <==>
            Times(multiset(x)[t] as real, multiset(y)[t] as real, l)
  {
    AtIsWeigh([x, y], x, t, log);
    AtIsWeigh([x, y], y, t, log);
    WeightsScaleIff(2, DocFrequency([x, y], t), multiset(x)[t], multiset(y)[t], log, l);
  }

  /** Weighted vectors differ by a factor exactly when the counts do. */
  lemma ScaledIffCounts(x: Doc, y: Doc, log: real -> real, l: real)
    requires IsLog(log)
    ensures Scaled(VectorOf([x, y], x, log), VectorOf([x, y], y, log), l) <==> CountsScaled(x, y, l)
  {
    var a, b := VectorOf([x, y], x, log), VectorOf([x, y], y, log);
    if Scaled(a, b, l) {
      forall t ensures Times(multiset(x)[t] as real, multiset(y)[t] as real, l) {
        TermScalesIff(x, y, log, l, t);
      }
    }
    if CountsScaled(x, y, l) {
      forall t ensures Times(At(a, t), At(b, t), l) {
        TermScalesIff(x, y, log, l, t);
      }
    }
  }

  lemma CrossOfScaled(a: nat, b: nat, c: nat, d: nat, l: real)
    requires Times(a as real, c as real, l) && Times(b as real, d as real, l)
    ensures Cross(a, b, c, d)
  {
    assert (a * d) as real == a as real * d as real;
    assert (b * c) as real == b as real * c as real;
    assert l * c as real * d as real == l * d as real * c as real;
  }

  lemma ScaleFromCross(a: nat, b: nat, c: nat, d: nat)
    requires d > 0 && Cross(a, b, c, d)
    ensures Times(a as real, c as real, b as real / d as real)
  {
    assert (a * d) as real == a as real * d as real;
    assert (b * c) as real == b as real * c as real;
    ScaleOf(a as real, c as real, d as real, b as real);
  }

  lemma CrossOfZero(a: nat, c: nat, d: nat)
    requires d > 0 && Cross(a, 0, c, d)
    ensures a == 0
  {
  }

  lemma ProportionalScales(x: Doc, y: Doc) returns (l: real)
    requires x != [] && y != [] && Proportional(x, y)
    ensures CountsScaled(x, y, l)
  {
    var u := y[0];
    assert u in multiset(y) && x[0] in multiset(x);
    assert Cross(multiset(x)[x[0]], multiset(x)[u], multiset(y)[x[0]], multiset(y)[u]);
    if multiset(x)[u] == 0 {
      CrossOfZero(multiset(x)[x[0]], multiset(y)[x[0]], multiset(y)[u]);
      assert false;
    }
    l := multiset(x)[u] as real / multiset(y)[u] as real;
    PositiveQuotient(multiset(x)[u] as real, multiset(y)[u] as real);
    forall t ensures Times(multiset(x)[t] as real, multiset(y)[t] as real, l) {
      assert Cross(multiset(x)[t], multiset(x)[u], multiset(y)[t], multiset(y)[u]);
      ScaleFromCross(multiset(x)[t], multiset(x)[u], multiset(y)[t], multiset(y)[u]);
    }
  }

  lemma ScaledIsProportional(x: Doc, y: Doc, l: real)
    requires CountsScaled(x, y, l)
    ensures Proportional(x, y)
  {
    forall t, u ensures Cross(multiset(x)[t], multiset(x)[u], multiset(y)[t], multiset(y)[u]) {
      CrossOfScaled(multiset(x)[t], multiset(x)[u], multiset(y)[t], multiset(y)[u], l);
    }
  }

  /** There is no drift exactly when the stripped texts agree or both have tokens in the same proportions. */
  lemma DriftIsZeroIff(lib: Library, a: string, b: string)
    requires Lawful(lib)
    ensures Drift(lib, a, b) == 0.0 <==>
            || lib.strip(a) == lib.strip(b)
            || (lib.tokenize(a) != [] && lib.tokenize(b) != [] && Proportional(lib.tokenize(a), lib.tokenize(b)))
  {
    var x, y := lib.tokenize(a), lib.tokenize(b);
    var u, v := VectorOf([x, y], x, lib.log), VectorOf([x, y], y, lib.log);
    VectorsPositive([x, y], x, lib.log);
    VectorsPositive([x, y], y, lib.log);
    if x != [] && y != [] {
      assert x[0] in u && y[0] in v;
      CosineIsOneIff(u, v, lib.sqrt);
      if l :| Scaled(u, v, l) {
        ScaledIffCounts(x, y, lib.log, l);
        ScaledIsProportional(x, y, l);
      }
      if Proportional(x, y) {
        var l := ProportionalScales(x, y);
        ScaledIffCounts(x, y, lib.log, l);
      }
    } else {
      EmptyDocument(lib, x, y);
    }
  }

  lemma EmptyDocument(lib: Library, x: Doc, y: Doc)
    requires x == [] || y == []
    ensures Cosine(VectorOf([x, y], x, lib.log), VectorOf([x, y], y, lib.log), lib.sqrt) == 0.0
  {
    assert x == [] ==> VectorOf([x, y], x, lib.log) == map[];
    assert y == [] ==> VectorOf([x, y], y, lib.log) == map[];
  }

  /** Reordering tokens is invisible: equal nonempty token multisets have no drift. */
  lemma ReorderingHasNoDrift(lib: Library, a: string, b: string)
    requires Lawful(lib) && lib.tokenize(a) != []
    requires multiset(lib.tokenize(a)) == multiset(lib.tokenize(b))
    ensures Drift(lib, a, b) == 0.0
  {
    var x, y := lib.tokenize(a), lib.tokenize(b);
    assert forall t :: t in x <==> t in multiset(x);
    assert forall t :: t in y <==> t in multiset(y);
    assert forall t :: Weight([x, y], x, t, lib.log) == Weight([x, y], y, t, lib.log);
    assert VectorOf([x, y], x, lib.log) == VectorOf([x, y], y, lib.log);
    VectorsPositive([x, y], x, lib.log);
    assert x[0] in VectorOf([x, y], x, lib.log);
    CosineSelf(VectorOf([x, y], x, lib.log), lib.sqrt);
  }

  // ----------------------------------------------------------------- how much it measures

  ghost predicate Increasing(log: real -> real) {
    forall p, q | 0.0 < p < q :: log(p) < log(q)
  }

  lemma PairFrequency(x: Doc, y: Doc, t: Term)
    ensures DocFrequency([x, y], t) == (if t in x then 1 else 0) + if t in y then 1 else 0
  {
    assert [x, y][..1] == [x] && [x][..0] == [];
  }

  lemma OccursOnce(x: Doc, t: Term)
    requires Distinct(x) && t in x
    ensures multiset(x)[t] == 1
  {
    var i :| 0 <= i < |x| && x[i] == t;
    assert x == x[..i] + [t] + x[i + 1..];
    assert t !in x[..i] && t !in x[i + 1..];
  }

  lemma RarerWeighsMore(count: nat, log: real -> real)
    requires count >= 1 && Increasing(log)
    ensures Weigh(2, 2, count, log) < Weigh(2, 1, count, log)
  {
    var both, one, c := Idf(2, 2, log), Idf(2, 1, log), count as real;
    assert both < one;
    StrictProduct(one, both, c);
  }

  /** A token of both prompts weighs strictly less than an equally frequent token of one of them. */
  lemma SharedTokenWeighsLess(x: Doc, y: Doc, t: Term, u: Term, log: real -> real)
    requires Increasing(log)
    requires t in x && t in y && u in x && u !in y && multiset(x)[t] == multiset(x)[u]
    ensures var v := VectorOf([x, y], x, log); v[t] < v[u]
  {
    PairFrequency(x, y, t);
    PairFrequency(x, y, u);
    assert u in multiset(x);
    RarerWeighsMore(multiset(x)[u], log);
  }

  ghost predicate Multiple(d: real, n: nat, c: real) {
    d == n as real * c
  }

  lemma NextMultiple(d: real, n: nat, c: real)
    requires Multiple(d, n, c)
    ensures Multiple(c + d, n + 1, c)
  {
  }

  lemma {:induction false} DotOfEqual(s: set<Term>, a: Vector, b: Vector, c: real)
    requires forall t | t in s :: ProductAt(a, b, t) == c
    ensures Multiple(Dot(s, a, b), |s|, c)
    decreases s
  {
    if s != {} {
      var t :| t in s;
      DotTakeOut(s, a, b, t);
      DotOfEqual(s - {t}, a, b, c);
      NextMultiple(Dot(s - {t}, a, b), |s - {t}|, c);
    }
  }

  lemma {:induction false} DotSplit(s: set<Term>, r: set<Term>, a: Vector, b: Vector)
    requires s !! r
    ensures Dot(s + r, a, b) == Dot(s, a, b) + Dot(r, a, b)
    decreases s
  {
    if s == {} {
      assert s + r == r;
    } else {
      var t :| t in s;
      DotTakeOut(s + r, a, b, t);
      DotTakeOut(s, a, b, t);
      assert s + r - {t} == (s - {t}) + r;
      DotSplit(s - {t}, r, a, b);
    }
  }

  /** The weight of a token that both prompts hold once. */
  ghost function SharedWeight(log: real -> real): real {
    1.0 + log(2.0 / 3.0)
  }

  ghost function SharedSquare(log: real -> real): real {
    (1.0 + log(2.0 / 3.0)) * (1.0 + log(2.0 / 3.0))
  }

  lemma SquareOfShared(log: real -> real, w: real)
    requires w == SharedWeight(log)
    ensures SharedSquare(log) == w * w
  {
  }

  lemma WeighOnce(log: real -> real)
    requires IsLog(log)
    ensures Weigh(2, 2, 1, log) == SharedWeight(log) && Weigh(2, 1, 1, log) == 1.0
  {
    assert 2.0 / 2.0 == 1.0 && log(1.0) == 0.0;
  }

  lemma TokenWeight(x: Doc, y: Doc, t: Term, log: real -> real)
    requires IsLog(log) && Distinct(x) && t in x
    ensures VectorOf([x, y], x, log)[t] == if t in y then SharedWeight(log) else 1.0
  {
    PairFrequency(x, y, t);
    OccursOnce(x, t);
    WeighOnce(log);
  }

  lemma ProductIs(a: Vector, b: Vector, t: Term, p: real, q: real)
    requires At(a, t) == p && At(b, t) == q
    ensures ProductAt(a, b, t) == p * q
  {
  }

  /** A vector that weighs the shared terms w and its other terms 1. */
  ghost predicate TwoWeights(v: Vector, both: set<Term>, own: set<Term>, w: real) {
    both !! own && v.Keys == both + own && forall t | t in v :: v[t] == if t in both then w else 1.0
  }

  lemma DocWeights(x: Doc, y: Doc, log: real -> real)
    requires IsLog(log) && Distinct(x)
    ensures TwoWeights(
        VectorOf([x, y], x, log), Elements(x) * Elements(y), Elements(x) - Elements(y), SharedWeight(log))
  {
    forall t | t in x {
      TokenWeight(x, y, t, log);
    }
  }

  lemma NormOfWeights(v: Vector, both: set<Term>, own: set<Term>, w: real, ww: real) returns (shared: real)
    requires TwoWeights(v, both, own, w) && ww == w * w
    ensures Multiple(shared, |both|, ww) && Dot(v.Keys, v, v) == shared + |own| as real
  {
    forall t | t in both ensures ProductAt(v, v, t) == ww {
      ProductIs(v, v, t, w, w);
    }
    forall t | t in own ensures ProductAt(v, v, t) == 1.0 {
      ProductIs(v, v, t, 1.0, 1.0);
    }
    DotSplit(both, own, v, v);
    DotOfEqual(both, v, v, ww);
    DotOfEqual(own, v, v, 1.0);
    shared := Dot(both, v, v);
  }

  lemma DotOfWeights(
      u: Vector, v: Vector, both: set<Term>, ownU: set<Term>, ownV: set<Term>, w: real, ww: real)
    requires TwoWeights(u, both, ownU, w) && TwoWeights(v, both, ownV, w) && ownU !! ownV && ww == w * w
    ensures Multiple(Dot(Terms(u, v), u, v), |both|, ww)
  {
    var rest := ownU + ownV;
    forall t | t in both ensures ProductAt(u, v, t) == ww {
      ProductIs(u, v, t, w, w);
    }
    forall t | t in rest ensures ProductAt(u, v, t) == 0.0 {
      ProductIs(u, v, t, At(u, t), At(v, t));
    }
    assert Terms(u, v) == both + rest;
    DotSplit(both, rest, u, v);
    DotOfEqual(both, u, v, ww);
    DotOfEqual(rest, u, v, 0.0);
  }

  lemma DistinctDots(x: Doc, y: Doc, log: real -> real, w: real, ww: real) returns (shared: real)
    requires IsLog(log) && Distinct(x) && Distinct(y) && w == SharedWeight(log) && ww == w * w
    ensures Multiple(shared, |Elements(x) * Elements(y)|, ww)
    ensures var u, v := VectorOf([x, y], x, log), VectorOf([x, y], y, log);
            && Dot(Terms(u, v), u, v) == shared
            && Dot(u.Keys, u, u) == shared + |Elements(x) - Elements(y)| as real
            && Dot(v.Keys, v, v) == shared + |Elements(y) - Elements(x)| as real
  {
    var u, v := VectorOf([x, y], x, log), VectorOf([x, y], y, log);
    var both := Elements(x) * Elements(y);
    DocWeights(x, y, log);
    DocWeights(y, x, log);
    VectorOfPair(x, y, y, log);
    assert Elements(y) * Elements(x) == both;
    shared := NormOfWeights(u, both, Elements(x) - Elements(y), w, ww);
    var again := NormOfWeights(v, both, Elements(y) - Elements(x), w, ww);
    DotOfWeights(u, v, both, Elements(x) - Elements(y), Elements(y) - Elements(x), w, ww);
  }

  lemma CosineFromDots(u: Vector, v: Vector, sqrt: real -> real, shared: real, p: real, q: real)
    returns (na: real, nb: real)
    requires Positive(u) && Positive(v) && u != map[] && v != map[] && IsSqrt(sqrt)
    requires Dot(Terms(u, v), u, v) == shared && Dot(u.Keys, u, u) == p && Dot(v.Keys, v, v) == q
    ensures na == sqrt(p) && nb == sqrt(q) && na * na == p && nb * nb == q
    ensures na * nb > 0.0 && Cosine(u, v, sqrt) == shared / (na * nb)
  {
    na := NormSquared(u, sqrt);
    nb := NormSquared(v, sqrt);
    CosineByNorms(u, v, sqrt, na, nb);
  }

  lemma DistinctCosine(lib: Library, x: Doc, y: Doc, shared: real, p: real, q: real) returns (na: real, nb: real)
    requires Lawful(lib) && x != [] && y != []
    requires var u, v := VectorOf([x, y], x, lib.log), VectorOf([x, y], y, lib.log);
             Dot(Terms(u, v), u, v) == shared && Dot(u.Keys, u, u) == p && Dot(v.Keys, v, v) == q
    ensures na == lib.sqrt(p) && nb == lib.sqrt(q) && na * na == p && nb * nb == q && na * nb > 0.0
    ensures Cosine(VectorOf([x, y], x, lib.log), VectorOf([x, y], y, lib.log), lib.sqrt) == shared / (na * nb)
  {
    var u, v := VectorOf([x, y], x, lib.log), VectorOf([x, y], y, lib.log);
    VectorsPositive([x, y], x, lib.log);
    VectorsPositive([x, y], y, lib.log);
    assert x[0] in u && y[0] in v;
    na, nb := CosineFromDots(u, v, lib.sqrt, shared, p, q);
  }

  /** The weights of prompts of distinct tokens: what the shared tokens add up to, and the two squared norms. */
  ghost predicate DistinctWeights(lib: Library, a: string, b: string, shared: real, p: real, q: real) {
    var x, y := Elements(lib.tokenize(a)), Elements(lib.tokenize(b));
    && Multiple(shared, |x * y|, SharedSquare(lib.log))
    && p == shared + |x - y| as real && q == shared + |y - x| as real
  }

  lemma DistinctWeightsHold(lib: Library, a: string, b: string) returns (shared: real, p: real, q: real)
    requires IsLog(lib.log) && Distinct(lib.tokenize(a)) && Distinct(lib.tokenize(b))
    ensures DistinctWeights(lib, a, b, shared, p, q)
    ensures var x, y := lib.tokenize(a), lib.tokenize(b);
            var u, v := VectorOf([x, y], x, lib.log), VectorOf([x, y], y, lib.log);
            Dot(Terms(u, v), u, v) == shared && Dot(u.Keys, u, u) == p && Dot(v.Keys, v, v) == q
  {
    var x, y, w := lib.tokenize(a), lib.tokenize(b), SharedWeight(lib.log);
    SquareOfShared(lib.log, w);
    shared := DistinctDots(x, y, lib.log, w, SharedSquare(lib.log));
    p, q := shared + |Elements(x) - Elements(y)| as real, shared + |Elements(y) - Elements(x)| as real;
  }

  /**
   * The drift of prompts of distinct tokens in closed form: the number of shared tokens times the square of
   * 1 + log(2/3), over the two norms, to whose squares every other token adds 1.
   */
  lemma DriftOfDistinctTokens(lib: Library, a: string, b: string)
    returns (shared: real, p: real, q: real, na: real, nb: real)
    requires Lawful(lib) && lib.strip(a) != lib.strip(b)
    requires Distinct(lib.tokenize(a)) && Distinct(lib.tokenize(b)) && lib.tokenize(a) != [] && lib.tokenize(b) != []
    ensures DistinctWeights(lib, a, b, shared, p, q)
    ensures na == lib.sqrt(p) && nb == lib.sqrt(q) && na * na == p && nb * nb == q && na * nb > 0.0
    ensures Drift(lib, a, b) == 1.0 - shared / (na * nb)
  {
    shared, p, q := DistinctWeightsHold(lib, a, b);
    na, nb := DistinctCosine(lib, lib.tokenize(a), lib.tokenize(b), shared, p, q);
  }

  /** Changing one of m + 1 distinct tokens drifts by 1 / (m (1 + log(2/3))^2 + 1). */
  lemma DriftOfOneChange(lib: Library, a: string, b: string) returns (shared: real)
    requires Lawful(lib) && lib.strip(a) != lib.strip(b)
    requires Distinct(lib.tokenize(a)) && Distinct(lib.tokenize(b))
    requires var x, y := Elements(lib.tokenize(a)), Elements(lib.tokenize(b)); |x - y| == 1 && |y - x| == 1
    ensures DistinctWeights(lib, a, b, shared, shared + 1.0, shared + 1.0)
    ensures shared + 1.0 > 0.0 && Drift(lib, a, b) == 1.0 / (shared + 1.0)
  {
    NotEmptyByDifference(lib.tokenize(a), lib.tokenize(b));
    NotEmptyByDifference(lib.tokenize(b), lib.tokenize(a));
    var p, q, na, nb;
    shared, p, q, na, nb := DriftOfDistinctTokens(lib, a, b);
    EqualNorms(shared, p, q, na, nb);
  }

  lemma EqualNorms(shared: real, p: real, q: real, na: real, nb: real)
    requires p == shared + 1.0 && q == p && na == nb && na * na == p && na * nb > 0.0
    ensures shared + 1.0 > 0.0 && 1.0 - shared / (na * nb) == 1.0 / (shared + 1.0)
  {
    OneMinusQuotient(shared, na * nb);
  }

  lemma NotEmptyByDifference(x: Doc, y: Doc)
    requires |Elements(x) - Elements(y)| == 1
    ensures x != []
  {
    assert x == [] ==> Elements(x) - Elements(y) == {};
  }

  lemma OneMinusQuotient(shared: real, d: real)
    requires d == shared + 1.0 && d > 0.0
    ensures 1.0 - shared / d == 1.0 / d
  {
    assert (1.0 - shared / d) * d == d - shared;
  }
}
