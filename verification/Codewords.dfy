/**
  What the Reed-Solomon code is for: the codewords are exactly the multiples of the generator
  polynomial, any two of them differ in more places than there are check symbols, and so a word
  with few enough errors has one codeword near it.
 */
module Codewords {
  import opened GaloisField
  import opened ReedSolomon

  // ---------------------------------------------------------------------------
  // Multiples of the generator
  // ---------------------------------------------------------------------------

  function Scaled(p: seq<bv8>, c: bv8): (r: seq<bv8>)
    ensures IsScaled(c, p, r)
  {
    seq(|p|, i requires 0 <= i < |p| => Mul(p[i], c))
  }

  /** The product of two polynomials, the first one's coefficients taken in turn. */
  function PolyProduct(q: seq<bv8>, g: seq<bv8>): (r: seq<bv8>)
    requires g != []
    ensures |r| == |q| + |g| - 1
  {
    if q == [] then Zeros(|g| - 1)
    else
      var n := |q| - 1;
      Difference(PolyProduct(q[..n], g) + [0], Zeros(n) + Scaled(g, q[n]))
  }

  lemma {:induction false} EvalProduct(q: seq<bv8>, g: seq<bv8>, x: bv8)
    requires g != []
    ensures Eval(PolyProduct(q, g), x) == Mul(Eval(q, x), Eval(g, x))
    decreases |q|
  {
    hide Add, Mul, Eval, Zeros, Difference, Scaled;
    if q == [] {
      EvalZero(Zeros(|g| - 1), x);
      EvalZero([], x);
      MulZero(Eval(g, x));
    } else {
      var n := |q| - 1;
      var front, c := q[..n], q[n];
      var shifted, term := PolyProduct(front, g) + [0], Zeros(n) + Scaled(g, c);
      var ef, eg := Eval(front, x), Eval(g, x);
      EvalProduct(front, g, x);
      EvalSum(shifted, term, Difference(shifted, term), x);
      EvalSnoc(PolyProduct(front, g), 0, x);
      AddSelf(Mul(Mul(ef, eg), x), 0);
      EvalLeadingZeros(Zeros(n), Scaled(g, c), x);
      EvalScaled(c, g, Scaled(g, c), x);
      assert q == front + [c];
      EvalSnoc(front, c, x);
      MulAssociative(ef, eg, x);
      MulCommutative(eg, x);
      MulAssociative(ef, x, eg);
      MulCommutative(eg, c);
      MulAdd(eg, Mul(ef, x), c);
    }
  }

  /** Division with remainder by a monic polynomial. */
  lemma {:induction false} DivideByMonic(w: seq<bv8>, g: seq<bv8>) returns (q: seq<bv8>, r: seq<bv8>)
    requires g != [] && g[0] == 1 && |w| >= |g| - 1
    ensures |q| == |w| - (|g| - 1) && |r| == |g| - 1
    ensures w == Difference(PolyProduct(q, g), Zeros(|q|) + r)
    decreases |w|
  {
    hide Add, Mul;
    if |w| == |g| - 1 {
      q, r := [], w;
      forall i | 0 <= i < |w| ensures w[i] == Difference(PolyProduct(q, g), Zeros(0) + r)[i] {
        AddSelf(w[i], 0);
      }
    } else {
      var front := w[..|w| - 1];
      var q', r' := DivideByMonic(front, g);
      var rest := r' + [w[|w| - 1]];
      var d := rest[0];
      var reduced := Difference(rest, Scaled(g, d));
      q, r := q' + [d], reduced[1..];
      NextRemainder(w, g, q', r', d);
    }
  }

  lemma NextRemainder(w: seq<bv8>, g: seq<bv8>, q': seq<bv8>, r': seq<bv8>, d: bv8)
    requires g != [] && g[0] == 1 && |w| >= |g| && |q'| == |w| - |g| && |r'| == |g| - 1
    requires w[..|w| - 1] == Difference(PolyProduct(q', g), Zeros(|q'|) + r')
    requires d == (r' + [w[|w| - 1]])[0]
    ensures var r := Difference(r' + [w[|w| - 1]], Scaled(g, d))[1..];
            w == Difference(PolyProduct(q' + [d], g), Zeros(|q'| + 1) + r)
  {
    hide Add, Mul, PolyProduct, Scaled, Difference, Zeros;
    var product, rest := PolyProduct(q', g), r' + [w[|w| - 1]];
    ProductSnoc(q', d, g);
    Cancels(g, d);
    AddSelf(d, Mul(g[0], d));
    OneMorePlace(w, product, r', |q'|);
    Recombine(w, product + [0], Scaled(g, d), rest, |q'|);
  }

  lemma ProductSnoc(q: seq<bv8>, d: bv8, g: seq<bv8>)
    requires g != []
    ensures PolyProduct(q + [d], g) == Difference(PolyProduct(q, g) + [0], Zeros(|q|) + Scaled(g, d))
  {
    hide Difference, Scaled, Zeros;
    assert (q + [d])[..|q|] == q;
  }

  lemma OneMorePlace(w: seq<bv8>, product: seq<bv8>, r': seq<bv8>, n: nat)
    requires |w| > 0 && |product| == |w| - 1 == n + |r'|
    requires w[..|w| - 1] == Difference(product, Zeros(n) + r')
    ensures var p, rest := product + [0], r' + [w[|w| - 1]];
            forall i :: 0 <= i < |w| ==> w[i] == if i < n then p[i] else Add(p[i], rest[i - n])
  {
    hide Add, Difference, Zeros;
    forall i | 0 <= i < |w|
      ensures w[i] == if i < n then (product + [0])[i] else Add((product + [0])[i], (r' + [w[|w| - 1]])[i - n])
    {
      if i < |w| - 1 {
        assert w[..|w| - 1][i] == Add(product[i], (Zeros(n) + r')[i]);
        AddSelf(product[i], 0);
      } else {
        AddSelf(w[i], 0);
      }
    }
  }

  /** Taking the scaled divisor from the remainder and giving it to the product changes nothing in sum. */
  lemma Recombine(w: seq<bv8>, p: seq<bv8>, scaled: seq<bv8>, rest: seq<bv8>, n: nat)
    requires |w| == |p| == n + |rest| && |scaled| == |rest| > 0 && scaled[0] == rest[0]
    requires forall i :: 0 <= i < |w| ==> w[i] == if i < n then p[i] else Add(p[i], rest[i - n])
    ensures w == Difference(Difference(p, Zeros(n) + scaled), Zeros(n + 1) + Difference(rest, scaled)[1..])
  {
    hide Add, Difference, Zeros;
    var product, r := Difference(p, Zeros(n) + scaled), Difference(rest, scaled)[1..];
    var all := Difference(product, Zeros(n + 1) + r);
    forall i | 0 <= i < |w| ensures w[i] == all[i] {
      if i < n {
        AddSelf(p[i], 0);
      } else if i == n {
        AddSelf(product[i], 0);
      } else {
        assert r[i - n - 1] == Difference(rest, scaled)[i - n];
        AddTwice(p[i], rest[i - n], scaled[i - n]);
      }
    }
  }

  lemma AddTwice(a: bv8, b: bv8, t: bv8)
    ensures Add(Add(a, t), Add(b, t)) == Add(a, b)
  {
  }

  /** `g` is the generator polynomial for `nsym` check symbols. */
  ghost predicate IsGenerator(g: seq<bv8>, nsym: nat) {
    |g| == nsym + 1 && g[0] == 1 && forall x :: Eval(g, x) == RootProduct(nsym, x)
  }

  ghost predicate IsMultiple(w: seq<bv8>, g: seq<bv8>)
    requires g != []
  {
    exists q :: |q| + |g| - 1 == |w| && PolyProduct(q, g) == w
  }

  /** A word is a codeword exactly if it is a polynomial multiple of the generator. */
  lemma CodewordsAreMultiples(w: seq<bv8>, g: seq<bv8>, nsym: nat)
    requires nsym <= 255 && IsGenerator(g, nsym) && |w| >= nsym
    ensures Codeword(w, nsym) <==> IsMultiple(w, g)
  {
    hide Add, Mul, Eval, Pow, Difference, PolyProduct;
    GeneratorRoots(g, nsym);
    if Codeword(w, nsym) {
      var q, r := DivideByMonic(w, g);
      var product := PolyProduct(q, g);
      forall i | 0 <= i < nsym ensures Eval(r, Powers(nsym)[i]) == 0 {
        RemainderVanishes(w, product, q, g, r, Pow(i));
      }
      PowersAreDistinct(nsym);
      AsManyRootsAsCoefficients(r, Powers(nsym));
      NothingSubtracted(w, product, Zeros(|q|) + r);
      assert PolyProduct(q, g) == w;
    }
    if IsMultiple(w, g) {
      var q :| |q| + |g| - 1 == |w| && PolyProduct(q, g) == w;
      forall i | 0 <= i < nsym ensures Eval(w, Pow(i)) == 0 {
        EvalProduct(q, g, Pow(i));
        NoZeroDivisors(Eval(q, Pow(i)), 0);
      }
    }
  }

  lemma PowersAreDistinct(n: nat)
    requires n <= 255
    ensures Distinct(Powers(n))
  {
    hide Pow;
    forall i, j | 0 <= i < j < n ensures Powers(n)[i] != Powers(n)[j] {
      PowInjective(i, j);
    }
  }

  lemma RemainderVanishes(w: seq<bv8>, product: seq<bv8>, q: seq<bv8>, g: seq<bv8>, r: seq<bv8>, x: bv8)
    requires g != [] && product == PolyProduct(q, g) && |product| == |q| + |r|
    requires w == Difference(product, Zeros(|q|) + r) && Eval(w, x) == 0 && Eval(g, x) == 0
    ensures Eval(r, x) == 0
  {
    hide Add, Mul, Eval, PolyProduct;
    EvalSum(product, Zeros(|q|) + r, w, x);
    EvalProduct(q, g, x);
    NoZeroDivisors(Eval(q, x), 0);
    EvalLeadingZeros(Zeros(|q|), r, x);
    AddSelf(Eval(r, x), 0);
  }

  lemma NothingSubtracted(w: seq<bv8>, product: seq<bv8>, z: seq<bv8>)
    requires |product| == |z| && IsZero(z) && w == Difference(product, z)
    ensures w == product
  {
    forall i | 0 <= i < |w| ensures w[i] == product[i] {
      AddSelf(product[i], 0);
    }
  }

  // ---------------------------------------------------------------------------
  // Weights and power sums
  // ---------------------------------------------------------------------------

  /** How many symbols are not zero. */
  function Weight(w: seq<bv8>): nat {
    if w == [] then 0 else Weight(w[..|w| - 1]) + if w[|w| - 1] == 0 then 0 else 1
  }

  /** A coefficient, and how many places to the left of the end it stands. */
  datatype Term = Term(coefficient: bv8, place: nat)

  function Shift(ts: seq<Term>): seq<Term> {
    seq(|ts|, i requires 0 <= i < |ts| => Term(ts[i].coefficient, ts[i].place + 1))
  }

  /** The symbols that are not zero, leftmost first. */
  function Terms(w: seq<bv8>): seq<Term> {
    if w == [] then []
    else
      var n := |w| - 1;
      Shift(Terms(w[..n])) + if w[n] == 0 then [] else [Term(w[n], 0)]
  }

  function PowerSum(ts: seq<Term>, i: nat): bv8 {
    if ts == [] then 0
    else
      var last := ts[|ts| - 1];
      Add(PowerSum(ts[..|ts| - 1], i), Mul(last.coefficient, Pow(last.place * i)))
  }

  /** Nonzero coefficients at places that fall from left to right. */
  ghost predicate Descending(ts: seq<Term>, n: nat) {
    && (forall i :: 0 <= i < |ts| ==> ts[i].coefficient != 0 && ts[i].place < n)
    && (forall i, j :: 0 <= i < j < |ts| ==> ts[i].place > ts[j].place)
  }

  lemma {:induction false} TermsDescend(w: seq<bv8>)
    ensures Descending(Terms(w), |w|) && |Terms(w)| == Weight(w)
    ensures Terms(w) == [] ==> IsZero(w)
    decreases |w|
  {
    if w != [] {
      TermsDescend(w[..|w| - 1]);
    }
  }

  lemma PowerSumSnoc(ts: seq<Term>, t: Term, i: nat)
    ensures PowerSum(ts + [t], i) == Add(PowerSum(ts, i), Mul(t.coefficient, Pow(t.place * i)))
  {
    assert (ts + [t])[..|ts|] == ts;
  }

  lemma NextPlace(place: nat, i: nat)
    ensures Pow((place + 1) * i) == Mul(Pow(place * i), Pow(i))
  {
    assert (place + 1) * i == place * i + i;
    PowAdd(place * i, i);
  }

  lemma {:induction false} ShiftedPowerSum(ts: seq<Term>, i: nat)
    ensures PowerSum(Shift(ts), i) == Mul(PowerSum(ts, i), Pow(i))
    decreases |ts|
  {
    hide Add, Mul, Pow;
    if ts == [] {
      MulZero(Pow(i));
    } else {
      var front, t := ts[..|ts| - 1], ts[|ts| - 1];
      ShiftedPowerSum(front, i);
      assert Shift(ts) == Shift(front) + [Term(t.coefficient, t.place + 1)];
      PowerSumSnoc(Shift(front), Term(t.coefficient, t.place + 1), i);
      NextPlace(t.place, i);
      MulAssociative(t.coefficient, Pow(t.place * i), Pow(i));
      MulAdd(Pow(i), PowerSum(front, i), Mul(t.coefficient, Pow(t.place * i)));
    }
  }

  /** The value of a word at a power of alpha is a power sum over its nonzero symbols. */
  lemma {:induction false} EvalIsPowerSum(w: seq<bv8>, i: nat)
    ensures Eval(w, Pow(i)) == PowerSum(Terms(w), i)
    decreases |w|
  {
    hide Add, Mul, Pow, PowerSum;
    if w == [] {
      NoTerms(i);
    } else {
      var front, c := w[..|w| - 1], w[|w| - 1];
      EvalIsPowerSum(front, i);
      ShiftedPowerSum(Terms(front), i);
      assert w == front + [c];
      EvalSnoc(front, c, Pow(i));
      if c == 0 {
        AddSelf(Eval(w, Pow(i)), 0);
        AddSelf(Mul(Eval(front, Pow(i)), Pow(i)), 0);
        assert Terms(w) == Shift(Terms(front));
      } else {
        PowerSumSnoc(Shift(Terms(front)), Term(c, 0), i);
        ConstantTerm(c, i);
      }
    }
  }

  lemma NoTerms(i: nat)
    ensures PowerSum([], i) == 0
  {
  }

  lemma ConstantTerm(c: bv8, i: nat)
    ensures Mul(c, Pow(0 * i)) == c
  {
    assert 0 * i == 0 && Pow(0) == 1;
    MulOneRight(c);
  }

  // ---------------------------------------------------------------------------
  // Few terms cannot cancel
  // ---------------------------------------------------------------------------

  /** Each coefficient multiplied by the distance of its power from `x`. */
  function Against(ts: seq<Term>, x: bv8): seq<Term> {
    seq(|ts|, i requires 0 <= i < |ts| => Term(Mul(ts[i].coefficient, Add(Pow(ts[i].place), x)), ts[i].place))
  }

  lemma OneTermAgainst(c: bv8, place: nat, x: bv8, i: nat)
    ensures Mul(Mul(c, Add(Pow(place), x)), Pow(place * i))
            == Add(Mul(c, Pow(place * (i + 1))), Mul(Mul(c, Pow(place * i)), x))
  {
    hide Add, Mul, Pow;
    var p, q := Pow(place), Pow(place * i);
    assert place * (i + 1) == place + place * i;
    PowAdd(place, place * i);
    MulAssociative(c, Add(p, x), q);
    MulAdd(q, p, x);
    MulCommutative(x, q);
    MulCommutative(c, Add(Mul(p, q), Mul(q, x)));
    MulAdd(c, Mul(p, q), Mul(q, x));
    MulCommutative(Mul(p, q), c);
    MulCommutative(Mul(q, x), c);
    MulAssociative(c, q, x);
  }

  lemma {:induction false} SumAgainst(ts: seq<Term>, x: bv8, i: nat)
    ensures PowerSum(Against(ts, x), i) == Add(PowerSum(ts, i + 1), Mul(PowerSum(ts, i), x))
    decreases |ts|
  {
    hide Add, Mul, Pow;
    if ts == [] {
      MulZero(x);
      AddSelf(0, 0);
    } else {
      var front, t := ts[..|ts| - 1], ts[|ts| - 1];
      var c, q := t.coefficient, Pow(t.place * i);
      SumAgainst(front, x, i);
      assert Against(ts, x) == Against(front, x) + [Term(Mul(c, Add(Pow(t.place), x)), t.place)];
      PowerSumSnoc(Against(front, x), Term(Mul(c, Add(Pow(t.place), x)), t.place), i);
      OneTermAgainst(c, t.place, x, i);
      MulAdd(x, PowerSum(front, i), Mul(c, q));
      AddLaws(PowerSum(front, i + 1), Mul(PowerSum(front, i), x), Mul(c, Pow(t.place * (i + 1))), Mul(Mul(c, q), x));
    }
  }

  /** If the sums vanish, so do the sums of all terms but the last, taken against the last one's power. */
  lemma SumsWithoutLast(ts: seq<Term>, i: nat)
    requires ts != [] && PowerSum(ts, i) == 0 && PowerSum(ts, i + 1) == 0
    ensures PowerSum(Against(ts[..|ts| - 1], Pow(ts[|ts| - 1].place)), i) == 0
  {
    hide Add, Mul, Pow, PowerSum;
    var front, t := ts[..|ts| - 1], ts[|ts| - 1];
    var x := Pow(t.place);
    assert ts == front + [t];
    SumAgainst(ts, x, i);
    MulZero(x);
    AddSelf(0, 0);
    assert Against(ts, x) == Against(front, x) + [Term(Mul(t.coefficient, Add(x, x)), t.place)];
    PowerSumSnoc(Against(front, x), Term(Mul(t.coefficient, Add(x, x)), t.place), i);
    AddSelf(x, x);
    NoZeroDivisors(t.coefficient, 0);
    NoZeroDivisors(0, Pow(t.place * i));
    AddSelf(PowerSum(Against(front, x), i), 0);
  }

  ghost predicate DistinctPlaces(ts: seq<Term>) {
    && (forall i :: 0 <= i < |ts| ==> ts[i].place < 255)
    && (forall i, j :: 0 <= i < j < |ts| ==> ts[i].place != ts[j].place)
  }

  lemma DistanceNonzero(a: nat, b: nat)
    requires a < 255 && b < 255 && a != b
    ensures Add(Pow(a), Pow(b)) != 0
  {
    hide Pow;
    if a < b {
      PowInjective(a, b);
    } else {
      PowInjective(b, a);
    }
    AddSelf(Pow(a), Pow(b));
  }

  /** As many vanishing power sums as terms at distinct places leave no coefficient but zero. */
  lemma {:induction false} FewTermsCannotCancel(ts: seq<Term>, m: nat)
    requires |ts| <= m && DistinctPlaces(ts)
    requires forall i :: 0 <= i < m ==> PowerSum(ts, i) == 0
    ensures forall k :: 0 <= k < |ts| ==> ts[k].coefficient == 0
    decreases |ts|
  {
    hide Add, Mul, Pow, PowerSum;
    if ts != [] {
      var front, t := ts[..|ts| - 1], ts[|ts| - 1];
      var against := Against(front, Pow(t.place));
      forall i | 0 <= i < m - 1 ensures PowerSum(against, i) == 0 {
        SumsWithoutLast(ts, i);
      }
      FewTermsCannotCancel(against, m - 1);
      forall k | 0 <= k < |front| ensures front[k].coefficient == 0 {
        assert against[k].coefficient == 0;
        DistanceNonzero(front[k].place, t.place);
        NoZeroDivisors(front[k].coefficient, Add(Pow(front[k].place), Pow(t.place)));
      }
      ZeroTermsSumToZero(front, 0);
      assert ts == front + [t];
      PowerSumSnoc(front, t, 0);
      AddSelf(t.coefficient, 0);
      NoZeroDivisors(t.coefficient, Pow(t.place * 0));
      PowNonzero(t.place * 0);
      AddSelf(Mul(t.coefficient, Pow(t.place * 0)), 0);
    }
  }

  lemma {:induction false} ZeroTermsSumToZero(ts: seq<Term>, i: nat)
    requires forall k :: 0 <= k < |ts| ==> ts[k].coefficient == 0
    ensures PowerSum(ts, i) == 0
    decreases |ts|
  {
    hide Add, Mul, Pow;
    if ts != [] {
      ZeroTermsSumToZero(ts[..|ts| - 1], i);
      NoZeroDivisors(0, Pow(ts[|ts| - 1].place * i));
      AddSelf(0, 0);
    }
  }

  // ---------------------------------------------------------------------------
  // Distance
  // ---------------------------------------------------------------------------

  /** A codeword of at most 255 symbols that is not zero has more nonzero symbols than there are check symbols. */
  lemma CodewordsAreHeavy(w: seq<bv8>, nsym: nat)
    requires Codeword(w, nsym) && |w| <= 255 && !IsZero(w)
    ensures Weight(w) > nsym
  {
    hide Eval, Pow, PowerSum;
    TermsDescend(w);
    var ts := Terms(w);
    assert ts[0].coefficient != 0;
    if Weight(w) <= nsym {
      forall i | 0 <= i < nsym ensures PowerSum(ts, i) == 0 {
        EvalIsPowerSum(w, i);
      }
      FewTermsCannotCancel(ts, nsym);
    }
  }

  /** In how many places two words differ. */
  function Distance(v: seq<bv8>, w: seq<bv8>): nat
    requires |v| == |w|
  {
    if v == [] then 0
    else
      var n := |v| - 1;
      Distance(v[..n], w[..n]) + if v[n] == w[n] then 0 else 1
  }

  lemma {:induction false} DistanceIsWeight(v: seq<bv8>, w: seq<bv8>, d: seq<bv8>)
    requires IsSum(v, w, d)
    ensures Distance(v, w) == Weight(d)
    ensures IsZero(d) <==> v == w
    decreases |v|
  {
    hide Add;
    if v != [] {
      var n := |v| - 1;
      DistanceIsWeight(v[..n], w[..n], d[..n]);
      AddSelf(v[n], w[n]);
      assert v == v[..n] + [v[n]] && w == w[..n] + [w[n]];
    }
  }

  /** Two codewords differ in more places than there are check symbols, or nowhere. */
  lemma CodewordsAreFarApart(v: seq<bv8>, w: seq<bv8>, nsym: nat)
    requires |v| == |w| <= 255 && Codeword(v, nsym) && Codeword(w, nsym) && v != w
    ensures Distance(v, w) > nsym
  {
    var d := Difference(v, w);
    CodewordsAdd(v, w, d, nsym);
    DistanceIsWeight(v, w, d);
    CodewordsAreHeavy(d, nsym);
  }

  lemma {:induction false} DistanceTriangle(u: seq<bv8>, v: seq<bv8>, w: seq<bv8>)
    requires |u| == |v| == |w|
    ensures Distance(u, w) <= Distance(v, u) + Distance(v, w)
    decreases |u|
  {
    if u != [] {
      var n := |u| - 1;
      DistanceTriangle(u[..n], v[..n], w[..n]);
    }
  }

  /**
    What the check symbols buy: a received word that differs from a codeword in at most half as many places
    differs in as few from no other, so the codeword can be recovered.
   */
  lemma ErrorsCanBeCorrected(received: seq<bv8>, v: seq<bv8>, w: seq<bv8>, nsym: nat)
    requires |received| == |v| == |w| <= 255 && Codeword(v, nsym) && Codeword(w, nsym)
    requires 2 * Distance(received, v) <= nsym && 2 * Distance(received, w) <= nsym
    ensures v == w
  {
    DistanceTriangle(v, received, w);
    if v != w {
      CodewordsAreFarApart(v, w, nsym);
    }
  }
}
