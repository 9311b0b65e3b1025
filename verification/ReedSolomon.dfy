/**
  Reed-Solomon error correction as the QR code uses it: log and antilog tables for
  GF(256), the generator polynomial, and systematic encoding by division in place.
  Polynomials are byte sequences, highest coefficient first.
 */
module ReedSolomon {
  import opened GaloisField

  // ---------------------------------------------------------------------------
  // Polynomials and their values
  // ---------------------------------------------------------------------------

  /** The value of `p` at `x`, by Horner's rule. */
  function Eval(p: seq<bv8>, x: bv8): bv8 {
    if p == [] then 0 else Add(Mul(Eval(p[..|p| - 1], x), x), p[|p| - 1])
  }

  predicate IsSum(p: seq<bv8>, q: seq<bv8>, r: seq<bv8>) {
    |p| == |q| == |r| && forall i :: 0 <= i < |r| ==> r[i] == Add(p[i], q[i])
  }

  predicate IsScaled(c: bv8, p: seq<bv8>, r: seq<bv8>) {
    |p| == |r| && forall i :: 0 <= i < |r| ==> r[i] == Mul(p[i], c)
  }

  predicate IsZero(p: seq<bv8>) {
    forall i :: 0 <= i < |p| ==> p[i] == 0
  }

  function Zeros(n: nat): (z: seq<bv8>)
    ensures |z| == n && IsZero(z)
  {
    seq(n, _ => 0)
  }

  lemma EvalSnoc(p: seq<bv8>, c: bv8, x: bv8)
    ensures Eval(p + [c], x) == Add(Mul(Eval(p, x), x), c)
  {
    assert (p + [c])[..|p|] == p;
  }

  lemma {:induction false} EvalSum(p: seq<bv8>, q: seq<bv8>, r: seq<bv8>, x: bv8)
    requires IsSum(p, q, r)
    ensures Eval(r, x) == Add(Eval(p, x), Eval(q, x))
    decreases |p|
  {
    hide Add, Mul;
    if p == [] {
      AddSelf(0, 0);
    } else {
      var n := |p| - 1;
      EvalSum(p[..n], q[..n], r[..n], x);
      var ep, eq := Eval(p[..n], x), Eval(q[..n], x);
      MulAdd(x, ep, eq);
      AddLaws(Mul(ep, x), Mul(eq, x), p[n], q[n]);
    }
  }

  lemma {:induction false} EvalScaled(c: bv8, p: seq<bv8>, r: seq<bv8>, x: bv8)
    requires IsScaled(c, p, r)
    ensures Eval(r, x) == Mul(Eval(p, x), c)
    decreases |p|
  {
    hide Add, Mul;
    if p == [] {
      MulZero(c);
    } else {
      var n := |p| - 1;
      var e := Eval(p[..n], x);
      EvalScaled(c, p[..n], r[..n], x);
      MulAssociative(e, c, x);
      MulCommutative(c, x);
      MulAssociative(e, x, c);
      MulAdd(c, Mul(e, x), p[n]);
    }
  }

  lemma {:induction false} EvalZero(p: seq<bv8>, x: bv8)
    requires IsZero(p)
    ensures Eval(p, x) == 0
    decreases |p|
  {
    hide Add, Mul;
    if p != [] {
      EvalZero(p[..|p| - 1], x);
      MulZero(x);
      AddSelf(0, 0);
    }
  }

  lemma {:induction false} EvalLeadingZeros(z: seq<bv8>, p: seq<bv8>, x: bv8)
    requires IsZero(z)
    ensures Eval(z + p, x) == Eval(p, x)
    decreases |p|
  {
    if p == [] {
      assert z + p == z;
      EvalZero(z, x);
    } else {
      var front := p[..|p| - 1];
      EvalLeadingZeros(z, front, x);
      assert z + p == (z + front) + [p[|p| - 1]];
      EvalSnoc(z + front, p[|p| - 1], x);
    }
  }

  lemma {:induction false} EvalTrailingZeros(p: seq<bv8>, z: seq<bv8>, x: bv8)
    requires IsZero(z) && Eval(p, x) == 0
    ensures Eval(p + z, x) == 0
    decreases |z|
  {
    hide Add, Mul;
    if z == [] {
      assert p + z == p;
    } else {
      var front := z[..|z| - 1];
      EvalTrailingZeros(p, front, x);
      assert p + z == (p + front) + [0];
      EvalSnoc(p + front, 0, x);
      MulZero(x);
      AddSelf(0, 0);
    }
  }

  // ---------------------------------------------------------------------------
  // A polynomial has no more roots than coefficients
  // ---------------------------------------------------------------------------

  function PrefixValue(p: seq<bv8>, k: nat, r: bv8): bv8
    requires k <= |p|
  {
    Eval(p[..k], r)
  }

  /** Synthetic division by (x + r): the prefix values at `r` are the quotient's coefficients. */
  function Quotient(p: seq<bv8>, r: bv8): (q: seq<bv8>)
    requires p != []
    ensures |q| == |p| - 1
    ensures forall k :: 0 <= k < |q| ==> q[k] == PrefixValue(p, k + 1, r)
  {
    seq(|p| - 1, k requires 0 <= k < |p| - 1 => PrefixValue(p, k + 1, r))
  }

  lemma DivisionStep(e: bv8, v: bv8, x: bv8, r: bv8, c: bv8)
    ensures Add(Mul(Add(Mul(e, Add(x, r)), v), x), c)
            == Add(Mul(Add(Mul(e, x), v), Add(x, r)), Add(Mul(v, r), c))
  {
    hide Add, Mul;
    var s := Add(x, r);
    var f := Mul(Mul(e, x), s);
    MulAdd(x, Mul(e, s), v);
    MulAssociative(e, s, x);
    MulCommutative(s, x);
    MulAssociative(e, x, s);
    assert Mul(Add(Mul(e, s), v), x) == Add(f, Mul(v, x));
    MulAdd(s, Mul(e, x), v);
    MulAdd(v, x, r);
    assert Mul(Add(Mul(e, x), v), s) == Add(f, Add(Mul(v, x), Mul(v, r)));
    CancelTwice(f, Mul(v, x), Mul(v, r), c);
  }

  lemma CancelTwice(f: bv8, a: bv8, b: bv8, c: bv8)
    ensures Add(Add(f, a), c) == Add(Add(f, Add(a, b)), Add(b, c))
  {
  }

  lemma QuotientSnoc(p: seq<bv8>, r: bv8)
    requires |p| > 1
    ensures var front := p[..|p| - 1]; Quotient(p, r) == Quotient(front, r) + [Eval(front, r)]
  {
    hide Eval;
    var n := |p| - 1;
    forall k | 0 <= k < n - 1 ensures Quotient(p[..n], r)[k] == Quotient(p, r)[k] {
      assert p[..n][..k + 1] == p[..k + 1];
    }
  }

  lemma {:induction false} DivideByRoot(p: seq<bv8>, r: bv8, x: bv8)
    requires p != []
    ensures Eval(p, x) == Add(Mul(Eval(Quotient(p, r), x), Add(x, r)), Eval(p, r))
    decreases |p|
  {
    hide Add, Mul;
    var n := |p| - 1;
    if n == 0 {
      assert Quotient(p, r) == [];
      EvalSnoc([], p[0], x);
      EvalSnoc([], p[0], r);
      assert p == [] + [p[0]];
      MulZero(x);
      MulZero(r);
      MulZero(Add(x, r));
      AddSelf(p[0], 0);
    } else {
      var front, c := p[..n], p[n];
      DivideByRoot(front, r, x);
      QuotientSnoc(p, r);
      EvalSnoc(Quotient(front, r), Eval(front, r), x);
      DivisionStep(Eval(Quotient(front, r), x), Eval(front, r), x, r, c);
    }
  }

  ghost predicate Distinct(roots: seq<bv8>) {
    forall i, j :: 0 <= i < j < |roots| ==> roots[i] != roots[j]
  }

  ghost predicate VanishesAt(p: seq<bv8>, roots: seq<bv8>) {
    forall i :: 0 <= i < |roots| ==> Eval(p, roots[i]) == 0
  }

  lemma QuotientVanishes(p: seq<bv8>, r: bv8, x: bv8)
    requires p != [] && Eval(p, r) == 0 && Eval(p, x) == 0 && x != r
    ensures Eval(Quotient(p, r), x) == 0
  {
    hide Add, Mul, Eval, Quotient;
    DivideByRoot(p, r, x);
    AddSelf(Mul(Eval(Quotient(p, r), x), Add(x, r)), 0);
    NoZeroDivisors(Eval(Quotient(p, r), x), Add(x, r));
    AddSelf(x, r);
  }

  /** If all prefixes of `p` vanish at `r`, so do all its coefficients. */
  lemma {:induction false} ZeroPrefixes(p: seq<bv8>, r: bv8)
    requires forall k :: 0 < k <= |p| ==> PrefixValue(p, k, r) == 0
    ensures IsZero(p)
    decreases |p|
  {
    hide Add, Mul;
    if p != [] {
      var n := |p| - 1;
      forall k | 0 < k <= n ensures PrefixValue(p[..n], k, r) == 0 {
        assert p[..n][..k] == p[..k];
        assert PrefixValue(p, k, r) == 0;
      }
      ZeroPrefixes(p[..n], r);
      assert p[..n + 1] == p && PrefixValue(p, n + 1, r) == 0;
      EvalZero(p[..n], r);
      MulZero(r);
      AddSelf(p[n], 0);
    }
  }

  /** A polynomial with as many distinct roots as coefficients is zero. */
  lemma {:induction false} AsManyRootsAsCoefficients(p: seq<bv8>, roots: seq<bv8>)
    requires |p| == |roots| && Distinct(roots) && VanishesAt(p, roots)
    ensures IsZero(p)
    decreases |p|
  {
    if p != [] {
      hide Eval;
      var n := |p| - 1;
      var r := roots[n];
      var q := Quotient(p, r);
      forall i | 0 <= i < n ensures Eval(q, roots[..n][i]) == 0 {
        QuotientVanishes(p, r, roots[i]);
      }
      AsManyRootsAsCoefficients(q, roots[..n]);
      forall k | 0 < k <= |p| ensures PrefixValue(p, k, r) == 0 {
        if k == |p| {
          assert p[..k] == p;
        } else {
          assert q[k - 1] == 0;
        }
      }
      ZeroPrefixes(p, r);
    }
  }

  // ---------------------------------------------------------------------------
  // Codewords
  // ---------------------------------------------------------------------------

  /** A codeword with `nsym` check symbols vanishes at the first `nsym` powers of the generator. */
  ghost predicate Codeword(word: seq<bv8>, nsym: nat) {
    forall i :: 0 <= i < nsym ==> Eval(word, Pow(i)) == 0
  }

  /** Codewords are closed under addition: encoding is linear. */
  lemma CodewordsAdd(v: seq<bv8>, w: seq<bv8>, sum: seq<bv8>, nsym: nat)
    requires Codeword(v, nsym) && Codeword(w, nsym) && IsSum(v, w, sum)
    ensures Codeword(sum, nsym)
  {
    hide Add, Eval;
    forall i | 0 <= i < nsym ensures Eval(sum, Pow(i)) == 0 {
      EvalSum(v, w, sum, Pow(i));
      AddSelf(0, 0);
    }
  }

  function Powers(n: nat): (s: seq<bv8>)
    ensures |s| == n && forall i :: 0 <= i < n ==> s[i] == Pow(i)
  {
    seq(n, i requires 0 <= i < n => Pow(i))
  }

  function Difference(p: seq<bv8>, q: seq<bv8>): (r: seq<bv8>)
    requires |p| == |q|
    ensures IsSum(p, q, r)
  {
    seq(|p|, i requires 0 <= i < |p| => Add(p[i], q[i]))
  }

  /** For up to 255 check symbols, at most one tail completes the data to a codeword. */
  lemma TailIsUnique(data: seq<bv8>, tail: seq<bv8>, tail': seq<bv8>)
    requires |tail| == |tail'| <= 255
    requires Codeword(data + tail, |tail|) && Codeword(data + tail', |tail|)
    ensures tail == tail'
  {
    hide Add, Eval, Pow;
    var nsym := |tail|;
    var d, z := Difference(tail, tail'), Zeros(|data|);
    forall i | 0 <= i < |z + d| ensures (z + d)[i] == Add((data + tail)[i], (data + tail')[i]) {
      if i < |data| {
        AddSelf(data[i], data[i]);
      }
    }
    CodewordsAdd(data + tail, data + tail', z + d, nsym);
    forall i | 0 <= i < nsym ensures Eval(d, Powers(nsym)[i]) == 0 {
      EvalLeadingZeros(z, d, Pow(i));
    }
    forall i, j | 0 <= i < j < nsym ensures Powers(nsym)[i] != Powers(nsym)[j] {
      PowInjective(i, j);
    }
    AsManyRootsAsCoefficients(d, Powers(nsym));
    forall i | 0 <= i < nsym ensures tail[i] == tail'[i] {
      AddSelf(tail[i], tail'[i]);
    }
  }

  /** Encoding is linear: the check symbols of a sum are the sum of the check symbols. */
  lemma EncodingIsLinear(data: seq<bv8>, tail: seq<bv8>, data': seq<bv8>, tail': seq<bv8>,
                         sum: seq<bv8>, sumTail: seq<bv8>)
    requires |tail| == |tail'| == |sumTail| <= 255
    requires Codeword(data + tail, |tail|) && Codeword(data' + tail', |tail|) && Codeword(sum + sumTail, |tail|)
    requires IsSum(data, data', sum)
    ensures IsSum(tail, tail', sumTail)
  {
    hide Add, Eval, Pow;
    var d := Difference(tail, tail');
    CodewordsAdd(data + tail, data' + tail', sum + d, |tail|);
    TailIsUnique(sum, sumTail, d);
  }

  // ---------------------------------------------------------------------------
  // The generator polynomial
  // ---------------------------------------------------------------------------

  const TABLE_SIZE := 512

  /** The root of factor number `i`: a power of alpha, or nothing at all past the end of the table. */
  function RootAt(i: nat): bv8 {
    if i < TABLE_SIZE then Pow(i) else 0
  }

  /** The value at `x` of the product of the first `n` factors. */
  function RootProduct(n: nat, x: bv8): bv8 {
    if n == 0 then 1 else Mul(RootProduct(n - 1, x), Add(x, RootAt(n - 1)))
  }

  /** The product vanishes exactly at the roots of its factors. */
  lemma {:induction false} RootsOfProduct(n: nat, x: bv8)
    ensures RootProduct(n, x) == 0 <==> exists i :: 0 <= i < n && x == RootAt(i)
    decreases n
  {
    hide Add, Mul, RootAt;
    if n > 0 {
      RootsOfProduct(n - 1, x);
      NoZeroDivisors(RootProduct(n - 1, x), Add(x, RootAt(n - 1)));
      AddSelf(x, RootAt(n - 1));
    }
  }

  /** `g` multiplied by (x + alpha), coefficient by coefficient. */
  ghost predicate IsTimesFactor(g: seq<bv8>, alpha: bv8, r: seq<bv8>) {
    && g != [] && |r| == |g| + 1
    && r[0] == g[0]
    && (forall m :: 1 <= m < |g| ==> r[m] == Add(g[m], Mul(g[m - 1], alpha)))
    && r[|g|] == Mul(g[|g| - 1], alpha)
  }

  lemma EvalTimesFactor(g: seq<bv8>, alpha: bv8, r: seq<bv8>, x: bv8)
    requires IsTimesFactor(g, alpha, r)
    ensures Eval(r, x) == Mul(Eval(g, x), Add(x, alpha))
  {
    hide Add, Mul, Eval;
    var scaled := seq(|g|, i requires 0 <= i < |g| => Mul(g[i], alpha));
    forall m | 0 <= m < |r| ensures r[m] == Add((g + [0])[m], ([0] + scaled)[m]) {
      if m < |g| {
        AddSelf(g[m], 0);
      } else {
        AddSelf(scaled[m - 1], 0);
      }
    }
    EvalSum(g + [0], [0] + scaled, r, x);
    EvalSnoc(g, 0, x);
    AddSelf(Mul(Eval(g, x), x), 0);
    EvalLeadingZeros([0], scaled, x);
    EvalScaled(alpha, g, scaled, x);
    MulAdd(Eval(g, x), x, alpha);
  }

  // ---------------------------------------------------------------------------
  // Tables and encoder
  // ---------------------------------------------------------------------------

  ghost predicate Antilogs(exp: seq<bv8>, n: nat) {
    n <= |exp| && forall i :: 0 <= i < n ==> exp[i] == Pow(i)
  }

  function Index(a: bv8): (i: nat)
    ensures i < 256
  {
    a as nat
  }

  lemma IndexInjective(a: bv8, b: bv8)
    requires Index(a) == Index(b)
    ensures a == b
  {
  }

  ghost predicate Logs(log: seq<nat>, n: nat) {
    |log| == 256 && forall i :: 0 <= i < n ==> log[Index(Pow(i))] == i
  }

  /** Entering one more logarithm disturbs none of the others, as the powers differ. */
  lemma LogsGrow(log: seq<nat>, n: nat)
    requires Logs(log, n) && n < 255
    ensures Logs(log[Index(Pow(n)) := n], n + 1)
  {
    hide Pow, Index;
    forall i | 0 <= i < n ensures Index(Pow(i)) != Index(Pow(n)) {
      PowInjective(i, n);
      if Index(Pow(i)) == Index(Pow(n)) {
        IndexInjective(Pow(i), Pow(n));
      }
    }
  }

  /** One step of the table loop, on numbers wider than a byte as the source computes it. */
  lemma LoopDoubles(x: bv16, a: bv8)
    requires x == Wide(a)
    ensures (x << 1) ^ (if x & 0x80 != 0 then 0x11D else 0) == Wide(Double(a))
    ensures x < 256 && x as bv8 == a && x as nat == Index(a)
  {
  }

  /** The two tables that the source fills when it is loaded. */
  class GaloisTables {
    const exp: array<bv8>
    const log: array<nat>

    ghost predicate Valid()
      reads exp, log
    {
      exp.Length == TABLE_SIZE && Antilogs(exp[..], TABLE_SIZE) && Logs(log[..], 255)
    }

    constructor ()
      ensures Valid() && fresh(exp) && fresh(log)
    {
      exp := new bv8[512];
      log := new nat[256];
      new;
      hide Pow, Index, Double, Wide;
      var x: bv16 := 1;
      PowersStart();
      for i := 0 to 255
        invariant x == Wide(Pow(i))
        invariant Antilogs(exp[..], i)
        invariant Logs(log[..], i)
      {
        LoopDoubles(x, Pow(i));
        LogsGrow(log[..], i);
        exp[i] := x as bv8;
        log[x as nat] := i;
        x := (x << 1) ^ (if x & 0x80 != 0 then 0x11D else 0);
        PowStep(i);
      }
      for i := 255 to 512
        invariant Antilogs(exp[..], i)
        invariant Logs(log[..], 255)
      {
        exp[i] := exp[i - 255];
        PowPeriodic(i - 255);
      }
    }

    /** The product read off the tables is the product of the polynomials. */
    method GfMul(a: bv8, b: bv8) returns (product: bv8)
      requires Valid()
      ensures product == Mul(a, b)
    {
      if a == 0 || b == 0 {
        MulZero(a);
        MulZero(b);
        return 0;
      }
      ghost var i := LogExists(a);
      ghost var j := LogExists(b);
      PowAdd(i, j);
      return exp[log[Index(a)] + log[Index(b)]];
    }

    /** Multiply `g` by (x + factor[1]), accumulating into a zeroed result as the source does. */
    method TimesFactor(g: seq<bv8>, factor: seq<bv8>) returns (res: array<bv8>)
      requires Valid() && g != [] && |factor| == 2 && factor[0] == 1
      ensures fresh(res) && IsTimesFactor(g, factor[1], res[..])
    {
      hide Add, Mul, Pow, Index;
      var alpha := factor[1];
      res := new bv8[|g| + 1](_ => 0);
      for j := 0 to |g|
        invariant fresh(res) && res.Length == |g| + 1
        invariant forall m :: 0 <= m <= |g| ==> res[m] == Accumulated(g, alpha, j, m)
      {
        for k := 0 to 2
          invariant fresh(res) && res.Length == |g| + 1
          invariant forall m :: 0 <= m <= |g| && m != j && m != j + 1 ==> res[m] == Accumulated(g, alpha, j, m)
          invariant res[j] == if k == 0 then Accumulated(g, alpha, j, j) else Accumulated(g, alpha, j + 1, j)
          invariant res[j + 1] == if k < 2 then 0 else Mul(g[j], alpha)
        {
          var product := GfMul(g[j], factor[k]);
          Accumulates(g, alpha, j, res[j + k], product);
          res[j + k] := res[j + k] ^ product;
        }
      }
    }

    /** Past the end of the table an entry is undefined, which acts as zero in a product. */
    method GeneratorPoly(degree: nat) returns (g: seq<bv8>)
      requires Valid()
      ensures |g| == degree + 1 && g[0] == 1
      ensures forall x :: Eval(g, x) == RootProduct(degree, x)
    {
      hide Add, Mul, Pow, Index;
      g := [1];
      forall x ensures Eval(g, x) == RootProduct(0, x) {
        EvalOne(x);
      }
      for i := 0 to degree
        invariant |g| == i + 1 && g[0] == 1
        invariant forall x :: Eval(g, x) == RootProduct(i, x)
      {
        var factor := [1, if i < exp.Length then exp[i] else 0];
        var res := TimesFactor(g, factor);
        forall x ensures Eval(res[..], x) == RootProduct(i + 1, x) {
          EvalTimesFactor(g, factor[1], res[..], x);
        }
        g := res[..];
      }
    }

    /**
      Systematic encoding: the returned check symbols complete the data to a codeword. By
      `TailIsUnique` nothing else does, for up to 255 check symbols.
     */
    method RsEncode(data: seq<bv8>, nsym: nat) returns (tail: seq<bv8>)
      requires Valid()
      ensures |tail| == nsym && Codeword(data + tail, nsym)
    {
      hide Add, Mul, Pow, Index, Eval;
      var gen := GeneratorPoly(nsym);
      GeneratorRoots(gen, nsym);
      var start := data + Zeros(nsym);
      var msg := new bv8[|start|](i requires 0 <= i < |start| => start[i]);
      assert msg[..] == start;
      for i := 0 to |data|
        invariant fresh(msg) && msg.Length == |start|
        invariant IsZero(msg[..i])
        invariant SameValues(start, msg[..], nsym)
      {
        var c := msg[i];
        if c != 0 {
          DivideOut(msg, i, gen, c, nsym);
        }
        assert msg[..i + 1] == msg[..i] + [msg[i]];
        if c == 0 {
          assert IsZero(msg[..i + 1]);
        }
      }
      tail := msg[|data|..];
      assert msg[..] == msg[..|data|] + tail;
      RemainderCompletes(data, msg[..|data|], tail, nsym);
    }

    /** The inner loop: subtract the generator, scaled so that the leading coefficient cancels. */
    method DivideOut(msg: array<bv8>, i: nat, gen: seq<bv8>, c: bv8, nsym: nat)
      requires Valid() && msg != exp && msg as object != log && i + |gen| <= msg.Length
      requires gen != [] && gen[0] == 1 && msg[i] == c
      requires Codeword(gen, nsym)
      modifies msg
      ensures msg[..i] == old(msg[..i]) && msg[i] == 0
      ensures SameValues(old(msg[..]), msg[..], nsym)
    {
      hide Add, Mul, Pow, Index, Eval;
      for j := 0 to |gen|
        invariant forall m :: 0 <= m < msg.Length && !(i <= m < i + j) ==> msg[m] == old(msg[m])
        invariant forall m :: 0 <= m < j ==> msg[i + m] == Add(old(msg[i + m]), Mul(gen[m], c))
      {
        var product := GfMul(gen[j], c);
        AddIsXor(msg[i + j], product);
        msg[i + j] := msg[i + j] ^ product;
      }
      Cancels(gen, c);
      SubtractingKeepsValues(old(msg[..]), msg[..], i, gen, c, nsym);
    }
  }

  lemma AddIsXor(a: bv8, b: bv8)
    ensures a ^ b == Add(a, b)
  {
  }

  lemma Cancels(gen: seq<bv8>, c: bv8)
    requires gen != [] && gen[0] == 1
    ensures Add(c, Mul(gen[0], c)) == 0
  {
    hide Add, Mul;
    MulOneLeft(c);
    AddSelf(c, c);
  }

  lemma EvalOne(x: bv8)
    ensures Eval([1], x) == 1
  {
    hide Mul, Add;
    EvalSnoc([], 1, x);
    assert [] + [1 as bv8] == [1];
    MulZero(x);
    AddSelf(1, 0);
  }

  /** Entry `m` of the partial product after the first `j` coefficients of `g`. */
  function Accumulated(g: seq<bv8>, alpha: bv8, j: nat, m: nat): bv8
    requires j <= |g| && m <= |g|
  {
    if m > j then 0
    else if m == j then (if j == 0 then 0 else Mul(g[j - 1], alpha))
    else if m == 0 then g[0]
    else Add(g[m], Mul(g[m - 1], alpha))
  }

  lemma Accumulates(g: seq<bv8>, alpha: bv8, j: nat, entry: bv8, product: bv8)
    requires j < |g|
    ensures entry ^ product == Add(entry, product) && 0 ^ product == product
    ensures entry == Accumulated(g, alpha, j, j) && product == g[j] ==>
            Add(entry, product) == Accumulated(g, alpha, j + 1, j)
    ensures Mul(g[j], 1) == g[j]
  {
    hide Mul;
    MulOneRight(g[j]);
  }

  /** The first 255 powers are all there are. */
  lemma {:induction false} PowReduces(n: nat) returns (m: nat)
    ensures m <= n && m < 255 && Pow(m) == Pow(n)
    decreases n
  {
    hide Pow;
    if n < 255 {
      m := n;
    } else {
      m := PowReduces(n - 255);
      PowPeriodic(n - 255);
    }
  }

  /** The generator vanishes at the powers it was built from, and so at all `n` powers if there are more. */
  lemma GeneratorRoots(gen: seq<bv8>, n: nat)
    requires forall x :: Eval(gen, x) == RootProduct(n, x)
    ensures Codeword(gen, n)
  {
    hide Eval, Pow;
    forall i | 0 <= i < n ensures Eval(gen, Pow(i)) == 0 {
      var m := PowReduces(i);
      assert RootAt(m) == Pow(m);
      RootsOfProduct(n, Pow(i));
    }
  }

  /** Two words with the same value at each root of the generator. */
  ghost predicate SameValues(p: seq<bv8>, q: seq<bv8>, nsym: nat) {
    |p| == |q| && forall i :: 0 <= i < nsym ==> Eval(p, Pow(i)) == Eval(q, Pow(i))
  }

  /** Subtracting a shifted multiple of the generator changes no value at its roots. */
  lemma SubtractingKeepsValues(p: seq<bv8>, q: seq<bv8>, i: nat, gen: seq<bv8>, c: bv8, nsym: nat)
    requires |p| == |q| && i + |gen| <= |p| && Codeword(gen, nsym)
    requires forall m :: 0 <= m < |p| && !(i <= m < i + |gen|) ==> q[m] == p[m]
    requires forall m :: 0 <= m < |gen| ==> q[i + m] == Add(p[i + m], Mul(gen[m], c))
    ensures SameValues(p, q, nsym)
  {
    hide Add, Mul, Pow, Eval;
    var scaled := seq(|gen|, m requires 0 <= m < |gen| => Mul(gen[m], c));
    var shifted := Zeros(i) + (scaled + Zeros(|p| - i - |gen|));
    forall m | 0 <= m < |p| ensures q[m] == Add(p[m], shifted[m]) {
      if i <= m < i + |gen| {
        assert q[i + (m - i)] == Add(p[i + (m - i)], Mul(gen[m - i], c));
      } else {
        AddSelf(p[m], 0);
      }
    }
    forall k | 0 <= k < nsym ensures Eval(p, Pow(k)) == Eval(q, Pow(k)) {
      var x := Pow(k);
      EvalScaled(c, gen, scaled, x);
      MulZero(c);
      EvalTrailingZeros(scaled, Zeros(|p| - i - |gen|), x);
      EvalLeadingZeros(Zeros(i), scaled + Zeros(|p| - i - |gen|), x);
      EvalSum(p, shifted, q, x);
      AddSelf(Eval(p, x), 0);
    }
  }

  /** What is left after the division has the value of the data, so it completes the data to zero. */
  lemma RemainderCompletes(data: seq<bv8>, z: seq<bv8>, tail: seq<bv8>, nsym: nat)
    requires |z| == |data| && |tail| == nsym && IsZero(z)
    requires SameValues(data + Zeros(nsym), z + tail, nsym)
    ensures Codeword(data + tail, nsym)
  {
    hide Add, Mul, Pow, Eval;
    var shifted := data + Zeros(nsym);
    forall m | 0 <= m < |data| + nsym ensures (data + tail)[m] == Add(shifted[m], (z + tail)[m]) {
      if m < |data| {
        AddSelf(data[m], 0);
      } else {
        AddSelf(tail[m - |data|], 0);
      }
    }
    forall k | 0 <= k < nsym ensures Eval(data + tail, Pow(k)) == 0 {
      EvalSum(shifted, z + tail, data + tail, Pow(k));
      AddSelf(Eval(shifted, Pow(k)), 0);
    }
  }

  lemma PowersStart()
    ensures Wide(Pow(0)) == 1
  {
  }

  lemma PowStep(i: nat)
    ensures Pow(i + 1) == Double(Pow(i))
  {
  }
}
