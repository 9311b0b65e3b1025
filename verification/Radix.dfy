/** Positional notation in any base, most significant digit first, and its rendering in an alphabet. */
module Radix {
  import opened Text

  predicate AreDigits(d: seq<nat>, base: nat) {
    forall i :: 0 <= i < |d| ==> d[i] < base
  }

  /** Digits below the base, without a leading zero. */
  predicate Minimal(d: seq<nat>, base: nat) {
    AreDigits(d, base) && (d != [] ==> d[0] != 0)
  }

  function Value(d: seq<nat>, base: nat): nat {
    if d == [] then 0 else Value(d[..|d| - 1], base) * base + d[|d| - 1]
  }

  function Digits(n: nat, base: nat): seq<nat>
    requires base >= 2
  {
    if n == 0 then [] else Digits(Quotient(n, base), base) + [Remainder(n, base)]
  }

  function Quotient(n: nat, base: nat): (q: nat)
    requires n > 0 && base >= 2
    ensures q < n
  {
    QuotientShrinks(n, base);
    n / base
  }

  function Remainder(n: nat, base: nat): (r: nat)
    requires base >= 2
    ensures r < base
  {
    n % base
  }

  lemma QuotientTimesBase(n: nat, base: nat)
    requires n > 0 && base >= 2
    ensures Quotient(n, base) * base + Remainder(n, base) == n
  {
  }

  lemma MultiplesGrow(q: nat, a: int, b: int)
    requires a <= b
    ensures q * a <= q * b
  {
  }

  lemma QuotientShrinks(n: nat, base: nat)
    requires n > 0 && base >= 2
    ensures 0 <= n / base < n
  {
    MultiplesGrow(n / base, 2, base);
    assert n == n / base * base + n % base;
  }

  lemma SmallMultipleIsZero(k: int, base: nat)
    requires k * base < base && -k * base < base
    ensures k == 0
  {
    if k > 0 {
      MultiplesGrow(base, 1, k);
    } else if k < 0 {
      MultiplesGrow(base, 1, -k);
    }
  }

  lemma QuotientAndRemainder(q: nat, r: nat, base: nat)
    requires r < base
    ensures (q * base + r) / base == q && (q * base + r) % base == r
  {
    var n := q * base + r;
    assert n == n / base * base + n % base;
    assert (n / base - q) * base == n / base * base - q * base;
    SmallMultipleIsZero(n / base - q, base);
  }

  lemma ValueSnoc(d: seq<nat>, r: nat, base: nat)
    ensures Value(d + [r], base) == Value(d, base) * base + r
  {
    assert (d + [r])[..|d|] == d;
  }

  lemma {:induction false} ValueOfDigits(n: nat, base: nat)
    requires base >= 2
    ensures Value(Digits(n, base), base) == n
    ensures Minimal(Digits(n, base), base)
    decreases n
  {
    hide Quotient, Remainder;
    if n > 0 {
      var q, r := Quotient(n, base), Remainder(n, base);
      ValueOfDigits(q, base);
      ValueSnoc(Digits(q, base), r, base);
      QuotientTimesBase(n, base);
    }
  }

  lemma {:induction false} ValueIsPositive(d: seq<nat>, base: nat)
    requires base >= 1 && d != [] && d[0] != 0
    ensures Value(d, base) > 0
    decreases |d|
  {
    if |d| > 1 {
      ValueIsPositive(d[..|d| - 1], base);
      assert Value(d[..|d| - 1], base) * base >= 1;
    }
  }

  lemma {:induction false} DigitsOfValue(d: seq<nat>, base: nat)
    requires base >= 2 && Minimal(d, base)
    ensures Digits(Value(d, base), base) == d
    decreases |d|
  {
    if d != [] {
      var init, last := d[..|d| - 1], d[|d| - 1];
      ValueIsPositive(d, base);
      QuotientAndRemainder(Value(init, base), last, base);
      DigitsOfValue(init, base);
    }
  }

  function Zeros(k: nat): seq<nat> {
    seq(k, _ => 0)
  }

  lemma {:induction false} LeadingZerosAreWorthless(k: nat, d: seq<nat>, base: nat)
    ensures Value(Zeros(k) + d, base) == Value(d, base)
    decreases k + |d|
  {
    var z := Zeros(k) + d;
    if d != [] {
      assert z[..|z| - 1] == Zeros(k) + d[..|d| - 1];
      LeadingZerosAreWorthless(k, d[..|d| - 1], base);
    } else if k > 0 {
      assert z[..|z| - 1] == Zeros(k - 1) + d;
      LeadingZerosAreWorthless(k - 1, d, base);
    }
  }

  // ---------------------------------------------------------------------------
  // Alphabets
  // ---------------------------------------------------------------------------

  predicate Distinct(alphabet: string) {
    forall i, j :: 0 <= i < j < |alphabet| ==> alphabet[i] != alphabet[j]
  }

  predicate Ascending(alphabet: string) {
    forall i :: 0 <= i < |alphabet| - 1 ==> alphabet[i] < alphabet[i + 1]
  }

  lemma {:induction false} AscendingFrom(alphabet: string, i: nat, j: nat)
    requires Ascending(alphabet) && i < j < |alphabet|
    ensures alphabet[i] < alphabet[j]
    decreases j
  {
    assert alphabet[j - 1] < alphabet[j - 1 + 1];
    if i < j - 1 {
      AscendingFrom(alphabet, i, j - 1);
    }
  }

  lemma AscendingIsDistinct(alphabet: string)
    requires Ascending(alphabet)
    ensures Distinct(alphabet)
  {
    forall i, j | 0 <= i < j < |alphabet| ensures alphabet[i] != alphabet[j] {
      AscendingFrom(alphabet, i, j);
    }
  }

  lemma AscendingJoin(left: string, right: string)
    requires Ascending(left) && Ascending(right) && left != [] && right != []
    requires left[|left| - 1] < right[0]
    ensures Ascending(left + right)
  {
    var all := left + right;
    forall i | 0 <= i < |all| - 1 ensures all[i] < all[i + 1] {
      if i >= |left| {
        assert right[i - |left|] < right[i - |left| + 1];
      }
    }
  }

  function Render(d: seq<nat>, alphabet: string): string
    requires AreDigits(d, |alphabet|)
  {
    seq(|d|, i requires 0 <= i < |d| => alphabet[d[i]])
  }

  lemma RenderConcat(a: seq<nat>, b: seq<nat>, alphabet: string)
    requires AreDigits(a, |alphabet|) && AreDigits(b, |alphabet|)
    ensures AreDigits(a + b, |alphabet|)
    ensures Render(a + b, alphabet) == Render(a, alphabet) + Render(b, alphabet)
  {
  }

  predicate Over(s: string, alphabet: string) {
    forall i :: 0 <= i < |s| ==> s[i] in alphabet
  }

  function Unrender(s: string, alphabet: string): (d: seq<nat>)
    requires Over(s, alphabet)
    ensures |d| == |s| && AreDigits(d, |alphabet|)
    ensures Render(d, alphabet) == s
  {
    seq(|s|, i requires 0 <= i < |s| => IndexOf(alphabet, s[i]) as nat)
  }

  lemma UnrenderOfRender(d: seq<nat>, alphabet: string)
    requires AreDigits(d, |alphabet|) && Distinct(alphabet)
    ensures Over(Render(d, alphabet), alphabet)
    ensures Unrender(Render(d, alphabet), alphabet) == d
  {
    forall i | 0 <= i < |d| ensures IndexOf(alphabet, alphabet[d[i]]) == d[i] {
      IndexOfFirst(alphabet, alphabet[d[i]], d[i]);
    }
  }

  /** Rendering from the last digit on: one more digit moves to the front of the text. */
  lemma LastDigitMoves(n: nat, base: nat, done: seq<nat>, alphabet: string)
    requires n > 0 && |alphabet| == base >= 2 && AreDigits(done, base)
    ensures 0 <= n / base < n && 0 <= n % base < base && AreDigits([n % base] + done, base)
    ensures Digits(n, base) + done == Digits(n / base, base) + ([n % base] + done)
    ensures Render([n % base] + done, alphabet) == [alphabet[n % base]] + Render(done, alphabet)
  {
    QuotientShrinks(n, base);
    var r := Remainder(n, base);
    assert r == n % base && Quotient(n, base) == n / base;
    hide Quotient, Remainder;
    RenderConcat([r], done, alphabet);
  }

  lemma NoDigits(base: nat, done: seq<nat>, alphabet: string)
    requires base >= 2
    ensures Digits(0, base) + done == done == done + [] && Render([], alphabet) == ""
  {
  }
}
