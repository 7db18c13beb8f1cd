/** The word hash in 64-bit arithmetic, and the bucket it selects. */
module WordHash {
  import opened Basics

  const TWO63: int := 0x8000_0000_0000_0000
  const TWO64: int := 0x1_0000_0000_0000_0000

  /** The 64-bit two's complement value congruent to `x`. */
  function Wrap64(x: int): (r: int)
    ensures -TWO63 <= r < TWO63 && (r - x) % TWO64 == 0
  {
    (x + TWO63) % TWO64 - TWO63
  }

  /** The remainder of truncated division, which takes the sign of `a`. */
  function TruncRem(a: int, n: int): int
    requires n > 0
  {
    if a >= 0 then a % n else -((-a) % n)
  }

  predicate LeavesOver(a: int, n: int, q: int, r: int) {
    a == q * n + r
  }

  /** It is what some multiple of `n` leaves over of `a`, smaller than `n`, and with the sign of `a`. */
  lemma TruncRemIsRemainder(a: int, n: int, r: int)
    requires n > 0
    ensures r == TruncRem(a, n) <==>
      -n < r < n && (a >= 0 ==> r >= 0) && (a <= 0 ==> r <= 0) && exists q :: LeavesOver(a, n, q, r)
  {
    if r == TruncRem(a, n) {
      var q := if a >= 0 then a / n else -((-a) / n);
      QuotientLeavesOver(a, n, q);
    }
    if -n < r < n && (a >= 0 ==> r >= 0) && (a <= 0 ==> r <= 0) && exists q :: LeavesOver(a, n, q, r) {
      var q :| LeavesOver(a, n, q, r);
      if a >= 0 { OneRemainder(a, n, q, r); } else { OneRemainder(-a, n, -q, -r); }
    }
  }

  lemma QuotientLeavesOver(a: int, n: int, q: int)
    requires n > 0 && q == if a >= 0 then a / n else -((-a) / n)
    ensures LeavesOver(a, n, q, TruncRem(a, n))
  {
    var b := if a >= 0 then a else -a;
    assert b == (b / n) * n + b % n;
  }

  lemma OneRemainder(a: nat, n: int, q: int, r: int)
    requires 0 <= r < n && a == q * n + r
    ensures r == a % n
  {
    var p := a / n;
    assert a == p * n + a % n;
    assert (p - q) * n == r - a % n;
    if p - q >= 1 { MulGrows(1, p - q, n); }
    if p - q <= -1 { MulGrows(p - q, -1, n); }
  }

  /** The hash without overflow: the letters as digits to base 31. */
  function Polynomial(s: string): nat {
    if |s| == 0 then 0 else 31 * Polynomial(s[..|s|-1]) + s[|s|-1] as int
  }

  /** The sum of the letters, each times the power of 31 that its place from the right gives it. */
  function WeightedSum(s: string): nat {
    if |s| == 0 then 0 else s[0] as int * Pow31(|s| - 1) + WeightedSum(s[1..])
  }

  lemma {:induction false} AppendToSum(s: string, c: char)
    ensures WeightedSum(s + [c]) == 31 * WeightedSum(s) + c as int
  {
    if |s| == 0 {
      assert (s + [c])[1..] == "";
    } else {
      assert (s + [c])[1..] == s[1..] + [c];
      AppendToSum(s[1..], c);
      ScaledLetter(s[0] as int, |s|);
    }
  }

  lemma ScaledLetter(c: int, n: nat)
    requires n > 0
    ensures c * Pow31(n) == 31 * (c * Pow31(n - 1))
  {
  }

  lemma {:induction false} PolynomialIsWeightedSum(s: string)
    ensures Polynomial(s) == WeightedSum(s)
  {
    if |s| > 0 {
      PolynomialIsWeightedSum(s[..|s|-1]);
      AppendToSum(s[..|s|-1], s[|s|-1]);
      assert s[..|s|-1] + [s[|s|-1]] == s;
    }
  }

  /** Two numbers that agree modulo 2^64 wrap to the same value. */
  lemma WrapCongruent(x: int, y: int, k: int)
    requires x == y + k * TWO64
    ensures Wrap64(x) == Wrap64(y)
  {
    assert x + TWO63 == (y + TWO63) + k * TWO64;
    ModAdd(y + TWO63, k);
  }

  lemma ModAdd(x: int, k: int)
    ensures (x + k * TWO64) % TWO64 == x % TWO64
  {
  }

  lemma WrapOffset(x: int) returns (k: int)
    ensures Wrap64(x) == x + k * TWO64
  {
    k := -((x + TWO63) / TWO64);
  }

  /** The hash loop: each step wraps, and the result is the wrapped polynomial. */
  method Hash(s: string) returns (h: int)
    ensures h == Wrap64(Polynomial(s))
  {
    h := 0;
    for i := 0 to |s|
      invariant h == Wrap64(Polynomial(s[..i]))
    {
      var c := s[i] as int;
      var k := WrapOffset(Polynomial(s[..i]));
      assert s[..i+1][..i] == s[..i];
      WrapCongruent(31 * h + c, 31 * Polynomial(s[..i]) + c, 31 * k);
      h := Wrap64(31 * h + c);
    }
    assert s[..|s|] == s;
  }

  function Bucket(word: string, R: nat): int
    requires R > 0
  {
    TruncRem(Wrap64(Polynomial(word)), R)
  }

  predicate Ascii(s: string) {
    forall i :: 0 <= i < |s| ==> s[i] as int < 128
  }

  function Pow31(n: nat): nat {
    if n == 0 then 1 else 31 * Pow31(n - 1)
  }

  lemma {:induction false} PolynomialBound(s: string)
    requires Ascii(s)
    ensures 30 * Polynomial(s) <= 127 * (Pow31(|s|) - 1)
  {
    if |s| > 0 { PolynomialBound(s[..|s|-1]); }
  }

  lemma {:induction false} Pow31Grows(m: nat, n: nat)
    requires m <= n
    ensures 1 <= Pow31(m) <= Pow31(n)
  {
    if n > 0 { Pow31Grows(if m < n then m else n - 1, n - 1); }
  }

  /** A word of at most 12 ASCII characters never wraps, so its bucket is one of the reducers. */
  lemma ShortWordsHaveBuckets(word: string, R: nat)
    requires R > 0 && |word| <= 12 && Ascii(word)
    ensures Wrap64(Polynomial(word)) == Polynomial(word)
    ensures 0 <= Bucket(word, R) < R
  {
    PolynomialBound(word);
    Pow31Grows(|word|, 12);
    PowersOf31();
  }

  /** The reducer a word belongs to: its hash modulo the number of reducers; a word with a negative hash belongs to
      reducer 0 if that number divides the hash and to none otherwise. */
  predicate BelongsTo(word: string, R: nat, r: int)
    requires R > 0
  {
    var h := Wrap64(WeightedSum(word));
    if h >= 0 then r == h % R else r == 0 && h % R == 0
  }

  lemma BucketIsOwner(word: string, R: nat, r: int)
    requires R > 0 && 0 <= r < R
    ensures Bucket(word, R) == r <==> BelongsTo(word, R, r)
  {
    PolynomialIsWeightedSum(word);
    var h := Wrap64(WeightedSum(word));
    if h < 0 { NegatedMod(h, R); }
  }

  /** Exactly when the bucket is one of the reducers: the wrapped hash is not negative, or the number of
      reducers divides it. */
  lemma BucketInRange(word: string, R: nat)
    requires R > 0
    ensures Bucket(word, R) < R
    ensures 0 <= Bucket(word, R) <==> Wrap64(Polynomial(word)) >= 0 || Wrap64(Polynomial(word)) % R == 0
  {
    var h := Wrap64(Polynomial(word));
    if h < 0 { NegatedMod(h, R); }
  }

  lemma NegatedMod(h: int, R: nat)
    requires R > 0
    ensures (-h) % R == 0 <==> h % R == 0
  {
    var q, r := h / R, h % R;
    assert h == q * R + r;
    var q', r' := (-h) / R, (-h) % R;
    assert -h == q' * R + r';
    assert (q + q') * R + (r + r') == 0;
    if r == 0 || r' == 0 { SmallMultiple(q + q', R, r + r'); }
  }

  lemma SmallMultiple(k: int, R: nat, r: nat)
    requires r < R && k * R + r == 0
    ensures r == 0
  {
    if k <= -1 { MulGrows(k, -1, R); }
    if k >= 1 { MulGrows(1, k, R); }
  }

  lemma {:induction false} RepeatedLetter(c: char, n: nat)
    ensures 30 * Polynomial(seq(n, _ => c)) == c as int * (Pow31(n) - 1)
  {
    if n > 0 {
      RepeatedLetter(c, n - 1);
      assert seq(n, _ => c)[..n-1] == seq(n - 1, _ => c);
    }
  }

  /** Thirteen letters can wrap: this word has no bucket among two reducers. */
  lemma ThirteenLettersCanWrap()
    ensures Bucket("kkkkkkkkkkkkk", 2) == -1
  {
    RepeatedLetter('k', 13);
    assert seq(13, _ => 'k') == "kkkkkkkkkkkkk";
    PowersOf31();
  }

  lemma PowersOf31()
    ensures Pow31(12) == 787662783788549761 && Pow31(13) == 24417546297445042591
  {
    assert Pow31(3) == 29791;
    assert Pow31(6) == 29791 * 29791;
    assert Pow31(9) == 29791 * 29791 * 29791;
  }
}
