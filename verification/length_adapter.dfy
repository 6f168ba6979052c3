/** `ajuster_longueur`: the (max_length, min_length) summary bounds requested
    for one chunk, proportional to its word count and clamped by two caps. */
module LengthAdapter {
  import opened Seqs
  import opened Words

  /** The adapter's parameters. The proportion is the rational `num / den`
      (the float 0.3 becomes 3 / 10); `den` must be positive. */
  datatype LengthConfig = LengthConfig(num: int, den: int, maxCap: int, minCap: int)

  /** The keyword defaults `proportion=0.3, max_cap=200, min_cap=20`. */
  const Defaults := LengthConfig(3, 10, 200, 20)

  predicate ValidConfig(cfg: LengthConfig)
  {
    cfg.den > 0
  }

  /** The pair returned to the caller as `max_length, min_length`. */
  datatype Bounds = Bounds(maxLength: int, minLength: int)

  /** Python's `int(a / b)` for `b > 0`: division truncating toward zero. */
  function TruncDiv(a: int, b: int): (q: int)
    requires b > 0
    ensures 0 <= a ==> 0 <= q * b <= a < q * b + b
    ensures a < 0 ==> q * b - b < a <= q * b <= 0
  {
    if a >= 0 then
      DivBounds(a, b);
      a / b
    else
      DivBounds(-a, b);
      -((-a) / b)
  }

  /** Euclidean division of a non-negative number by a positive one. */
  lemma DivBounds(a: nat, b: int)
    requires b > 0
    ensures 0 <= a / b
    ensures 0 <= (a / b) * b <= a < (a / b) * b + b
  {
    var q, r := a / b, a % b;
    assert a == q * b + r && 0 <= r < b;
    if q < 0 {
      MulNonNeg(-q, b);
    }
    MulNonNeg(q, b);
  }

  lemma MulNonNeg(x: int, y: int)
    requires 0 <= x && 0 <= y
    ensures 0 <= x * y
  {
  }

  /** The bounds for a chunk of `wordCount` words. */
  function BoundsFor(wordCount: nat, cfg: LengthConfig): (b: Bounds)
    requires ValidConfig(cfg)
    ensures b.maxLength <= cfg.maxCap
    ensures b.minLength < b.maxLength
    ensures b.minLength <= cfg.minCap
    ensures b.maxLength <= TruncDiv(wordCount * cfg.num, cfg.den)
    ensures b.maxLength < cfg.maxCap ==> b.maxLength == TruncDiv(wordCount * cfg.num, cfg.den)
    ensures b.maxLength > cfg.minCap ==> b.minLength == cfg.minCap
    ensures b.maxLength <= cfg.minCap ==> b.minLength == b.maxLength - 1
  {
    var maxLength := Min(TruncDiv(wordCount * cfg.num, cfg.den), cfg.maxCap);
    Bounds(maxLength, Min(cfg.minCap, maxLength - 1))
  }

  /** `ajuster_longueur(text, ...)`: the bounds for the words of `text`. */
  function AdjustLength(text: string, cfg: LengthConfig): (b: Bounds)
    requires ValidConfig(cfg)
    ensures b.maxLength <= cfg.maxCap
    ensures b.minLength < b.maxLength
    ensures b.minLength <= cfg.minCap
    ensures b.maxLength >= 1 && cfg.minCap >= 0 ==> b.minLength >= 0
    ensures b.maxLength <= TruncDiv(|Split(text)| * cfg.num, cfg.den)
    ensures (TruncDiv(|Split(text)| * cfg.num, cfg.den) <= cfg.maxCap
             ==> b.maxLength == TruncDiv(|Split(text)| * cfg.num, cfg.den))
    ensures TruncDiv(|Split(text)| * cfg.num, cfg.den) >= cfg.maxCap ==> b.maxLength == cfg.maxCap
    ensures b.maxLength > cfg.minCap ==> b.minLength == cfg.minCap
    ensures b.maxLength <= cfg.minCap ==> b.minLength == b.maxLength - 1
  {
    BoundsFor(|Split(text)|, cfg)
  }

  /** Below the cap, `max_length` is the word count times the proportion,
      rounded down; it never exceeds the word count when the proportion is
      in [0, 1]. */
  lemma BelowCapIsProportional(wordCount: nat, cfg: LengthConfig)
    requires ValidConfig(cfg)
    requires 0 <= cfg.num <= cfg.den
    requires wordCount * cfg.num / cfg.den <= cfg.maxCap
    ensures BoundsFor(wordCount, cfg).maxLength == wordCount * cfg.num / cfg.den
    ensures 0 <= BoundsFor(wordCount, cfg).maxLength <= wordCount
  {
    var a := wordCount * cfg.num;
    MulNonNeg(wordCount, cfg.num);
    assert TruncDiv(a, cfg.den) == a / cfg.den;
    assert a <= wordCount * cfg.den by {
      MulNonNeg(wordCount, cfg.den - cfg.num);
      assert wordCount * cfg.den - a == wordCount * (cfg.den - cfg.num);
    }
    QuotientAtMost(a, cfg.den, wordCount);
  }

  /** A quotient is at most `n` when the dividend is at most `n` times the divisor. */
  lemma QuotientAtMost(a: nat, d: int, n: nat)
    requires d > 0 && a <= n * d
    ensures 0 <= a / d <= n
  {
    DivBounds(a, d);
    if a / d > n {
      MulNonNeg(a / d - n - 1, d);
    }
  }

  /** With the defaults, 100 words give the bounds (30, 20). */
  lemma HundredWordsWithDefaults()
    ensures BoundsFor(100, Defaults) == Bounds(30, 20)
  {
  }

  /** More words never lower either bound, for a non-negative proportion. */
  lemma {:induction false} BoundsMonotone(n1: nat, n2: nat, cfg: LengthConfig)
    requires ValidConfig(cfg) && cfg.num >= 0
    requires n1 <= n2
    ensures BoundsFor(n1, cfg).maxLength <= BoundsFor(n2, cfg).maxLength
    ensures BoundsFor(n1, cfg).minLength <= BoundsFor(n2, cfg).minLength
  {
    var a1, a2 := n1 * cfg.num, n2 * cfg.num;
    assert a1 <= a2 by {
      MulNonNeg(n2 - n1, cfg.num);
      assert a2 - a1 == (n2 - n1) * cfg.num;
    }
    DivMonotone(a1, a2, cfg.den);
    assert TruncDiv(a1, cfg.den) <= TruncDiv(a2, cfg.den);
    BoundsOrdered(n1, n2, cfg);
  }

  /** The bounds follow the order of the truncated proportional counts. */
  lemma BoundsOrdered(n1: nat, n2: nat, cfg: LengthConfig)
    requires ValidConfig(cfg)
    requires TruncDiv(n1 * cfg.num, cfg.den) <= TruncDiv(n2 * cfg.num, cfg.den)
    ensures BoundsFor(n1, cfg).maxLength <= BoundsFor(n2, cfg).maxLength
    ensures BoundsFor(n1, cfg).minLength <= BoundsFor(n2, cfg).minLength
  {
  }

  lemma DivMonotone(a: nat, b: nat, d: int)
    requires d > 0 && a <= b
    ensures a / d <= b / d
  {
    DivBounds(a, d);
    DivBounds(b, d);
    if a / d > b / d {
      MulNonNeg(a / d - b / d - 1, d);
    }
  }

  /** With the defaults, `min_length` is negative exactly for chunks of fewer
      than four words: those get the bounds (0, -1), which the source passes on
      to the summarizer unguarded. */
  lemma ShortChunkWithDefaults(wordCount: nat)
    ensures BoundsFor(wordCount, Defaults).minLength < 0 <==> wordCount < 4
    ensures wordCount < 4 ==> BoundsFor(wordCount, Defaults) == Bounds(0, -1)
  {
  }
}
