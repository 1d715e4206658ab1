/** The two selectable similarities, over the reals. Neither ever scores below zero, although an
    inverse document frequency may be negative. */
module Similarities {
  import opened Scoring
  import Retrieval

  const K1: real := 1.2
  const B: real := 0.75

  type Positive = x: real | x > 0.0 witness 1.0

  /** `ln` is the natural logarithm and `root` the square root. */
  datatype Similarity =
    | Bm25(ln: real -> real, root: Positive -> Positive)
    | TfIdf(ln: real -> real, root: Positive -> Positive)
  {
    function Idf(totalDocs: nat, df: nat): real {
      var n, d := totalDocs as real, df as real;
      if TfIdf? then 1.0 + ln(n / (d + 1.0))
      else
        var idf := ln(1.0 + (n - d + 0.5) / (d + 0.5));
        if idf >= 0.0 then idf else 0.0
    }

    function FieldLength(len: nat): Positive {
      if len == 0 then 1.0 else len as real
    }

    /** Saturation: the term frequency, weighed against the field's length relative to the average. */
    function Denominator(tf: nat, len: nat, avg: real): Positive
      requires tf > 0
    {
      var a: Positive := if avg > 0.0 then avg else 1.0;
      var ratio := FieldLength(len) / a;
      Quotient(FieldLength(len), a);
      tf as real + K1 * (1.0 - B + B * ratio)
    }

    function Score(idf: real, tf: nat, len: nat, avg: real): real {
      if tf == 0 then 0.0
      else if TfIdf? then root(tf as real) * idf * idf * (1.0 / root(FieldLength(len)))
      else idf * (tf as real * (K1 + 1.0) / Denominator(tf, len, avg))
    }

    /** The BM25 score, by its equation: with `k1` 1.2 and `b` 0.75, an empty field counting as one word
        long and an average that is not positive as one. */
    lemma {:induction false} Bm25Scored(idf: real, tf: nat, len: nat, avg: real)
      requires Bm25?
      ensures var length, average := (if len > 1 then len else 1) as real, if avg > 0.0 then avg else 1.0;
              Score(idf, tf, len, avg) * (tf as real + 1.2 * (0.25 + 0.75 * (length / average))) == idf * (tf as real * 2.2)
    {
      if tf == 0 {
        assert Score(idf, tf, len, avg) == 0.0;
      } else {
        var d := Denominator(tf, len, avg);
        assert FieldLength(len) == (if len > 1 then len else 1) as real;
        TimesQuotient(idf, tf as real * 2.2, d);
      }
    }

    /** The TF-IDF score, by its equation. */
    lemma {:induction false} TfIdfScored(idf: real, tf: nat, len: nat, avg: real)
      requires TfIdf? && tf > 0
      ensures var length: Positive := (if len > 1 then len else 1) as real;
              Score(idf, tf, len, avg) * root(length) == root(tf as real) * idf * idf
    {
      assert FieldLength(len) == (if len > 1 then len else 1) as real;
      TimesQuotient(root(tf as real) * idf * idf, 1.0, root(FieldLength(len)));
    }

    lemma {:induction false} NothingScored(idf: real, len: nat, avg: real)
      ensures Score(idf, 0, len, avg) == 0.0
    {
    }

    /** The two inverse document frequencies, BM25's floored at zero. */
    lemma {:induction false} IdfIs(totalDocs: nat, df: nat)
      ensures TfIdf? ==> Idf(totalDocs, df) - ln((totalDocs as real) / ((df + 1) as real)) == 1.0
      ensures Bm25? ==>
                var raw := ln((totalDocs as real - df as real + 0.5) / (df as real + 0.5) + 1.0);
                Idf(totalDocs, df) >= raw && Idf(totalDocs, df) >= 0.0 && (Idf(totalDocs, df) == raw || Idf(totalDocs, df) == 0.0)
    {
    }

    /** The TF-IDF score holds the inverse document frequency twice, so its sign does not matter; the
        BM25 one is floored. */
    lemma {:induction false} ScoreNotNegative(totalDocs: nat, df: nat, tf: nat, len: nat, avg: real)
      ensures Score(Idf(totalDocs, df), tf, len, avg) >= 0.0
    {
      hide Idf, Denominator, FieldLength;
      var idf := Idf(totalDocs, df);
      if tf > 0 {
        if TfIdf? {
          var a, b := root(tf as real), root(FieldLength(len));
          Quotient(1.0, b);
          Products(a, idf, 1.0 / b);
        } else {
          FlooredIdf(totalDocs, df);
          var d := Denominator(tf, len, avg);
          Quotient(tf as real * (K1 + 1.0), d);
          Product(idf, tf as real * (K1 + 1.0) / d);
        }
      }
    }

    lemma {:induction false} FlooredIdf(totalDocs: nat, df: nat)
      requires Bm25?
      ensures Idf(totalDocs, df) >= 0.0
    {
    }

    /** `index` scores by this similarity. */
    ghost predicate Scores(index: Reader<real>) {
      && (forall df: nat :: index.idf(df) == Idf(index.totalDocs, df))
      && (forall idf: real, tf: nat, len: nat, avg: real :: index.score(idf, tf, len, avg) == Score(idf, tf, len, avg))
    }

    /** Either similarity meets what the completeness of a search asks of the scores. */
    lemma {:induction false} MeetsNonNegative(index: Reader<real>)
      requires Scores(index)
      requires forall f: string, t: string, s: real, n: nat, a: bool, i: nat | i < |index.fuzzyTerms(f, t, s, n, a)| ::
                 index.fuzzyTerms(f, t, s, n, a)[i].1 >= 0.0
      ensures Retrieval.NonNegativeIndex(index)
    {
      hide Idf, Score;
      forall df: nat, tf: nat, len: nat, avg: real ensures index.score(index.idf(df), tf, len, avg) >= 0.0 {
        ScoreNotNegative(index.totalDocs, df, tf, len, avg);
      }
    }
  }

  lemma {:induction false} TimesQuotient(a: real, x: real, d: real)
    requires d > 0.0
    ensures a * (x / d) * d == a * x
  {
    assert x / d * d == x;
    assert a * (x / d) * d == a * (x / d * d);
  }

  lemma {:induction false} Quotient(x: real, y: real)
    requires x > 0.0 && y > 0.0
    ensures x / y > 0.0
  {
  }

  lemma {:induction false} Product(x: real, y: real)
    requires x >= 0.0 && y >= 0.0
    ensures x * y >= 0.0
  {
  }

  lemma {:induction false} Products(a: real, x: real, b: real)
    requires a > 0.0 && b > 0.0
    ensures a * x * x * b >= 0.0
  {
    Product(if x >= 0.0 then x else -x, if x >= 0.0 then x else -x);
    assert a * x * x == a * (x * x);
    Product(a, x * x);
    Product(a * x * x, b);
  }

  /** The inverse document frequency of TF-IDF falls below zero for a document frequency large against the
      number of documents, so no bound on it for every frequency covers that similarity. */
  lemma {:induction false} NegativeIdf(s: Similarity, totalDocs: nat, df: nat)
    requires s.TfIdf? && s.ln((totalDocs as real) / (df as real + 1.0)) < -1.0
    ensures s.Idf(totalDocs, df) < 0.0
  {
  }
}
