/**
 * How the benchmark scores one recognised page against its ground truth:
 * both texts are flattened to one single-spaced line, and the character
 * error rate is their edit distance over the ground truth's length, capped
 * at 1.
 */
module Scoring {
  import opened Text

  /** `" ".join(text.split())`: the text's words on one line, single-spaced. */
  function Normalize(text: string): (r: string)
    ensures SingleSpaced(r)
    ensures '\n' !in r
    ensures r == "" <==> AllSpace(text)
  {
    WordsAreWords(text);
    JoinWordsSingleSpaced(Words(text));
    var r := Join(" ", Words(text));
    assert '\n' !in r by {
      forall i | 0 <= i < |r| ensures r[i] != '\n' {
        assert r[i] == ' ' || !IsSpace(r[i]);
      }
    }
    r
  }

  /** Normalising keeps the words, so normalising twice is normalising once. */
  lemma NormalizeIdempotent(text: string)
    ensures Words(Normalize(text)) == Words(text)
    ensures Normalize(Normalize(text)) == Normalize(text)
  {
    WordsAreWords(text);
    WordsOfJoin(Words(text));
  }

  function Min3(a: nat, b: nat, c: nat): (m: nat)
    ensures m <= a && m <= b && m <= c
    ensures m == a || m == b || m == c
  {
    if a <= b && a <= c then a else if b <= c then b else c
  }

  function Max(a: nat, b: nat): nat {
    if a < b then b else a
  }

  /**
   * The unit-cost edit distance between the first `i` characters of `a` and
   * the first `j` characters of `b`: the fewest single-character insertions,
   * deletions and substitutions that turn one into the other, by the
   * recurrence the dynamic-programming table fills.
   */
  function PrefixDistance(a: string, b: string, i: nat, j: nat): nat
    requires i <= |a| && j <= |b|
    decreases i + j
  {
    if i == 0 then j
    else if j == 0 then i
    else Min3(PrefixDistance(a, b, i - 1, j) + 1,
              PrefixDistance(a, b, i, j - 1) + 1,
              PrefixDistance(a, b, i - 1, j - 1) + (if a[i - 1] == b[j - 1] then 0 else 1))
  }

  /** The edit distance between two whole strings; against an empty string it is the other's length. */
  function EditDistance(a: string, b: string): (d: nat)
    ensures a == "" ==> d == |b|
    ensures b == "" ==> d == |a|
  {
    PrefixDistance(a, b, |a|, |b|)
  }

  /** The distance is at most the longer length: substitute along the shorter one, insert the rest. */
  lemma {:induction false} PrefixDistanceUpper(a: string, b: string, i: nat, j: nat)
    requires i <= |a| && j <= |b|
    ensures PrefixDistance(a, b, i, j) <= Max(i, j)
    decreases i + j
  {
    if i > 0 && j > 0 {
      PrefixDistanceUpper(a, b, i - 1, j - 1);
    }
  }

  /** The distance is at least the difference of the lengths: each edit changes the length by at most one. */
  lemma {:induction false} PrefixDistanceLower(a: string, b: string, i: nat, j: nat)
    requires i <= |a| && j <= |b|
    ensures i - j <= PrefixDistance(a, b, i, j) && j - i <= PrefixDistance(a, b, i, j)
    decreases i + j
  {
    if i > 0 && j > 0 {
      PrefixDistanceLower(a, b, i - 1, j);
      PrefixDistanceLower(a, b, i, j - 1);
      PrefixDistanceLower(a, b, i - 1, j - 1);
    }
  }

  lemma EditDistanceBounds(a: string, b: string)
    ensures EditDistance(a, b) <= Max(|a|, |b|)
    ensures |a| - |b| <= EditDistance(a, b) && |b| - |a| <= EditDistance(a, b)
  {
    PrefixDistanceUpper(a, b, |a|, |b|);
    PrefixDistanceLower(a, b, |a|, |b|);
  }

  lemma {:induction false} PrefixDistanceSymmetric(a: string, b: string, i: nat, j: nat)
    requires i <= |a| && j <= |b|
    ensures PrefixDistance(a, b, i, j) == PrefixDistance(b, a, j, i)
    decreases i + j
  {
    if i > 0 && j > 0 {
      PrefixDistanceSymmetric(a, b, i - 1, j);
      PrefixDistanceSymmetric(a, b, i, j - 1);
      PrefixDistanceSymmetric(a, b, i - 1, j - 1);
      assert (a[i - 1] == b[j - 1]) == (b[j - 1] == a[i - 1]);
    }
  }

  /** The distance does not depend on which string comes first. */
  lemma EditDistanceSymmetric(a: string, b: string)
    ensures EditDistance(a, b) == EditDistance(b, a)
  {
    PrefixDistanceSymmetric(a, b, |a|, |b|);
  }

  lemma {:induction false} PrefixDistanceZeroIffEqual(a: string, b: string, i: nat, j: nat)
    requires i <= |a| && j <= |b|
    ensures PrefixDistance(a, b, i, j) == 0 <==> a[..i] == b[..j]
    decreases i + j
  {
    if i > 0 && j > 0 {
      PrefixDistanceZeroIffEqual(a, b, i - 1, j - 1);
      assert a[..i] == a[..i - 1] + [a[i - 1]];
      assert b[..j] == b[..j - 1] + [b[j - 1]];
      if a[..i] == b[..j] {
        assert a[..i - 1] == b[..j - 1];
      }
    } else if i > 0 {
      assert a[..i] != [];
    } else if j > 0 {
      assert b[..j] != [];
    }
  }

  /** A string is at distance 0 from itself, and only from itself. */
  lemma EditDistanceZeroIffEqual(a: string, b: string)
    ensures EditDistance(a, b) == 0 <==> a == b
  {
    PrefixDistanceZeroIffEqual(a, b, |a|, |b|);
    assert a[..|a|] == a && b[..|b|] == b;
  }

  /** One cell of row `i + 1`, from the cells above, to the left and diagonally above it. */
  lemma CellStep(s1: string, s2: string, i: nat, j: nat, up: nat, left: nat, diag: nat)
    requires i < |s1| && j < |s2|
    requires up == PrefixDistance(s1, s2, i, j + 1)
    requires left == PrefixDistance(s1, s2, i + 1, j)
    requires diag == PrefixDistance(s1, s2, i, j)
    ensures Min3(up + 1, left + 1, diag + (if s1[i] != s2[j] then 1 else 0)) == PrefixDistance(s1, s2, i + 1, j + 1)
  {
  }

  /**
   * `_levenshtein_fallback`: the longer string indexes the rows; an empty
   * shorter string is at distance the longer one's length; otherwise the
   * two-row table gives the distance.
   */
  method LevenshteinFallback(s1: string, s2: string) returns (d: nat)
    ensures d == EditDistance(s1, s2)
    decreases if |s1| < |s2| then 1 else 0
  {
    if |s1| < |s2| {
      d := LevenshteinFallback(s2, s1);
      EditDistanceSymmetric(s2, s1);
      return;
    }
    if |s2| == 0 {
      return |s1|;
    }
    d := DistanceTable(s1, s2);
  }

  /**
   * The table of `_levenshtein_fallback`, one row at a time: row `i` holds
   * the distances from the first `i` characters of `s1` to every prefix of
   * `s2`.
   */
  method DistanceTable(s1: string, s2: string) returns (d: nat)
    ensures d == EditDistance(s1, s2)
  {
    var prevRow: seq<nat> := seq(|s2| + 1, j => j);
    var i := 0;
    while i < |s1|
      invariant 0 <= i <= |s1|
      invariant |prevRow| == |s2| + 1
      invariant forall j :: 0 <= j <= |s2| ==> prevRow[j] == PrefixDistance(s1, s2, i, j)
    {
      prevRow := NextRow(s1, s2, i, prevRow);
      i := i + 1;
    }
    d := prevRow[|s2|];
  }

  /**
   * The inner loop: row `i + 1` from row `i`, each cell the cheapest of an
   * insertion, a deletion and a substitution.
   */
  method NextRow(s1: string, s2: string, i: nat, prevRow: seq<nat>) returns (currRow: seq<nat>)
    requires i < |s1| && |prevRow| == |s2| + 1
    requires forall j :: 0 <= j <= |s2| ==> prevRow[j] == PrefixDistance(s1, s2, i, j)
    ensures |currRow| == |s2| + 1
    ensures forall j :: 0 <= j <= |s2| ==> currRow[j] == PrefixDistance(s1, s2, i + 1, j)
  {
    var c1 := s1[i];
    currRow := [i + 1];
    var j := 0;
    while j < |s2|
      invariant 0 <= j <= |s2|
      invariant |currRow| == j + 1
      invariant forall k :: 0 <= k <= j ==> currRow[k] == PrefixDistance(s1, s2, i + 1, k)
    {
      var c2 := s2[j];
      var insertions := prevRow[j + 1] + 1;
      var deletions := currRow[j] + 1;
      var substitutions := prevRow[j] + (if c1 != c2 then 1 else 0);
      CellStep(s1, s2, i, j, prevRow[j + 1], currRow[j], prevRow[j]);
      currRow := currRow + [Min3(insertions, deletions, substitutions)];
      j := j + 1;
    }
  }

  /** `min(dist / length, 1.0)` for a positive length: a rate in [0, 1] that is 0 only for no errors. */
  function CappedRatio(dist: nat, length: nat): (r: real)
    requires length > 0
    ensures 0.0 <= r <= 1.0
    ensures r == 0.0 <==> dist == 0
  {
    var ratio := dist as real / length as real;
    if ratio <= 1.0 then ratio else 1.0
  }

  /**
   * `compute_cer`: 1.0 when the ground truth has no words; otherwise the
   * edit distance between the normalised texts over the normalised ground
   * truth's length, capped at 1.0.
   */
  function Cer(ocrText: string, groundTruth: string): (r: real)
    ensures 0.0 <= r <= 1.0
    ensures AllSpace(groundTruth) ==> r == 1.0
  {
    var ocrNorm := Normalize(ocrText);
    var gtNorm := Normalize(groundTruth);
    if gtNorm == "" then 1.0
    else CappedRatio(EditDistance(ocrNorm, gtNorm), |gtNorm|)
  }

  /** `compute_cer` with the table-filling distance (the library distance it prefers is the same number). */
  method ComputeCer(ocrText: string, groundTruth: string) returns (r: real)
    ensures r == Cer(ocrText, groundTruth)
  {
    var ocrNorm := Normalize(ocrText);
    var gtNorm := Normalize(groundTruth);
    if gtNorm == "" {
      return 1.0;
    }
    var dist := LevenshteinFallback(ocrNorm, gtNorm);
    r := CappedRatio(dist, |gtNorm|);
  }

  /** A ground truth with words is matched perfectly exactly when the texts agree word for word. */
  lemma CerZeroIffSameWords(ocrText: string, groundTruth: string)
    requires !AllSpace(groundTruth)
    ensures Cer(ocrText, groundTruth) == 0.0 <==> Normalize(ocrText) == Normalize(groundTruth)
  {
    EditDistanceZeroIffEqual(Normalize(ocrText), Normalize(groundTruth));
  }

  /** Only the words count: scoring the normalised texts gives the same rate. */
  lemma CerIgnoresLayout(ocrText: string, groundTruth: string)
    ensures Cer(Normalize(ocrText), Normalize(groundTruth)) == Cer(ocrText, groundTruth)
  {
    NormalizeIdempotent(ocrText);
    NormalizeIdempotent(groundTruth);
  }

  /** The accuracy the benchmark records: one minus the error rate. */
  function Accuracy(ocrText: string, groundTruth: string): (a: real)
    ensures 0.0 <= a <= 1.0
    ensures AllSpace(groundTruth) ==> a == 0.0
    ensures a == 1.0 - Cer(ocrText, groundTruth)
  {
    1.0 - Cer(ocrText, groundTruth)
  }

  /** Texts with the same words score accuracy 1.0, unless the ground truth has none. */
  lemma AccuracyOneIffSameWords(ocrText: string, groundTruth: string)
    requires !AllSpace(groundTruth)
    ensures Accuracy(ocrText, groundTruth) == 1.0 <==> Normalize(ocrText) == Normalize(groundTruth)
  {
    CerZeroIffSameWords(ocrText, groundTruth);
  }
}
