/**
 * The per-language summary of a benchmark run: the results grouped by
 * language, and for each language the counts and the latency, accuracy and
 * confidence aggregates over its successful results.
 */
module Summary {
  import opened Wrappers
  import opened Text
  import opened Sorting
  import opened Statistics
  import opened Lists
  import opened Benchmark

  /** One row of the summary file (before rounding). */
  datatype SummaryRow = SummaryRow(
    runId: string, language: string, imagesRequested: int, seed: int,
    processed: nat, succeeded: nat, failed: int,
    avgLatency: real, minLatency: real, maxLatency: real, medianLatency: real, p95Latency: real,
    avgAccuracy: real, minAccuracy: real, maxAccuracy: real, medianAccuracy: real,
    avgConfidence: real, minConfidence: real, maxConfidence: real,
    avgOcrTextLength: real, avgGroundTruthLength: real, totalRunTime: real)

  function KeepSuccess(): BenchmarkResult -> Option<BenchmarkResult> {
    (r: BenchmarkResult) => if r.status == Success then Some(r) else None
  }

  /** `[r for r in lang_results if r.status == "success"]`. */
  function Successes(rs: seq<BenchmarkResult>): seq<BenchmarkResult> {
    FilterMap(rs, KeepSuccess())
  }

  /** The successes are the successful results, no more; all of them exactly when none failed. */
  lemma SuccessesMembers(rs: seq<BenchmarkResult>)
    ensures forall r :: r in Successes(rs) <==> r in rs && r.status == Success
    ensures |Successes(rs)| <= |rs|
    ensures |Successes(rs)| == |rs| <==> forall i :: 0 <= i < |rs| ==> rs[i].status == Success
    ensures Successes(rs) == [] <==> forall i :: 0 <= i < |rs| ==> rs[i].status == Error
  {
    FilterMapMembers(rs, KeepSuccess());
    FilterMapLength(rs, KeepSuccess());
    FilterMapKeepsAll(rs, KeepSuccess());
    FilterMapKeepsNone(rs, KeepSuccess());
    forall r ensures r in Successes(rs) ==> r in rs && r.status == Success {
      if r in Successes(rs) {
        var k :| 0 <= k < |rs| && KeepSuccess()(rs[k]) == Some(r);
      }
    }
    forall r | r in rs && r.status == Success ensures r in Successes(rs) {
      var k :| 0 <= k < |rs| && rs[k] == r;
      assert KeepSuccess()(rs[k]) == Some(r);
    }
  }

  function Latency(r: BenchmarkResult): real { r.latencySeconds }
  function AccuracyOf(r: BenchmarkResult): real { r.accuracy }
  function ConfidenceOf(r: BenchmarkResult): real { r.avgConfidence }
  function OcrLength(r: BenchmarkResult): real { r.ocrTextLength as real }
  function TruthLength(r: BenchmarkResult): real { r.groundTruthLength as real }

  /** One field of every result, in order. */
  function Column(rs: seq<BenchmarkResult>, field: BenchmarkResult -> real): (c: seq<real>)
    ensures |c| == |rs|
    ensures forall i :: 0 <= i < |rs| ==> c[i] == field(rs[i])
  {
    seq(|rs|, i requires 0 <= i < |rs| => field(rs[i]))
  }

  /** `sorted(vals) if vals else [0.0]`: never empty, in order, and the same values. */
  function SortedOrZero(vals: seq<real>): (r: seq<real>)
    ensures r != [] && Sorted(r)
    ensures vals == [] ==> r == [0.0]
    ensures vals != [] ==> multiset(r) == multiset(vals)
  {
    if vals == [] then [0.0]
    else
      SortRealsCorrect(vals);
      SortBy(vals, RealLe())
  }

  function KeepNonNegative(): real -> Option<real> {
    (c: real) => if c >= 0.0 then Some(c) else None
  }

  /** `[r.avg_confidence for r in ok if r.avg_confidence >= 0]`: the sentinel -1 left out. */
  function Confidences(ok: seq<BenchmarkResult>): seq<real> {
    FilterMap(Column(ok, ConfidenceOf), KeepNonNegative())
  }

  /** The confidences kept are exactly the non-negative ones. */
  lemma ConfidencesMembers(ok: seq<BenchmarkResult>)
    ensures forall c :: c in Confidences(ok) <==> c >= 0.0 && exists i :: 0 <= i < |ok| && ok[i].avgConfidence == c
  {
    var col := Column(ok, ConfidenceOf);
    FilterMapMembers(col, KeepNonNegative());
    forall c ensures c in Confidences(ok) <==> c >= 0.0 && exists i :: 0 <= i < |ok| && ok[i].avgConfidence == c {
      if c in Confidences(ok) {
        var k :| 0 <= k < |col| && KeepNonNegative()(col[k]) == Some(c);
        assert ok[k].avgConfidence == c;
      }
      if c >= 0.0 && exists i :: 0 <= i < |ok| && ok[i].avgConfidence == c {
        var i :| 0 <= i < |ok| && ok[i].avgConfidence == c;
        assert KeepNonNegative()(col[i]) == Some(c);
      }
    }
  }

  /** No confidence is kept exactly when every one is negative. */
  lemma ConfidencesEmpty(ok: seq<BenchmarkResult>)
    ensures Confidences(ok) == [] <==> forall i :: 0 <= i < |ok| ==> ok[i].avgConfidence < 0.0
  {
    var col := Column(ok, ConfidenceOf);
    FilterMapKeepsNone(col, KeepNonNegative());
    assert forall i :: 0 <= i < |ok| ==> (KeepNonNegative()(col[i]).None? <==> ok[i].avgConfidence < 0.0);
  }

  /** The summary row of one language's results, as `_write_summary_csv` fills it in. */
  function LanguageSummary(runId: string, language: string, rs: seq<BenchmarkResult>, imagesRequested: int, seed: int): SummaryRow {
    var ok := Successes(rs);
    var latencies := SortedOrZero(Column(ok, Latency));
    var accuracies := SortedOrZero(Column(ok, AccuracyOf));
    var confidences := Confidences(ok);
    SummaryRow(
      runId, language, imagesRequested, seed,
      |rs|, |ok|, |rs| - |ok|,
      MeanOr(latencies, 0.0), latencies[0], latencies[|latencies| - 1], Median(latencies), Percentile(latencies, 95.0),
      MeanOr(accuracies, 0.0), accuracies[0], accuracies[|accuracies| - 1], Median(accuracies),
      MeanOr(confidences, -1.0),
      if confidences == [] then -1.0 else MinOf(confidences),
      if confidences == [] then -1.0 else MaxOf(confidences),
      MeanOr(Column(ok, OcrLength), 0.0), MeanOr(Column(ok, TruthLength), 0.0),
      Sum(Column(rs, Latency)))
  }

  /**
   * The counts: every result of the language is processed, the successes
   * are those with status success, and the failures are the rest.
   */
  lemma SummaryCounts(runId: string, language: string, rs: seq<BenchmarkResult>, imagesRequested: int, seed: int)
    ensures var row := LanguageSummary(runId, language, rs, imagesRequested, seed);
            && row.processed == |rs|
            && row.succeeded == |Successes(rs)|
            && row.failed == row.processed - row.succeeded
            && 0 <= row.failed
            && (row.failed == 0 <==> forall i :: 0 <= i < |rs| ==> rs[i].status == Success)
            && (row.succeeded == 0 <==> forall i :: 0 <= i < |rs| ==> rs[i].status == Error)
  {
    SuccessesMembers(rs);
  }

  /** With nothing successful the latency and accuracy lists are `[0.0]` and there is no confidence. */
  lemma SummaryWithoutSuccess(runId: string, language: string, rs: seq<BenchmarkResult>, imagesRequested: int, seed: int)
    requires forall i :: 0 <= i < |rs| ==> rs[i].status == Error
    ensures var row := LanguageSummary(runId, language, rs, imagesRequested, seed);
            && row.succeeded == 0 && row.failed == |rs|
            && row.avgLatency == 0.0 && row.minLatency == 0.0 && row.maxLatency == 0.0
            && row.medianLatency == 0.0 && row.p95Latency == 0.0
            && row.avgAccuracy == 0.0 && row.minAccuracy == 0.0 && row.maxAccuracy == 0.0 && row.medianAccuracy == 0.0
            && row.avgConfidence == -1.0 && row.minConfidence == -1.0 && row.maxConfidence == -1.0
            && row.avgOcrTextLength == 0.0 && row.avgGroundTruthLength == 0.0
  {
    SuccessesMembers(rs);
    assert Successes(rs) == [];
    assert Column([], Latency) == [];
    assert Column([], AccuracyOf) == [];
    assert Confidences([]) == [];
    assert Column([], OcrLength) == [];
    assert Column([], TruthLength) == [];
    assert Percentile([0.0], 95.0) == 0.0;
  }

  /** On a sorted non-empty list: first <= median, percentile, mean <= last. */
  lemma SortedAggregates(vals: seq<real>, pct: real)
    requires vals != [] && Sorted(vals) && 0.0 <= pct <= 100.0
    ensures vals[0] <= Median(vals) <= vals[|vals| - 1]
    ensures vals[0] <= Percentile(vals, pct) <= vals[|vals| - 1]
    ensures vals[0] <= MeanOr(vals, 0.0) <= vals[|vals| - 1]
  {
    var n := |vals|;
    assert 0 < (n + 1) / 2 && n / 2 <= n - 1;
    assert Within(vals, vals[0], vals[n - 1]) by {
      forall i | 0 <= i < n ensures vals[0] <= vals[i] <= vals[n - 1] {
        if 0 < i { assert vals[0] <= vals[i]; }
        if i < n - 1 { assert vals[i] <= vals[n - 1]; }
      }
    }
    MeanWithin(vals, 0.0, vals[0], vals[n - 1]);
  }

  /** The smallest and the largest of a non-empty list of values, once sorted, are its ends. */
  lemma SortedEnds(vals: seq<real>)
    requires vals != []
    ensures var s := SortedOrZero(vals);
            && s[0] in vals && s[|s| - 1] in vals
            && forall i :: 0 <= i < |vals| ==> s[0] <= vals[i] <= s[|s| - 1]
  {
    var s := SortedOrZero(vals);
    assert s[0] in multiset(s) && s[|s| - 1] in multiset(s);
    forall i | 0 <= i < |vals| ensures s[0] <= vals[i] <= s[|s| - 1] {
      assert vals[i] in multiset(s);
      var j :| 0 <= j < |s| && s[j] == vals[i];
      if 0 < j { assert s[0] <= s[j]; }
      if j < |s| - 1 { assert s[j] <= s[|s| - 1]; }
    }
  }

  /**
   * The latency figures: the minimum and the maximum are the least and the
   * greatest latency of a successful result (0.0 when none), and the mean,
   * the median and the 95th percentile lie between them.
   */
  lemma SummaryLatencies(runId: string, language: string, rs: seq<BenchmarkResult>, imagesRequested: int, seed: int)
    ensures var row := LanguageSummary(runId, language, rs, imagesRequested, seed);
            && row.minLatency <= row.avgLatency <= row.maxLatency
            && row.minLatency <= row.medianLatency <= row.maxLatency
            && row.minLatency <= row.p95Latency <= row.maxLatency
            && forall r :: r in rs && r.status == Success ==> row.minLatency <= r.latencySeconds <= row.maxLatency
  {
    var ok := Successes(rs);
    var col := Column(ok, Latency);
    var latencies := SortedOrZero(col);
    SortedAggregates(latencies, 95.0);
    SuccessesMembers(rs);
    if col != [] {
      SortedEnds(col);
      forall r | r in rs && r.status == Success ensures latencies[0] <= r.latencySeconds <= latencies[|latencies| - 1] {
        var k :| 0 <= k < |ok| && ok[k] == r;
        assert col[k] == r.latencySeconds;
      }
    }
  }

  /**
   * The accuracy figures: with every accuracy in [0, 1] all of them lie in
   * [0, 1], the mean and the median between the minimum and the maximum, and
   * those bound every successful result's accuracy.
   */
  lemma SummaryAccuracies(runId: string, language: string, rs: seq<BenchmarkResult>, imagesRequested: int, seed: int)
    requires forall i :: 0 <= i < |rs| ==> 0.0 <= rs[i].accuracy <= 1.0
    ensures var row := LanguageSummary(runId, language, rs, imagesRequested, seed);
            && 0.0 <= row.minAccuracy <= row.avgAccuracy <= row.maxAccuracy <= 1.0
            && row.minAccuracy <= row.medianAccuracy <= row.maxAccuracy
            && forall r :: r in rs && r.status == Success ==> row.minAccuracy <= r.accuracy <= row.maxAccuracy
  {
    var ok := Successes(rs);
    var col := Column(ok, AccuracyOf);
    var accuracies := SortedOrZero(col);
    SortedAggregates(accuracies, 50.0);
    SuccessesMembers(rs);
    if col != [] {
      SortedEnds(col);
      forall r | r in rs && r.status == Success ensures accuracies[0] <= r.accuracy <= accuracies[|accuracies| - 1] {
        var k :| 0 <= k < |ok| && ok[k] == r;
        assert col[k] == r.accuracy;
      }
      var lo :| 0 <= lo < |col| && col[lo] == accuracies[0];
      var hi :| 0 <= hi < |col| && col[hi] == accuracies[|accuracies| - 1];
      assert ok[lo] in rs && ok[hi] in rs;
    }
  }

  /**
   * The kept confidences of a language's results: none exactly when no
   * successful result has a non-negative confidence; otherwise their least
   * and greatest belong to successful results, bound every non-negative
   * successful confidence, and enclose the mean.
   */
  lemma ConfidenceFigures(rs: seq<BenchmarkResult>)
    ensures var cs := Confidences(Successes(rs));
            var any := exists r :: r in rs && r.status == Success && r.avgConfidence >= 0.0;
            && (!any <==> cs == [])
            && (cs != [] ==> 0.0 <= MinOf(cs) <= MeanOr(cs, -1.0) <= MaxOf(cs))
            && (cs != [] ==> (exists r :: r in rs && r.status == Success && r.avgConfidence == MinOf(cs))
                             && (exists r :: r in rs && r.status == Success && r.avgConfidence == MaxOf(cs)))
            && (forall r :: r in rs && r.status == Success && r.avgConfidence >= 0.0 ==>
                  cs != [] && MinOf(cs) <= r.avgConfidence <= MaxOf(cs))
  {
    var ok := Successes(rs);
    var cs := Confidences(ok);
    SuccessesMembers(rs);
    ConfidencesMembers(ok);
    if cs != [] {
      var lo := MinOf(cs);
      var hi := MaxOf(cs);
      var i :| 0 <= i < |ok| && ok[i].avgConfidence == lo;
      assert ok[i] in Successes(rs);
      var j :| 0 <= j < |ok| && ok[j].avgConfidence == hi;
      assert ok[j] in Successes(rs);
      MeanWithin(cs, -1.0, lo, hi);
      forall r | r in rs && r.status == Success && r.avgConfidence >= 0.0 ensures lo <= r.avgConfidence <= hi {
        var k :| 0 <= k < |ok| && ok[k] == r;
        assert r.avgConfidence in cs;
        var t :| 0 <= t < |cs| && cs[t] == r.avgConfidence;
      }
    } else {
      ConfidencesEmpty(ok);
      forall r | r in rs && r.status == Success ensures r.avgConfidence < 0.0 {
        var k :| 0 <= k < |ok| && ok[k] == r;
      }
    }
  }

  /**
   * The confidence figures: -1 exactly when no successful result has a
   * non-negative confidence; otherwise the minimum and the maximum are
   * among those confidences, bound every one of them, and the mean lies
   * between them.
   */
  lemma SummaryConfidences(runId: string, language: string, rs: seq<BenchmarkResult>, imagesRequested: int, seed: int)
    ensures var row := LanguageSummary(runId, language, rs, imagesRequested, seed);
            var any := exists r :: r in rs && r.status == Success && r.avgConfidence >= 0.0;
            && (!any ==> row.avgConfidence == -1.0 && row.minConfidence == -1.0 && row.maxConfidence == -1.0)
            && (any ==> 0.0 <= row.minConfidence <= row.avgConfidence <= row.maxConfidence)
            && (any ==> (exists r :: r in rs && r.status == Success && r.avgConfidence == row.minConfidence)
                        && (exists r :: r in rs && r.status == Success && r.avgConfidence == row.maxConfidence))
            && (forall r :: r in rs && r.status == Success && r.avgConfidence >= 0.0 ==>
                  row.minConfidence <= r.avgConfidence <= row.maxConfidence)
  {
    ConfidenceFigures(rs);
  }

  function KeepLanguage(language: string): BenchmarkResult -> Option<BenchmarkResult> {
    (r: BenchmarkResult) => if r.language == language then Some(r) else None
  }

  /** `by_lang[language]`: that language's results, in run order. */
  function OfLanguage(results: seq<BenchmarkResult>, language: string): seq<BenchmarkResult> {
    FilterMap(results, KeepLanguage(language))
  }

  /** A language's results are the results of that language, no more. */
  lemma OfLanguageMembers(results: seq<BenchmarkResult>, language: string)
    ensures forall r :: r in OfLanguage(results, language) <==> r in results && r.language == language
  {
    FilterMapMembers(results, KeepLanguage(language));
    forall r ensures r in OfLanguage(results, language) ==> r in results && r.language == language {
      if r in OfLanguage(results, language) {
        var k :| 0 <= k < |results| && KeepLanguage(language)(results[k]) == Some(r);
      }
    }
    forall r | r in results && r.language == language ensures r in OfLanguage(results, language) {
      var k :| 0 <= k < |results| && results[k] == r;
      assert KeepLanguage(language)(results[k]) == Some(r);
    }
  }

  /** Accuracies in [0, 1], as every scored result has, give a language's row accuracy aggregates in [0, 1]. */
  lemma RowAccuraciesBounded(results: seq<BenchmarkResult>, runId: string, language: string, imagesRequested: int, seed: int)
    requires forall i :: 0 <= i < |results| ==> 0.0 <= results[i].accuracy <= 1.0
    ensures var row := LanguageSummary(runId, language, OfLanguage(results, language), imagesRequested, seed);
            && 0.0 <= row.minAccuracy <= row.avgAccuracy <= row.maxAccuracy <= 1.0
            && row.minAccuracy <= row.medianAccuracy <= row.maxAccuracy
  {
    var rs := OfLanguage(results, language);
    OfLanguageMembers(results, language);
    forall i | 0 <= i < |rs| ensures 0.0 <= rs[i].accuracy <= 1.0 {
      var k :| 0 <= k < |results| && results[k] == rs[i];
    }
    SummaryAccuracies(runId, language, rs, imagesRequested, seed);
  }

  /** Some result is of this language. */
  predicate Seen(results: seq<BenchmarkResult>, language: string) {
    exists k :: 0 <= k < |results| && results[k].language == language
  }

  /** A language no result has gets no results. */
  lemma OfLanguageUnseen(results: seq<BenchmarkResult>, language: string)
    requires !Seen(results, language)
    ensures OfLanguage(results, language) == []
  {
    FilterMapKeepsNone(results, KeepLanguage(language));
  }

  /** `by_lang` as a map with its keys in first-appearance order. */
  ghost predicate Grouped(results: seq<BenchmarkResult>, byLang: map<string, seq<BenchmarkResult>>, order: seq<string>) {
    && Distinct(order)
    && (forall l :: l in order <==> Seen(results, l))
    && (forall l :: l in byLang <==> l in order)
    && (forall l :: l in byLang ==> byLang[l] == OfLanguage(results, l))
  }

  /** Appending one result to its language's list keeps the grouping. */
  lemma GroupedSnoc(results: seq<BenchmarkResult>, i: nat, byLang: map<string, seq<BenchmarkResult>>, order: seq<string>)
    requires i < |results| && Grouped(results[..i], byLang, order)
    ensures var r := results[i];
            if r.language in byLang then Grouped(results[..i + 1], byLang[r.language := byLang[r.language] + [r]], order)
            else Grouped(results[..i + 1], byLang[r.language := [r]], order + [r.language])
  {
    var r := results[i];
    var pre, post := results[..i], results[..i + 1];
    assert forall k :: 0 <= k < i ==> post[k] == pre[k];
    assert post[i] == r;
    forall l ensures OfLanguage(post, l) == OfLanguage(pre, l) + (if r.language == l then [r] else []) {
      FilterMapSnoc(results, i, KeepLanguage(l));
    }
    forall l ensures Seen(post, l) <==> Seen(pre, l) || r.language == l {
      if Seen(pre, l) {
        var k :| 0 <= k < i && pre[k].language == l;
        assert post[k].language == l;
      }
      if Seen(post, l) && !Seen(pre, l) {
        var k :| 0 <= k < i + 1 && post[k].language == l;
        assert k == i;
      }
    }
    if r.language !in byLang {
      OfLanguageUnseen(pre, r.language);
      var order' := order + [r.language];
      assert Distinct(order') by {
        forall a, b | 0 <= a < b < |order'| ensures order'[a] != order'[b] {
          if b == |order| {
            assert order'[a] == order[a] && order[a] in order;
          } else {
            assert order'[a] == order[a] && order'[b] == order[b];
          }
        }
      }
    }
  }

  /**
   * The grouping loop of `_write_summary_csv`: each result appended to its
   * language's list; `order` is the order in which the languages first
   * appear, the order the dictionary keeps its keys in.
   */
  method GroupByLanguage(results: seq<BenchmarkResult>) returns (byLang: map<string, seq<BenchmarkResult>>, order: seq<string>)
    ensures Grouped(results, byLang, order)
  {
    byLang := map[];
    order := [];
    for i := 0 to |results|
      invariant Grouped(results[..i], byLang, order)
    {
      var r := results[i];
      GroupedSnoc(results, i, byLang, order);
      if r.language in byLang {
        byLang := byLang[r.language := byLang[r.language] + [r]];
      } else {
        byLang := byLang[r.language := [r]];
        order := order + [r.language];
      }
    }
    assert results[..|results|] == results;
  }

  function Identity(s: string): string {
    s
  }

  /** The languages of some rows. */
  predicate HasRow(rows: seq<SummaryRow>, language: string) {
    exists j :: 0 <= j < |rows| && rows[j].language == language
  }

  /** `sorted(by_lang.items())`: its keys strictly increasing, each a language seen, each seen language a key. */
  lemma SortedKeys(results: seq<BenchmarkResult>, byLang: map<string, seq<BenchmarkResult>>, order: seq<string>)
    requires Grouped(results, byLang, order)
    ensures var keys := SortBy(order, KeyLe(Identity));
            && (forall l :: l in keys <==> Seen(results, l))
            && (forall l :: l in keys ==> l in byLang && byLang[l] == OfLanguage(results, l))
            && (forall i, j :: 0 <= i < j < |keys| ==> LexLe(keys[i], keys[j]) && keys[i] != keys[j])
  {
    var keys := SortBy(order, KeyLe(Identity));
    SortByKeyCorrect(order, Identity);
    DistinctPermutation(order, keys);
    forall l ensures l in keys <==> l in order {
      assert l in keys <==> l in multiset(keys);
      assert l in order <==> l in multiset(order);
    }
  }

  /** Rows labelled by the keys in turn have a row for every key and for nothing else. */
  lemma KeysCover(rows: seq<SummaryRow>, keys: seq<string>, results: seq<BenchmarkResult>)
    requires |rows| == |keys| && forall t :: 0 <= t < |keys| ==> rows[t].language == keys[t]
    requires forall l :: l in keys <==> Seen(results, l)
    ensures forall l :: HasRow(rows, l) <==> Seen(results, l)
  {
    forall l | Seen(results, l) ensures HasRow(rows, l) {
      var j :| 0 <= j < |keys| && keys[j] == l;
      assert rows[j].language == l;
    }
    forall l | HasRow(rows, l) ensures Seen(results, l) {
      var j :| 0 <= j < |rows| && rows[j].language == l;
      assert keys[j] in keys;
    }
  }

  /** The rows loop: one summary per key, in the keys' order, of that key's results. */
  method RowsFor(keys: seq<string>, byLang: map<string, seq<BenchmarkResult>>, results: seq<BenchmarkResult>,
                 runId: string, imagesRequested: int, seed: int) returns (rows: seq<SummaryRow>)
    requires forall l :: l in keys ==> l in byLang && byLang[l] == OfLanguage(results, l)
    ensures |rows| == |keys|
    ensures forall t :: 0 <= t < |keys| ==> rows[t].language == keys[t]
    ensures forall t :: 0 <= t < |keys| ==>
              rows[t] == LanguageSummary(runId, keys[t], OfLanguage(results, keys[t]), imagesRequested, seed)
  {
    rows := [];
    for j := 0 to |keys|
      invariant |rows| == j
      invariant forall t :: 0 <= t < j ==> rows[t].language == keys[t]
      invariant forall t :: 0 <= t < j ==>
                  rows[t] == LanguageSummary(runId, keys[t], OfLanguage(results, keys[t]), imagesRequested, seed)
    {
      var lang := keys[j];
      assert lang in keys;
      var row := LanguageSummary(runId, lang, byLang[lang], imagesRequested, seed);
      rows := rows + [row];
    }
  }

  /**
   * `_write_summary_csv` up to the writer: one row per language that has
   * results, in increasing order of the language code, each summarising
   * exactly that language's results.
   */
  method SummaryRows(results: seq<BenchmarkResult>, runId: string, imagesRequested: int, seed: int) returns (rows: seq<SummaryRow>)
    ensures forall l :: HasRow(rows, l) <==> Seen(results, l)
    ensures forall j :: 0 <= j < |rows| ==>
              rows[j] == LanguageSummary(runId, rows[j].language, OfLanguage(results, rows[j].language), imagesRequested, seed)
    ensures forall i, j :: 0 <= i < j < |rows| ==> LexLe(rows[i].language, rows[j].language) && rows[i].language != rows[j].language
  {
    var byLang, order := GroupByLanguage(results);
    var keys := SortBy(order, KeyLe(Identity));
    SortedKeys(results, byLang, order);
    rows := RowsFor(keys, byLang, results, runId, imagesRequested, seed);
    KeysCover(rows, keys, results);
  }
}
