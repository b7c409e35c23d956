/**
 * The benchmark run: discovering image/ground-truth pairs per language,
 * drawing a sample of them, and scoring each sampled image against its
 * ground truth from the recognition service's answer.
 */
module Benchmark {
  import opened Wrappers
  import opened Text
  import opened Paths
  import opened Sorting
  import opened ImageUtils
  import opened Scoring
  import opened Statistics
  import opened Lists

  /** An image paired with its ground-truth text file. */
  datatype ImageSample = ImageSample(imagePath: string, groundTruthPath: string, language: string)

  datatype Status = Success | Error

  /** One row of the per-image results; the measurements default to zero. */
  datatype BenchmarkResult = BenchmarkResult(
    runId: string, language: string, imageFile: string, groundTruthFile: string,
    latencySeconds: real, avgConfidence: real, accuracy: real,
    ocrTextLength: nat, groundTruthLength: nat,
    status: Status, errorMessage: string)

  /** One entry of the response's `text_regions`; a missing confidence reads as 0.0. */
  datatype RegionJson = RegionJson(confidence: Option<real>)

  /** The keys of the service's JSON answer the benchmark reads; each may be absent. */
  datatype ApiResponse = ApiResponse(extractedText: Option<string>, measuredLatency: Option<real>,
                                     textRegions: Option<seq<RegionJson>>)

  /**
   * How calling the service ended: an answer, a failure of the request
   * itself (connection, timeout or an error status), or any other exception.
   */
  datatype ApiOutcome = Responded(body: ApiResponse) | RequestFailed(reason: string) | OtherFailure(reason: string)

  /** The result with only the identifying fields filled in. */
  function Fresh(sample: ImageSample, runId: string): BenchmarkResult {
    BenchmarkResult(runId, sample.language, Name(sample.imagePath), Name(sample.groundTruthPath),
                    0.0, 0.0, 0.0, 0, 0, Success, "")
  }

  function Confidences(regions: seq<RegionJson>): (cs: seq<real>)
    ensures |cs| == |regions|
    ensures forall i :: 0 <= i < |regions| ==> cs[i] == regions[i].confidence.GetOr(0.0)
  {
    seq(|regions|, i requires 0 <= i < |regions| => regions[i].confidence.GetOr(0.0))
  }

  /** `avg_confidence`: the mean region confidence, or the sentinel -1.0 when there are no regions. */
  function AverageConfidence(regions: seq<RegionJson>): (c: real)
    ensures regions == [] ==> c == -1.0
    ensures regions != [] ==> c * |regions| as real == Sum(Confidences(regions))
  {
    MeanOr(Confidences(regions), -1.0)
  }

  /**
   * With confidences in [0, 1] the sentinel cannot be mistaken for a mean:
   * the value is -1.0 exactly when there are no regions, and otherwise lies
   * in [0, 1].
   */
  lemma AverageConfidenceSentinel(regions: seq<RegionJson>)
    requires forall i :: 0 <= i < |regions| ==> 0.0 <= regions[i].confidence.GetOr(0.0) <= 1.0
    ensures AverageConfidence(regions) == -1.0 <==> regions == []
    ensures regions != [] ==> 0.0 <= AverageConfidence(regions) <= 1.0
  {
    if regions != [] {
      MeanWithin(Confidences(regions), -1.0, 0.0, 1.0);
    }
  }

  /** `benchmark_single` as a value. */
  function Score(sample: ImageSample, runId: string, groundTruth: Result<string, string>, api: ApiOutcome): BenchmarkResult {
    var base := Fresh(sample, runId);
    match groundTruth
    case Err(e) => base.(status := Error, errorMessage := "Failed to read ground truth: " + e)
    case Ok(gt) =>
      var measured := base.(groundTruthLength := |Normalize(gt)|);
      match api
      case RequestFailed(e) => measured.(status := Error, errorMessage := "API request failed: " + e)
      case OtherFailure(e) => measured.(status := Error, errorMessage := "Unexpected error: " + e)
      case Responded(body) =>
        var text := body.extractedText.GetOr("");
        measured.(ocrTextLength := |Normalize(text)|,
                  latencySeconds := body.measuredLatency.GetOr(0.0),
                  avgConfidence := AverageConfidence(body.textRegions.GetOr([])),
                  accuracy := Accuracy(text, gt))
  }

  /**
   * A ground truth that cannot be read, or a failed call, marks the result
   * as an error with the reason and leaves the measurements at zero;
   * otherwise the result is a success carrying the recognised text's
   * length, the latency, the confidence and an accuracy in [0, 1].
   */
  lemma ScoreFacts(sample: ImageSample, runId: string, groundTruth: Result<string, string>, api: ApiOutcome)
    ensures var r := Score(sample, runId, groundTruth, api);
      && r.runId == runId && r.language == sample.language
      && r.imageFile == Name(sample.imagePath) && r.groundTruthFile == Name(sample.groundTruthPath)
      && (r.status == Success <==> groundTruth.Ok? && api.Responded?)
      && (r.status == Error ==> r.latencySeconds == 0.0 && r.avgConfidence == 0.0 && r.accuracy == 0.0 && r.ocrTextLength == 0)
      && (groundTruth.Err? ==> r.groundTruthLength == 0 && r.errorMessage == "Failed to read ground truth: " + groundTruth.error)
      && (groundTruth.Ok? ==> r.groundTruthLength == |Normalize(groundTruth.value)|)
      && (groundTruth.Ok? && api.RequestFailed? ==> r.errorMessage == "API request failed: " + api.reason)
      && (groundTruth.Ok? && api.OtherFailure? ==> r.errorMessage == "Unexpected error: " + api.reason)
      && (r.status == Success ==>
            var text := api.body.extractedText.GetOr("");
            && r.errorMessage == ""
            && r.ocrTextLength == |Normalize(text)|
            && r.latencySeconds == api.body.measuredLatency.GetOr(0.0)
            && r.avgConfidence == AverageConfidence(api.body.textRegions.GetOr([]))
            && r.accuracy == 1.0 - Cer(text, groundTruth.value)
            && 0.0 <= r.accuracy <= 1.0)
  {
  }

  /**
   * `benchmark_single`: the result is filled in step by step with an early
   * return on each failure. `groundTruth` is what reading the ground-truth
   * file gives (its text or the error's text) and `api` how calling the
   * service ends; the call is only made once the ground truth was read.
   */
  method BenchmarkSingle(sample: ImageSample, runId: string, groundTruth: Result<string, string>, api: ApiOutcome)
    returns (result: BenchmarkResult)
    ensures result == Score(sample, runId, groundTruth, api)
  {
    result := BenchmarkResult(runId, sample.language, Name(sample.imagePath), Name(sample.groundTruthPath),
                              0.0, 0.0, 0.0, 0, 0, Success, "");
    if groundTruth.Err? {
      result := result.(status := Error, errorMessage := "Failed to read ground truth: " + groundTruth.error);
      return;
    }
    var gtText := groundTruth.value;
    result := result.(groundTruthLength := |Normalize(gtText)|);
    match api {
      case RequestFailed(e) =>
        result := result.(status := Error, errorMessage := "API request failed: " + e);
        return;
      case OtherFailure(e) =>
        result := result.(status := Error, errorMessage := "Unexpected error: " + e);
        return;
      case Responded(apiResp) =>
        var ocrText := apiResp.extractedText.GetOr("");
        result := result.(ocrTextLength := |Normalize(ocrText)|);
        result := result.(latencySeconds := apiResp.measuredLatency.GetOr(0.0));
        var textRegions := apiResp.textRegions.GetOr([]);
        if textRegions != [] {
          var confidences := Confidences(textRegions);
          result := result.(avgConfidence := Sum(confidences) / |confidences| as real);
        } else {
          result := result.(avgConfidence := -1.0);
        }
        assert result.avgConfidence == AverageConfidence(textRegions);
        var cer := ComputeCer(ocrText, gtText);
        result := result.(accuracy := 1.0 - cer);
        assert result.accuracy == Accuracy(ocrText, gtText);
    }
  }

  /**
   * The dataset folders per language, each `{input_base}` followed by the
   * suffix given here; other languages have no dataset.
   */
  const LanguageDatasetDirs: map<string, seq<string>> := map[
    "hi" := ["/hindi/Page_Level_Training_Set"],
    "te" := ["/telugu/Page_Level_Training_Set/Page_Level_Training_Set1",
             "/telugu/Page_Level_Training_Set/Page_Level_Training_Set2"]]

  function DatasetDirs(language: string, inputBase: string): (dirs: Option<seq<string>>)
    ensures language !in LanguageDatasetDirs <==> dirs.None?
    ensures dirs.Some? ==> |dirs.value| == |LanguageDatasetDirs[language]|
                           && forall d :: 0 <= d < |dirs.value| ==> dirs.value[d] == inputBase + LanguageDatasetDirs[language][d]
  {
    if language in LanguageDatasetDirs then
      var suffixes := LanguageDatasetDirs[language];
      Some(seq(|suffixes|, d requires 0 <= d < |suffixes| => inputBase + suffixes[d]))
    else None
  }

  function EntryPath(e: Entry): string {
    e.path
  }

  /** `sorted(dir.glob("*.jpg"))`: the folder's entries whose name ends in ".jpg", by path. */
  function JpegImages(fs: FileSystem, dir: string): seq<Entry> {
    SortBy(Glob(Children(fs, dir), ".jpg"), KeyLe(EntryPath))
  }

  /** The sample one image gives: itself and its ".txt" sibling, when that sibling exists. */
  function PairOf(fs: FileSystem, img: Entry, language: string): (r: Option<ImageSample>)
    requires Name(img.path) != ""
  {
    var txt := WithSuffix(img.path, ".txt");
    if Lookup(fs, txt).Some? then Some(ImageSample(img.path, txt, language)) else None
  }

  function PairWith(fs: FileSystem, language: string): Entry --> Option<ImageSample> {
    (img: Entry) requires Name(img.path) != "" => PairOf(fs, img, language)
  }

  /** The paired subset of `images`, in order: those whose ".txt" sibling exists. */
  function Pairs(fs: FileSystem, images: seq<Entry>, language: string): seq<ImageSample>
    requires forall k :: 0 <= k < |images| ==> Name(images[k].path) != ""
  {
    FilterMap(images, PairWith(fs, language))
  }

  predicate IsJpeg(e: Entry) {
    EndsWith(Name(e.path), ".jpg")
  }

  /** What the sorted listing holds: exactly the ".jpg" entries directly inside the folder. */
  lemma JpegImagesMembers(fs: FileSystem, dir: string)
    ensures forall e :: e in JpegImages(fs, dir) <==> e in fs && IsChildOf(e.path, dir) && IsJpeg(e)
  {
    var globbed := Glob(Children(fs, dir), ".jpg");
    SortByKeyCorrect(globbed, EntryPath);
    assert forall e :: e in JpegImages(fs, dir) <==> e in multiset(globbed);
  }

  /** A ".jpg" name is not empty, so `with_suffix` accepts it. */
  lemma JpegNamesNonEmpty(images: seq<Entry>)
    requires forall e :: e in images ==> IsJpeg(e)
    ensures forall k :: 0 <= k < |images| ==> Name(images[k].path) != ""
  {
    forall k | 0 <= k < |images| ensures Name(images[k].path) != "" {
      assert IsJpeg(images[k]);
    }
  }

  /** The pairs found in one dataset folder; a folder that is not a directory contributes none. */
  function DirSamples(fs: FileSystem, dir: string, language: string): seq<ImageSample> {
    var entry := Lookup(fs, dir);
    if entry.Some? && entry.value.kind == Directory then
      JpegImagesMembers(fs, dir);
      JpegNamesNonEmpty(JpegImages(fs, dir));
      Pairs(fs, JpegImages(fs, dir), language)
    else []
  }

  function DirSamplesOf(fs: FileSystem, language: string): string -> seq<ImageSample> {
    (dir: string) => DirSamples(fs, dir, language)
  }

  /** The pairs of each folder in turn. */
  function SamplesIn(fs: FileSystem, dirs: seq<string>, language: string): seq<ImageSample> {
    FlatMap(dirs, DirSamplesOf(fs, language))
  }

  /** What `discover_samples` finds: the pairs of each of the language's folders, folder by folder. */
  function Discovered(fs: FileSystem, language: string, inputBase: string): (r: seq<ImageSample>)
    ensures language !in LanguageDatasetDirs ==> r == []
  {
    match DatasetDirs(language, inputBase)
    case None => []
    case Some(dirs) => SamplesIn(fs, dirs, language)
  }

  /** `discover_samples`: each existing folder in turn, each sorted ".jpg" in it with a ".txt" beside it. */
  method DiscoverSamples(fs: FileSystem, language: string, inputBase: string) returns (samples: seq<ImageSample>)
    ensures samples == Discovered(fs, language, inputBase)
  {
    var dirsTemplates := DatasetDirs(language, inputBase);
    if dirsTemplates.None? {
      return [];
    }
    var dirs := dirsTemplates.value;
    samples := [];
    var d := 0;
    while d < |dirs|
      invariant 0 <= d <= |dirs|
      invariant samples == SamplesIn(fs, dirs[..d], language)
    {
      var found := FolderSamples(fs, dirs[d], language);
      FlatMapSnoc(dirs, d, DirSamplesOf(fs, language));
      samples := samples + found;
      d := d + 1;
    }
    assert dirs[..|dirs|] == dirs;
  }

  /** One folder of `discover_samples`: nothing unless it is a directory, else its pairs. */
  method FolderSamples(fs: FileSystem, dirPath: string, language: string) returns (found: seq<ImageSample>)
    ensures found == DirSamples(fs, dirPath, language)
  {
    var entry := Lookup(fs, dirPath);
    if !(entry.Some? && entry.value.kind == Directory) {
      return [];
    }
    var images := JpegImages(fs, dirPath);
    JpegImagesMembers(fs, dirPath);
    JpegNamesNonEmpty(images);
    found := PairImages(fs, images, language);
  }

  /** The inner loop of `discover_samples`: keep each image whose ".txt" sibling exists. */
  method PairImages(fs: FileSystem, images: seq<Entry>, language: string) returns (found: seq<ImageSample>)
    requires forall k :: 0 <= k < |images| ==> Name(images[k].path) != ""
    ensures found == Pairs(fs, images, language)
  {
    found := [];
    var k := 0;
    while k < |images|
      invariant 0 <= k <= |images|
      invariant found == Pairs(fs, images[..k], language)
    {
      var imgFile := images[k];
      FilterMapSnoc(images, k, PairWith(fs, language));
      var txtFile := WithSuffix(imgFile.path, ".txt");
      if Lookup(fs, txtFile).Some? {
        found := found + [ImageSample(imgFile.path, txtFile, language)];
      }
      k := k + 1;
    }
    assert images[..|images|] == images;
  }

  /** `s` is the sample `img` gives: the image, its ".txt" sibling, the language, and that sibling exists. */
  predicate IsPairOf(fs: FileSystem, img: Entry, language: string, s: ImageSample) {
    && Name(img.path) != ""
    && s == ImageSample(img.path, WithSuffix(img.path, ".txt"), language)
    && Lookup(fs, s.groundTruthPath).Some?
  }

  /** The pairs are exactly the samples of those images whose sibling exists. */
  lemma PairsMembers(fs: FileSystem, images: seq<Entry>, language: string)
    requires forall k :: 0 <= k < |images| ==> Name(images[k].path) != ""
    ensures forall s :: s in Pairs(fs, images, language) <==> exists k :: 0 <= k < |images| && IsPairOf(fs, images[k], language, s)
  {
    var f := PairWith(fs, language);
    FilterMapMembers(images, f);
    forall s ensures s in Pairs(fs, images, language) <==> exists k :: 0 <= k < |images| && IsPairOf(fs, images[k], language, s) {
      if s in Pairs(fs, images, language) {
        var k :| 0 <= k < |images| && f(images[k]) == Some(s);
        assert IsPairOf(fs, images[k], language, s);
      }
      if exists k :: 0 <= k < |images| && IsPairOf(fs, images[k], language, s) {
        var k :| 0 <= k < |images| && IsPairOf(fs, images[k], language, s);
        assert f(images[k]) == Some(s);
      }
    }
  }

  predicate IsDirectory(fs: FileSystem, dir: string) {
    Lookup(fs, dir).Some? && Lookup(fs, dir).value.kind == Directory
  }

  /**
   * One folder's pairs: when the folder is a directory, the samples of its
   * ".jpg" children whose sibling exists; otherwise none.
   */
  lemma DirSamplesMembers(fs: FileSystem, dir: string, language: string)
    ensures forall s :: s in DirSamples(fs, dir, language) <==>
              IsDirectory(fs, dir) && exists e :: e in fs && IsChildOf(e.path, dir) && IsJpeg(e) && IsPairOf(fs, e, language, s)
  {
    if IsDirectory(fs, dir) {
      var images := JpegImages(fs, dir);
      JpegImagesMembers(fs, dir);
      JpegNamesNonEmpty(images);
      PairsMembers(fs, images, language);
    }
  }

  lemma SamplesInMembers(fs: FileSystem, dirs: seq<string>, language: string)
    ensures forall s :: s in SamplesIn(fs, dirs, language) <==> exists d :: 0 <= d < |dirs| && s in DirSamples(fs, dirs[d], language)
  {
    FlatMapMembers(dirs, DirSamplesOf(fs, language));
  }

  /**
   * What discovery finds: exactly the pairs of the language's dataset
   * folders, and no sample of another language.
   */
  lemma DiscoveredMembers(fs: FileSystem, language: string, inputBase: string)
    ensures forall s :: s in Discovered(fs, language, inputBase) <==>
              && language in LanguageDatasetDirs
              && exists d :: 0 <= d < |LanguageDatasetDirs[language]|
                             && s in DirSamples(fs, inputBase + LanguageDatasetDirs[language][d], language)
    ensures forall s :: s in Discovered(fs, language, inputBase) ==> s.language == language
  {
    var dirs := DatasetDirs(language, inputBase);
    if dirs.Some? {
      SamplesInMembers(fs, dirs.value, language);
      forall d | 0 <= d < |dirs.value| {
        DirSamplesMembers(fs, dirs.value[d], language);
      }
    }
  }

  /**
   * The positions `random.Random(seed).sample` picks: `n` distinct indices
   * into a population of `population`. With the generator seeded afresh for
   * every language they depend on nothing but these two sizes.
   */
  predicate IsDraw(idx: seq<nat>, population: nat, n: nat) {
    && |idx| == n
    && (forall t :: 0 <= t < n ==> idx[t] < population)
    && (forall s, t :: 0 <= s < t < n ==> idx[s] != idx[t])
  }

  /** A drawing rule that always keeps to `IsDraw`. */
  ghost predicate Draws(draw: (nat, nat) -> seq<nat>) {
    forall population: nat, n: nat :: n <= population ==> IsDraw(draw(population, n), population, n)
  }

  /** `min(num_images, len(samples))`: how many images a language contributes. */
  function SampleSize(numImages: int, available: nat): (n: int)
    ensures n <= available && n <= numImages
    ensures n == available || n == numImages
  {
    if numImages <= available then numImages else available
  }

  const SampleError := "Sample larger than population or is negative"

  /**
   * `rng.sample(samples, n)`: a negative size raises; otherwise the samples
   * at the drawn positions, in the order drawn.
   */
  function Selected(samples: seq<ImageSample>, numImages: int, draw: (nat, nat) -> seq<nat>): (r: Result<seq<ImageSample>, string>)
    requires Draws(draw)
    ensures numImages < 0 <==> r.Err?
    ensures r.Ok? ==> |r.value| == SampleSize(numImages, |samples|)
    ensures r.Ok? ==> forall t :: 0 <= t < |r.value| ==> r.value[t] in samples
  {
    var n := SampleSize(numImages, |samples|);
    if n < 0 then Err(SampleError)
    else
      var idx := draw(|samples|, n);
      assert IsDraw(idx, |samples|, n);
      Ok(seq(n, t requires 0 <= t < n => samples[idx[t]]))
  }

  /** The selected images are distinct entries of the discovered list. */
  lemma SelectedDistinct(samples: seq<ImageSample>, numImages: int, draw: (nat, nat) -> seq<nat>)
    requires Draws(draw) && numImages >= 0
    ensures var sel := Selected(samples, numImages, draw).value;
            var idx := draw(|samples|, SampleSize(numImages, |samples|));
            && |idx| == |sel|
            && (forall t :: 0 <= t < |sel| ==> idx[t] < |samples| && sel[t] == samples[idx[t]])
            && (forall s, t :: 0 <= s < t < |sel| ==> idx[s] != idx[t])
  {
    assert IsDraw(draw(|samples|, SampleSize(numImages, |samples|)), |samples|, SampleSize(numImages, |samples|));
  }

  /** Every selected image scored in turn. */
  function ScoreEach(selected: seq<ImageSample>, runId: string, groundTruthOf: ImageSample -> Result<string, string>,
                     apiOf: ImageSample -> ApiOutcome): seq<BenchmarkResult>
    decreases |selected|
  {
    if selected == [] then []
    else
      var last := selected[|selected| - 1];
      ScoreEach(selected[..|selected| - 1], runId, groundTruthOf, apiOf) + [Score(last, runId, groundTruthOf(last), apiOf(last))]
  }

  /** One result per selected image. */
  lemma {:induction false} ScoreEachLength(selected: seq<ImageSample>, runId: string, groundTruthOf: ImageSample -> Result<string, string>,
                                           apiOf: ImageSample -> ApiOutcome)
    ensures |ScoreEach(selected, runId, groundTruthOf, apiOf)| == |selected|
    decreases |selected|
  {
    if selected != [] {
      ScoreEachLength(selected[..|selected| - 1], runId, groundTruthOf, apiOf);
    }
  }

  /** The `t`-th result is the `t`-th selected image's score. */
  lemma {:induction false} ScoreEachAt(selected: seq<ImageSample>, runId: string, groundTruthOf: ImageSample -> Result<string, string>,
                                       apiOf: ImageSample -> ApiOutcome, t: nat)
    requires t < |selected|
    ensures |ScoreEach(selected, runId, groundTruthOf, apiOf)| == |selected|
    ensures ScoreEach(selected, runId, groundTruthOf, apiOf)[t] == Score(selected[t], runId, groundTruthOf(selected[t]), apiOf(selected[t]))
    decreases |selected|
  {
    ScoreEachLength(selected, runId, groundTruthOf, apiOf);
    if t < |selected| - 1 {
      var init := selected[..|selected| - 1];
      ScoreEachAt(init, runId, groundTruthOf, apiOf, t);
      assert init[t] == selected[t];
    }
  }

  /** The results one language contributes: none when it has no pairs, else its drawn sample scored. */
  function LanguageResults(fs: FileSystem, language: string, numImages: int, inputBase: string, runId: string,
                           draw: (nat, nat) -> seq<nat>, groundTruthOf: ImageSample -> Result<string, string>,
                           apiOf: ImageSample -> ApiOutcome): (r: Result<seq<BenchmarkResult>, string>)
    requires Draws(draw)
    ensures Discovered(fs, language, inputBase) == [] ==> r == Ok([])
    ensures Discovered(fs, language, inputBase) != [] ==> (r.Err? <==> numImages < 0)
    ensures r.Err? ==> r.error == SampleError
    ensures r.Ok? ==> |r.value| == if Discovered(fs, language, inputBase) == [] then 0
                                   else SampleSize(numImages, |Discovered(fs, language, inputBase)|)
  {
    var samples := Discovered(fs, language, inputBase);
    if samples == [] then Ok([])
    else
      match Selected(samples, numImages, draw)
      case Err(e) => Err(e)
      case Ok(sel) =>
        ScoreEachLength(sel, runId, groundTruthOf, apiOf);
        Ok(ScoreEach(sel, runId, groundTruthOf, apiOf))
  }

  /** All languages in turn; the first language whose sample cannot be drawn ends the run. */
  function RunResults(fs: FileSystem, languages: seq<string>, numImages: int, inputBase: string, runId: string,
                      draw: (nat, nat) -> seq<nat>, groundTruthOf: ImageSample -> Result<string, string>,
                      apiOf: ImageSample -> ApiOutcome): Result<seq<BenchmarkResult>, string>
    requires Draws(draw)
    decreases |languages|
  {
    if languages == [] then Ok([])
    else
      match RunResults(fs, languages[..|languages| - 1], numImages, inputBase, runId, draw, groundTruthOf, apiOf)
      case Err(e) => Err(e)
      case Ok(earlier) =>
        match LanguageResults(fs, languages[|languages| - 1], numImages, inputBase, runId, draw, groundTruthOf, apiOf)
        case Err(e) => Err(e)
        case Ok(more) => Ok(earlier + more)
  }

  /** Every result a language contributes carries the run's id and that language. */
  lemma LanguageResultsLabelled(fs: FileSystem, language: string, numImages: int, inputBase: string, runId: string,
                                draw: (nat, nat) -> seq<nat>, groundTruthOf: ImageSample -> Result<string, string>,
                                apiOf: ImageSample -> ApiOutcome)
    requires Draws(draw)
    ensures var r := LanguageResults(fs, language, numImages, inputBase, runId, draw, groundTruthOf, apiOf);
            r.Ok? ==> forall t :: 0 <= t < |r.value| ==>
                        r.value[t].runId == runId && r.value[t].language == language && 0.0 <= r.value[t].accuracy <= 1.0
  {
    var samples := Discovered(fs, language, inputBase);
    if samples != [] && numImages >= 0 {
      DiscoveredMembers(fs, language, inputBase);
      var sel := Selected(samples, numImages, draw).value;
      var rs := ScoreEach(sel, runId, groundTruthOf, apiOf);
      ScoreEachLength(sel, runId, groundTruthOf, apiOf);
      forall t | 0 <= t < |rs| ensures rs[t].runId == runId && rs[t].language == language && 0.0 <= rs[t].accuracy <= 1.0 {
        ScoreEachAt(sel, runId, groundTruthOf, apiOf, t);
        ScoreFacts(sel[t], runId, groundTruthOf(sel[t]), apiOf(sel[t]));
      }
    }
  }

  /** The number of results a run yields for a non-negative size: `min(num_images, pairs)` per language. */
  function ExpectedCount(fs: FileSystem, languages: seq<string>, numImages: nat, inputBase: string): nat
    decreases |languages|
  {
    if languages == [] then 0
    else
      var found := |Discovered(fs, languages[|languages| - 1], inputBase)|;
      ExpectedCount(fs, languages[..|languages| - 1], numImages, inputBase) + (if numImages <= found then numImages else found)
  }

  /**
   * A run fails only for a negative size, and then exactly when some
   * language has pairs to draw from; otherwise it yields `min(num_images,
   * pairs)` results per language, each labelled with the run's id and one of
   * the requested languages.
   */
  lemma {:induction false} RunResultsOutcome(fs: FileSystem, languages: seq<string>, numImages: int, inputBase: string, runId: string,
                                             draw: (nat, nat) -> seq<nat>, groundTruthOf: ImageSample -> Result<string, string>,
                                             apiOf: ImageSample -> ApiOutcome)
    requires Draws(draw)
    ensures var r := RunResults(fs, languages, numImages, inputBase, runId, draw, groundTruthOf, apiOf);
            && (r.Err? <==> numImages < 0 && exists l :: 0 <= l < |languages| && Discovered(fs, languages[l], inputBase) != [])
            && (r.Err? ==> r.error == SampleError)
            && (r.Ok? && numImages >= 0 ==> |r.value| == ExpectedCount(fs, languages, numImages, inputBase))
            && (r.Ok? ==> forall t :: 0 <= t < |r.value| ==>
                            r.value[t].runId == runId && r.value[t].language in languages && 0.0 <= r.value[t].accuracy <= 1.0)
    decreases |languages|
  {
    if languages != [] {
      var n := |languages|;
      var init := languages[..n - 1];
      var lang := languages[n - 1];
      RunResultsOutcome(fs, init, numImages, inputBase, runId, draw, groundTruthOf, apiOf);
      LanguageResultsLabelled(fs, lang, numImages, inputBase, runId, draw, groundTruthOf, apiOf);
      var before := RunResults(fs, init, numImages, inputBase, runId, draw, groundTruthOf, apiOf);
      var here := LanguageResults(fs, lang, numImages, inputBase, runId, draw, groundTruthOf, apiOf);
      assert forall l :: 0 <= l < n - 1 ==> init[l] == languages[l];
      if numImages < 0 && exists l :: 0 <= l < n && Discovered(fs, languages[l], inputBase) != [] {
        var l :| 0 <= l < n && Discovered(fs, languages[l], inputBase) != [];
        if l == n - 1 {
          assert here.Err?;
        } else {
          assert before.Err?;
        }
      }
      if before.Ok? && here.Ok? {
        var all := before.value + here.value;
        forall t | 0 <= t < |all| ensures all[t].runId == runId && all[t].language in languages && 0.0 <= all[t].accuracy <= 1.0 {
          if t < |before.value| {
            assert all[t] == before.value[t];
            assert all[t].language in init;
          } else {
            assert all[t] == here.value[t - |before.value|];
          }
        }
      }
    }
  }

  /**
   * `run_benchmark` up to writing the reports: for each language, discover
   * its pairs, skip it when there are none, otherwise draw
   * `min(num_images, pairs)` of them and score each in the order drawn.
   * `draw` stands for the seeded generator, `groundTruthOf` for reading a
   * ground-truth file and `apiOf` for calling the service on an image.
   */
  method RunBenchmark(fs: FileSystem, languages: seq<string>, numImages: int, inputBase: string, runId: string,
                      draw: (nat, nat) -> seq<nat>, groundTruthOf: ImageSample -> Result<string, string>,
                      apiOf: ImageSample -> ApiOutcome)
    returns (r: Result<seq<BenchmarkResult>, string>)
    requires Draws(draw)
    ensures r == RunResults(fs, languages, numImages, inputBase, runId, draw, groundTruthOf, apiOf)
  {
    var allResults: seq<BenchmarkResult> := [];
    var l := 0;
    while l < |languages|
      invariant 0 <= l <= |languages|
      invariant RunResults(fs, languages[..l], numImages, inputBase, runId, draw, groundTruthOf, apiOf) == Ok(allResults)
    {
      var more := BenchmarkLanguage(fs, languages[l], numImages, inputBase, runId, draw, groundTruthOf, apiOf);
      RunResultsStep(fs, languages, l, numImages, inputBase, runId, draw, groundTruthOf, apiOf);
      if more.Err? {
        RunResultsErrPersists(fs, languages, l + 1, numImages, inputBase, runId, draw, groundTruthOf, apiOf);
        assert languages[..|languages|] == languages;
        return Err(more.error);
      }
      allResults := allResults + more.value;
      l := l + 1;
    }
    assert languages[..|languages|] == languages;
    r := Ok(allResults);
  }

  /** One more language: its results follow the earlier ones, or its error ends the run. */
  lemma RunResultsStep(fs: FileSystem, languages: seq<string>, l: nat, numImages: int, inputBase: string, runId: string,
                       draw: (nat, nat) -> seq<nat>, groundTruthOf: ImageSample -> Result<string, string>,
                       apiOf: ImageSample -> ApiOutcome)
    requires Draws(draw) && l < |languages|
    ensures var before := RunResults(fs, languages[..l], numImages, inputBase, runId, draw, groundTruthOf, apiOf);
            var here := LanguageResults(fs, languages[l], numImages, inputBase, runId, draw, groundTruthOf, apiOf);
            RunResults(fs, languages[..l + 1], numImages, inputBase, runId, draw, groundTruthOf, apiOf) ==
              if before.Err? then before else if here.Err? then here else Ok(before.value + here.value)
  {
    assert languages[..l + 1][..l] == languages[..l];
  }

  /** Once a language has ended the run, the languages after it change nothing. */
  lemma {:induction false} RunResultsErrPersists(fs: FileSystem, languages: seq<string>, k: nat, numImages: int, inputBase: string,
                                                 runId: string, draw: (nat, nat) -> seq<nat>,
                                                 groundTruthOf: ImageSample -> Result<string, string>, apiOf: ImageSample -> ApiOutcome)
    requires Draws(draw) && k <= |languages|
    requires RunResults(fs, languages[..k], numImages, inputBase, runId, draw, groundTruthOf, apiOf).Err?
    ensures RunResults(fs, languages[..|languages|], numImages, inputBase, runId, draw, groundTruthOf, apiOf) ==
            RunResults(fs, languages[..k], numImages, inputBase, runId, draw, groundTruthOf, apiOf)
    decreases |languages| - k
  {
    if k < |languages| {
      RunResultsStep(fs, languages, k, numImages, inputBase, runId, draw, groundTruthOf, apiOf);
      RunResultsErrPersists(fs, languages, k + 1, numImages, inputBase, runId, draw, groundTruthOf, apiOf);
    }
  }

  /** One language of `run_benchmark`: discover, skip when empty, draw, score. */
  method BenchmarkLanguage(fs: FileSystem, language: string, numImages: int, inputBase: string, runId: string,
                           draw: (nat, nat) -> seq<nat>, groundTruthOf: ImageSample -> Result<string, string>,
                           apiOf: ImageSample -> ApiOutcome)
    returns (r: Result<seq<BenchmarkResult>, string>)
    requires Draws(draw)
    ensures r == LanguageResults(fs, language, numImages, inputBase, runId, draw, groundTruthOf, apiOf)
  {
    var samples := DiscoverSamples(fs, language, inputBase);
    if samples == [] {
      return Ok([]);
    }
    var n := SampleSize(numImages, |samples|);
    if n < 0 {
      return Err(SampleError);
    }
    var selected := Selected(samples, numImages, draw).value;
    var scored := ScoreAll(selected, runId, groundTruthOf, apiOf);
    r := Ok(scored);
  }

  /** The per-image loop of `run_benchmark`: score each selected image in turn. */
  method ScoreAll(selected: seq<ImageSample>, runId: string, groundTruthOf: ImageSample -> Result<string, string>,
                  apiOf: ImageSample -> ApiOutcome)
    returns (results: seq<BenchmarkResult>)
    ensures results == ScoreEach(selected, runId, groundTruthOf, apiOf)
  {
    results := [];
    var t := 0;
    while t < |selected|
      invariant 0 <= t <= |selected|
      invariant results == ScoreEach(selected[..t], runId, groundTruthOf, apiOf)
    {
      var sample := selected[t];
      var result := BenchmarkSingle(sample, runId, groundTruthOf(sample), apiOf(sample));
      assert selected[..t + 1][..t] == selected[..t];
      results := results + [result];
      t := t + 1;
    }
    assert selected[..|selected|] == selected;
  }
}
