/**
 * `POST /ocr/batch`: the request's gates in order, then one recognition
 * attempt per collected image, in order, where a failing image is recorded
 * and the loop goes on. Each image's recognition and artifact writing is an
 * opaque attempt given as a parameter.
 */
module Batch {
  import opened Wrappers
  import opened Text
  import opened Paths
  import opened Config
  import opened ImageUtils
  import opened OcrEngine
  import opened Lists

  datatype BatchRequest = BatchRequest(folderPath: string, lang: string, saveAnnotated: bool, recursive: bool)

  /** An `HTTPException`: status code and detail text. */
  datatype HttpError = HttpError(status: int, detail: string)

  /** How one image's attempt ended: the recognised output, or the text of the exception raised. */
  datatype Attempt = Recognized(output: OcrOutput) | Raised(message: string)

  /** `BatchImageResult` (its timing left out). */
  datatype ItemResult = ItemResult(filename: string, success: bool, results: seq<Region>, fullText: string, error: Option<string>)

  /** The summary document and the response body (their timings left out). */
  datatype Summary = Summary(folderPath: string, language: string, totalImages: nat, processed: nat, failed: nat, results: seq<ItemResult>)
  datatype Response = Response(success: bool, folderPath: string, language: string, outputDir: string,
                               totalImages: nat, processed: nat, failed: nat, results: seq<ItemResult>)

  /** The file-system effects of the endpoint itself, in order. */
  datatype Effect = MadeBatchDir(dir: string) | SavedSummary(dir: string, summary: Summary)

  datatype BatchRun = BatchRun(response: Response, effects: seq<Effect>)

  /** The entry recorded for one image. */
  function ItemFor(path: string, attempt: Attempt): ItemResult {
    match attempt
    case Recognized(out) => ItemResult(Name(path), true, out.results, out.fullText, None)
    case Raised(msg) => ItemResult(Name(path), false, [], "", Some(msg))
  }

  function CountSuccess(rs: seq<ItemResult>): (n: nat)
    decreases |rs|
  {
    if rs == [] then 0 else CountSuccess(rs[..|rs| - 1]) + (if rs[|rs| - 1].success then 1 else 0)
  }

  lemma CountSuccessSnoc(rs: seq<ItemResult>, x: ItemResult)
    ensures CountSuccess(rs + [x]) == CountSuccess(rs) + (if x.success then 1 else 0)
  {
    assert (rs + [x])[..|rs|] == rs;
  }

  /** Fewer successes than entries exactly when some entry failed; none exactly when all failed. */
  lemma {:induction false} CountSuccessBounds(rs: seq<ItemResult>)
    ensures CountSuccess(rs) <= |rs|
    ensures CountSuccess(rs) == |rs| <==> forall i :: 0 <= i < |rs| ==> rs[i].success
    ensures CountSuccess(rs) == 0 <==> forall i :: 0 <= i < |rs| ==> !rs[i].success
    decreases |rs|
  {
    if rs != [] {
      var init := rs[..|rs| - 1];
      CountSuccessBounds(init);
      assert forall i :: 0 <= i < |init| ==> init[i] == rs[i];
    }
  }

  /** The entries of the given images, in order. */
  function Items(paths: seq<Entry>, saveAnnotated: bool, ocr: (string, bool) -> Attempt): (rs: seq<ItemResult>)
    decreases |paths|
  {
    if paths == [] then []
    else
      var last := paths[|paths| - 1].path;
      Items(paths[..|paths| - 1], saveAnnotated, ocr) + [ItemFor(last, ocr(last, saveAnnotated))]
  }

  lemma ItemsSnoc(paths: seq<Entry>, i: nat, saveAnnotated: bool, ocr: (string, bool) -> Attempt)
    requires i < |paths|
    ensures Items(paths[..i + 1], saveAnnotated, ocr) == Items(paths[..i], saveAnnotated, ocr) + [ItemFor(paths[i].path, ocr(paths[i].path, saveAnnotated))]
  {
    assert paths[..i + 1][..i] == paths[..i];
  }

  /** Entry `k` is the entry of image `k`. */
  lemma {:induction false} ItemsLength(paths: seq<Entry>, saveAnnotated: bool, ocr: (string, bool) -> Attempt)
    ensures |Items(paths, saveAnnotated, ocr)| == |paths|
    decreases |paths|
  {
    if paths != [] {
      ItemsLength(paths[..|paths| - 1], saveAnnotated, ocr);
    }
  }

  lemma {:induction false} ItemsAt(paths: seq<Entry>, saveAnnotated: bool, ocr: (string, bool) -> Attempt, k: nat)
    requires k < |paths|
    ensures |Items(paths, saveAnnotated, ocr)| == |paths|
    ensures Items(paths, saveAnnotated, ocr)[k] == ItemFor(paths[k].path, ocr(paths[k].path, saveAnnotated))
    decreases |paths|
  {
    ItemsLength(paths, saveAnnotated, ocr);
    if k < |paths| - 1 {
      var init := paths[..|paths| - 1];
      ItemsAt(init, saveAnnotated, ocr, k);
      assert init[k] == paths[k];
    }
  }

  /** One image's `try`/`except`: its output on success, the exception's text otherwise. */
  method ProcessOne(path: string, saveAnnotated: bool, ocr: (string, bool) -> Attempt) returns (item: ItemResult)
    ensures item == ItemFor(path, ocr(path, saveAnnotated))
  {
    var filename := Name(path);
    var attempt := ocr(path, saveAnnotated);
    match attempt {
      case Recognized(out) =>
        item := ItemResult(filename, true, out.results, out.fullText, None);
      case Raised(msg) =>
        item := ItemResult(filename, false, [], "", Some(msg));
    }
  }

  /** One entry per image, each the entry of that image. */
  lemma ItemsEach(paths: seq<Entry>, saveAnnotated: bool, ocr: (string, bool) -> Attempt)
    ensures |Items(paths, saveAnnotated, ocr)| == |paths|
    ensures forall k :: 0 <= k < |paths| ==> Items(paths, saveAnnotated, ocr)[k] == ItemFor(paths[k].path, ocr(paths[k].path, saveAnnotated))
  {
    ItemsLength(paths, saveAnnotated, ocr);
    forall k | 0 <= k < |paths| ensures Items(paths, saveAnnotated, ocr)[k] == ItemFor(paths[k].path, ocr(paths[k].path, saveAnnotated)) {
      ItemsAt(paths, saveAnnotated, ocr, k);
    }
  }

  /**
   * The per-image loop: every image gets one entry, in order; a raised
   * exception becomes a failed entry and the loop goes on.
   */
  method ProcessImages(paths: seq<Entry>, saveAnnotated: bool, ocr: (string, bool) -> Attempt)
    returns (results: seq<ItemResult>, processed: nat, failed: nat)
    ensures results == Items(paths, saveAnnotated, ocr)
    ensures processed == CountSuccess(results)
    ensures processed + failed == |paths|
  {
    results := [];
    processed := 0;
    failed := 0;
    var i := 0;
    while i < |paths|
      invariant 0 <= i <= |paths|
      invariant results == Items(paths[..i], saveAnnotated, ocr)
      invariant processed == CountSuccess(results)
      invariant processed + failed == i
    {
      var item := ProcessOne(paths[i].path, saveAnnotated, ocr);
      if item.success {
        processed := processed + 1;
      } else {
        failed := failed + 1;
      }
      CountSuccessSnoc(results, item);
      ItemsSnoc(paths, i, saveAnnotated, ocr);
      results := results + [item];
      i := i + 1;
    }
    assert paths[..i] == paths;
  }

  /** What a dispatched batch yields for its collected images. */
  ghost predicate DispatchedRun(run: BatchRun, request: BatchRequest, images: seq<Entry>, outputDir: string, ocr: (string, bool) -> Attempt) {
    var resp := run.response;
    && |resp.results| == |images| == resp.totalImages
    && resp.processed + resp.failed == resp.totalImages
    && resp.processed == CountSuccess(resp.results)
    && (forall i :: 0 <= i < |images| ==> resp.results[i] == ItemFor(images[i].path, ocr(images[i].path, request.saveAnnotated)))
    && (resp.success <==> resp.failed < resp.totalImages)
    && resp.folderPath == request.folderPath && resp.language == request.lang && resp.outputDir == outputDir
    && run.effects == [MadeBatchDir(outputDir),
                       SavedSummary(outputDir, Summary(request.folderPath, request.lang, resp.totalImages,
                                                       resp.processed, resp.failed, resp.results))]
  }

  /**
   * The part of `ocr_batch` after the gates: make the batch folder, run
   * every image, save the summary and answer with the counts.
   */
  method Dispatch(request: BatchRequest, paths: seq<Entry>, outputDir: string, ocr: (string, bool) -> Attempt) returns (run: BatchRun)
    ensures DispatchedRun(run, request, paths, outputDir, ocr)
  {
    var effects := [MadeBatchDir(outputDir)];
    var results, processed, failed := ProcessImages(paths, request.saveAnnotated, ocr);
    ItemsEach(paths, request.saveAnnotated, ocr);
    var total := |paths|;
    var summary := Summary(request.folderPath, request.lang, total, processed, failed, results);
    effects := effects + [SavedSummary(outputDir, summary)];
    var response := Response(failed < total, request.folderPath, request.lang, outputDir, total, processed, failed, results);
    run := BatchRun(response, effects);
  }

  /**
   * `ocr_batch`. `fs` is the server's file system, `exts`/`extOrder` the
   * supported extensions and their iteration order, `outputDir` the folder
   * `create_batch_output_dir` returns, and `ocr(path, saveAnnotated)` the
   * outcome of recognising and saving one image.
   */
  method OcrBatch(request: BatchRequest, fs: FileSystem, exts: set<string>, extOrder: seq<string>,
                  outputDir: string, ocr: (string, bool) -> Attempt)
    returns (r: Result<BatchRun, HttpError>, ghost images: seq<Entry>)
    requires (forall x :: x in extOrder <==> x in exts) && Distinct(extOrder)
    ensures request.lang !in SupportedLanguages ==>
              r == Err(HttpError(400, UnsupportedMessage(request.lang)))
    ensures request.lang in SupportedLanguages && Lookup(fs, request.folderPath).None? ==>
              r == Err(HttpError(404, "Folder not found: " + request.folderPath))
    ensures request.lang in SupportedLanguages && Lookup(fs, request.folderPath).Some?
            && Lookup(fs, request.folderPath).value.kind != Directory ==>
              r == Err(HttpError(400, "Not a directory: " + request.folderPath))
    ensures request.lang in SupportedLanguages && Lookup(fs, request.folderPath).Some?
            && Lookup(fs, request.folderPath).value.kind == Directory ==>
              images == FolderImages(fs, request.folderPath, request.recursive, extOrder)
              && (images == [] <==> r == Err(HttpError(400, "No supported image files found in folder: " + request.folderPath)))
              && (images != [] <==> r.Ok?)
    ensures r.Ok? ==> DispatchedRun(r.value, request, images, outputDir, ocr)
  {
    images := [];
    if request.lang !in SupportedLanguages {
      return Err(HttpError(400, UnsupportedMessage(request.lang))), images;
    }
    var folder := Lookup(fs, request.folderPath);
    if folder.None? {
      return Err(HttpError(404, "Folder not found: " + request.folderPath)), images;
    }
    if folder.value.kind != Directory {
      return Err(HttpError(400, "Not a directory: " + request.folderPath)), images;
    }
    var collected := CollectImages(fs, request.folderPath, request.recursive, exts, extOrder);
    // The two checks above leave nothing for collecting to refuse, so its `except` branch is never taken.
    assert collected.Ok?;
    var paths := collected.value;
    images := paths;
    if paths == [] {
      return Err(HttpError(400, "No supported image files found in folder: " + request.folderPath)), images;
    }
    var run := Dispatch(request, paths, outputDir, ocr);
    return Ok(run), images;
  }

  /** The response reports success exactly when at least one image was recognised. */
  lemma SuccessMeansSomeRecognised(run: BatchRun, request: BatchRequest, images: seq<Entry>, outputDir: string, ocr: (string, bool) -> Attempt)
    requires DispatchedRun(run, request, images, outputDir, ocr)
    ensures run.response.success <==> exists i :: 0 <= i < |images| && ocr(images[i].path, request.saveAnnotated).Recognized?
    ensures run.response.failed == 0 <==> forall i :: 0 <= i < |images| ==> ocr(images[i].path, request.saveAnnotated).Recognized?
  {
    var resp := run.response;
    CountSuccessBounds(resp.results);
    assert forall i :: 0 <= i < |images| ==> (resp.results[i].success <==> ocr(images[i].path, request.saveAnnotated).Recognized?);
  }
}
