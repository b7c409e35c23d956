/**
 * The language-keyed cache of recognition engines, and the assembly of the
 * engine's parallel output arrays (texts, scores, polygons) into text
 * regions and a newline-joined full text. The engine's inference and its
 * artifact writers are outside the model: their outputs are parameters.
 */
module OcrEngine {
  import opened Wrappers
  import opened Text
  import opened Config

  /** A recognition engine loaded for one language. */
  class Engine {
    const lang: string

    constructor (lang: string)
      ensures this.lang == lang
    {
      this.lang := lang;
    }
  }

  datatype EngineError = UnsupportedLanguage(lang: string)

  /** The text of the `ValueError` for an unknown language code. */
  function UnsupportedMessage(lang: string): (m: string)
    ensures m == "Unsupported language '" + lang + "'. Supported: hi, mr, te, ta"
  {
    SupportedCodesEnumerateTable();
    "Unsupported language '" + lang + "'. Supported: " + Join(", ", SupportedCodes)
  }

  /**
   * `OCREngineManager`: one engine per supported language, created on first
   * use. `order` is the insertion order of the dictionary's keys and `loads`
   * counts the engine constructions.
   */
  class EngineManager {
    var engines: map<string, Engine>
    var order: seq<string>
    var loads: nat

    /** Only supported codes are cached, each with an engine built for it, each loaded once. */
    ghost predicate Valid()
      reads this
    {
      && (forall l :: l in engines ==> l in SupportedLanguages && engines[l].lang == l)
      && (forall l :: l in order <==> l in engines)
      && (forall i, j :: 0 <= i < j < |order| ==> order[i] != order[j])
      && loads == |order|
    }

    constructor ()
      ensures Valid() && engines == map[] && order == [] && loads == 0
    {
      engines := map[];
      order := [];
      loads := 0;
    }

    /**
     * `get_engine`: an unknown code is refused and nothing is cached; a cached
     * code returns the same engine without loading; otherwise one new engine is
     * built, cached and returned.
     */
    method GetEngine(lang: string) returns (r: Result<Engine, EngineError>)
      requires Valid()
      modifies this
      ensures Valid()
      ensures lang !in SupportedLanguages ==>
                r == Err(UnsupportedLanguage(lang)) && engines == old(engines) && order == old(order) && loads == old(loads)
      ensures lang in SupportedLanguages && lang in old(engines) ==>
                r == Ok(old(engines)[lang]) && engines == old(engines) && order == old(order) && loads == old(loads)
      ensures lang in SupportedLanguages && lang !in old(engines) ==>
                && r.Ok? && fresh(r.value) && r.value.lang == lang
                && engines == old(engines)[lang := r.value] && order == old(order) + [lang] && loads == old(loads) + 1
      ensures r.Ok? ==> lang in engines && engines[lang] == r.value
    {
      if lang !in SupportedLanguages {
        return Err(UnsupportedLanguage(lang));
      }
      if lang !in engines {
        var e := new Engine(lang);
        engines := engines[lang := e];
        order := order + [lang];
        loads := loads + 1;
      }
      return Ok(engines[lang]);
    }

    /** `loaded_languages`: the cached codes in the order they were loaded. */
    function LoadedLanguages(): (r: seq<string>)
      reads this
      ensures Valid() ==> forall l :: l in r <==> l in engines
      ensures Valid() ==> |r| == loads
    {
      order
    }

    /**
     * What `preload` has achieved after the first `i` codes of `langs`: the
     * supported ones among them are cached, every engine cached before is
     * still cached unchanged, nothing else was added, and the load order only
     * grew at its end.
     */
    ghost predicate PreloadedPrefix(langs: seq<string>, i: nat, before: map<string, Engine>, beforeOrder: seq<string>)
      reads this
    {
      && i <= |langs|
      && Valid()
      && (forall l :: l in langs[..i] && l in SupportedLanguages ==> l in engines)
      && (forall l :: l in before ==> l in engines && engines[l] == before[l])
      && (forall l :: l in engines ==> l in before || l in langs[..i])
      && beforeOrder <= order
    }

    /** One iteration of `preload`: loads `langs[i]` when it is supported. */
    method PreloadStep(langs: seq<string>, i: nat, ghost before: map<string, Engine>, ghost beforeOrder: seq<string>)
      requires i < |langs|
      requires PreloadedPrefix(langs, i, before, beforeOrder)
      modifies this
      ensures PreloadedPrefix(langs, i + 1, before, beforeOrder)
    {
      assert langs[..i + 1] == langs[..i] + [langs[i]];
      if langs[i] in SupportedLanguages {
        var _ := GetEngine(langs[i]);
      }
    }

    /**
     * `preload`: loads every supported code of `langs` and skips the others;
     * engines already cached stay as they were.
     */
    method Preload(langs: seq<string>)
      requires Valid()
      modifies this
      ensures Valid()
      ensures forall l :: l in langs && l in SupportedLanguages ==> l in engines
      ensures forall l :: l in old(engines) ==> l in engines && engines[l] == old(engines)[l]
      ensures forall l :: l in engines ==> l in old(engines) || l in langs
      ensures old(order) <= order
    {
      assert langs[..0] == [];
      var i := 0;
      while i < |langs|
        invariant PreloadedPrefix(langs, i, old(engines), old(order))
      {
        PreloadStep(langs, i, old(engines), old(order));
        i := i + 1;
      }
      assert langs[..i] == langs;
    }
  }

  /** A vertex of a detected text polygon, in pixels. */
  datatype Point = Point(x: int, y: int)

  type Polygon = seq<Point>

  /** One recognised region as the service reports it. */
  datatype Region = Region(text: string, confidence: real, boundingBox: Polygon)

  /** The regions and their texts joined with newlines. */
  datatype OcrOutput = OcrOutput(results: seq<Region>, fullText: string)

  /** One result object of the engine; an attribute it lacks is `None` and reads as empty. */
  datatype Prediction = Prediction(recTexts: Option<seq<string>>, recScores: Option<seq<real>>, dtPolys: Option<seq<Polygon>>)

  /** A text is kept when `text.strip()` is non-empty, that is when it is not all whitespace. */
  predicate Kept(text: string) {
    !AllSpace(text)
  }

  /** The region for index `i`: a missing score reads 0.0, a missing polygon the empty box. */
  function RegionAt(texts: seq<string>, scores: seq<real>, polys: seq<Polygon>, i: nat): (r: Region)
    requires i < |texts|
    ensures r.text == texts[i]
    ensures i >= |scores| ==> r.confidence == 0.0
    ensures i < |scores| ==> r.confidence == scores[i]
    ensures i >= |polys| ==> r.boundingBox == []
    ensures i < |polys| ==> r.boundingBox == polys[i]
  {
    Region(texts[i], if i < |scores| then scores[i] else 0.0, if i < |polys| then polys[i] else [])
  }

  /** The candidate regions, one per text, in index order. */
  function Candidates(texts: seq<string>, scores: seq<real>, polys: seq<Polygon>): (c: seq<Region>)
    ensures |c| == |texts|
    ensures forall i :: 0 <= i < |texts| ==> c[i] == RegionAt(texts, scores, polys, i)
  {
    seq(|texts|, i requires 0 <= i < |texts| => RegionAt(texts, scores, polys, i))
  }

  /** The regions whose text is kept, in their original order. */
  function KeepRegions(c: seq<Region>): seq<Region> {
    if c == [] then [] else (if Kept(c[0].text) then [c[0]] else []) + KeepRegions(c[1..])
  }

  function Texts(rs: seq<Region>): (ts: seq<string>)
    ensures |ts| == |rs| && forall i :: 0 <= i < |rs| ==> ts[i] == rs[i].text
  {
    seq(|rs|, i requires 0 <= i < |rs| => rs[i].text)
  }

  lemma TextsSnoc(rs: seq<Region>, r: Region)
    ensures Texts(rs + [r]) == Texts(rs) + [r.text]
  {
  }

  lemma TextsAppend(rs: seq<Region>, more: seq<Region>)
    ensures Texts(rs + more) == Texts(rs) + Texts(more)
  {
  }

  /** The regions of one prediction: its kept candidates. */
  function PredictionRegions(p: Prediction): seq<Region> {
    KeepRegions(Candidates(p.recTexts.GetOr([]), p.recScores.GetOr([]), p.dtPolys.GetOr([])))
  }

  /** The regions of all predictions, prediction after prediction. */
  function AllRegions(ps: seq<Prediction>): seq<Region>
    decreases |ps|
  {
    if ps == [] then [] else AllRegions(ps[..|ps| - 1]) + PredictionRegions(ps[|ps| - 1])
  }

  /** The output the region loops produce from a list of regions. */
  function Assembled(rs: seq<Region>): (out: OcrOutput) {
    OcrOutput(rs, Join("\n", Texts(rs)))
  }

  lemma {:induction false} KeepRegionsSnoc(c: seq<Region>, r: Region)
    ensures KeepRegions(c + [r]) == KeepRegions(c) + (if Kept(r.text) then [r] else [])
    decreases |c|
  {
    if c != [] {
      assert (c + [r])[1..] == c[1..] + [r];
      KeepRegionsSnoc(c[1..], r);
    }
  }

  /** Only regions with a non-blank text are kept, none is invented, and the order is the input's. */
  lemma {:induction false} KeepRegionsCorrect(c: seq<Region>)
    ensures forall r :: r in KeepRegions(c) <==> r in c && Kept(r.text)
    ensures |KeepRegions(c)| <= |c|
    ensures (forall i :: 0 <= i < |c| ==> Kept(c[i].text)) ==> KeepRegions(c) == c
    ensures (forall i :: 0 <= i < |c| ==> !Kept(c[i].text)) ==> KeepRegions(c) == []
    decreases |c|
  {
    if c != [] {
      KeepRegionsCorrect(c[1..]);
      HeadTail(c);
    }
  }

  /** Keeping is idempotent: the result holds no blank text to drop. */
  lemma {:induction false} KeepRegionsIdempotent(c: seq<Region>)
    ensures KeepRegions(KeepRegions(c)) == KeepRegions(c)
    decreases |c|
  {
    if c != [] {
      var k := KeepRegions(c[1..]);
      KeepRegionsIdempotent(c[1..]);
      if Kept(c[0].text) {
        var kc := [c[0]] + k;
        assert kc[0] == c[0] && kc[1..] == k;
        assert KeepRegions(kc) == [c[0]] + KeepRegions(k);
        assert KeepRegions(c) == kc;
      } else {
        assert KeepRegions(c) == [] + k;
        assert [] + k == k;
      }
    }
  }

  /**
   * The region loop over one set of parallel arrays: each non-blank text in
   * index order becomes a region, and its text a line.
   */
  method CollectRegions(texts: seq<string>, scores: seq<real>, polys: seq<Polygon>)
    returns (results: seq<Region>, lines: seq<string>)
    ensures results == KeepRegions(Candidates(texts, scores, polys))
    ensures lines == Texts(results)
  {
    results := [];
    lines := [];
    ghost var c := Candidates(texts, scores, polys);
    var i := 0;
    while i < |texts|
      invariant 0 <= i <= |texts|
      invariant results == KeepRegions(c[..i])
      invariant lines == Texts(results)
    {
      assert c[..i + 1] == c[..i] + [c[i]];
      KeepRegionsSnoc(c[..i], c[i]);
      var text := texts[i];
      assert c[i] == RegionAt(texts, scores, polys, i);
      if Strip(text) != "" {
        var score := if i < |scores| then scores[i] else 0.0;
        var bbox := if i < |polys| then polys[i] else [];
        assert Region(text, score, bbox) == c[i];
        TextsSnoc(results, c[i]);
        results := results + [Region(text, score, bbox)];
        lines := lines + [text];
      }
      i := i + 1;
    }
    assert c[..i] == c;
  }

  /** The prediction loop of `run_ocr`. */
  method AssembleRegions(predictions: seq<Prediction>) returns (out: OcrOutput)
    ensures out == Assembled(AllRegions(predictions))
  {
    var results: seq<Region> := [];
    var lines: seq<string> := [];
    var k := 0;
    while k < |predictions|
      invariant 0 <= k <= |predictions|
      invariant results == AllRegions(predictions[..k])
      invariant lines == Texts(results)
    {
      assert predictions[..k + 1][..k] == predictions[..k];
      var p := predictions[k];
      var rs, ls := CollectRegions(p.recTexts.GetOr([]), p.recScores.GetOr([]), p.dtPolys.GetOr([]));
      TextsAppend(results, rs);
      results := results + rs;
      lines := lines + ls;
      k := k + 1;
    }
    assert predictions[..k] == predictions;
    out := OcrOutput(results, Join("\n", lines));
  }

  /**
   * `run_ocr`: fetch (or load) the engine, then assemble what it predicted for
   * the image. An unknown code is refused before anything is predicted.
   */
  method RunOcr(m: EngineManager, lang: string, predictions: seq<Prediction>) returns (r: Result<OcrOutput, EngineError>)
    requires m.Valid()
    modifies m
    ensures m.Valid()
    ensures lang !in SupportedLanguages <==> r == Err(UnsupportedLanguage(lang))
    ensures r.Ok? ==> r.value == Assembled(AllRegions(predictions)) && lang in m.engines
    ensures r.Err? || lang in old(m.engines) ==> m.engines == old(m.engines) && m.order == old(m.order) && m.loads == old(m.loads)
    ensures r.Ok? && lang !in old(m.engines) ==>
              && m.engines == old(m.engines)[lang := m.engines[lang]] && m.engines[lang].lang == lang
              && m.order == old(m.order) + [lang] && m.loads == old(m.loads) + 1
  {
    var e := m.GetEngine(lang);
    if e.Err? {
      return Err(e.error);
    }
    var out := AssembleRegions(predictions);
    return Ok(out);
  }

  /** A `*_res.json` document the engine saved; an absent key reads as empty. */
  datatype SavedJson = SavedJson(recTexts: Option<seq<string>>, recScores: Option<seq<real>>, recPolys: Option<seq<Polygon>>)

  /**
   * `_extract_results_from_saved_json`: `files` lists the `*_res.json` files
   * found, each as its parsed content or `None` when reading or parsing fails.
   * Only the first file is read.
   */
  method ExtractFromSavedJson(files: seq<Option<SavedJson>>) returns (out: OcrOutput)
    ensures files == [] ==> out == OcrOutput([], "")
    ensures files != [] && files[0].None? ==> out == OcrOutput([], "")
    ensures files != [] && files[0].Some? ==>
              var d := files[0].value;
              out == Assembled(KeepRegions(Candidates(d.recTexts.GetOr([]), d.recScores.GetOr([]), d.recPolys.GetOr([]))))
  {
    if files == [] {
      return OcrOutput([], "");
    }
    if files[0].None? {
      return OcrOutput([], "");
    }
    var d := files[0].value;
    var results, lines := CollectRegions(d.recTexts.GetOr([]), d.recScores.GetOr([]), d.recPolys.GetOr([]));
    out := OcrOutput(results, Join("\n", lines));
  }

  /**
   * `run_ocr_and_save_annotated`: fetch the engine, let it save its artifacts
   * (`saved` is what the output folder then holds), and read the results back
   * from the saved document rather than from the predictions.
   */
  method RunOcrAndSaveAnnotated(m: EngineManager, lang: string, saved: seq<Option<SavedJson>>) returns (r: Result<OcrOutput, EngineError>)
    requires m.Valid()
    modifies m
    ensures m.Valid()
    ensures lang !in SupportedLanguages <==> r == Err(UnsupportedLanguage(lang))
    ensures r.Ok? ==> lang in m.engines
    ensures r.Err? || lang in old(m.engines) ==> m.engines == old(m.engines) && m.order == old(m.order) && m.loads == old(m.loads)
    ensures r.Ok? && lang !in old(m.engines) ==>
              && m.engines == old(m.engines)[lang := m.engines[lang]] && m.engines[lang].lang == lang
              && m.order == old(m.order) + [lang] && m.loads == old(m.loads) + 1
    ensures r.Ok? && (saved == [] || saved[0].None?) ==> r.value == OcrOutput([], "")
    ensures r.Ok? && saved != [] && saved[0].Some? ==>
              var d := saved[0].value;
              r.value == Assembled(KeepRegions(Candidates(d.recTexts.GetOr([]), d.recScores.GetOr([]), d.recPolys.GetOr([]))))
  {
    var e := m.GetEngine(lang);
    if e.Err? {
      return Err(e.error);
    }
    var out := ExtractFromSavedJson(saved);
    return Ok(out);
  }

  /**
   * The full text has one line per region: when no kept text holds a line
   * feed, splitting the full text at line feeds gives the region texts back;
   * with no region the full text is empty.
   */
  lemma FullTextLines(rs: seq<Region>)
    requires forall i :: 0 <= i < |rs| ==> '\n' !in rs[i].text
    ensures rs == [] ==> Assembled(rs).fullText == ""
    ensures rs != [] ==> SplitOn(Assembled(rs).fullText, '\n') == Texts(rs)
    ensures rs != [] ==> |SplitOn(Assembled(rs).fullText, '\n')| == |Assembled(rs).results|
  {
    if rs != [] {
      SplitOnJoin(Texts(rs), '\n');
    }
  }

  /** Every assembled region has a non-blank text taken from some prediction. */
  lemma {:induction false} AllRegionsKept(ps: seq<Prediction>)
    ensures forall r :: r in AllRegions(ps) ==> Kept(r.text)
    decreases |ps|
  {
    if ps != [] {
      AllRegionsKept(ps[..|ps| - 1]);
      KeepRegionsCorrect(Candidates(ps[|ps| - 1].recTexts.GetOr([]), ps[|ps| - 1].recScores.GetOr([]), ps[|ps| - 1].dtPolys.GetOr([])));
    }
  }
}
