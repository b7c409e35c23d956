/**
 * The service's settings: what the environment may set, the defaults and the
 * values derived from them, and the table of supported languages.
 */
module Config {
  import opened Wrappers
  import opened Text
  import opened Paths

  datatype LanguageInfo = LanguageInfo(name: string, script: string)

  /** The four languages the service recognises, keyed by language code. */
  const SupportedLanguages: map<string, LanguageInfo> := map[
    "hi" := LanguageInfo("Hindi", "Devanagari"),
    "mr" := LanguageInfo("Marathi", "Devanagari"),
    "te" := LanguageInfo("Telugu", "Telugu"),
    "ta" := LanguageInfo("Tamil", "Tamil")
  ]

  /** The language codes in the order the table lists them (and messages name them). */
  const SupportedCodes: seq<string> := ["hi", "mr", "te", "ta"]

  /** The listing order enumerates the table's keys exactly once each. */
  lemma SupportedCodesEnumerateTable()
    ensures forall c :: c in SupportedCodes <==> c in SupportedLanguages
    ensures forall i, j :: 0 <= i < j < |SupportedCodes| ==> SupportedCodes[i] != SupportedCodes[j]
    ensures Join(", ", SupportedCodes) == "hi, mr, te, ta"
  {
  }

  const DefaultOcrHost: string := "0.0.0.0"
  const DefaultOcrPort: int := 8111
  const DefaultLogLevel: string := "INFO"
  const DefaultMaxImageSizeMb: int := 50
  const DefaultSupportedExtensions: string := ".png,.jpg,.jpeg,.tiff,.tif,.bmp,.webp"
  const BytesPerMb: int := 1024 * 1024

  /** `max_image_size_mb * 1024 * 1024`; the bytes are whole megabytes and give the megabytes back. */
  function MbToBytes(mb: int): (bytes: int)
    ensures bytes % BytesPerMb == 0 && bytes / BytesPerMb == mb
    ensures mb >= 0 ==> bytes >= mb
  {
    mb * BytesPerMb
  }

  /** `{ext.strip().lower() for ext in s.split(",")}`. */
  function ExtensionSet(s: string): (r: set<string>)
    ensures forall p :: p in SplitOn(s, ',') ==> Lower(Strip(p)) in r
    ensures forall e :: e in r ==> exists p :: p in SplitOn(s, ',') && e == Lower(Strip(p))
  {
    set p | p in SplitOn(s, ',') :: Lower(Strip(p))
  }

  /** Every member of the set is stripped, lower case and free of commas. */
  lemma ExtensionSetClean(s: string)
    ensures forall e :: e in ExtensionSet(s) ==> Trimmed(e) && Lowered(e) && ',' !in e
  {
    forall e | e in ExtensionSet(s) ensures Trimmed(e) && Lowered(e) && ',' !in e {
      var p :| p in SplitOn(s, ',') && e == Lower(Strip(p));
      StripWithin(p);
      LowerKeeps(Strip(p));
      LowerLowered(Strip(p));
    }
  }

  /** A comma-joined list of clean extensions parses back to the set of its members. */
  lemma ExtensionSetOfList(exts: seq<string>)
    requires |exts| >= 1
    requires forall i :: 0 <= i < |exts| ==> Trimmed(exts[i]) && Lowered(exts[i]) && ',' !in exts[i]
    ensures ExtensionSet(Join([','], exts)) == set e | e in exts
  {
    SplitOnJoin(exts, ',');
    forall e | e in exts ensures Lower(Strip(e)) == e {
      LowerLowered(e);
    }
  }

  const DefaultExtensionList: seq<string> := [".png", ".jpg", ".jpeg", ".tiff", ".tif", ".bmp", ".webp"]

  lemma JoinCons(sep: string, x: string, rest: seq<string>)
    requires rest != []
    ensures Join(sep, [x] + rest) == x + sep + Join(sep, rest)
  {
    assert ([x] + rest)[1..] == rest;
  }

  lemma DefaultExtensionsJoined4()
    ensures Join([','], DefaultExtensionList[3..]) == ".tiff,.tif,.bmp,.webp"
  {
    assert DefaultExtensionList[3..] == [".tiff", ".tif", ".bmp", ".webp"];
    JoinCons([','], ".bmp", [".webp"]);
    JoinCons([','], ".tif", [".bmp", ".webp"]);
    JoinCons([','], ".tiff", [".tif", ".bmp", ".webp"]);
  }

  lemma DefaultExtensionsJoined2()
    ensures Join([','], DefaultExtensionList[1..]) == ".jpg,.jpeg,.tiff,.tif,.bmp,.webp"
  {
    var l := DefaultExtensionList;
    assert ".jpg,.jpeg,.tiff,.tif,.bmp,.webp" == ".jpg" + "," + (".jpeg" + "," + ".tiff,.tif,.bmp,.webp");
    DefaultExtensionsJoined4();
    assert l[2..] == [l[2]] + l[3..];
    JoinCons([','], ".jpeg", l[3..]);
    assert l[1..] == [l[1]] + l[2..];
    JoinCons([','], ".jpg", l[2..]);
  }

  lemma DefaultExtensionsFirst()
    ensures DefaultSupportedExtensions == ".png" + "," + ".jpg,.jpeg,.tiff,.tif,.bmp,.webp"
  {
  }

  lemma DefaultExtensionsJoined()
    ensures Join([','], DefaultExtensionList) == DefaultSupportedExtensions
  {
    var l := DefaultExtensionList;
    DefaultExtensionsFirst();
    DefaultExtensionsJoined2();
    assert l == [l[0]] + l[1..];
    JoinCons([','], ".png", l[1..]);
  }

  lemma DefaultExtensionsClean()
    ensures forall i :: 0 <= i < |DefaultExtensionList| ==>
              Trimmed(DefaultExtensionList[i]) && Lowered(DefaultExtensionList[i]) && ',' !in DefaultExtensionList[i]
  {
  }

  /** The default extensions are exactly the seven image suffixes. */
  lemma DefaultExtensionSet()
    ensures ExtensionSet(DefaultSupportedExtensions) == {".png", ".jpg", ".jpeg", ".tiff", ".tif", ".bmp", ".webp"}
  {
    DefaultExtensionsJoined();
    DefaultExtensionsClean();
    ExtensionSetOfList(DefaultExtensionList);
    assert (set e | e in DefaultExtensionList) == {".png", ".jpg", ".jpeg", ".tiff", ".tif", ".bmp", ".webp"};
  }

  /** The stripped, non-empty pieces of `parts`, in order. */
  function KeepStripped(parts: seq<string>): (r: seq<string>)
    ensures forall i :: 0 <= i < |r| ==> r[i] != "" && Trimmed(r[i])
    ensures |r| <= |parts|
  {
    if parts == [] then []
    else (if Strip(parts[0]) == "" then [] else [Strip(parts[0])]) + KeepStripped(parts[1..])
  }

  /** `preload_language_list`: nothing for a blank setting, else the stripped non-empty pieces. */
  function PreloadLanguages(s: string): (r: seq<string>)
    ensures forall i :: 0 <= i < |r| ==> r[i] != "" && Trimmed(r[i]) && ',' !in r[i]
    ensures AllSpace(s) ==> r == []
  {
    if Strip(s) == "" then []
    else
      var parts := SplitOn(s, ',');
      KeepStrippedWithout(parts, ',');
      KeepStripped(parts)
  }

  lemma {:induction false} KeepStrippedWithout(parts: seq<string>, c: char)
    requires forall i :: 0 <= i < |parts| ==> c !in parts[i]
    ensures forall i :: 0 <= i < |KeepStripped(parts)| ==> c !in KeepStripped(parts)[i]
    decreases |parts|
  {
    if parts != [] {
      StripWithin(parts[0]);
      KeepStrippedWithout(parts[1..], c);
    }
  }

  /** Pieces that are all whitespace leave nothing behind. */
  lemma {:induction false} KeepStrippedBlank(parts: seq<string>)
    requires forall i :: 0 <= i < |parts| ==> AllSpace(parts[i])
    ensures KeepStripped(parts) == []
    decreases |parts|
  {
    if parts != [] {
      KeepStrippedBlank(parts[1..]);
    }
  }

  /** The pieces of a string that is all whitespace are all whitespace. */
  lemma {:induction false} SplitOnBlank(s: string, sep: char)
    requires AllSpace(s)
    requires !IsSpace(sep)
    ensures forall i :: 0 <= i < |SplitOn(s, sep)| ==> AllSpace(SplitOn(s, sep)[i])
  {
    assert sep !in s;
  }

  /** The early return for a blank setting agrees with the general rule. */
  lemma PreloadLanguagesUniform(s: string)
    ensures PreloadLanguages(s) == KeepStripped(SplitOn(s, ','))
  {
    if Strip(s) == "" {
      SplitOnBlank(s, ',');
      KeepStrippedBlank(SplitOn(s, ','));
    }
  }

  /** A value is kept exactly when it is the stripped form of some piece that is not blank. */
  lemma {:induction false} KeepStrippedMembers(parts: seq<string>)
    ensures forall x :: x in KeepStripped(parts) <==> x != "" && exists p :: p in parts && Strip(p) == x
    decreases |parts|
  {
    if parts != [] {
      KeepStrippedMembers(parts[1..]);
      forall x ensures x in KeepStripped(parts) <==> x != "" && exists p :: p in parts && Strip(p) == x {
        if x != "" && exists p :: p in parts && Strip(p) == x {
          var p :| p in parts && Strip(p) == x;
          if p != parts[0] {
            assert p in parts[1..];
          }
        }
        if x in KeepStripped(parts[1..]) {
          var p :| p in parts[1..] && Strip(p) == x;
          assert p in parts;
        }
      }
    }
  }

  /** The kept pieces of a concatenation are those of each part in turn, so the input order is kept. */
  lemma {:induction false} KeepStrippedAppend(a: seq<string>, b: seq<string>)
    ensures KeepStripped(a + b) == KeepStripped(a) + KeepStripped(b)
    decreases |a|
  {
    if a != [] {
      var head := if Strip(a[0]) == "" then [] else [Strip(a[0])];
      assert (a + b)[0] == a[0];
      assert (a + b)[1..] == a[1..] + b;
      assert KeepStripped(a + b) == head + KeepStripped(a[1..] + b);
      assert KeepStripped(a) == head + KeepStripped(a[1..]);
      KeepStrippedAppend(a[1..], b);
    } else {
      assert a + b == b;
    }
  }

  /** The preload list holds exactly the stripped forms of the pieces between commas that are not blank. */
  lemma PreloadLanguagesMembers(s: string)
    ensures forall x :: x in PreloadLanguages(s) <==> x != "" && exists p :: p in SplitOn(s, ',') && Strip(p) == x
  {
    PreloadLanguagesUniform(s);
    KeepStrippedMembers(SplitOn(s, ','));
  }

  /** A code with one space on either side, as a hand-written setting spaces it. */
  function Pad(w: string): string {
    " " + w + " "
  }

  /** One space on each side of a trimmed word is stripped away. */
  lemma StripPadded(w: string)
    requires w != [] && Trimmed(w)
    ensures Strip(Pad(w)) == w
  {
    var l := TrimLeft(Pad(w));
    assert Pad(w)[1..] == w + " ";
    assert TrimLeft(w + " ") == w + " ";
    assert l == w + " ";
    assert (w + " ")[..|w|] == w;
    assert TrimRight(w) == w;
    assert TrimRight(w + " ") == w;
  }

  lemma PaddedSplit(w1: string, w2: string)
    requires ',' !in w1 && ',' !in w2
    ensures SplitOn(Pad(w1) + "," + Pad(w2), ',') == [Pad(w1), Pad(w2)]
  {
    assert ',' !in Pad(w1) && ',' !in Pad(w2);
    assert Join([','], [Pad(w1), Pad(w2)]) == Pad(w1) + "," + Pad(w2) by {
      JoinCons([','], Pad(w1), [Pad(w2)]);
    }
    SplitOnJoin([Pad(w1), Pad(w2)], ',');
  }

  lemma PaddedKeep(w1: string, w2: string)
    requires w1 != [] && Trimmed(w1) && w2 != [] && Trimmed(w2)
    ensures KeepStripped([Pad(w1), Pad(w2)]) == [w1, w2]
  {
    assert KeepStripped([Pad(w1)]) == [w1] by {
      StripPadded(w1);
    }
    assert KeepStripped([Pad(w2)]) == [w2] by {
      StripPadded(w2);
    }
    assert [Pad(w1), Pad(w2)] == [Pad(w1)] + [Pad(w2)];
    KeepStrippedAppend([Pad(w1)], [Pad(w2)]);
  }

  /** Spaces around the codes are dropped and their order is kept: " hi , mr " gives ["hi", "mr"]. */
  lemma PaddedCodesParsed(w1: string, w2: string)
    requires w1 != [] && Trimmed(w1) && ',' !in w1
    requires w2 != [] && Trimmed(w2) && ',' !in w2
    ensures PreloadLanguages(Pad(w1) + "," + Pad(w2)) == [w1, w2]
  {
    PaddedSplit(w1, w2);
    PaddedKeep(w1, w2);
    PreloadLanguagesUniform(Pad(w1) + "," + Pad(w2));
  }

  /** Clean codes joined by commas parse back to the same list. */
  lemma {:induction false} KeepStrippedClean(codes: seq<string>)
    requires forall i :: 0 <= i < |codes| ==> codes[i] != "" && Trimmed(codes[i])
    ensures KeepStripped(codes) == codes
    decreases |codes|
  {
    if codes != [] {
      KeepStrippedClean(codes[1..]);
      HeadTail(codes);
    }
  }

  lemma PreloadLanguagesOfList(codes: seq<string>)
    requires |codes| >= 1
    requires forall i :: 0 <= i < |codes| ==> codes[i] != "" && Trimmed(codes[i]) && ',' !in codes[i]
    ensures PreloadLanguages(Join([','], codes)) == codes
  {
    SplitOnJoin(codes, ',');
    KeepStrippedClean(codes);
    PreloadLanguagesUniform(Join([','], codes));
  }

  /**
   * A blank entry between commas becomes the empty extension in the set,
   * while the preload list drops it.
   */
  lemma BlankEntryKept(s: string)
    requires exists p :: p in SplitOn(s, ',') && AllSpace(p)
    ensures "" in ExtensionSet(s)
    ensures "" !in PreloadLanguages(s)
  {
    var p :| p in SplitOn(s, ',') && AllSpace(p);
    assert Lower(Strip(p)) == "";
  }

  /** What the process environment (or `.env`) sets; `None` leaves the default. */
  datatype Environment = Environment(
    homeDir: string,
    ocrOutputBase: Option<string>,
    ocrInputBase: Option<string>,
    ocrHost: Option<string>,
    ocrPort: Option<int>,
    logLevel: Option<string>,
    preloadLanguages: Option<string>,
    maxImageSizeMb: Option<int>,
    supportedExtensions: Option<string>)

  class Settings {
    var homeDir: string
    var ocrOutputBase: string
    var ocrInputBase: string
    var ocrHost: string
    var ocrPort: int
    var logLevel: string
    var preloadLanguages: string
    var maxImageSizeMb: int
    var supportedExtensions: string

    /** The fields take the environment's values or their defaults; empty bases derive from the home directory. */
    constructor (env: Environment)
      ensures homeDir == env.homeDir
      ensures ocrOutputBase == (if env.ocrOutputBase.GetOr("") == "" then env.homeDir + "/outputs/ocr" else env.ocrOutputBase.GetOr(""))
      ensures ocrInputBase == (if env.ocrInputBase.GetOr("") == "" then env.homeDir + "/resources/ocr_inputs" else env.ocrInputBase.GetOr(""))
      ensures ocrHost == env.ocrHost.GetOr(DefaultOcrHost)
      ensures ocrPort == env.ocrPort.GetOr(DefaultOcrPort)
      ensures logLevel == env.logLevel.GetOr(DefaultLogLevel)
      ensures preloadLanguages == env.preloadLanguages.GetOr("")
      ensures maxImageSizeMb == env.maxImageSizeMb.GetOr(DefaultMaxImageSizeMb)
      ensures supportedExtensions == env.supportedExtensions.GetOr(DefaultSupportedExtensions)
      ensures BasesSet()
    {
      homeDir := env.homeDir;
      ocrOutputBase := env.ocrOutputBase.GetOr("");
      ocrInputBase := env.ocrInputBase.GetOr("");
      ocrHost := env.ocrHost.GetOr(DefaultOcrHost);
      ocrPort := env.ocrPort.GetOr(DefaultOcrPort);
      logLevel := env.logLevel.GetOr(DefaultLogLevel);
      preloadLanguages := env.preloadLanguages.GetOr("");
      maxImageSizeMb := env.maxImageSizeMb.GetOr(DefaultMaxImageSizeMb);
      supportedExtensions := env.supportedExtensions.GetOr(DefaultSupportedExtensions);
      new;
      if ocrOutputBase == "" {
        ocrOutputBase := homeDir + "/outputs/ocr";
      }
      if ocrInputBase == "" {
        ocrInputBase := homeDir + "/resources/ocr_inputs";
      }
    }

    /** After construction neither base directory is empty. */
    predicate BasesSet()
      reads this
    {
      ocrOutputBase != "" && ocrInputBase != ""
    }

    function MaxImageSizeBytes(): (bytes: int)
      reads this
      ensures bytes / BytesPerMb == maxImageSizeMb && bytes % BytesPerMb == 0
    {
      MbToBytes(maxImageSizeMb)
    }

    function SupportedExtSet(): (r: set<string>)
      reads this
      ensures supportedExtensions == DefaultSupportedExtensions ==>
                r == {".png", ".jpg", ".jpeg", ".tiff", ".tif", ".bmp", ".webp"}
    {
      DefaultExtensionSet();
      ExtensionSet(supportedExtensions)
    }

    function PreloadLanguageList(): (r: seq<string>)
      reads this
      ensures forall i :: 0 <= i < |r| ==> r[i] != "" && Trimmed(r[i]) && ',' !in r[i]
      ensures forall x :: x in r <==> x != "" && exists p :: p in SplitOn(preloadLanguages, ',') && Strip(p) == x
    {
      PreloadLanguagesMembers(preloadLanguages);
      PreloadLanguages(preloadLanguages)
    }

    /** `Path(ocr_output_base) / "single"`. */
    function SingleOutputDir(): (r: string)
      reads this
      ensures Name(r) == "single"
    {
      JoinPathName(ocrOutputBase, "single");
      JoinPath(ocrOutputBase, "single")
    }

    /** `Path(ocr_output_base) / "batch"`. */
    function BatchOutputDir(): (r: string)
      reads this
      ensures Name(r) == "batch"
      ensures r != SingleOutputDir()
    {
      JoinPathName(ocrOutputBase, "batch");
      OutputDirsDiffer(ocrOutputBase);
      JoinPath(ocrOutputBase, "batch")
    }
  }

  /** The batch and the single-image folders under one base are different folders. */
  lemma OutputDirsDiffer(base: string)
    ensures JoinPath(base, "batch") != JoinPath(base, "single")
  {
    JoinPathName(base, "batch");
    JoinPathName(base, "single");
    assert "batch"[0] != "single"[0];
    DistinctNames(JoinPath(base, "batch"), JoinPath(base, "single"));
  }
}
