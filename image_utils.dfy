/**
 * Checks applied to an uploaded image or a file on disk, and the listing of
 * the supported images in a folder. The limits come from the settings: the
 * size limit in megabytes and the set of supported extensions.
 */
module ImageUtils {
  import opened Wrappers
  import opened Text
  import opened Paths
  import opened Sorting
  import opened Config
  import opened Lists

  /** Why an image or folder was refused (the exception the source raises). */
  datatype ImageError =
    | SizeExceeded(size: nat, limitMb: int)   // ValueError: file size exceeds the limit
    | UnsupportedExtension(ext: string)       // ValueError: extension not in the supported set
    | InvalidImage                            // ValueError: the image library could not verify the data
    | ImageNotFound(path: string)             // FileNotFoundError for an image path
    | NotAFile(path: string)                  // ValueError for an image path that is not a regular file
    | FolderNotFound(path: string)            // FileNotFoundError for a folder
    | NotADirectory(path: string)             // ValueError for a folder that is not a directory

  /** `str(e)` for the errors whose text a caller passes on unchanged. */
  function Message(e: ImageError): (m: string)
    ensures e.FolderNotFound? ==> m == "Folder not found: " + e.path
    ensures e.NotADirectory? ==> m == "Not a directory: " + e.path
    ensures e.ImageNotFound? ==> m == "Image file not found: " + e.path
    ensures e.NotAFile? ==> m == "Not a file: " + e.path
  {
    match e
    case FolderNotFound(p) => "Folder not found: " + p
    case NotADirectory(p) => "Not a directory: " + p
    case ImageNotFound(p) => "Image file not found: " + p
    case NotAFile(p) => "Not a file: " + p
    case SizeExceeded(_, mb) => "File size exceeds limit"
    case UnsupportedExtension(ext) => "Unsupported file extension '" + ext + "'"
    case InvalidImage => "Invalid or corrupt image file"
  }

  /** `Path(name).suffix.lower()`: the extension the checks compare, whatever its case. */
  function Extension(path: string): (ext: string)
    ensures Lowered(ext)
    ensures |ext| == |Suffix(Name(path))|
  {
    LowerLowered(Suffix(Name(path)));
    Lower(Suffix(Name(path)))
  }

  /**
   * `validate_image_bytes`: size first, then extension, then whether the image
   * library can verify the data (`decodes`, an opaque verdict on the bytes).
   */
  function ValidateImageBytes(dataLen: nat, filename: string, maxMb: int, exts: set<string>, decodes: bool): (r: Result<bool, ImageError>)
    ensures r.Ok? ==> r.value
    ensures r.Ok? <==> dataLen <= MbToBytes(maxMb) && Extension(filename) in exts && decodes
    ensures r.Err? && r.error.SizeExceeded? <==> dataLen > MbToBytes(maxMb)
    ensures r.Err? && r.error.UnsupportedExtension? <==>
              dataLen <= MbToBytes(maxMb) && Extension(filename) !in exts
    ensures r.Err? ==> r.error.SizeExceeded? || r.error.UnsupportedExtension? || r.error.InvalidImage?
  {
    if dataLen > MbToBytes(maxMb) then Err(SizeExceeded(dataLen, maxMb))
    else if Extension(filename) !in exts then Err(UnsupportedExtension(Extension(filename)))
    else if !decodes then Err(InvalidImage)
    else Ok(true)
  }

  /** The size check comes first: an oversized upload is refused for size whatever its name and content. */
  lemma OversizeWinsOverEverything(dataLen: nat, f1: string, f2: string, maxMb: int, exts: set<string>, d1: bool, d2: bool)
    requires dataLen > MbToBytes(maxMb)
    ensures ValidateImageBytes(dataLen, f1, maxMb, exts, d1) == ValidateImageBytes(dataLen, f2, maxMb, exts, d2)
    ensures ValidateImageBytes(dataLen, f1, maxMb, exts, d1) == Err(SizeExceeded(dataLen, maxMb))
  {
  }

  /** Data of exactly the limit passes the size check. */
  lemma ExactLimitPassesSize(maxMb: nat, filename: string, exts: set<string>, decodes: bool)
    ensures !ValidateImageBytes(MbToBytes(maxMb), filename, maxMb, exts, decodes).Err?
         || !ValidateImageBytes(MbToBytes(maxMb), filename, maxMb, exts, decodes).error.SizeExceeded?
  {
  }

  lemma LowerSlice(s: string, i: nat, j: nat)
    requires i <= j <= |s|
    ensures Lower(s[i..j]) == Lower(s)[i..j]
  {
  }

  /** Lowering moves neither slashes nor dots. */
  lemma {:induction false} RFindLower(s: string, c: char)
    requires !('A' <= c <= 'Z') && !('a' <= c <= 'z')
    ensures RFind(Lower(s), c) == RFind(s, c)
    decreases |s|
  {
    if s != [] {
      LowerSlice(s, 0, |s| - 1);
      RFindLower(s[..|s| - 1], c);
    }
  }

  lemma {:induction false} DropTrailingSlashesLower(s: string)
    ensures DropTrailingSlashes(Lower(s)) == Lower(DropTrailingSlashes(s))
    decreases |s|
  {
    if s != [] && s[|s| - 1] == '/' {
      LowerSlice(s, 0, |s| - 1);
      DropTrailingSlashesLower(s[..|s| - 1]);
    }
  }

  lemma {:induction false} LastComponentLower(q: string)
    ensures LastComponent(Lower(q)) == Lower(LastComponent(q))
    decreases |q|
  {
    if q != [] {
      LowerSlice(q, 0, |q| - 1);
      LastComponentLower(q[..|q| - 1]);
    }
  }

  lemma NameLower(p: string)
    ensures Name(Lower(p)) == Lower(Name(p))
  {
    DropTrailingSlashesLower(p);
    LastComponentLower(DropTrailingSlashes(p));
  }

  lemma SuffixLower(name: string)
    ensures Suffix(Lower(name)) == Lower(Suffix(name))
  {
    RFindLower(name, '.');
    var i := RFind(name, '.');
    if 0 < i < |name| - 1 {
      LowerSlice(name, i, |name|);
    }
  }

  /** The extension test ignores case: a name and its lower-case spelling have the same extension. */
  lemma ExtensionCaseInsensitive(path: string)
    ensures Extension(Lower(path)) == Extension(path)
  {
    NameLower(path);
    SuffixLower(Name(path));
  }

  /** Hence two paths that differ only in letter case pass or fail the extension test together. */
  lemma SameExtensionUpToCase(p: string, q: string)
    requires Lower(p) == Lower(q)
    ensures Extension(p) == Extension(q)
  {
    ExtensionCaseInsensitive(p);
    ExtensionCaseInsensitive(q);
  }

  /** `validate_image_path`: existence, then file type, then extension (refused quietly), then size. */
  function ValidateImagePath(fs: FileSystem, path: string, maxMb: int, exts: set<string>): (r: Result<bool, ImageError>)
    ensures Lookup(fs, path).None? <==> r == Err(ImageNotFound(Canonical(path)))
    ensures r == Err(NotAFile(Canonical(path))) <==> Lookup(fs, path).Some? && Lookup(fs, path).value.kind != File
    ensures r == Ok(false) <==>
              Lookup(fs, path).Some? && Lookup(fs, path).value.kind == File && Extension(path) !in exts
    ensures r == Ok(true) <==>
              Lookup(fs, path).Some? && Lookup(fs, path).value.kind == File && Extension(path) in exts
              && Lookup(fs, path).value.size <= MbToBytes(maxMb)
    ensures r.Err? && r.error.SizeExceeded? ==> r.error.size > MbToBytes(maxMb) && r.error.limitMb == maxMb
  {
    match Lookup(fs, path)
    case None => Err(ImageNotFound(Canonical(path)))
    case Some(entry) =>
      if entry.kind != File then Err(NotAFile(Canonical(path)))
      else if Extension(path) !in exts then Ok(false)
      else if entry.size > MbToBytes(maxMb) then Err(SizeExceeded(entry.size, maxMb))
      else Ok(true)
  }

  /** An unsupported extension never raises: only a missing path, a non-file or an oversized file do. */
  lemma ValidatePathRaisesOnlyFor(fs: FileSystem, path: string, maxMb: int, exts: set<string>)
    ensures var r := ValidateImagePath(fs, path, maxMb, exts);
            r.Err? ==> r.error.ImageNotFound? || r.error.NotAFile? || (r.error.SizeExceeded? && Extension(path) in exts)
  {
  }

  /** `folder.glob("*" + ext)` over one listing: the entries whose name ends with `ext`, in listing order. */
  function Glob(listing: seq<Entry>, ext: string): (r: seq<Entry>)
    ensures forall e :: e in r <==> e in listing && EndsWith(Name(e.path), ext)
    ensures |r| <= |listing|
  {
    if listing == [] then []
    else (if EndsWith(Name(listing[0].path), ext) then [listing[0]] else []) + Glob(listing[1..], ext)
  }

  /** The matches of every extension, extension after extension, as the loop extends its list. */
  function Globbed(listing: seq<Entry>, extOrder: seq<string>): seq<Entry>
    decreases |extOrder|
  {
    if extOrder == [] then []
    else Globbed(listing, extOrder[..|extOrder| - 1]) + Glob(listing, extOrder[|extOrder| - 1])
  }

  /** An entry is globbed exactly when its name ends with one of the extensions. */
  lemma {:induction false} GlobbedMembers(listing: seq<Entry>, extOrder: seq<string>)
    ensures forall e :: e in Globbed(listing, extOrder) <==>
              e in listing && exists x :: x in extOrder && EndsWith(Name(e.path), x)
    decreases |extOrder|
  {
    if extOrder != [] {
      var init := extOrder[..|extOrder| - 1];
      var last := extOrder[|extOrder| - 1];
      GlobbedMembers(listing, init);
      assert extOrder == init + [last];
      forall e | e in listing && (exists x :: x in extOrder && EndsWith(Name(e.path), x))
        ensures e in Globbed(listing, extOrder)
      {
        var x :| x in extOrder && EndsWith(Name(e.path), x);
        if x != last {
          assert x in init;
        }
      }
    }
  }

  /** What `glob` (`recursive` false) or `rglob` (`recursive` true) searches. */
  function Listing(fs: FileSystem, folder: string, recursive: bool): (r: seq<Entry>)
    ensures forall e :: e in r <==> e in fs && (if recursive then IsBelow(e.path, folder) else IsChildOf(e.path, folder))
  {
    if recursive then Below(fs, folder) else Children(fs, folder)
  }

  /** The sort key `p.name.lower()`. */
  function LowerName(e: Entry): string {
    Lower(Name(e.path))
  }

  /** The images of a folder: the entries of the listing that match some extension, by lowered name. */
  function FolderImages(fs: FileSystem, folder: string, recursive: bool, extOrder: seq<string>): seq<Entry> {
    SortBy(Globbed(Listing(fs, folder, recursive), extOrder), KeyLe(LowerName))
  }

  /**
   * `collect_images_from_folder`. `extOrder` is the order in which iterating
   * the supported set yields its members.
   */
  method CollectImages(fs: FileSystem, folder: string, recursive: bool, exts: set<string>, extOrder: seq<string>)
    returns (r: Result<seq<Entry>, ImageError>)
    requires (forall x :: x in extOrder <==> x in exts) && Distinct(extOrder)
    ensures Lookup(fs, folder).None? <==> r == Err(FolderNotFound(Canonical(folder)))
    ensures r == Err(NotADirectory(Canonical(folder))) <==> Lookup(fs, folder).Some? && Lookup(fs, folder).value.kind != Directory
    ensures r.Ok? <==> Lookup(fs, folder).Some? && Lookup(fs, folder).value.kind == Directory
    ensures r.Ok? ==> r.value == FolderImages(fs, folder, recursive, extOrder)
  {
    var found := Lookup(fs, folder);
    if found.None? {
      return Err(FolderNotFound(Canonical(folder)));
    }
    if found.value.kind != Directory {
      return Err(NotADirectory(Canonical(folder)));
    }
    var listing := Listing(fs, folder, recursive);
    var images: seq<Entry> := [];
    var i := 0;
    while i < |extOrder|
      invariant 0 <= i <= |extOrder|
      invariant images == Globbed(listing, extOrder[..i])
    {
      assert extOrder[..i + 1][..i] == extOrder[..i];
      images := images + Glob(listing, extOrder[i]);
      i := i + 1;
    }
    assert extOrder[..i] == extOrder;
    images := SortBy(images, KeyLe(LowerName));
    return Ok(images);
  }

  /**
   * Every image found lies in the searched part of the folder, has a name
   * ending in a supported extension, and the images come by lowered name;
   * conversely every such entry is found, and the sort loses nothing.
   */
  lemma FolderImagesCorrect(fs: FileSystem, folder: string, recursive: bool, exts: set<string>, extOrder: seq<string>)
    requires (forall x :: x in extOrder <==> x in exts) && Distinct(extOrder)
    ensures var r := FolderImages(fs, folder, recursive, extOrder);
            && (forall e :: e in r <==>
                  e in Listing(fs, folder, recursive) && exists x :: x in exts && EndsWith(Name(e.path), x))
            && (forall i, j :: 0 <= i < j < |r| ==> LexLe(LowerName(r[i]), LowerName(r[j])))
            && multiset(r) == multiset(Globbed(Listing(fs, folder, recursive), extOrder))
  {
    var g := Globbed(Listing(fs, folder, recursive), extOrder);
    GlobbedMembers(Listing(fs, folder, recursive), extOrder);
    SortByKeyCorrect(g, LowerName);
    var r := SortBy(g, KeyLe(LowerName));
    forall e ensures e in r <==> e in g {
      assert e in r <==> e in multiset(r);
      assert e in g <==> e in multiset(g);
    }
  }
}
