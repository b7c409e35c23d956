/**
 * The parts of `pathlib` the core relies on (`name`, `suffix`, `stem`,
 * `with_suffix`, `/`) over POSIX path strings, and a file system given as
 * the sequence of its entries in listing order.
 */
module Paths {
  import opened Wrappers

  /** `s.rfind(c)`: the last position of `c`, or -1. */
  function RFind(s: string, c: char): (i: int)
    ensures -1 <= i < |s|
    ensures i >= 0 ==> s[i] == c
    decreases |s|
  {
    if s == [] then -1
    else if s[|s| - 1] == c then |s| - 1
    else RFind(s[..|s| - 1], c)
  }

  /** Nothing after the position found is `c`, so it is the last one. */
  lemma {:induction false} RFindLast(s: string, c: char)
    ensures forall k :: RFind(s, c) < k < |s| ==> s[k] != c
    decreases |s|
  {
    if s != [] && s[|s| - 1] != c {
      var init := s[..|s| - 1];
      RFindLast(init, c);
      assert forall k :: 0 <= k < |init| ==> init[k] == s[k];
    }
  }

  /** `base.rstrip("/")`, the form `Path` keeps a directory in. */
  function DropTrailingSlashes(base: string): (r: string)
    ensures |r| <= |base|
    decreases |base|
  {
    if base != [] && base[|base| - 1] == '/' then DropTrailingSlashes(base[..|base| - 1]) else base
  }

  /** Stripping keeps a prefix of the path, and what is left does not end in a slash. */
  lemma {:induction false} DropTrailingSlashesPrefix(base: string)
    ensures DropTrailingSlashes(base) == base[..|DropTrailingSlashes(base)|]
    ensures DropTrailingSlashes(base) == [] || DropTrailingSlashes(base)[|DropTrailingSlashes(base)| - 1] != '/'
    decreases |base|
  {
    if base != [] && base[|base| - 1] == '/' {
      var init := base[..|base| - 1];
      DropTrailingSlashesPrefix(init);
      assert init[..|DropTrailingSlashes(init)|] == base[..|DropTrailingSlashes(init)|];
    }
  }

  /** What follows the last slash of `q`: all of `q` when it has none. */
  function LastComponent(q: string): string
    decreases |q|
  {
    if q == [] || q[|q| - 1] == '/' then "" else LastComponent(q[..|q| - 1]) + [q[|q| - 1]]
  }

  /** The last component ends `q`, holds no slash, and is preceded by one unless it is all of `q`. */
  lemma {:induction false} LastComponentFacts(q: string)
    ensures |LastComponent(q)| <= |q|
    ensures LastComponent(q) == q[|q| - |LastComponent(q)|..]
    ensures '/' !in LastComponent(q)
    ensures |LastComponent(q)| < |q| ==> q[|q| - |LastComponent(q)| - 1] == '/'
    decreases |q|
  {
    if q != [] && q[|q| - 1] != '/' {
      var init := q[..|q| - 1];
      LastComponentFacts(init);
      var n := |LastComponent(init)|;
      assert q[|q| - 1 - n..] == init[|init| - n..] + [q[|q| - 1]];
      if n < |init| {
        assert q[|q| - 1 - n - 1] == init[|init| - n - 1];
      }
    }
  }

  /** After a slash, a component without slashes is the last one. */
  lemma {:induction false} LastComponentAfterSlash(prefix: string, part: string)
    requires '/' !in part
    ensures LastComponent(prefix + "/" + part) == part
    decreases |part|
  {
    var s := prefix + "/" + part;
    if part != [] {
      var init := part[..|part| - 1];
      assert s[..|s| - 1] == prefix + "/" + init;
      assert s[|s| - 1] == part[|part| - 1];
      LastComponentAfterSlash(prefix, init);
      assert part == init + [part[|part| - 1]];
    } else {
      assert s[|s| - 1] == '/';
    }
  }

  /** `Path(p).name`: the last component, trailing slashes ignored. */
  function Name(p: string): string {
    LastComponent(DropTrailingSlashes(p))
  }

  /** The name holds no slash and ends the stripped path. */
  lemma NameFacts(p: string)
    ensures '/' !in Name(p)
    ensures |Name(p)| <= |DropTrailingSlashes(p)|
    ensures Name(p) == DropTrailingSlashes(p)[|DropTrailingSlashes(p)| - |Name(p)|..]
  {
    var q := DropTrailingSlashes(p);
    LastComponentFacts(q);
    assert Name(p) == LastComponent(q);
  }

  /** `Path(name).suffix`: from the last '.' on, unless that dot leads the name or ends it. */
  function Suffix(name: string): (r: string)
    ensures |r| <= |name|
  {
    var i := RFind(name, '.');
    if 0 < i < |name| - 1 then name[i..] else ""
  }

  /** A suffix is empty, or a dot and at least one more character ending the name and holding no other dot. */
  lemma SuffixFacts(name: string)
    ensures var r := Suffix(name);
            r == [] || (|r| >= 2 && |r| < |name| && r[0] == '.' && '.' !in r[1..] && r == name[|name| - |r|..])
  {
    RFindLast(name, '.');
    var i := RFind(name, '.');
    if 0 < i < |name| - 1 {
      var r := name[i..];
      forall k | 1 <= k < |r| ensures r[k] != '.' {
        assert r[k] == name[i + k];
      }
      assert r[1..] == name[i + 1..];
    }
  }

  /** `Path(name).stem`: the name without its suffix. */
  function Stem(name: string): string {
    name[..|name| - |Suffix(name)|]
  }

  /** The stem followed by the suffix is the name again. */
  lemma StemSuffix(name: string)
    ensures Stem(name) + Suffix(name) == name
  {
    SuffixFacts(name);
  }

  /**
   * `Path(p).with_suffix(suffix)`: the same directory, the stem followed by
   * `suffix`; `pathlib` refuses a path with an empty name.
   */
  function WithSuffix(p: string, suffix: string): string
    requires Name(p) != ""
  {
    var q := DropTrailingSlashes(p);
    NameFacts(p);
    q[..|q| - |Name(p)|] + Stem(Name(p)) + suffix
  }

  /** Paths with different names are different paths. */
  lemma DistinctNames(p: string, q: string)
    requires Name(p) != Name(q)
    ensures p != q
  {
  }

  predicate EndsWith(s: string, tail: string) {
    |tail| <= |s| && s[|s| - |tail|..] == tail
  }

  /** `Path(base) / part` for a relative `part`: an empty base is the current directory. */
  function JoinPath(base: string, part: string): string {
    if base == "" then part else DropTrailingSlashes(base) + "/" + part
  }

  /** A final component joined onto a directory is the joined path's name. */
  lemma JoinPathName(base: string, part: string)
    requires part != "" && '/' !in part
    ensures Name(JoinPath(base, part)) == part
    ensures base != "" ==> JoinPath(base, part) == DropTrailingSlashes(base) + "/" + Name(JoinPath(base, part))
  {
    if base != "" {
      var p := JoinPath(base, part);
      assert p[|p| - 1] == part[|part| - 1];
      assert DropTrailingSlashes(p) == p;
      LastComponentAfterSlash(DropTrailingSlashes(base), part);
    } else {
      assert part[|part| - 1] in part;
      assert DropTrailingSlashes(part) == part;
      LastComponentWhole(part);
    }
  }

  /** A string without slashes is its own last component. */
  lemma {:induction false} LastComponentWhole(part: string)
    requires '/' !in part
    ensures LastComponent(part) == part
    decreases |part|
  {
    if part != [] {
      var init := part[..|part| - 1];
      assert part[|part| - 1] in part;
      assert forall c :: c in init ==> c in part;
      LastComponentWhole(init);
      assert part == init + [part[|part| - 1]];
    }
  }

  datatype Kind = File | Directory | Other

  /** One entry of the file system: its full path, what it is, and its size in bytes. */
  datatype Entry = Entry(path: string, kind: Kind, size: nat)

  /** The file system, in the order the operating system lists it. */
  type FileSystem = seq<Entry>

  /**
   * The path `Path(p)` stands for: trailing slashes dropped, the root
   * staying "/". Entries of a file system are kept in this form.
   */
  function Canonical(p: string): string {
    if p != "" && DropTrailingSlashes(p) == "" then "/" else DropTrailingSlashes(p)
  }

  /** A trailing slash names the same path. */
  lemma CanonicalTrailingSlash(p: string)
    requires p != ""
    ensures Canonical(p + "/") == Canonical(p)
  {
    assert (p + "/")[..|p + "/"| - 1] == p;
  }

  /** `Path(path).exists()`, and what it is when it does. */
  function Lookup(fs: FileSystem, path: string): (r: Option<Entry>)
    ensures r.Some? ==> r.value in fs && r.value.path == Canonical(path)
    ensures r.None? ==> forall i :: 0 <= i < |fs| ==> fs[i].path != Canonical(path)
  {
    if fs == [] then None
    else if fs[0].path == Canonical(path) then Some(fs[0])
    else Lookup(fs[1..], path)
  }

  /** A folder named with a trailing slash is found just as without it. */
  lemma LookupTrailingSlash(fs: FileSystem, path: string)
    requires path != ""
    ensures Lookup(fs, path + "/") == Lookup(fs, path)
  {
    CanonicalTrailingSlash(path);
    LookupSame(fs, path + "/", path);
  }

  lemma {:induction false} LookupSame(fs: FileSystem, p: string, q: string)
    requires Canonical(p) == Canonical(q)
    ensures Lookup(fs, p) == Lookup(fs, q)
  {
    if fs != [] {
      LookupSame(fs[1..], p, q);
    }
  }

  /** What a path inside `dir` starts with: `dir` and one slash (just "/" for the root). */
  function DirPrefix(dir: string): string {
    DropTrailingSlashes(dir) + "/"
  }

  /** `p` lies directly inside `dir`. */
  predicate IsChildOf(p: string, dir: string) {
    var pre := DirPrefix(dir);
    |p| > |pre| && p[..|pre|] == pre && '/' !in p[|pre|..]
  }

  /** `p` lies somewhere below `dir`. */
  predicate IsBelow(p: string, dir: string) {
    var pre := DirPrefix(dir);
    |p| > |pre| && p[..|pre|] == pre
  }

  /** The entries directly inside `dir`, as `dir.iterdir()` yields them. */
  function Children(fs: FileSystem, dir: string): (r: seq<Entry>)
    ensures forall e :: e in r <==> e in fs && IsChildOf(e.path, dir)
  {
    if fs == [] then []
    else (if IsChildOf(fs[0].path, dir) then [fs[0]] else []) + Children(fs[1..], dir)
  }

  /** Every entry below `dir`, as a recursive walk yields them. */
  function Below(fs: FileSystem, dir: string): (r: seq<Entry>)
    ensures forall e :: e in r <==> e in fs && IsBelow(e.path, dir)
  {
    if fs == [] then []
    else (if IsBelow(fs[0].path, dir) then [fs[0]] else []) + Below(fs[1..], dir)
  }
}
