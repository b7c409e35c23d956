/**
 * Strings as Python's `str` methods treat them: whitespace in the sense of
 * `str.isspace`, `strip()`, `split()` with no separator, `split(sep)` with a
 * one-character separator, `sep.join(parts)`, `lower()` and the ordering that
 * `<` gives on strings (code point by code point).
 */
module Text {

  /** `c.isspace()`: the characters Python's `str.split()` and `str.strip()` treat as whitespace. */
  predicate IsSpace(c: char) {
    || ('\t' <= c <= '\r')                  // tab, line feed, vertical tab, form feed, carriage return
    || ('\U{1c}' <= c <= '\U{1f}')          // file, group, record and unit separators
    || c == ' '
    || c == '\U{85}' || c == '\U{a0}' || c == '\U{1680}'
    || ('\U{2000}' <= c <= '\U{200a}')
    || c == '\U{2028}' || c == '\U{2029}' || c == '\U{202f}' || c == '\U{205f}' || c == '\U{3000}'
  }

  predicate AllSpace(s: string) {
    forall i :: 0 <= i < |s| ==> IsSpace(s[i])
  }

  predicate NoSpace(s: string) {
    forall i :: 0 <= i < |s| ==> !IsSpace(s[i])
  }

  /** Neither end of `s` is whitespace. */
  predicate Trimmed(s: string) {
    s == [] || (!IsSpace(s[0]) && !IsSpace(s[|s| - 1]))
  }

  /** A piece of `str.split()`'s result: non-empty and free of whitespace. */
  predicate IsWord(w: string) {
    w != [] && NoSpace(w)
  }

  /** `s.lstrip()`: the suffix left after dropping leading whitespace. */
  function TrimLeft(s: string): (r: string)
    ensures |r| <= |s| && r == s[|s| - |r|..]
    ensures AllSpace(s[..|s| - |r|])
    ensures r == [] || !IsSpace(r[0])
    decreases |s|
  {
    if s != [] && IsSpace(s[0]) then TrimLeft(s[1..]) else s
  }

  /** `s.rstrip()`: the prefix left after dropping trailing whitespace. */
  function TrimRight(s: string): (r: string)
    ensures |r| <= |s| && r == s[..|r|]
    ensures AllSpace(s[|r|..])
    ensures r == [] || !IsSpace(r[|r| - 1])
    decreases |s|
  {
    if s != [] && IsSpace(s[|s| - 1]) then
      var init := s[..|s| - 1];
      var r := TrimRight(init);
      assert init[..|r|] == s[..|r|];
      assert s[|r|..] == init[|r|..] + [s[|s| - 1]];
      r
    else s
  }

  /** `s.strip()`. */
  function Strip(s: string): (r: string)
    ensures Trimmed(r)
    ensures r == [] <==> AllSpace(s)
    ensures Trimmed(s) ==> r == s
  {
    var l := TrimLeft(s);
    var r := TrimRight(l);
    assert r == [] ==> AllSpace(s) by {
      if r == [] {
        assert l == [];
        assert s[..|s|] == s;
      }
    }
    assert Trimmed(s) ==> r == s by {
      if Trimmed(s) && s != [] {
        assert l == s;
        assert r == l;
      }
    }
    r
  }

  /** The longest prefix of `s` without whitespace. */
  function TakeWord(s: string): (w: string)
    ensures |w| <= |s| && w == s[..|w|]
    ensures NoSpace(w)
    ensures |w| == |s| || IsSpace(s[|w|])
    decreases |s|
  {
    if s == [] || IsSpace(s[0]) then [] else [s[0]] + TakeWord(s[1..])
  }

  /** `s.split()`: the maximal runs of non-whitespace characters, in order. */
  function Words(s: string): seq<string>
    decreases |s|
  {
    var t := TrimLeft(s);
    if t == [] then []
    else
      var w := TakeWord(t);
      assert w != [] by { assert !IsSpace(t[0]); }
      [w] + Words(t[|w|..])
  }

  /** `s.split()` is empty exactly when `s` is all whitespace. */
  lemma WordsEmpty(s: string)
    ensures Words(s) == [] <==> AllSpace(s)
  {
    var t := TrimLeft(s);
    if t == [] {
      assert s[..|s|] == s;
    } else {
      assert s[|s| - |t|] == t[0];
    }
  }

  /** Every piece of `s.split()` is a word. */
  lemma {:induction false} WordsAllWords(s: string)
    ensures forall i :: 0 <= i < |Words(s)| ==> IsWord(Words(s)[i])
    decreases |s|
  {
    var t := TrimLeft(s);
    if t != [] {
      var w := TakeWord(t);
      assert w != [] by { assert !IsSpace(t[0]); }
      var rest := Words(t[|w|..]);
      WordsAllWords(t[|w|..]);
      var ws := Words(s);
      assert ws == [w] + rest;
      forall i | 0 <= i < |ws| ensures IsWord(ws[i]) {
        if i > 0 { assert ws[i] == rest[i - 1]; }
      }
    }
  }

  /** Every piece of `s.split()` is a word, and there are none exactly when `s` is all whitespace. */
  lemma WordsAreWords(s: string)
    ensures forall i :: 0 <= i < |Words(s)| ==> IsWord(Words(s)[i])
    ensures Words(s) == [] <==> AllSpace(s)
  {
    WordsEmpty(s);
    WordsAllWords(s);
  }

  /** Every character of `s.strip()` is a character of `s`. */
  lemma StripWithin(s: string)
    ensures forall c :: c in Strip(s) ==> c in s
  {
    var l := TrimLeft(s);
    var r := TrimRight(l);
    assert r == Strip(s);
    assert forall c :: c in r ==> c in l by {
      assert r == l[..|r|];
    }
    assert forall c :: c in l ==> c in s by {
      assert l == s[|s| - |l|..];
    }
  }

  /** `sep.join(parts)`. */
  function Join(sep: string, parts: seq<string>): string
    decreases |parts|
  {
    if |parts| == 0 then ""
    else if |parts| == 1 then parts[0]
    else parts[0] + sep + Join(sep, parts[1..])
  }

  /**
   * One line of text with single spaces: no whitespace at either end, no
   * whitespace character other than ' ', and never two spaces in a row.
   */
  predicate SingleSpaced(s: string) {
    && Trimmed(s)
    && (forall i :: 0 <= i < |s| ==> s[i] == ' ' || !IsSpace(s[i]))
    && (forall i :: 0 <= i < |s| - 1 ==> s[i] != ' ' || s[i + 1] != ' ')
  }

  /** Joining words with single spaces gives a single-spaced line that is empty only for no words. */
  lemma {:induction false} JoinWordsSingleSpaced(ws: seq<string>)
    requires forall i :: 0 <= i < |ws| ==> IsWord(ws[i])
    ensures SingleSpaced(Join(" ", ws))
    ensures Join(" ", ws) == [] <==> ws == []
    ensures ws != [] ==> Join(" ", ws)[0] == ws[0][0]
    decreases |ws|
  {
    if |ws| > 1 {
      var w := ws[0];
      var r := Join(" ", ws[1..]);
      JoinWordsSingleSpaced(ws[1..]);
      var j := Join(" ", ws);
      assert j == w + " " + r;
      assert r[0] == ws[1][0];
      forall i | 0 <= i < |j| ensures j[i] == ' ' || !IsSpace(j[i]) {
        if i < |w| { assert j[i] == w[i]; }
        else if i > |w| { assert j[i] == r[i - |w| - 1]; }
      }
      forall i | 0 <= i < |j| - 1 ensures j[i] != ' ' || j[i + 1] != ' ' {
        if i < |w| { assert j[i] == w[i]; }
        else if i > |w| { assert j[i] == r[i - |w| - 1] && j[i + 1] == r[i - |w|]; }
      }
      assert j[|j| - 1] == r[|r| - 1];
    }
  }

  /** A word is its own `split()`. */
  lemma WordsOfWord(w: string)
    requires IsWord(w)
    ensures Words(w) == [w]
  {
    assert TrimLeft(w) == w by { assert !IsSpace(w[0]); }
    var tw := TakeWord(w);
    assert |tw| == |w|;
    assert tw == w;
    assert w[|w|..] == [];
    assert Words([]) == [];
    assert Words(w) == [tw] + Words(w[|tw|..]);
  }

  /** The first word of a word followed by whitespace is that word. */
  lemma TakeWordOf(w: string, rest: string)
    requires IsWord(w)
    requires rest == [] || IsSpace(rest[0])
    ensures TakeWord(w + rest) == w
  {
    var s := w + rest;
    var tw := TakeWord(s);
    assert forall k :: 0 <= k < |w| ==> s[k] == w[k];
    assert |w| == |s| || IsSpace(s[|w|]);
  }

  /** `split()` of a word followed by whitespace starts with that word. */
  lemma WordsCons(w: string, rest: string)
    requires IsWord(w)
    requires rest == [] || IsSpace(rest[0])
    ensures Words(w + rest) == [w] + Words(rest)
  {
    var s := w + rest;
    assert TrimLeft(s) == s by { assert s[0] == w[0]; }
    TakeWordOf(w, rest);
    assert s[|w|..] == rest;
  }

  /** A leading space does not change `split()`. */
  lemma WordsAfterSpace(r: string)
    requires r == [] || !IsSpace(r[0])
    ensures Words(" " + r) == Words(r)
  {
    assert TrimLeft(r) == r;
    assert (" " + r)[1..] == r;
    assert TrimLeft(" " + r) == r;
  }

  /** `text.split()` undoes `" ".join(words)`. */
  lemma {:induction false} WordsOfJoin(ws: seq<string>)
    requires forall i :: 0 <= i < |ws| ==> IsWord(ws[i])
    ensures Words(Join(" ", ws)) == ws
    decreases |ws|
  {
    if |ws| == 1 {
      WordsOfWord(ws[0]);
    } else if |ws| > 1 {
      var w := ws[0];
      var r := Join(" ", ws[1..]);
      JoinWordsSingleSpaced(ws[1..]);
      assert Join(" ", ws) == w + (" " + r);
      WordsCons(w, " " + r);
      WordsAfterSpace(r);
      WordsOfJoin(ws[1..]);
      HeadTail(ws);
    }
  }

  lemma HeadTail<T>(s: seq<T>)
    requires s != []
    ensures [s[0]] + s[1..] == s
  {
  }

  /** The first position of `c` in `s`. */
  function IndexOf(s: string, c: char): (k: nat)
    requires c in s
    ensures k < |s| && s[k] == c && c !in s[..k]
  {
    if s[0] == c then 0 else 1 + IndexOf(s[1..], c)
  }

  /** `s.split(sep)` for a one-character separator: empty pieces are kept. */
  function SplitOn(s: string, sep: char): (parts: seq<string>)
    ensures |parts| >= 1
    ensures forall i :: 0 <= i < |parts| ==> sep !in parts[i]
    ensures Join([sep], parts) == s
    decreases |s|
  {
    if sep !in s then [s]
    else
      var k := IndexOf(s, sep);
      var rest := SplitOn(s[k + 1..], sep);
      assert s == s[..k] + [sep] + s[k + 1..];
      [s[..k]] + rest
  }

  /** Splitting at the first separator peels off the piece before it. */
  lemma SplitOnCons(p: string, sep: char, rest: string)
    requires sep !in p
    ensures SplitOn(p + [sep] + rest, sep) == [p] + SplitOn(rest, sep)
  {
    var s := p + [sep] + rest;
    assert s[|p|] == sep;
    assert forall i :: 0 <= i < |p| ==> s[i] == p[i];
    var k := IndexOf(s, sep);
    assert k == |p| by {
      assert k <= |p| by { assert s[..k + 1][k] == sep; }
      assert k >= |p| by { assert s[k] == sep; }
    }
    assert s[..k] == p;
    assert s[k + 1..] == rest;
  }

  /** Splitting a join of separator-free pieces gives the pieces back. */
  lemma {:induction false} SplitOnJoin(parts: seq<string>, sep: char)
    requires |parts| >= 1
    requires forall i :: 0 <= i < |parts| ==> sep !in parts[i]
    ensures SplitOn(Join([sep], parts), sep) == parts
    decreases |parts|
  {
    if |parts| > 1 {
      var rest := Join([sep], parts[1..]);
      assert Join([sep], parts) == parts[0] + [sep] + rest;
      SplitOnCons(parts[0], sep, rest);
      SplitOnJoin(parts[1..], sep);
      HeadTail(parts);
    }
  }

  function LowerChar(c: char): char {
    if 'A' <= c <= 'Z' then (c as int - 'A' as int + 'a' as int) as char else c
  }

  /** No ASCII capital letters: `s.lower() == s`. */
  predicate Lowered(s: string) {
    forall i :: 0 <= i < |s| ==> !('A' <= s[i] <= 'Z')
  }

  /** `s.lower()` on the ASCII letters. */
  function Lower(s: string): (r: string)
    ensures |r| == |s|
    ensures forall i :: 0 <= i < |s| ==> r[i] == LowerChar(s[i])
  {
    seq(|s|, i requires 0 <= i < |s| => LowerChar(s[i]))
  }

  /** The result has no capitals, and a string without capitals is its own lowering. */
  lemma LowerLowered(s: string)
    ensures Lowered(Lower(s))
    ensures Lowered(s) ==> Lower(s) == s
  {
  }

  /** Lowering keeps the ends' whitespace status and every character that is not a lower-case letter. */
  lemma LowerKeeps(s: string)
    ensures Trimmed(s) ==> Trimmed(Lower(s))
    ensures forall c :: c in Lower(s) && !('a' <= c <= 'z') ==> c in s
  {
    var r := Lower(s);
    forall c | c in r && !('a' <= c <= 'z') ensures c in s {
      var k :| 0 <= k < |r| && r[k] == c;
      assert s[k] == c;
    }
  }

  /** `a <= b` on Python strings: a prefix comes first, otherwise the first differing code point decides. */
  predicate LexLe(a: string, b: string)
    decreases |a|
  {
    a == [] || (b != [] && (a[0] < b[0] || (a[0] == b[0] && LexLe(a[1..], b[1..]))))
  }

  lemma {:induction false} LexLeTotal(a: string, b: string)
    ensures LexLe(a, b) || LexLe(b, a)
    decreases |a|
  {
    if a != [] && b != [] && a[0] == b[0] {
      LexLeTotal(a[1..], b[1..]);
    }
  }

  lemma {:induction false} LexLeTrans(a: string, b: string, c: string)
    requires LexLe(a, b) && LexLe(b, c)
    ensures LexLe(a, c)
    decreases |a|
  {
    if a != [] && a[0] == b[0] && b[0] == c[0] {
      LexLeTrans(a[1..], b[1..], c[1..]);
    }
  }

  lemma {:induction false} LexLeAntisymmetric(a: string, b: string)
    requires LexLe(a, b) && LexLe(b, a)
    ensures a == b
    decreases |a|
  {
    if a != [] {
      LexLeAntisymmetric(a[1..], b[1..]);
      assert a == [a[0]] + a[1..] && b == [b[0]] + b[1..];
    }
  }
}
