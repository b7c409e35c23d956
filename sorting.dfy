/**
 * Python's `sorted(...)` and `list.sort(key=...)`: a stable sort. It is
 * modelled as insertion sort under a total preorder `le` ("not after"),
 * which for strings is `<=` on the key and for numbers is `<=`, and proved
 * ordered, a permutation of its input, and stable.
 */
module Sorting {
  import opened Text

  ghost predicate TotalPreorder<T(!new)>(le: (T, T) -> bool) {
    && (forall a, b :: le(a, b) || le(b, a))
    && (forall a, b, c :: le(a, b) && le(b, c) ==> le(a, c))
  }

  predicate SortedBy<T>(s: seq<T>, le: (T, T) -> bool) {
    forall i, j :: 0 <= i < j < |s| ==> le(s[i], s[j])
  }

  /** Places `x` before the first element it is not after. */
  function InsertBy<T>(x: T, s: seq<T>, le: (T, T) -> bool): seq<T>
    decreases |s|
  {
    if s == [] || le(x, s[0]) then [x] + s else [s[0]] + InsertBy(x, s[1..], le)
  }

  function SortBy<T>(s: seq<T>, le: (T, T) -> bool): seq<T>
    decreases |s|
  {
    if s == [] then [] else InsertBy(s[0], SortBy(s[1..], le), le)
  }

  lemma {:induction false} InsertByMultiset<T>(x: T, s: seq<T>, le: (T, T) -> bool)
    ensures multiset(InsertBy(x, s, le)) == multiset(s) + multiset{x}
    decreases |s|
  {
    if s != [] && !le(x, s[0]) {
      InsertByMultiset(x, s[1..], le);
      assert s == [s[0]] + s[1..];
    }
  }

  /** A lower bound of `x` and of every element of `s` bounds the insertion too. */
  lemma {:induction false} InsertByBound<T>(b: T, x: T, s: seq<T>, le: (T, T) -> bool)
    requires le(b, x)
    requires forall i :: 0 <= i < |s| ==> le(b, s[i])
    ensures forall i :: 0 <= i < |InsertBy(x, s, le)| ==> le(b, InsertBy(x, s, le)[i])
    decreases |s|
  {
    if s != [] && !le(x, s[0]) {
      InsertByBound(b, x, s[1..], le);
      var r := InsertBy(x, s, le);
      var tail := InsertBy(x, s[1..], le);
      assert r == [s[0]] + tail;
      forall i | 0 <= i < |r| ensures le(b, r[i]) {
        if i > 0 { assert r[i] == tail[i - 1]; }
      }
    }
  }

  lemma {:induction false} InsertBySorted<T(!new)>(x: T, s: seq<T>, le: (T, T) -> bool)
    requires TotalPreorder(le)
    requires SortedBy(s, le)
    ensures SortedBy(InsertBy(x, s, le), le)
    decreases |s|
  {
    if s == [] || le(x, s[0]) {
      var r := [x] + s;
      forall i, j | 0 <= i < j < |r| ensures le(r[i], r[j]) {
        if i == 0 {
          assert r[j] == s[j - 1];
          if j > 1 { assert le(s[0], s[j - 1]); }
        } else {
          assert r[i] == s[i - 1] && r[j] == s[j - 1];
        }
      }
    } else {
      var tail := InsertBy(x, s[1..], le);
      var r := [s[0]] + tail;
      assert SortedBy(s[1..], le) by {
        forall i, j | 0 <= i < j < |s[1..]| ensures le(s[1..][i], s[1..][j]) {
          assert s[1..][i] == s[i + 1] && s[1..][j] == s[j + 1];
        }
      }
      InsertBySorted(x, s[1..], le);
      assert le(s[0], x);
      assert forall i :: 0 <= i < |s[1..]| ==> le(s[0], s[1..][i]) by {
        forall i | 0 <= i < |s[1..]| ensures le(s[0], s[1..][i]) {
          assert s[1..][i] == s[i + 1];
        }
      }
      InsertByBound(s[0], x, s[1..], le);
      forall i, j | 0 <= i < j < |r| ensures le(r[i], r[j]) {
        if i == 0 {
          assert r[j] == tail[j - 1];
        } else {
          assert r[i] == tail[i - 1] && r[j] == tail[j - 1];
        }
      }
    }
  }

  /** The sort orders its input and is a permutation of it. */
  lemma {:induction false} SortByCorrect<T(!new)>(s: seq<T>, le: (T, T) -> bool)
    requires TotalPreorder(le)
    ensures multiset(SortBy(s, le)) == multiset(s)
    ensures SortedBy(SortBy(s, le), le)
    decreases |s|
  {
    if s != [] {
      SortByCorrect(s[1..], le);
      InsertByMultiset(s[0], SortBy(s[1..], le), le);
      InsertBySorted(s[0], SortBy(s[1..], le), le);
      assert s == [s[0]] + s[1..];
    }
  }

  /** The elements of `s` that `le` ranks equal to `x`, in their order in `s`. */
  function EqualsOf<T>(s: seq<T>, x: T, le: (T, T) -> bool): (r: seq<T>)
    ensures |r| <= |s|
    decreases |s|
  {
    if s == [] then []
    else (if le(s[0], x) && le(x, s[0]) then [s[0]] else []) + EqualsOf(s[1..], x, le)
  }

  /** Inserting `y` puts it ahead of every element ranked equal to it. */
  lemma {:induction false} InsertByEquals<T(!new)>(y: T, t: seq<T>, x: T, le: (T, T) -> bool)
    requires TotalPreorder(le)
    ensures EqualsOf(InsertBy(y, t, le), x, le)
            == (if le(y, x) && le(x, y) then [y] else []) + EqualsOf(t, x, le)
    decreases |t|
  {
    var ys := if le(y, x) && le(x, y) then [y] else [];
    if t == [] || le(y, t[0]) {
      assert ([y] + t)[1..] == t;
    } else {
      var rest := InsertBy(y, t[1..], le);
      var ts := if le(t[0], x) && le(x, t[0]) then [t[0]] else [];
      InsertByEquals(y, t[1..], x, le);
      assert ([t[0]] + rest)[1..] == rest;
      assert EqualsOf(InsertBy(y, t, le), x, le) == ts + (ys + EqualsOf(t[1..], x, le));
      assert EqualsOf(t, x, le) == ts + EqualsOf(t[1..], x, le);
      if ys != [] {
        // an element ranked equal to `y` would have stopped the insertion
        assert ts == [];
      }
    }
  }

  /** The sort is stable: elements ranked equal keep their relative order. */
  lemma {:induction false} SortByStable<T(!new)>(s: seq<T>, x: T, le: (T, T) -> bool)
    requires TotalPreorder(le)
    ensures EqualsOf(SortBy(s, le), x, le) == EqualsOf(s, x, le)
    decreases |s|
  {
    if s != [] {
      SortByStable(s[1..], x, le);
      InsertByEquals(s[0], SortBy(s[1..], le), x, le);
    }
  }

  /** Comparing by a string key, as `key=` does. */
  function KeyLe<T>(key: T -> string): (T, T) -> bool {
    (a: T, b: T) => LexLe(key(a), key(b))
  }

  lemma KeyLeTotalPreorder<T(!new)>(key: T -> string)
    ensures TotalPreorder(KeyLe(key))
  {
    var le := KeyLe(key);
    forall a, b ensures le(a, b) || le(b, a) {
      LexLeTotal(key(a), key(b));
    }
    forall a, b, c | le(a, b) && le(b, c) ensures le(a, c) {
      LexLeTrans(key(a), key(b), key(c));
    }
  }

  /** `sorted(values)` for numbers. */
  function RealLe(): (real, real) -> bool {
    (a: real, b: real) => a <= b
  }

  lemma RealLeTotalPreorder()
    ensures TotalPreorder(RealLe())
  {
  }

  /** `sorted(s, key=key)`: ordered by the key and a permutation of `s`. */
  lemma SortByKeyCorrect<T(!new)>(s: seq<T>, key: T -> string)
    ensures multiset(SortBy(s, KeyLe(key))) == multiset(s)
    ensures forall i, j :: 0 <= i < j < |SortBy(s, KeyLe(key))| ==>
              LexLe(key(SortBy(s, KeyLe(key))[i]), key(SortBy(s, KeyLe(key))[j]))
  {
    KeyLeTotalPreorder(key);
    SortByCorrect(s, KeyLe(key));
    var r := SortBy(s, KeyLe(key));
    forall i, j | 0 <= i < j < |r| ensures LexLe(key(r[i]), key(r[j])) {
      assert KeyLe(key)(r[i], r[j]);
    }
  }

  /** `sorted(values)` on numbers: non-decreasing and a permutation. */
  lemma SortRealsCorrect(s: seq<real>)
    ensures multiset(SortBy(s, RealLe())) == multiset(s)
    ensures forall i, j :: 0 <= i < j < |SortBy(s, RealLe())| ==> SortBy(s, RealLe())[i] <= SortBy(s, RealLe())[j]
  {
    RealLeTotalPreorder();
    SortByCorrect(s, RealLe());
    var r := SortBy(s, RealLe());
    forall i, j | 0 <= i < j < |r| ensures r[i] <= r[j] {
      assert RealLe()(r[i], r[j]);
    }
  }
}
