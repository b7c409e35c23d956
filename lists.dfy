/**
 * Keeping, in order, what a partial mapping yields for each element of a
 * list: the shape of a loop that appends a value only for some elements.
 */
module Lists {
  import opened Wrappers

  /** The values `f` yields along `xs`, skipping the elements it maps to `None`. */
  function FilterMap<A, B>(xs: seq<A>, f: A --> Option<B>): seq<B>
    requires forall i :: 0 <= i < |xs| ==> f.requires(xs[i])
    decreases |xs|
  {
    if xs == [] then []
    else
      var last := f(xs[|xs| - 1]);
      FilterMap(xs[..|xs| - 1], f) + (if last.Some? then [last.value] else [])
  }

  /** One more element: its value, if any, comes last. */
  lemma FilterMapSnoc<A, B>(xs: seq<A>, k: nat, f: A --> Option<B>)
    requires k < |xs| && forall i :: 0 <= i < |xs| ==> f.requires(xs[i])
    ensures FilterMap(xs[..k + 1], f) == FilterMap(xs[..k], f) + (if f(xs[k]).Some? then [f(xs[k]).value] else [])
  {
    assert xs[..k + 1][..k] == xs[..k];
  }

  /** A value is kept exactly when some element yields it. */
  lemma {:induction false} FilterMapMembers<A, B>(xs: seq<A>, f: A --> Option<B>)
    requires forall i :: 0 <= i < |xs| ==> f.requires(xs[i])
    ensures forall b :: b in FilterMap(xs, f) <==> exists k :: 0 <= k < |xs| && f(xs[k]) == Some(b)
    decreases |xs|
  {
    if xs != [] {
      var n := |xs|;
      var init := xs[..n - 1];
      FilterMapMembers(init, f);
      forall b ensures b in FilterMap(xs, f) <==> exists k :: 0 <= k < n && f(xs[k]) == Some(b) {
        if b in FilterMap(init, f) {
          var k :| 0 <= k < |init| && f(init[k]) == Some(b);
          assert init[k] == xs[k];
        }
        if exists k :: 0 <= k < n - 1 && f(xs[k]) == Some(b) {
          var k :| 0 <= k < n - 1 && f(xs[k]) == Some(b);
          assert init[k] == xs[k];
        }
      }
    }
  }

  /** At most one value per element. */
  lemma {:induction false} FilterMapLength<A, B>(xs: seq<A>, f: A --> Option<B>)
    requires forall i :: 0 <= i < |xs| ==> f.requires(xs[i])
    ensures |FilterMap(xs, f)| <= |xs|
    decreases |xs|
  {
    if xs != [] {
      FilterMapLength(xs[..|xs| - 1], f);
    }
  }

  /** Nothing is skipped exactly when every element yields a value. */
  lemma {:induction false} FilterMapKeepsAll<A, B>(xs: seq<A>, f: A --> Option<B>)
    requires forall i :: 0 <= i < |xs| ==> f.requires(xs[i])
    ensures |FilterMap(xs, f)| == |xs| <==> forall i :: 0 <= i < |xs| ==> f(xs[i]).Some?
    decreases |xs|
  {
    if xs != [] {
      var init := xs[..|xs| - 1];
      FilterMapKeepsAll(init, f);
      FilterMapLength(init, f);
      assert forall i :: 0 <= i < |init| ==> init[i] == xs[i];
    }
  }

  /** Nothing is kept exactly when every element yields `None`. */
  lemma {:induction false} FilterMapKeepsNone<A, B>(xs: seq<A>, f: A --> Option<B>)
    requires forall i :: 0 <= i < |xs| ==> f.requires(xs[i])
    ensures FilterMap(xs, f) == [] <==> forall i :: 0 <= i < |xs| ==> f(xs[i]).None?
    decreases |xs|
  {
    if xs != [] {
      var init := xs[..|xs| - 1];
      FilterMapKeepsNone(init, f);
      assert forall i :: 0 <= i < |init| ==> init[i] == xs[i];
    }
  }

  /** The lists `f` gives along `xs`, one after another. */
  function FlatMap<A, B>(xs: seq<A>, f: A -> seq<B>): seq<B>
    decreases |xs|
  {
    if xs == [] then [] else FlatMap(xs[..|xs| - 1], f) + f(xs[|xs| - 1])
  }

  lemma FlatMapSnoc<A, B>(xs: seq<A>, k: nat, f: A -> seq<B>)
    requires k < |xs|
    ensures FlatMap(xs[..k + 1], f) == FlatMap(xs[..k], f) + f(xs[k])
  {
    assert xs[..k + 1][..k] == xs[..k];
  }

  /** A value is in the concatenation exactly when it is in the list of some element. */
  lemma {:induction false} FlatMapMembers<A, B>(xs: seq<A>, f: A -> seq<B>)
    ensures forall b :: b in FlatMap(xs, f) <==> exists k :: 0 <= k < |xs| && b in f(xs[k])
    decreases |xs|
  {
    if xs != [] {
      var n := |xs|;
      var init := xs[..n - 1];
      FlatMapMembers(init, f);
      forall b ensures b in FlatMap(xs, f) <==> exists k :: 0 <= k < n && b in f(xs[k]) {
        if b in FlatMap(init, f) {
          var k :| 0 <= k < |init| && b in f(init[k]);
          assert init[k] == xs[k];
        }
        if exists k :: 0 <= k < n && b in f(xs[k]) {
          var k :| 0 <= k < n && b in f(xs[k]);
          if k < n - 1 {
            assert init[k] == xs[k];
          }
        }
      }
    }
  }

  predicate Distinct<T(==)>(s: seq<T>) {
    forall i, j :: 0 <= i < j < |s| ==> s[i] != s[j]
  }

  /** Without repetitions every value occurs at most once. */
  lemma {:induction false} DistinctOnce<T>(s: seq<T>)
    requires Distinct(s)
    ensures forall x :: multiset(s)[x] <= 1
    decreases |s|
  {
    if s != [] {
      var init := s[..|s| - 1];
      var last := s[|s| - 1];
      assert Distinct(init) by {
        forall i, j | 0 <= i < j < |init| ensures init[i] != init[j] {
          assert init[i] == s[i] && init[j] == s[j];
        }
      }
      DistinctOnce(init);
      assert s == init + [last];
      assert last !in init by {
        forall k | 0 <= k < |init| ensures init[k] != last {
          assert init[k] == s[k];
        }
      }
    }
  }

  /** A repeated value occurs at least twice. */
  lemma RepeatTwice<T>(s: seq<T>, i: nat, j: nat)
    requires i < j < |s| && s[i] == s[j]
    ensures multiset(s)[s[i]] >= 2
  {
    assert s == s[..j] + [s[j]] + s[j + 1..];
    assert s[i] in s[..j];
  }

  /** A permutation of a list without repetitions has none either. */
  lemma DistinctPermutation<T>(s: seq<T>, t: seq<T>)
    requires Distinct(s) && multiset(s) == multiset(t)
    ensures Distinct(t)
  {
    DistinctOnce(s);
    forall i, j | 0 <= i < j < |t| ensures t[i] != t[j] {
      if t[i] == t[j] {
        RepeatTwice(t, i, j);
      }
    }
  }
}
