/**
 * The page elements a search works on, and the LINQ `Where` the filters of
 * ElementExtensions.cs are built from.
 *
 * An element is the part of `IWebElement` the filters read: its tag name,
 * its text, whether it is displayed, enabled and selected, and its attributes.
 * `GetAttribute` returns null for an attribute the element does not have,
 * which is `None` here.
 */
module Elements {
  import opened Wrappers

  datatype Element = Element(
    tagName: string,
    text: string,
    displayed: bool,
    enabled: bool,
    selected: bool,
    attributes: map<string, string>)

  /** `IWebElement.GetAttribute(name)`. */
  function GetAttribute(e: Element, name: string): (r: Option<string>)
    ensures r.Some? <==> name in e.attributes
    ensures r.Some? ==> r.value == e.attributes[name]
  {
    if name in e.attributes then Some(e.attributes[name]) else None
  }

  /**
   * `r` can be obtained from `s` by deleting elements.  Matching greedily
   * against the earliest candidate is complete for subsequences.
   */
  predicate IsSubsequence<T(==)>(r: seq<T>, s: seq<T>)
    decreases |s|
  {
    if r == [] then true
    else if s == [] then false
    else if r[0] == s[0] then IsSubsequence(r[1..], s[1..])
    else IsSubsequence(r, s[1..])
  }

  /**
   * `r` is exactly the elements of `s` that satisfy `p`, in their original
   * order: a subsequence of `s` that keeps every occurrence of a satisfying
   * value and none of the others.
   */
  ghost predicate Selects<T(!new)>(r: seq<T>, s: seq<T>, p: T -> bool)
  {
    && IsSubsequence(r, s)
    && forall x :: multiset(r)[x] == if p(x) then multiset(s)[x] else 0
  }

  /** `Enumerable.Where(s, p)`. */
  function Where<T(!new)>(s: seq<T>, p: T -> bool): (r: seq<T>)
    ensures Selects(r, s, p)
    ensures |r| <= |s|
  {
    if s == [] then []
    else
      assert s == [s[0]] + s[1..];
      var rest := Where(s[1..], p);
      if p(s[0]) then [s[0]] + rest else rest
  }

  /** A subsequence has no more of any value than the sequence it comes from. */
  lemma {:induction false} SubsequenceMultiset<T>(r: seq<T>, s: seq<T>)
    requires IsSubsequence(r, s)
    ensures multiset(r) <= multiset(s)
    decreases |s|
  {
    if r != [] {
      assert s == [s[0]] + s[1..];
      if r[0] == s[0] {
        assert r == [r[0]] + r[1..];
        SubsequenceMultiset(r[1..], s[1..]);
      } else {
        SubsequenceMultiset(r, s[1..]);
      }
    }
  }

  /** A subsequence stays one when the sequence grows at the front. */
  lemma {:induction false} SubsequencePrepend<T>(r: seq<T>, y: T, t: seq<T>)
    requires IsSubsequence(r, t)
    ensures IsSubsequence(r, [y] + t)
    decreases |t|, 1
  {
    assert ([y] + t)[1..] == t;
    if r != [] && r[0] == y {
      SubsequenceDropHead(r, t);
    }
  }

  /** Dropping the first element of a subsequence leaves a subsequence. */
  lemma {:induction false} SubsequenceDropHead<T>(r: seq<T>, s: seq<T>)
    requires r != [] && IsSubsequence(r, s)
    ensures IsSubsequence(r[1..], s)
    decreases |s|, 0
  {
    assert s == [s[0]] + s[1..];
    if r[0] == s[0] {
      SubsequencePrepend(r[1..], s[0], s[1..]);
    } else {
      SubsequenceDropHead(r, s[1..]);
      SubsequencePrepend(r[1..], s[0], s[1..]);
    }
  }

  /** Deleting from a deletion is a deletion. */
  lemma {:induction false} SubsequenceTransitive<T>(a: seq<T>, b: seq<T>, c: seq<T>)
    requires IsSubsequence(a, b) && IsSubsequence(b, c)
    ensures IsSubsequence(a, c)
    decreases |c|
  {
    if a != [] && c != [] {
      if b[0] == c[0] {
        if a[0] == b[0] {
          SubsequenceTransitive(a[1..], b[1..], c[1..]);
        } else {
          SubsequenceTransitive(a, b[1..], c[1..]);
        }
      } else {
        SubsequenceTransitive(a, b, c[1..]);
        assert c == [c[0]] + c[1..];
        SubsequencePrepend(a, c[0], c[1..]);
      }
    }
  }

  /** Every sequence is a subsequence of itself. */
  lemma {:induction false} SubsequenceReflexive<T>(s: seq<T>)
    ensures IsSubsequence(s, s)
    decreases |s|
  {
    if s != [] {
      SubsequenceReflexive(s[1..]);
    }
  }

  /**
   * The selection is unique: two sequences that select the same elements of
   * `s` are equal, so `Selects` says everything about `Where`.
   */
  lemma {:induction false} SelectsUnique<T(!new)>(r1: seq<T>, r2: seq<T>, s: seq<T>, p: T -> bool)
    requires Selects(r1, s, p) && Selects(r2, s, p)
    ensures r1 == r2
    decreases |s|
  {
    if s == [] {
      return;
    }
    var x, t := s[0], s[1..];
    assert s == [x] + t;
    SelectsTail(r1, s, p);
    SelectsTail(r2, s, p);
    if p(x) {
      SelectsUnique(r1[1..], r2[1..], t, p);
      assert r1 == [r1[0]] + r1[1..];
      assert r2 == [r2[0]] + r2[1..];
    } else {
      SelectsUnique(r1, r2, t, p);
    }
  }

  /** How a selection of `s` splits at the head of `s`. */
  lemma SelectsTail<T(!new)>(r: seq<T>, s: seq<T>, p: T -> bool)
    requires s != [] && Selects(r, s, p)
    ensures p(s[0]) ==> r != [] && r[0] == s[0] && Selects(r[1..], s[1..], p)
    ensures !p(s[0]) ==> Selects(r, s[1..], p)
  {
    var x, t := s[0], s[1..];
    assert s == [x] + t;
    if p(x) {
      assert multiset(r)[x] == multiset(s)[x] >= 1;
      assert r != [];
      if r[0] != x {
        SubsequenceMultiset(r, t);
        assert false;
      }
      assert r == [r[0]] + r[1..];
      forall y
        ensures multiset(r[1..])[y] == if p(y) then multiset(t)[y] else 0
      {
        assert multiset(r)[y] == multiset(r[1..])[y] + multiset([x])[y];
      }
    } else {
      if r != [] && r[0] == x {
        assert false;
      }
      assert IsSubsequence(r, t);
    }
  }

  /** The identity selects everything a predicate true on all of `s` keeps. */
  lemma SelectsAll<T(!new)>(s: seq<T>, p: T -> bool)
    requires forall i :: 0 <= i < |s| ==> p(s[i])
    ensures Selects(s, s, p)
  {
    SubsequenceReflexive(s);
    forall x | !p(x)
      ensures multiset(s)[x] == 0
    {
      assert x !in s;
    }
  }

  /** Nothing is selected by a predicate false on all of `s`. */
  lemma SelectsNone<T(!new)>(r: seq<T>, s: seq<T>, p: T -> bool)
    requires Selects(r, s, p)
    requires forall i :: 0 <= i < |s| ==> !p(s[i])
    ensures r == []
  {
    forall x
      ensures multiset(r)[x] == 0
    {
      if p(x) {
        assert x !in s;
      }
    }
    assert multiset(r) == multiset{};
  }

  /** Selecting by `p` and then by `q` selects by their conjunction. */
  lemma SelectsCompose<T(!new)>(r: seq<T>, t: seq<T>, s: seq<T>, p: T -> bool, q: T -> bool, pq: T -> bool)
    requires Selects(t, s, p) && Selects(r, t, q)
    requires forall x :: pq(x) == (p(x) && q(x))
    ensures Selects(r, s, pq)
  {
    SubsequenceTransitive(r, t, s);
  }

  /** The elements of a selection are the satisfying elements of its source. */
  lemma SelectsMembers<T(!new)>(r: seq<T>, s: seq<T>, p: T -> bool, x: T)
    requires Selects(r, s, p)
    ensures x in r <==> x in s && p(x)
  {
    assert x in r <==> x in multiset(r);
    assert x in s <==> x in multiset(s);
  }
}
