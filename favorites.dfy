/**
 * The merge behind "add all words to favourites":
 *   merged = [...existing, ...new].filter((w, i) => merged.indexOf(w) === i)
 * which keeps the first occurrence of every word, in order.
 */
module Favorites {
  import opened Lists

  /**
   * The filter applied to the first `n` elements: an element is kept when
   * `indexOf` finds it at its own position, i.e. when it is the first
   * occurrence in the whole list.
   */
  function FirstOccurrences<T(==, !new)>(xs: seq<T>, n: nat): (r: seq<T>)
    requires n <= |xs|
    ensures forall x :: x in r <==> x in xs[..n]
    ensures NoDuplicates(r)
    ensures forall i :: 0 <= i < |r| ==> 0 <= IndexOf(xs, r[i]) < n
    ensures forall i, j :: 0 <= i < j < |r| ==> IndexOf(xs, r[i]) < IndexOf(xs, r[j])
    decreases n
  {
    if n == 0 then []
    else
      var r := FirstOccurrences(xs, n - 1);
      var x := xs[n - 1];
      assert xs[..n] == xs[..n - 1] + [x];
      if IndexOf(xs, x) == n - 1 then
        assert x !in r by { assert x !in xs[..n - 1]; }
        r + [x]
      else
        assert x in xs[..n - 1] by { assert IndexOf(xs, x) < n - 1; assert xs[IndexOf(xs, x)] == xs[..n - 1][IndexOf(xs, x)]; }
        r
  }

  /** `xs.filter((item, index) => xs.indexOf(item) === index)`. */
  function Dedup<T(==, !new)>(xs: seq<T>): seq<T> {
    FirstOccurrences(xs, |xs|)
  }

  /**
   * The dedup result has no duplicates, holds exactly the elements of its
   * input, and lists them in the order of their first occurrences.
   */
  lemma DedupSpec<T(!new)>(xs: seq<T>)
    ensures NoDuplicates(Dedup(xs))
    ensures forall x :: x in Dedup(xs) <==> x in xs
    ensures forall i, j :: 0 <= i < j < |Dedup(xs)| ==> IndexOf(xs, Dedup(xs)[i]) < IndexOf(xs, Dedup(xs)[j])
  {
    assert xs[..|xs|] == xs;
  }

  /** The last element of a duplicate-free prefix is found at its own index. */
  lemma IndexOfLastDistinct<T(!new)>(xs: seq<T>, n: nat)
    requires 0 < n <= |xs| && NoDuplicates(xs[..n])
    ensures IndexOf(xs, xs[n - 1]) == n - 1
  {
    var x := xs[n - 1];
    var k := IndexOf(xs, x);
    forall j | 0 <= j < n - 1 ensures xs[j] != x {
      assert xs[..n][j] != xs[..n][n - 1];
    }
    assert k >= n - 1;
  }

  lemma {:induction false} FirstOccurrencesOfDistinct<T(!new)>(xs: seq<T>, n: nat)
    requires n <= |xs| && NoDuplicates(xs[..n])
    ensures FirstOccurrences(xs, n) == xs[..n]
    decreases n
  {
    if n > 0 {
      assert NoDuplicates(xs[..n - 1]) by {
        var p := xs[..n - 1];
        forall i, j | 0 <= i < j < |p| ensures p[i] != p[j] {
          assert xs[..n][i] != xs[..n][j];
        }
      }
      FirstOccurrencesOfDistinct(xs, n - 1);
      var x := xs[n - 1];
      IndexOfLastDistinct(xs, n);
      assert xs[..n - 1] + [x] == xs[..n];
    }
  }

  /** A list without duplicates is left as it is. */
  lemma DedupOfDistinct<T(!new)>(xs: seq<T>)
    requires NoDuplicates(xs)
    ensures Dedup(xs) == xs
  {
    assert xs[..|xs|] == xs;
    FirstOccurrencesOfDistinct(xs, |xs|);
  }

  lemma {:induction false} FirstOccurrencesGrow<T(!new)>(xs: seq<T>, m: nat, n: nat)
    requires m <= n <= |xs|
    ensures |FirstOccurrences(xs, m)| <= |FirstOccurrences(xs, n)|
    ensures FirstOccurrences(xs, n)[..|FirstOccurrences(xs, m)|] == FirstOccurrences(xs, m)
    decreases n - m
  {
    if m < n {
      FirstOccurrencesGrow(xs, m, n - 1);
      var r := FirstOccurrences(xs, n - 1);
      var k := |FirstOccurrences(xs, m)|;
      assert FirstOccurrences(xs, n)[..|r|] == r;
      assert FirstOccurrences(xs, n)[..k] == r[..k];
    }
  }

  /** `[...existing, ...newWords]` without repeated words. */
  function Merge(existing: seq<string>, newWords: seq<string>): seq<string> {
    Dedup(existing + newWords)
  }

  /**
   * Merging never loses a word and never invents one, stores no word twice,
   * and keeps a duplicate-free stored list as its prefix.
   */
  lemma MergeSpec(existing: seq<string>, newWords: seq<string>)
    ensures NoDuplicates(Merge(existing, newWords))
    ensures forall w :: w in Merge(existing, newWords) <==> w in existing || w in newWords
    ensures NoDuplicates(existing) ==>
      |existing| <= |Merge(existing, newWords)| && Merge(existing, newWords)[..|existing|] == existing
  {
    var xs := existing + newWords;
    DedupSpec(xs);
    if NoDuplicates(existing) {
      assert xs[..|existing|] == existing;
      FirstOccurrencesOfDistinct(xs, |existing|);
      FirstOccurrencesGrow(xs, |existing|, |xs|);
    }
  }

  /**
   * Adding one word to a duplicate-free list appends it when it is new and
   * leaves the list unchanged when it is already there.
   */
  lemma MergeOne(existing: seq<string>, w: string)
    requires NoDuplicates(existing)
    ensures w !in existing ==> Merge(existing, [w]) == existing + [w]
    ensures w in existing ==> Merge(existing, [w]) == existing
  {
    var xs := existing + [w];
    var n := |xs|;
    assert xs[..n - 1] == existing;
    FirstOccurrencesOfDistinct(xs, n - 1);
    FirstOccurrencesStep(xs, n);
    assert xs[n - 1] == w;
  }

  /** One step of the filter: the n-th element is kept exactly when it is its first occurrence. */
  lemma FirstOccurrencesStep<T(!new)>(xs: seq<T>, n: nat)
    requires 0 < n <= |xs|
    ensures IndexOf(xs, xs[n - 1]) == n - 1 ==> FirstOccurrences(xs, n) == FirstOccurrences(xs, n - 1) + [xs[n - 1]]
    ensures IndexOf(xs, xs[n - 1]) != n - 1 ==> FirstOccurrences(xs, n) == FirstOccurrences(xs, n - 1)
  {
  }

  lemma FirstOccurrencesExample(xs: seq<string>)
    requires xs == ["cat", "dog", "dog", "bird"]
    ensures FirstOccurrences(xs, 4) == ["cat", "dog", "bird"]
  {
    assert "cat" != "dog" && "dog" != "bird" && "cat" != "bird";
    assert IndexOf(xs, "cat") == 0;
    assert IndexOf(xs, "dog") == 1;
    assert IndexOf(xs, "bird") == 3;
    FirstOccurrencesStep(xs, 1);
    FirstOccurrencesStep(xs, 2);
    FirstOccurrencesStep(xs, 3);
    FirstOccurrencesStep(xs, 4);
  }

  /** First-occurrence order on the concrete case: cat, dog + dog, bird. */
  lemma MergeExample()
    ensures Merge(["cat", "dog"], ["dog", "bird"]) == ["cat", "dog", "bird"]
  {
    var xs := ["cat", "dog"] + ["dog", "bird"];
    assert xs == ["cat", "dog", "dog", "bird"];
    FirstOccurrencesExample(xs);
    assert Dedup(xs) == FirstOccurrences(xs, 4);
  }
}
