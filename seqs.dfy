/** Order facts about sequences shared by the filters of the pipeline. */
module Seqs {

  /** `a` is obtained from `b` by deleting elements, keeping the order of the rest.
      Defined from the back, to match the loops that build results by appending. */
  ghost predicate IsSubsequence<T>(a: seq<T>, b: seq<T>)
    decreases |b|
  {
    a == [] ||
    (b != [] &&
     ((a[|a| - 1] == b[|b| - 1] && IsSubsequence(a[..|a| - 1], b[..|b| - 1])) ||
      IsSubsequence(a, b[..|b| - 1])))
  }

  /** Keeping (`keep`) or dropping the next element of `b` preserves the relation. */
  lemma SubsequenceSnocIf<T>(a: seq<T>, b: seq<T>, x: T, keep: bool)
    requires IsSubsequence(a, b)
    ensures IsSubsequence(a + (if keep then [x] else []), b + [x])
  {
    SubsequenceSnoc(a, b, x);
    if !keep {
      assert a + [] == a;
    }
  }

  /** Keeping or dropping one more element at the end preserves the relation. */
  lemma SubsequenceSnoc<T>(a: seq<T>, b: seq<T>, x: T)
    requires IsSubsequence(a, b)
    ensures IsSubsequence(a, b + [x])
    ensures IsSubsequence(a + [x], b + [x])
  {
    assert (b + [x])[..|b + [x]| - 1] == b;
    assert (a + [x])[..|a + [x]| - 1] == a;
  }
}
