/** Order-preserving selection of elements, used for the revoke request and the cleaned lists. */
module Sequences {

  /** `xs` can be obtained from `ys` by deleting elements: same elements, same order. */
  predicate Subsequence<T(==)>(xs: seq<T>, ys: seq<T>)
  {
    if xs == [] then true
    else if ys == [] then false
    else if xs[|xs| - 1] == ys[|ys| - 1] then Subsequence(xs[..|xs| - 1], ys[..|ys| - 1])
    else Subsequence(xs, ys[..|ys| - 1])
  }

  /** A subsequence of `ys` is also one of `ys + [y]`. */
  lemma {:induction false} SubsequenceOfPrefix<T>(xs: seq<T>, ys: seq<T>, y: T)
    requires Subsequence(xs, ys)
    ensures Subsequence(xs, ys + [y])
    decreases |ys|, 1
  {
    assert (ys + [y])[..|ys|] == ys;
    if xs != [] && xs[|xs| - 1] == y {
      SubsequenceDropLast(xs, ys);
    }
  }

  /** Dropping the last element of a subsequence keeps it a subsequence. */
  lemma {:induction false} SubsequenceDropLast<T>(xs: seq<T>, ys: seq<T>)
    requires xs != [] && Subsequence(xs, ys)
    ensures Subsequence(xs[..|xs| - 1], ys)
    decreases |ys|, 0
  {
    var ys' := ys[..|ys| - 1];
    assert ys' + [ys[|ys| - 1]] == ys;
    if xs[|xs| - 1] != ys[|ys| - 1] {
      SubsequenceDropLast(xs, ys');
    }
    SubsequenceOfPrefix(xs[..|xs| - 1], ys', ys[|ys| - 1]);
  }

  /** No element occurs twice. */
  predicate Distinct<T(==)>(s: seq<T>)
  {
    forall i, j :: 0 <= i < j < |s| ==> s[i] != s[j]
  }

  /** How many elements of `s` satisfy `p`. */
  function CountWhere<T>(s: seq<T>, p: T -> bool): nat
  {
    if s == [] then 0 else CountWhere(s[..|s| - 1], p) + (if p(s[|s| - 1]) then 1 else 0)
  }

  /** The elements of `s` that do not satisfy `p`. */
  function Rejected<T>(s: seq<T>, p: T -> bool): set<T>
  {
    set x | x in s && !p(x)
  }

  /**
   * Over distinct elements, those satisfying `p` and the set of those that
   * do not add up to all of them.
   */
  lemma {:induction false} CountWherePartition<T>(s: seq<T>, p: T -> bool)
    requires Distinct(s)
    ensures CountWhere(s, p) + |Rejected(s, p)| == |s|
  {
    if s != [] {
      var init := s[..|s| - 1];
      var last := s[|s| - 1];
      assert Distinct(init) by {
        forall i, j | 0 <= i < j < |init| ensures init[i] != init[j] {
          assert init[i] == s[i] && init[j] == s[j];
        }
      }
      CountWherePartition(init, p);
      var outInit := Rejected(init, p);
      var out := Rejected(s, p);
      assert s == init + [last];
      assert last !in init by {
        forall k | 0 <= k < |init| ensures init[k] != last {
          assert init[k] == s[k];
        }
      }
      if !p(last) {
        assert out == outInit + {last};
      } else {
        assert out == outInit;
      }
    }
  }
}
