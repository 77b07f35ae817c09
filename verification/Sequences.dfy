/** What is left of a sequence after leaving some elements out. */
module Sequences {

  ghost predicate Subsequence<T>(sub: seq<T>, all: seq<T>)
    decreases |all|
  {
    if all == [] then sub == []
    else
      Subsequence(sub, all[..|all| - 1]) ||
      (sub != [] && sub[|sub| - 1] == all[|all| - 1] && Subsequence(sub[..|sub| - 1], all[..|all| - 1]))
  }

  lemma {:induction false} SubsequenceSnoc<T>(sub: seq<T>, all: seq<T>, x: T)
    requires Subsequence(sub, all)
    ensures Subsequence(sub, all + [x]) && Subsequence(sub + [x], all + [x])
  {
    assert (all + [x])[..|all|] == all && (sub + [x])[..|sub|] == sub;
  }

  /** Leaving out one more element. */
  lemma {:induction false} SubsequenceDrop<T>(x: seq<T>, b: T, y: seq<T>, all: seq<T>)
    requires Subsequence(x + [b] + y, all)
    ensures Subsequence(x + y, all)
    decreases |all|
  {
    var sub := x + [b] + y;
    var init := all[..|all| - 1];
    if Subsequence(sub, init) {
      SubsequenceDrop(x, b, y, init);
    } else if y == [] {
      assert sub[..|sub| - 1] == x == x + y;
    } else {
      assert sub[..|sub| - 1] == x + [b] + y[..|y| - 1];
      SubsequenceDrop(x, b, y[..|y| - 1], init);
      assert (x + y)[..|x + y| - 1] == x + y[..|y| - 1];
    }
  }

  lemma {:induction false} SubsequencePrefix<T>(x: seq<T>, y: seq<T>, all: seq<T>)
    requires Subsequence(x + y, all)
    ensures Subsequence(x, all)
    decreases |y|
  {
    if y == [] {
      assert x + y == x;
    } else {
      var n := |y| - 1;
      assert x + y == (x + y[..n]) + [y[n]] + [];
      SubsequenceDrop(x + y[..n], y[n], [], all);
      assert x + y[..n] + [] == x + y[..n];
      SubsequencePrefix(x, y[..n], all);
    }
  }
}
