/** Stack trees: tries whose nodes carry tallies. The meaning of a tree is the family of
    all sums over its nodes whose path from the root satisfies a predicate. */
module Tries {
  import opened Tallies

  datatype Trie<K> = Trie(tally: Tally, children: map<K, Trie<K>>)

  /** One credited stack: caller-first path, and what it adds to each node on the way. */
  datatype Entry<K> = Entry(path: seq<K>, tally: Tally)

  function Empty<K>(): Trie<K> { Trie(ZERO, map[]) }

  function ChildOrEmpty<K>(n: Trie<K>, k: K): Trie<K> {
    if k in n.children then n.children[k] else Empty()
  }

  /** Walks down `path` from the root, creating missing nodes, and adds `t` to every node
      visited. The root itself is not credited. */
  function Credit<K>(n: Trie<K>, path: seq<K>, t: Tally): Trie<K>
    decreases |path|
  {
    if path == [] then n else
      var child := ChildOrEmpty(n, path[0]);
      n.(children := n.children[path[0] :=
        Credit(child.(tally := Plus(child.tally, t)), path[1..], t)])
  }

  /** Adds `t` to the single node at `path`, creating missing nodes on the way. */
  function BumpAt<K>(n: Trie<K>, path: seq<K>, t: Tally): Trie<K>
    decreases |path|
  {
    if path == [] then n.(tally := Plus(n.tally, t)) else
      n.(children := n.children[path[0] := BumpAt(ChildOrEmpty(n, path[0]), path[1..], t)])
  }

  /** One step of the walk: the node at the cursor is credited after all nodes above it. */
  lemma {:induction false} CreditStep<K>(n: Trie<K>, path: seq<K>, k: K, t: Tally)
    ensures Credit(n, path + [k], t) == BumpAt(Credit(n, path, t), path + [k], t)
    decreases |path|
  {
    hide Plus;
    if path == [] {
      assert (path + [k])[1..] == [];
    } else {
      var child := ChildOrEmpty(n, path[0]);
      assert (path + [k])[1..] == path[1..] + [k];
      CreditStep(child.(tally := Plus(child.tally, t)), path[1..], k, t);
    }
  }

  function CreditAll<K>(n: Trie<K>, entries: seq<Entry<K>>): Trie<K>
    decreases |entries|
  {
    if entries == [] then n else
      CreditAll(Credit(n, entries[0].path, entries[0].tally), entries[1..])
  }

  function Build<K>(entries: seq<Entry<K>>): Trie<K> { CreditAll(Empty(), entries) }

  // --------------------------------------------------------------------------------------
  // Meaning

  function When(b: bool, t: Tally): Tally { if b then t else ZERO }

  /** Sum of the tallies of all nodes strictly below `n` whose path satisfies `pred`;
      `pre` is the path of `n` itself. */
  ghost function SumWhere<K(!new)>(n: Trie<K>, pre: seq<K>, pred: seq<K> -> bool): Tally
    decreases n
  {
    MapSum(ChildSums(n, pre, pred))
  }

  ghost function ChildSums<K(!new)>(n: Trie<K>, pre: seq<K>, pred: seq<K> -> bool): map<K, Tally>
    decreases n, 0
  {
    map k | k in n.children ::
      Plus(When(pred(pre + [k]), n.children[k].tally), SumWhere(n.children[k], pre + [k], pred))
  }

  /** What crediting `t` along `path` contributes: once for every prefix that satisfies `pred`. */
  ghost function PathSum<K>(pre: seq<K>, path: seq<K>, t: Tally, pred: seq<K> -> bool): Tally
    decreases |path|
  {
    if path == [] then ZERO else
      Plus(When(pred(pre + [path[0]]), t), PathSum(pre + [path[0]], path[1..], t, pred))
  }

  ghost function EntriesSum<K>(entries: seq<Entry<K>>, pred: seq<K> -> bool): Tally {
    if entries == [] then ZERO else
      Plus(PathSum([], entries[0].path, entries[0].tally, pred), EntriesSum(entries[1..], pred))
  }

  lemma EmptySum<K(!new)>(pre: seq<K>, pred: seq<K> -> bool)
    ensures SumWhere(Empty<K>(), pre, pred) == ZERO
  {
    assert ChildSums(Empty<K>(), pre, pred) == map[];
  }

  /** The sum below a node splits into one child's share and the rest. */
  lemma SumSplit<K(!new)>(n: Trie<K>, k: K, pre: seq<K>, pred: seq<K> -> bool)
    ensures SumWhere(n, pre, pred) ==
      Plus(Plus(When(pred(pre + [k]), ChildOrEmpty(n, k).tally), SumWhere(ChildOrEmpty(n, k), pre + [k], pred)),
           MapSum(ChildSums(n, pre, pred) - {k}))
  {
    var m := ChildSums(n, pre, pred);
    hide Plus;
    if k in n.children {
      MapSumRemove(m, k);
    } else {
      assert m - {k} == m;
      EmptySum(pre + [k], pred);
      PlusZero(ZERO);
      PlusZero(MapSum(m));
    }
  }

  /** Crediting a stack adds exactly that stack's contribution to every sum. */
  lemma {:induction false} CreditAdds<K(!new)>(n: Trie<K>, path: seq<K>, t: Tally, pre: seq<K>, pred: seq<K> -> bool)
    ensures SumWhere(Credit(n, path, t), pre, pred) == Plus(SumWhere(n, pre, pred), PathSum(pre, path, t, pred))
    decreases |path|
  {
    hide Plus;
    if path == [] {
      PlusZero(SumWhere(n, pre, pred));
    } else {
      var k, rest := path[0], path[1..];
      var old' := ChildOrEmpty(n, k);
      var bumped := old'.(tally := Plus(old'.tally, t));
      var child := Credit(bumped, rest, t);
      var n' := Credit(n, path, t);
      assert ChildOrEmpty(n', k) == child;
      SumSplit(n, k, pre, pred);
      SumSplit(n', k, pre, pred);
      assert ChildSums(n', pre, pred) - {k} == ChildSums(n, pre, pred) - {k};
      CreditAdds(bumped, rest, t, pre + [k], pred);
      CreditKeepsTally(bumped, rest, t);
      assert ChildSums(bumped, pre + [k], pred) == ChildSums(old', pre + [k], pred);
      var b := pred(pre + [k]);
      var s, p := SumWhere(old', pre + [k], pred), PathSum(pre + [k], rest, t, pred);
      var others := MapSum(ChildSums(n, pre, pred) - {k});
      WhenPlus(b, old'.tally, t);
      PlusSwap(When(b, old'.tally), When(b, t), s, p);
      PlusAssoc(Plus(When(b, old'.tally), s), Plus(When(b, t), p), others);
      PlusComm(Plus(When(b, t), p), others);
      PlusAssoc(Plus(When(b, old'.tally), s), others, Plus(When(b, t), p));
    }
  }

  lemma WhenPlus(b: bool, x: Tally, y: Tally)
    ensures When(b, Plus(x, y)) == Plus(When(b, x), When(b, y))
  {
    PlusZero(ZERO);
  }

  lemma CreditKeepsTally<K>(n: Trie<K>, path: seq<K>, t: Tally)
    ensures Credit(n, path, t).tally == n.tally
  {
  }

  /** Every sum over a built tree is the sum over the credited stacks. */
  lemma {:induction false} CreditAllAdds<K(!new)>(n: Trie<K>, entries: seq<Entry<K>>, pred: seq<K> -> bool)
    ensures SumWhere(CreditAll(n, entries), [], pred) == Plus(SumWhere(n, [], pred), EntriesSum(entries, pred))
    decreases |entries|
  {
    hide Plus;
    if entries == [] {
      PlusZero(SumWhere(n, [], pred));
    } else {
      var e := entries[0];
      CreditAdds(n, e.path, e.tally, [], pred);
      CreditAllAdds(Credit(n, e.path, e.tally), entries[1..], pred);
      PlusAssoc(SumWhere(n, [], pred), PathSum([], e.path, e.tally, pred), EntriesSum(entries[1..], pred));
    }
  }

  lemma BuildMeaning<K(!new)>(entries: seq<Entry<K>>, pred: seq<K> -> bool)
    ensures SumWhere(Build(entries), [], pred) == EntriesSum(entries, pred)
  {
    CreditAllAdds(Empty<K>(), entries, pred);
    EmptySum<K>([], pred);
    PlusZero(EntriesSum(entries, pred));
  }

  // --------------------------------------------------------------------------------------
  // Looking up one node

  function TallyAt<K>(n: Trie<K>, path: seq<K>): Tally
    decreases |path|
  {
    if path == [] then n.tally else TallyAt(ChildOrEmpty(n, path[0]), path[1..])
  }

  predicate HasPath<K>(n: Trie<K>, path: seq<K>)
    decreases |path|
  {
    path == [] || (path[0] in n.children && HasPath(n.children[path[0]], path[1..]))
  }

  /** Sum of the entries whose path starts with `q`. */
  function PrefixSum<K(==)>(entries: seq<Entry<K>>, q: seq<K>): Tally {
    if entries == [] then ZERO else
      Plus(When(q <= entries[0].path, entries[0].tally), PrefixSum(entries[1..], q))
  }

  lemma {:induction false} CreditTallyAt<K>(n: Trie<K>, path: seq<K>, t: Tally, q: seq<K>)
    requires q != []
    ensures TallyAt(Credit(n, path, t), q) == Plus(TallyAt(n, q), When(q <= path, t))
    ensures HasPath(Credit(n, path, t), q) <==> HasPath(n, q) || q <= path
    decreases |path|
  {
    hide Plus;
    PlusZero(TallyAt(n, q));
    if path != [] && path[0] == q[0] {
      var child := ChildOrEmpty(n, q[0]);
      var bumped := child.(tally := Plus(child.tally, t));
      assert q <= path <==> q[1..] <= path[1..] by {
        if q[1..] <= path[1..] {
          assert q == [q[0]] + q[1..] && path == [q[0]] + path[1..];
        }
      }
      if |q| == 1 {
        CreditKeepsTally(bumped, path[1..], t);
      } else {
        CreditTallyAt(bumped, path[1..], t, q[1..]);
        assert TallyAt(bumped, q[1..]) == TallyAt(child, q[1..]);
        assert HasPath(bumped, q[1..]) == HasPath(child, q[1..]);
        if q[0] !in n.children {
          assert !HasPath(child, q[1..]);
        }
      }
    }
  }

  /** The node at any path carries the sum of all stacks running through it, and exists
      exactly when some stack runs through it. */
  lemma {:induction false} CreditAllTallyAt<K>(n: Trie<K>, entries: seq<Entry<K>>, q: seq<K>)
    requires q != []
    ensures TallyAt(CreditAll(n, entries), q) == Plus(TallyAt(n, q), PrefixSum(entries, q))
    ensures HasPath(CreditAll(n, entries), q) <==> HasPath(n, q) || exists e :: e in entries && q <= e.path
    decreases |entries|
  {
    hide Plus;
    if entries == [] {
      PlusZero(TallyAt(n, q));
    } else {
      var e := entries[0];
      CreditTallyAt(n, e.path, e.tally, q);
      CreditAllTallyAt(Credit(n, e.path, e.tally), entries[1..], q);
      PlusAssoc(TallyAt(n, q), When(q <= e.path, e.tally), PrefixSum(entries[1..], q));
      assert entries == [e] + entries[1..];
    }
  }

  lemma {:induction false} EmptyTallyAt<K>(q: seq<K>)
    ensures TallyAt(Empty<K>(), q) == ZERO
    ensures HasPath(Empty<K>(), q) <==> q == []
    decreases |q|
  {
    if q != [] { EmptyTallyAt(q[1..]); }
  }

  lemma BuildTallyAt<K>(entries: seq<Entry<K>>, q: seq<K>)
    requires q != []
    ensures TallyAt(Build(entries), q) == PrefixSum(entries, q)
    ensures HasPath(Build(entries), q) <==> exists e :: e in entries && q <= e.path
  {
    CreditAllTallyAt(Empty(), entries, q);
    EmptyTallyAt(q);
    PlusZero(PrefixSum(entries, q));
  }

  // --------------------------------------------------------------------------------------
  // Merging

  /** `StackNode::merge`: a child missing on the left starts from the default node. */
  function Merge<K>(a: Trie<K>, b: Trie<K>): Trie<K>
    decreases b
  {
    Trie(Plus(a.tally, b.tally),
         map k | k in a.children.Keys + b.children.Keys ::
           if k in b.children then Merge(ChildOrEmpty(a, k), b.children[k]) else a.children[k])
  }

  lemma {:induction false} MergeEmpty<K>(a: Trie<K>)
    ensures Merge(Empty(), a) == a && Merge(a, Empty()) == a
    decreases a
  {
    PlusZero(a.tally);
    hide Plus;
    forall k | k in a.children ensures Merge(Empty(), a.children[k]) == a.children[k] {
      MergeEmpty(a.children[k]);
    }
    assert Merge(Empty(), a).children == a.children;
    assert Merge(a, Empty()).children == a.children;
  }

  lemma {:induction false} MergeComm<K>(a: Trie<K>, b: Trie<K>)
    ensures Merge(a, b) == Merge(b, a)
    decreases b
  {
    PlusComm(a.tally, b.tally);
    forall k | k in a.children.Keys + b.children.Keys
      ensures Merge(a, b).children[k] == Merge(b, a).children[k]
    {
      hide Plus;
      if k in b.children && k in a.children {
        MergeComm(a.children[k], b.children[k]);
      } else if k in b.children {
        MergeEmpty(b.children[k]);
      } else {
        MergeEmpty(a.children[k]);
      }
    }
    assert Merge(a, b).children == Merge(b, a).children;
  }

  lemma {:induction false} MergeAssoc<K>(a: Trie<K>, b: Trie<K>, c: Trie<K>)
    ensures Merge(Merge(a, b), c) == Merge(a, Merge(b, c))
    decreases c
  {
    PlusAssoc(a.tally, b.tally, c.tally);
    var l, r := Merge(Merge(a, b), c), Merge(a, Merge(b, c));
    forall k | k in l.children ensures l.children[k] == r.children[k] {
      hide Plus;
      if k in c.children {
        MergeAssoc(ChildOrEmpty(a, k), ChildOrEmpty(b, k), c.children[k]);
        if k !in b.children {
          MergeEmpty(ChildOrEmpty(a, k));
          MergeEmpty(c.children[k]);
        }
        assert ChildOrEmpty(Merge(a, b), k) == Merge(ChildOrEmpty(a, k), ChildOrEmpty(b, k)) by {
          MergeEmpty<K>(Empty());
        }
      }
    }
    assert l.children == r.children;
  }

  lemma MergeBump<K>(a: Trie<K>, b: Trie<K>, t: Tally)
    ensures Merge(a, b.(tally := Plus(b.tally, t))) == Merge(a, b).(tally := Plus(Merge(a, b).tally, t))
  {
    PlusAssoc(a.tally, b.tally, t);
  }

  lemma MergeChild<K>(a: Trie<K>, b: Trie<K>, k: K)
    ensures ChildOrEmpty(Merge(a, b), k) == Merge(ChildOrEmpty(a, k), ChildOrEmpty(b, k))
  {
    hide Plus;
    MergeEmpty(ChildOrEmpty(a, k));
  }

  /** Crediting the right operand of a merge is crediting the merge. */
  lemma {:induction false} CreditMerge<K>(a: Trie<K>, b: Trie<K>, path: seq<K>, t: Tally)
    ensures Credit(Merge(a, b), path, t) == Merge(a, Credit(b, path, t))
    decreases |path|
  {
    hide Plus;
    if path != [] {
      var k := path[0];
      var ca, cb := ChildOrEmpty(a, k), ChildOrEmpty(b, k);
      var m := Merge(a, b);
      MergeChild(a, b, k);
      var bumped := cb.(tally := Plus(cb.tally, t));
      MergeBump(ca, cb, t);
      CreditMerge(ca, bumped, path[1..], t);
      var cb' := Credit(bumped, path[1..], t);
      MergeUpdate(a, b, k, cb');
    }
  }

  lemma MergeUpdate<K>(a: Trie<K>, b: Trie<K>, k: K, c: Trie<K>)
    ensures Merge(a, b.(children := b.children[k := c])) ==
      var m := Merge(a, b); m.(children := m.children[k := Merge(ChildOrEmpty(a, k), c)])
  {
    hide Plus;
    var m := Merge(a, b);
    assert Merge(a, b.(children := b.children[k := c])).children == m.children[k := Merge(ChildOrEmpty(a, k), c)];
  }

  lemma {:induction false} CreditAllMerge<K>(a: Trie<K>, b: Trie<K>, entries: seq<Entry<K>>)
    ensures CreditAll(Merge(a, b), entries) == Merge(a, CreditAll(b, entries))
    decreases |entries|
  {
    hide Plus;
    if entries != [] {
      CreditMerge(a, b, entries[0].path, entries[0].tally);
      CreditAllMerge(a, Credit(b, entries[0].path, entries[0].tally), entries[1..]);
    }
  }

  lemma {:induction false} CreditAllConcat<K>(n: Trie<K>, x: seq<Entry<K>>, y: seq<Entry<K>>)
    ensures CreditAll(n, x + y) == CreditAll(CreditAll(n, x), y)
    decreases |x|
  {
    hide Plus;
    if x == [] {
      assert x + y == y;
    } else {
      assert (x + y)[1..] == x[1..] + y;
      CreditAllConcat(Credit(n, x[0].path, x[0].tally), x[1..], y);
    }
  }

  /** Building is a homomorphism: concatenating credit lists is merging their trees. */
  lemma BuildConcat<K>(x: seq<Entry<K>>, y: seq<Entry<K>>)
    ensures Build(x + y) == Merge(Build(x), Build(y))
  {
    hide Plus;
    CreditAllConcat(Empty(), x, y);
    MergeEmpty(Build(x));
    CreditAllMerge(Build(x), Empty(), y);
  }

  /** Hence the order of two credit lists does not matter. */
  lemma BuildSwap<K>(x: seq<Entry<K>>, y: seq<Entry<K>>)
    ensures Build(x + y) == Build(y + x)
  {
    BuildConcat(x, y);
    BuildConcat(y, x);
    MergeComm(Build(x), Build(y));
  }

  // --------------------------------------------------------------------------------------
  // Sums and predicates

  /** Sums over disjoint predicates add up. */
  lemma {:induction false} SumWhereSplit<K(!new)>(n: Trie<K>, pre: seq<K>, p: seq<K> -> bool, p': seq<K> -> bool,
                                           both: seq<K> -> bool)
    requires forall r :: pre <= r && r != pre ==> !(p(r) && p'(r)) && both(r) == (p(r) || p'(r))
    ensures SumWhere(n, pre, both) == Plus(SumWhere(n, pre, p), SumWhere(n, pre, p'))
    decreases n
  {
    hide Plus;
    PlusZero(ZERO);
    forall k | k in n.children
      ensures ChildSums(n, pre, both)[k] == Plus(ChildSums(n, pre, p)[k], ChildSums(n, pre, p')[k])
    {
      var c, r := n.children[k], pre + [k];
      SumWhereSplit(c, r, p, p', both);
      PlusZero(c.tally);
      PlusSwap(When(p(r), c.tally), When(p'(r), c.tally), SumWhere(c, r, p), SumWhere(c, r, p'));
    }
    MapSumPlus(ChildSums(n, pre, p), ChildSums(n, pre, p'), ChildSums(n, pre, both));
  }

  /** Predicates that agree below `pre` give the same sum. */
  lemma {:induction false} SumWhereAgree<K(!new)>(n: Trie<K>, pre: seq<K>, p: seq<K> -> bool, p': seq<K> -> bool)
    requires forall r :: pre <= r && r != pre ==> p(r) == p'(r)
    ensures SumWhere(n, pre, p) == SumWhere(n, pre, p')
    decreases n
  {
    hide Plus;
    forall k | k in n.children ensures ChildSums(n, pre, p)[k] == ChildSums(n, pre, p')[k] {
      SumWhereAgree(n.children[k], pre + [k], p, p');
    }
    assert ChildSums(n, pre, p) == ChildSums(n, pre, p');
  }

  /** A predicate nothing satisfies sums to nothing. */
  lemma {:induction false} SumWhereNone<K(!new)>(n: Trie<K>, pre: seq<K>, p: seq<K> -> bool)
    requires forall r :: pre <= r && r != pre ==> !p(r)
    ensures SumWhere(n, pre, p) == ZERO
    decreases n
  {
    hide Plus;
    PlusZero(ZERO);
    forall k | k in n.children ensures ChildSums(n, pre, p)[k] == ZERO { SumWhereNone(n.children[k], pre + [k], p); }
    MapSumZero(ChildSums(n, pre, p));
  }

  /** A node's tally is the sum over the one path leading to it. */
  lemma {:induction false} TallyAtIsSum<K(!new)>(n: Trie<K>, pre: seq<K>, q: seq<K>)
    requires q != []
    ensures SumWhere(n, pre, r => r == pre + q) == TallyAt(n, q)
    decreases |q|
  {
    hide Plus;
    var p := r => r == pre + q;
    var k := q[0];
    var c := ChildOrEmpty(n, k);
    SumSplit(n, k, pre, p);
    assert pre + q == (pre + [k]) + q[1..];
    if |q| == 1 {
      assert pre + [k] == pre + q;
      SumWhereNone(c, pre + [k], p);
      PlusZero(c.tally);
    } else {
      assert |pre + [k]| < |pre + q|;
      TallyAtIsSum(c, pre + [k], q[1..]);
      SumWhereAgree(c, pre + [k], p, r => r == (pre + [k]) + q[1..]);
      PlusZero(TallyAt(c, q[1..]));
    }
    var others := ChildSums(n, pre, p) - {k};
    forall j | j in others ensures others[j] == ZERO {
      assert (pre + q)[|pre|] == k;
      SumWhereNone(n.children[j], pre + [j], p);
      PlusZero(ZERO);
    }
    MapSumZero(others);
    PlusZero(TallyAt(n, q));
  }
}
