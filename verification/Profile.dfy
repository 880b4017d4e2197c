/** The call-tree profile of tools/gen_profile.py: inclusive totals and the folding of calls into their callers, and
    what they ought to be, said over the whole tree. */
module Profile {
  import opened Collections

  /** A call is known by its stack of functions; its caller's stack is the same without the last function. */
  type Stack = seq<string>
  type Data = map<string, int>
  type Table = map<Stack, Data>

  const CALLS := "calls"

  function Parent(s: Stack): Stack
    requires s != []
  {
    s[..|s| - 1]
  }

  function Children(calls: set<Stack>, s: Stack): set<Stack> {
    set t | t in calls && t != [] && Parent(t) == s
  }

  /** The calls whose caller has no entry. */
  function Roots(calls: set<Stack>): set<Stack> {
    set t | t in calls && (t == [] || Parent(t) !in calls)
  }

  /** `t` is `s` or a call made below it. */
  predicate Under(calls: set<Stack>, s: Stack, t: Stack)
    decreases |t|
  {
    t == s || (t != [] && Parent(t) in calls && Under(calls, s, Parent(t)))
  }

  function Subtree(calls: set<Stack>, s: Stack): set<Stack> {
    set t | t in calls && Under(calls, s, t)
  }

  /** `p` is `s`, or a chain of folded calls leads from `p` up to it. */
  predicate Via(calls: set<Stack>, folds: set<Stack>, s: Stack, p: Stack)
    decreases |p|
  {
    p == s || (p != [] && p in calls && p in folds && Via(calls, folds, s, Parent(p)))
  }

  /** The calls shown below `s`: the unfolded ones whose caller is `s` or folded into it. */
  function Shown(calls: set<Stack>, folds: set<Stack>, s: Stack): set<Stack> {
    set t | t in calls && t !in folds && t != [] && Via(calls, folds, s, Parent(t))
  }

  /** The calls have the same counters in both tables. */
  ghost predicate KeysAs(orig: Table, calls: set<Stack>, table: Table) {
    && calls <= orig.Keys && calls <= table.Keys
    && forall s :: s in calls ==> table[s].Keys == orig[s].Keys
  }

  /** A call has every counter that the calls made from it have. */
  ghost predicate NestedAt(orig: Table, calls: set<Stack>, s: Stack)
    requires calls <= orig.Keys && s in calls
  {
    forall c :: c in Children(calls, s) ==> orig[c].Keys <= orig[s].Keys
  }

  // ---- sums over sets of calls ----

  ghost function At(table: Table, s: Stack, k: string): int {
    if s in table && k in table[s] then table[s][k] else 0
  }

  ghost function Sum(xs: set<Stack>, table: Table, k: string): int
    decreases |xs|
  {
    if xs == {} then 0 else var x := PickOne(xs); At(table, x, k) + Sum(xs - {x}, table, k)
  }

  lemma {:induction false} SumWithout(xs: set<Stack>, x: Stack, table: Table, k: string)
    requires x in xs
    ensures Sum(xs, table, k) == At(table, x, k) + Sum(xs - {x}, table, k)
    decreases |xs|
  {
    hide At;
    var y := PickOne(xs);
    if y != x {
      SumWithout(xs - {y}, x, table, k);
      SumWithout(xs - {x}, y, table, k);
      assert xs - {y} - {x} == xs - {x} - {y};
    }
  }

  lemma SumWith(xs: set<Stack>, x: Stack, table: Table, k: string)
    requires x !in xs
    ensures Sum(xs + {x}, table, k) == At(table, x, k) + Sum(xs, table, k)
  {
    SumWithout(xs + {x}, x, table, k);
    assert xs + {x} - {x} == xs;
  }

  lemma {:induction false} SumDisjoint(xs: set<Stack>, ys: set<Stack>, table: Table, k: string)
    requires xs !! ys
    ensures Sum(xs + ys, table, k) == Sum(xs, table, k) + Sum(ys, table, k)
    decreases |xs|
  {
    hide At;
    if xs == {} {
      assert xs + ys == ys;
    } else {
      var x := PickOne(xs);
      SumDisjoint(xs - {x}, ys, table, k);
      SumWithout(xs, x, table, k);
      SumWithout(xs + ys, x, table, k);
      assert xs + ys - {x} == (xs - {x}) + ys;
    }
  }

  lemma {:induction false} SumSame(xs: set<Stack>, table: Table, table': Table, k: string)
    requires forall x :: x in xs ==> At(table, x, k) == At(table', x, k)
    ensures Sum(xs, table, k) == Sum(xs, table', k)
    decreases |xs|
  {
    if xs != {} {
      SumSame(xs - {PickOne(xs)}, table, table', k);
    }
  }

  // ---- the tree ----

  lemma {:induction false} SumZero(xs: set<Stack>, table: Table, k: string)
    requires forall x :: x in xs ==> At(table, x, k) == 0
    ensures Sum(xs, table, k) == 0
    decreases |xs|
  {
    if xs != {} {
      SumZero(xs - {PickOne(xs)}, table, k);
    }
  }

  lemma {:induction false} UnderLonger(calls: set<Stack>, s: Stack, t: Stack)
    requires Under(calls, s, t)
    ensures |s| <= |t| && s == t[..|s|]
    decreases |t|
  {
    if t != s {
      UnderLonger(calls, s, Parent(t));
    }
  }

  /** Below a call are the call itself and what is below its children. */
  lemma {:induction false} UnderChild(calls: set<Stack>, s: Stack, t: Stack)
    requires t in calls && Under(calls, s, t) && t != s
    ensures |s| < |t| && t[..|s| + 1] in Children(calls, s) && Under(calls, t[..|s| + 1], t)
    decreases |t|
  {
    UnderLonger(calls, s, t);
    UnderLonger(calls, s, Parent(t));
    if Parent(t) == s {
      assert t[..|s| + 1] == t;
    } else {
      UnderChild(calls, s, Parent(t));
      assert Parent(t)[..|s| + 1] == t[..|s| + 1];
    }
  }

  lemma {:induction false} ChildUnder(calls: set<Stack>, s: Stack, c: Stack, t: Stack)
    requires s in calls && c in Children(calls, s) && Under(calls, c, t)
    ensures Under(calls, s, t) && |s| < |t| && t[..|s| + 1] == c
    decreases |t|
  {
    UnderLonger(calls, c, t);
    if t != c {
      ChildUnder(calls, s, c, Parent(t));
    }
  }

  ghost function SubtreesOf(calls: set<Stack>, cs: set<Stack>): set<Stack> {
    set t, c | c in cs && t in Subtree(calls, c) :: t
  }

  lemma SubtreeSplits(calls: set<Stack>, s: Stack)
    requires s in calls
    ensures Subtree(calls, s) == {s} + SubtreesOf(calls, Children(calls, s))
    ensures s !in SubtreesOf(calls, Children(calls, s))
  {
    hide Under;
    var cs := Children(calls, s);
    forall t | t in Subtree(calls, s)
      ensures t in {s} + SubtreesOf(calls, cs)
    {
      if t != s {
        UnderChild(calls, s, t);
        assert t in Subtree(calls, t[..|s| + 1]);
      }
    }
    forall t | t in SubtreesOf(calls, cs)
      ensures t in Subtree(calls, s) && t != s
    {
      var c :| c in cs && t in Subtree(calls, c);
      ChildUnder(calls, s, c, t);
    }
    assert Under(calls, s, s) by { UnderSelf(calls, s); }
  }

  lemma UnderSelf(calls: set<Stack>, s: Stack)
    ensures Under(calls, s, s)
  {
  }

  lemma SubtreesApart(calls: set<Stack>, s: Stack, cs: set<Stack>, c: Stack)
    requires s in calls && cs <= Children(calls, s) && c in cs
    ensures SubtreesOf(calls, cs) == Subtree(calls, c) + SubtreesOf(calls, cs - {c})
    ensures Subtree(calls, c) !! SubtreesOf(calls, cs - {c})
  {
    hide Under;
    forall t, d | t in Subtree(calls, c) && d in cs - {c}
      ensures t !in Subtree(calls, d)
    {
      ChildUnder(calls, s, c, t);
      if t in Subtree(calls, d) {
        ChildUnder(calls, s, d, t);
      }
    }
  }

  /** Subtrees of different children have nothing in common, so their sums add up. */
  lemma {:induction false} SumSubtrees(calls: set<Stack>, s: Stack, cs: set<Stack>, orig: Table, total: Table,
                                       k: string)
    requires s in calls && cs <= Children(calls, s)
    requires forall c :: c in cs ==> At(total, c, k) == Sum(Subtree(calls, c), orig, k)
    ensures Sum(cs, total, k) == Sum(SubtreesOf(calls, cs), orig, k)
    decreases |cs|
  {
    hide Under, At;
    if cs == {} {
      assert SubtreesOf(calls, cs) == {};
    } else {
      var c := PickOne(cs);
      var rest := cs - {c};
      SumSubtrees(calls, s, rest, orig, total, k);
      SubtreesApart(calls, s, cs, c);
      hide Subtree, SubtreesOf, Children;
      SumDisjoint(Subtree(calls, c), SubtreesOf(calls, rest), orig, k);
    }
  }

  /** The total of a call from the totals of its children. */
  lemma TotalFromChildren(calls: set<Stack>, s: Stack, orig: Table, total: Table, k: string)
    requires s in calls
    requires forall c :: c in Children(calls, s) ==> At(total, c, k) == Sum(Subtree(calls, c), orig, k)
    ensures Sum(Subtree(calls, s), orig, k) == At(orig, s, k) + Sum(Children(calls, s), total, k)
  {
    hide Under, At;
    var cs := Children(calls, s);
    SumSubtrees(calls, s, cs, orig, total, k);
    SubtreeSplits(calls, s);
    var below := SubtreesOf(calls, cs);
    assert {s} + below == below + {s};
    SumWith(below, s, orig, k);
  }

  // ---- what is shown ----

  lemma {:induction false} ViaChild(calls: set<Stack>, folds: set<Stack>, s: Stack, p: Stack)
    requires Via(calls, folds, s, p) && p != s
    ensures exists c :: c in Children(calls, s) && c in folds && Via(calls, folds, c, p)
    decreases |p|
  {
    if Parent(p) == s {
      assert p in Children(calls, s) && Via(calls, folds, p, p);
    } else {
      ViaChild(calls, folds, s, Parent(p));
      var c :| c in Children(calls, s) && c in folds && Via(calls, folds, c, Parent(p));
      assert Via(calls, folds, c, p);
    }
  }

  lemma {:induction false} ChildVia(calls: set<Stack>, folds: set<Stack>, s: Stack, c: Stack, p: Stack)
    requires c in Children(calls, s) && c in folds && Via(calls, folds, c, p)
    ensures Via(calls, folds, s, p)
    decreases |p|
  {
    if p != c {
      ChildVia(calls, folds, s, c, Parent(p));
    } else {
      assert Via(calls, folds, s, Parent(c));
    }
  }

  ghost function ShownUnder(calls: set<Stack>, folds: set<Stack>, cs: set<Stack>): set<Stack> {
    set t, c | c in cs && t in Shown(calls, folds, c) :: t
  }

  /** What is shown below a call: its unfolded children, and what is shown below its folded ones. */
  lemma ShownSplits(calls: set<Stack>, folds: set<Stack>, s: Stack)
    ensures var cs := Children(calls, s);
            Shown(calls, folds, s) == (cs - folds) + ShownUnder(calls, folds, cs * folds)
  {
    hide Via;
    var cs := Children(calls, s);
    forall t | t in Shown(calls, folds, s)
      ensures t in (cs - folds) + ShownUnder(calls, folds, cs * folds)
    {
      if Parent(t) != s {
        ViaChild(calls, folds, s, Parent(t));
        var c :| c in cs && c in folds && Via(calls, folds, c, Parent(t));
        assert t in Shown(calls, folds, c);
      }
    }
    forall t | t in cs - folds
      ensures t in Shown(calls, folds, s)
    {
      assert Via(calls, folds, s, s) by { ViaSelf(calls, folds, s); }
    }
    forall t | t in ShownUnder(calls, folds, cs * folds)
      ensures t in Shown(calls, folds, s)
    {
      var c :| c in cs * folds && t in Shown(calls, folds, c);
      ChildVia(calls, folds, s, c, Parent(t));
    }
  }

  lemma ViaSelf(calls: set<Stack>, folds: set<Stack>, s: Stack)
    ensures Via(calls, folds, s, s)
  {
  }
}
