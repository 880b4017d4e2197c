/** Small facts about options, sets and lists that several modules use. */
module Collections {

  datatype Option<+T> = None | Some(value: T)

  // ---- sets ----

  ghost function PickOne<T>(xs: set<T>): (x: T)
    requires xs != {}
    ensures x in xs
  {
    var x :| x in xs; x
  }

  lemma SubsetCard<T>(a: set<T>, b: set<T>)
    requires a <= b
    ensures |a| <= |b|
  {
    assert b == a + (b - a);
  }

  // ---- lists without repetition ----

  ghost predicate NoDup<T>(xs: seq<T>) {
    forall i, j :: 0 <= i < j < |xs| ==> xs[i] != xs[j]
  }

  lemma NoDupSnoc<T>(xs: seq<T>, x: T)
    ensures NoDup(xs + [x]) <==> NoDup(xs) && x !in xs
  {
    var all := xs + [x];
    assert all[|xs|] == x;
    if NoDup(all) {
      forall i, j | 0 <= i < j < |xs|
        ensures xs[i] != xs[j]
      {
        assert all[i] != all[j];
      }
      forall i | 0 <= i < |xs|
        ensures xs[i] != x
      {
        assert all[i] != all[|xs|];
      }
    }
  }

  /** Without repetition means at most once each. */
  lemma {:induction false} AtMostOnce<T>(xs: seq<T>)
    ensures NoDup(xs) <==> forall x :: multiset(xs)[x] <= 1
  {
    if xs != [] {
      var front, last := xs[..|xs| - 1], xs[|xs| - 1];
      assert xs == front + [last];
      AtMostOnce(front);
      NoDupSnoc(front, last);
      assert multiset(xs) == multiset(front) + multiset{last};
      if !NoDup(xs) && NoDup(front) {
        assert multiset(xs)[last] >= 2;
      }
      forall x
        ensures multiset(front)[x] <= multiset(xs)[x]
      {
      }
    }
  }

  lemma {:induction false} NoDupCard<T>(xs: seq<T>)
    requires NoDup(xs)
    ensures |set x | x in xs| == |xs|
  {
    if xs != [] {
      var front, last := xs[..|xs| - 1], xs[|xs| - 1];
      assert xs == front + [last];
      NoDupSnoc(front, last);
      NoDupCard(front);
      assert (set x | x in xs) == (set x | x in front) + {last};
    } else {
      assert (set x | x in xs) == {};
    }
  }
}
