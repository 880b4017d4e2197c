/** What the scheduler guarantees: no core ever has two owners, and the periodic choice is the fair one. */
module SchedulerLaws {
  import opened Collections
  import opened Scheduler

  // ---- lists without repetition ----

  ghost function ToSet(xs: seq<int>): set<int> {
    set x | x in xs
  }

  lemma {:induction false} CardNoDup(xs: seq<int>)
    requires NoDup(xs)
    ensures |ToSet(xs)| == |xs|
  {
    if xs != [] {
      CardNoDup(xs[1..]);
      assert ToSet(xs) == {xs[0]} + ToSet(xs[1..]);
      assert xs[0] !in ToSet(xs[1..]);
    }
  }

  lemma NoDupPermuted(xs: seq<int>, ys: seq<int>)
    requires NoDup(xs) && multiset(xs) == multiset(ys)
    ensures NoDup(ys) && |xs| == |ys|
    ensures forall x :: x in ys <==> x in xs
  {
    AtMostOnce(xs);
    AtMostOnce(ys);
    assert |multiset(xs)| == |xs| && |multiset(ys)| == |ys|;
    forall x
      ensures x in ys <==> x in xs
    {
      assert x in multiset(ys) <==> x in multiset(xs);
    }
  }

  lemma {:induction false} FilterMembers(xs: seq<int>, p: int -> bool)
    ensures forall x :: x in Filter(xs, p) <==> x in xs && p(x)
  {
    if xs != [] {
      FilterMembers(xs[1..], p);
      var head := if p(xs[0]) then [xs[0]] else [];
      assert Filter(xs, p) == head + Filter(xs[1..], p);
      assert forall x :: x in xs <==> x == xs[0] || x in xs[1..];
    }
  }

  lemma {:induction false} FilterNoDup(xs: seq<int>, p: int -> bool)
    requires NoDup(xs)
    ensures NoDup(Filter(xs, p))
  {
    if xs != [] {
      FilterNoDup(xs[1..], p);
      FilterMembers(xs[1..], p);
    }
  }

  lemma {:induction false} FilterConcat(xs: seq<int>, ys: seq<int>, p: int -> bool)
    ensures Filter(xs + ys, p) == Filter(xs, p) + Filter(ys, p)
  {
    if xs == [] {
      assert xs + ys == ys;
    } else {
      hide Filter;
      FilterConcat(xs[1..], ys, p);
      assert (xs + ys)[1..] == xs[1..] + ys;
      FilterFirst(xs, p);
      FilterFirst(xs + ys, p);
      Assoc(if p(xs[0]) then [xs[0]] else [], Filter(xs[1..], p), Filter(ys, p));
    }
  }

  lemma FilterFirst(xs: seq<int>, p: int -> bool)
    requires xs != []
    ensures Filter(xs, p) == (if p(xs[0]) then [xs[0]] else []) + Filter(xs[1..], p)
  {
  }

  lemma Assoc(a: seq<int>, b: seq<int>, c: seq<int>)
    ensures a + (b + c) == (a + b) + c
  {
  }

  /** Filtering by a property and by its opposite share the list out. */
  lemma {:induction false} FilterSplits(xs: seq<int>, p: int -> bool, q: int -> bool)
    requires forall i :: 0 <= i < |xs| ==> q(xs[i]) == !p(xs[i])
    ensures |Filter(xs, p)| + |Filter(xs, q)| == |xs|
  {
    if xs != [] {
      FilterSplits(xs[1..], p, q);
      assert q(xs[0]) == !p(xs[0]);
    }
  }

  // ---- sorting ----

  ghost predicate SortedBy(ids: seq<Id>, threads: map<Id, Thread>) {
    forall i, j :: 0 <= i < j < |ids| ==> ScoreOf(threads, ids[i]) <= ScoreOf(threads, ids[j])
  }

  lemma {:induction false} InsertSorted(x: Id, ids: seq<Id>, threads: map<Id, Thread>)
    requires SortedBy(ids, threads)
    ensures SortedBy(Insert(x, ids, threads), threads)
  {
    if ids != [] && ScoreOf(threads, x) > ScoreOf(threads, ids[0]) {
      InsertSorted(x, ids[1..], threads);
      var r := Insert(x, ids[1..], threads);
      forall j | 0 <= j < |r|
        ensures ScoreOf(threads, ids[0]) <= ScoreOf(threads, r[j])
      {
        assert r[j] in multiset(r);
      }
    }
  }

  lemma {:induction false} SortSorted(ids: seq<Id>, threads: map<Id, Thread>)
    ensures SortedBy(SortByScore(ids, threads), threads)
  {
    if ids != [] {
      SortSorted(ids[1..], threads);
      InsertSorted(ids[0], SortByScore(ids[1..], threads), threads);
    }
  }

  // ---- ownership ----

  ghost predicate Exclusive(threads: map<Id, Thread>) {
    forall x, y :: x in threads && y in threads && x != y && threads[x].core.Some? ==>
      threads[x].core != threads[y].core
  }

  ghost predicate OwnersIn(threads: map<Id, Thread>, cores: seq<Core>) {
    forall x :: x in threads && threads[x].core.Some? ==> threads[x].core.value in cores
  }

  ghost predicate OwnersRun(threads: map<Id, Thread>) {
    forall x :: x in threads && threads[x].core.Some? ==> threads[x].runnable
  }

  ghost predicate Increasing(cores: seq<Core>) {
    forall i, j :: 0 <= i < j < |cores| ==> cores[i] < cores[j]
  }

  /** No core has two owners, every owner is runnable, and while cores remain unissued there are no more threads than
      issued cores and all owned cores are issued ones. */
  ghost predicate Inv(s: State) {
    && NoDup(s.order) && (forall x :: x in s.order <==> x in s.threads)
    && Increasing(s.cores) && s.lastCore <= |s.cores|
    && Exclusive(s.threads) && OwnersIn(s.threads, s.cores) && OwnersRun(s.threads)
    && (s.lastCore < |s.cores| ==> |s.order| <= s.lastCore && OwnersIn(s.threads, s.cores[..s.lastCore]))
  }

  lemma StartKeeps(s: State, id: Id, metric: Metric)
    requires Inv(s)
    ensures Inv(ThreadStart(s, id, metric))
  {
    var s' := ThreadStart(s, id, metric);
    if s.lastCore < |s.cores| {
      var c := s.cores[s.lastCore];
      assert c !in s.cores[..s.lastCore];
      assert c in s.cores[..s.lastCore + 1] by { assert s.cores[..s.lastCore + 1][s.lastCore] == c; }
      forall d | d in s.cores[..s.lastCore]
        ensures d in s.cores[..s.lastCore + 1]
      {
        var i :| 0 <= i < s.lastCore && s.cores[..s.lastCore][i] == d;
        assert s.cores[..s.lastCore + 1][i] == d;
      }
    }
  }

  lemma StallKeeps(s: State, id: Id, metric: Metric)
    requires Inv(s) && id in s.threads
    ensures Inv(ThreadStall(s, id, metric))
  {
    hide Filter, SortByScore;
    var threads := s.threads[id := SetCore(s.threads[id], None, metric(id)).(runnable := false)];
    var sorted := SortByScore(Waiters(s.order, threads), threads);
    if sorted != [] {
      assert sorted[0] in multiset(sorted);
      FilterMembers(s.order, Waiting(threads));
      assert IsWaiting(threads, sorted[0]);
    }
  }

  lemma UnscheduledKeeps(s: State, id: Id, flag: bool)
    requires Inv(s) && id in s.threads
    ensures Inv(ThreadUnscheduled(s, id, flag))
  {
  }

  /** A core that has been issued to a thread at its start, or any core once all have been. */
  ghost predicate Issued(s: State, c: Core)
    requires s.lastCore <= |s.cores|
  {
    s.lastCore == |s.cores| || c in s.cores[..s.lastCore]
  }

  /** A real resume onto an issued core that is free keeps ownership exclusive. */
  lemma ResumeKeeps(s: State, id: Id, metric: Metric, choice: Option<Core>)
    requires Inv(s) && id in s.threads && !s.threads[id].runnable
    requires choice.Some? ==> choice.value in FreeCores(s.order, s.threads, s.cores) && Issued(s, choice.value)
    ensures Inv(ThreadResume(s, id, metric, choice))
  {
    hide Filter, MinScore;
    var s' := ThreadResume(s, id, metric, choice);
    FilterMembers(s.cores, NoOwner(s.order, s.threads));
    if choice.Some? {
      var c := choice.value;
      forall x | x in s.threads
        ensures s.threads[x].core != Some(c)
      {
        assert x in s.order;
        var i :| 0 <= i < |s.order| && s.order[i] == x;
        assert !Owns(s.threads, s.order[i], c);
      }
      assert s'.threads[id].core == Some(c);
    }
  }

  /** The lowest free core is an issued one as long as a thread without a core exists among the started ones. */
  lemma LowestIsIssued(s: State, id: Id)
    requires Inv(s) && id in s.threads && s.threads[id].core.None? && s.lastCore < |s.cores|
    ensures var free := FreeCores(s.order, s.threads, s.cores);
            free != [] && free[0] in s.cores[..s.lastCore]
  {
    hide Filter, Owns;
    var p := NoOwner(s.order, s.threads);
    var issued, others := s.cores[..s.lastCore], s.cores[s.lastCore..];
    assert s.cores == issued + others;
    FilterConcat(issued, others, p);
    FilterMembers(issued, p);
    if Filter(issued, p) == [] {
      // every issued core has an owner, so there are more owners than threads
      forall c | c in issued
        ensures exists i :: 0 <= i < |s.order| && Owns(s.threads, s.order[i], c)
      {
        assert !p(c);
      }
      OwnersCount(s.order, s.threads, issued, id);
      assert false;
    }
    var c := Filter(issued, p)[0];
    assert c in Filter(issued, p);
    assert (Filter(issued, p) + Filter(others, p))[0] == c;
  }

  lemma OwnersCount(order: seq<Id>, threads: map<Id, Thread>, issued: seq<Core>, id: Id)
    requires NoDup(order) && NoDup(issued) && Exclusive(threads) && id in order &&
             (id in threads ==> threads[id].core.None?)
    requires forall x :: x in order ==> x in threads
    requires forall c :: c in issued ==> exists i :: 0 <= i < |order| && Owns(threads, order[i], c)
    ensures |issued| < |order|
  {
    CardNoDup(order);
    CardNoDup(issued);
    var owners := set x | x in order && x in threads && threads[x].core.Some?;
    var cs := set x | x in owners :: threads[x].core.value;
    ImageCard(threads, owners);
    forall c | c in ToSet(issued)
      ensures c in cs
    {
      var i :| 0 <= i < |order| && Owns(threads, order[i], c);
      assert order[i] in owners;
    }
    SubsetCard(ToSet(issued), cs);
    assert owners <= ToSet(order) - {id};
    SubsetCard(owners, ToSet(order) - {id});
    assert id in ToSet(order);
  }

  /** As many owned cores as owners. */
  lemma {:induction false} ImageCard(threads: map<Id, Thread>, owners: set<Id>)
    requires Exclusive(threads) && forall x :: x in owners ==> x in threads && threads[x].core.Some?
    ensures |set x | x in owners :: threads[x].core.value| == |owners|
    decreases |owners|
  {
    var cs := set x | x in owners :: threads[x].core.value;
    if owners == {} {
      assert cs == {};
    } else {
      var y := PickOne(owners);
      var rest := owners - {y};
      ImageCard(threads, rest);
      var cr := set x | x in rest :: threads[x].core.value;
      assert cs == cr + {threads[y].core.value};
      assert threads[y].core.value !in cr by {
        forall x | x in rest ensures threads[x].core.value != threads[y].core.value {
          assert threads[x].core != threads[y].core;
        }
      }
    }
  }

  // ---- the periodic choice ----

  /** Owners of the given cores have had their score brought up to date. */
  ghost predicate Steady(threads: map<Id, Thread>, cores: seq<Core>, metric: Metric) {
    forall x :: x in threads && threads[x].core.Some? && threads[x].core.value in cores ==>
      threads[x].metricLast == metric(x)
  }

  ghost predicate CanPlace(order: seq<Id>, threads: map<Id, Thread>, news: seq<Id>, free: seq<Core>, metric: Metric) {
    && NoDup(news) && NoDup(free) && |news| <= |free|
    && (forall x :: x in order <==> x in threads)
    && Exclusive(threads) && Steady(threads, free, metric)
    && forall i :: 0 <= i < |news| ==> news[i] in threads && threads[news[i]].core.None?
  }

  /** What the loop leaves: newcomer `i` on core `i`, the former owners of those cores without a core, and every other
      thread as it was. */
  ghost predicate Placed(threads: map<Id, Thread>, news: seq<Id>, free: seq<Core>, threads': map<Id, Thread>)
    requires |news| <= |free|
  {
    && threads'.Keys == threads.Keys
    && (forall i :: 0 <= i < |news| && news[i] in threads ==>
          threads'[news[i]] == threads[news[i]].(core := Some(free[i])))
    && (forall x :: x in threads && x !in news ==>
          threads'[x] == if threads[x].core.Some? && threads[x].core.value in free[..|news|] then
                           threads[x].(core := None)
                         else threads[x])
  }

  lemma PlaceOne(order: seq<Id>, threads: map<Id, Thread>, news: seq<Id>, free: seq<Core>, metric: Metric)
    requires CanPlace(order, threads, news, free, metric) && news != []
    ensures var threads' := Place(order, threads, news[0], free[0], metric);
            && threads'.Keys == threads.Keys
            && threads'[news[0]] == threads[news[0]].(core := Some(free[0]))
            && (forall x :: x in threads && x != news[0] ==>
                  threads'[x] == if threads[x].core == Some(free[0]) then threads[x].(core := None) else threads[x])
            && CanPlace(order, threads', news[1..], free[1..], metric)
  {
    hide OwnerOf;
    var threads' := Place(order, threads, news[0], free[0], metric);
    var owner := OwnerOf(order, threads, free[0]);
    assert free[0] in free;
    forall x | x in threads && x != news[0]
      ensures threads'[x] == if threads[x].core == Some(free[0]) then threads[x].(core := None) else threads[x]
    {
      if threads[x].core == Some(free[0]) {
        assert x in order && Owns(threads, x, free[0]);
        assert owner.Some? && owner.value == x;
      }
    }
    assert free[0] !in free[1..];
  }

  lemma {:induction false} PlaceAllPlaces(order: seq<Id>, threads: map<Id, Thread>, news: seq<Id>, free: seq<Core>,
                                          metric: Metric)
    requires CanPlace(order, threads, news, free, metric)
    ensures Placed(threads, news, free, PlaceAll(order, threads, news, free, metric))
    decreases |news|
  {
    hide Place;
    if news == [] {
      assert free[..0] == [];
    } else {
      var threads1 := Place(order, threads, news[0], free[0], metric);
      PlaceOne(order, threads, news, free, metric);
      PlaceAllPlaces(order, threads1, news[1..], free[1..], metric);
      var threads' := PlaceAll(order, threads, news, free, metric);
      var n := |news|;
      assert free[1..][..n - 1] == free[1..n];
      assert free[..n] == [free[0]] + free[1..n];
      forall i | 0 <= i < n
        ensures threads'[news[i]] == threads[news[i]].(core := Some(free[i]))
      {
        if i > 0 {
          assert news[i] == news[1..][i - 1] && free[i] == free[1..][i - 1];
        }
      }
    }
  }

  lemma SelectedFacts(order: seq<Id>, threads: map<Id, Thread>, ncores: nat)
    requires NoDup(order)
    ensures var sel := Selected(order, threads, ncores);
            && NoDup(sel) && |sel| <= ncores
            && (forall x :: x in sel ==> x in order && IsRunnable(threads, x))
            && (forall y :: y in order && IsRunnable(threads, y) && y !in sel ==>
                  |sel| == ncores && forall x :: x in sel ==> ScoreOf(threads, x) <= ScoreOf(threads, y))
            && var n := |Filter(order, Runnable(threads))|;
            |sel| == if n <= ncores then n else ncores
  {
    hide Filter, SortByScore, ScoreOf, NoDup, SortedBy;
    var ids := Filter(order, Runnable(threads));
    var sorted := SortByScore(ids, threads);
    FilterMembers(order, Runnable(threads));
    FilterNoDup(order, Runnable(threads));
    NoDupPermuted(ids, sorted);
    SortSorted(ids, threads);
    if |sorted| > ncores {
      PrefixNoDup(sorted, ncores);
      forall x, y | x in sorted[..ncores] && y in order && IsRunnable(threads, y) && y !in sorted[..ncores]
        ensures ScoreOf(threads, x) <= ScoreOf(threads, y)
      {
        PrefixLower(sorted, threads, ncores, x, y);
      }
    }
  }

  lemma PrefixNoDup(xs: seq<int>, n: nat)
    requires NoDup(xs) && n <= |xs|
    ensures NoDup(xs[..n]) && forall x :: x in xs[..n] ==> x in xs
  {
  }

  lemma PrefixLower(ids: seq<Id>, threads: map<Id, Thread>, n: nat, x: Id, y: Id)
    requires SortedBy(ids, threads) && n <= |ids| && x in ids[..n] && y in ids && y !in ids[..n]
    ensures ScoreOf(threads, x) <= ScoreOf(threads, y)
  {
    hide ScoreOf;
    var i :| 0 <= i < n && ids[..n][i] == x;
    var j :| 0 <= j < |ids| && ids[j] == y;
    assert ids[i] == x;
  }

  lemma IncreasingNoDup(cores: seq<Core>)
    requires Increasing(cores)
    ensures NoDup(cores)
  {
  }

  /** Selected threads and the cores the others leave vacant: there are enough for the newcomers, and exactly enough
      when every core is wanted. */
  lemma EnoughVacant(sel: seq<Id>, threads: map<Id, Thread>, cores: seq<Core>)
    requires NoDup(sel) && NoDup(cores) && Exclusive(threads) && OwnersIn(threads, cores)
    requires forall x :: x in sel ==> x in threads
    ensures |Vacant(sel, threads, cores)| - |Newcomers(sel, threads)| == |cores| - |sel|
  {
    hide Filter, NoDup, Exclusive, OwnersIn;
    var keep := Filter(sel, Owning(threads));
    FilterSplits(sel, Owning(threads), Coreless(threads));
    FilterMembers(sel, Owning(threads));
    FilterNoDup(sel, Owning(threads));
    CardNoDup(keep);
    var owners := ToSet(keep);
    var used := set x | x in owners :: threads[x].core.value;
    ImageCard(threads, owners);
    var free := Vacant(sel, threads, cores);
    FilterNoDup(cores, NoOwner(sel, threads));
    CardNoDup(free);
    CardNoDup(cores);
    VacantRest(sel, threads, cores);
    DifferenceCard(ToSet(cores), used);
  }

  function Owning(threads: map<Id, Thread>): Id -> bool {
    x => x in threads && threads[x].core.Some?
  }

  /** The vacant cores are those that no selected thread owns. */
  lemma VacantRest(sel: seq<Id>, threads: map<Id, Thread>, cores: seq<Core>)
    requires OwnersIn(threads, cores) && forall x :: x in sel ==> x in threads
    ensures forall x :: x in ToSet(Filter(sel, Owning(threads))) ==> x in threads && threads[x].core.Some?
    ensures var used := set x | x in ToSet(Filter(sel, Owning(threads))) :: threads[x].core.value;
            used <= ToSet(cores) && ToSet(Vacant(sel, threads, cores)) == ToSet(cores) - used
  {
    hide Filter;
    FilterMembers(sel, Owning(threads));
    var owners := ToSet(Filter(sel, Owning(threads)));
    var used := set x | x in owners :: threads[x].core.value;
    FilterMembers(cores, NoOwner(sel, threads));
    forall c | c in cores
      ensures c in Vacant(sel, threads, cores) <==> c !in used
    {
      VacantOrUsed(sel, threads, c);
      if c in used {
        var x :| x in owners && threads[x].core.value == c;
        assert x in sel && Owns(threads, x, c);
      }
      if x :| x in sel && Owns(threads, x, c) {
        assert x in owners;
      }
    }
    var free, rest := ToSet(Vacant(sel, threads, cores)), ToSet(cores) - used;
    assert forall c :: c in free ==> c in rest;
    assert forall c :: c in rest ==> c in free;
    assert free <= rest && rest <= free;
  }

  lemma VacantOrUsed(sel: seq<Id>, threads: map<Id, Thread>, c: Core)
    ensures NoOwner(sel, threads)(c) <==> !exists x :: x in sel && Owns(threads, x, c)
  {
    if NoOwner(sel, threads)(c) {
      forall x | x in sel
        ensures !Owns(threads, x, c)
      {
        var i :| 0 <= i < |sel| && sel[i] == x;
      }
    } else {
      var i :| 0 <= i < |sel| && Owns(threads, sel[i], c);
      assert sel[i] in sel;
    }
  }

  lemma DifferenceCard(a: set<int>, b: set<int>)
    requires b <= a
    ensures |a - b| == |a| - |b|
  {
    assert a == b + (a - b);
  }

  /** The state periodic works on, after the scores of the running threads are brought up to date. */
  lemma UpdatedKeeps(s: State, metric: Metric)
    requires Inv(s)
    ensures var threads := UpdateScores(s.threads, metric);
            && threads.Keys == s.threads.Keys
            && Exclusive(threads) && OwnersIn(threads, s.cores) && OwnersRun(threads)
            && (s.lastCore < |s.cores| ==> OwnersIn(threads, s.cores[..s.lastCore]))
            && (forall x :: x in threads && threads[x].core.Some? ==> threads[x].metricLast == metric(x))
            && (forall x :: x in threads ==>
                  threads[x].core == s.threads[x].core && threads[x].runnable == s.threads[x].runnable)
  {
  }

  lemma CanPlaceSelected(s: State, metric: Metric)
    requires Inv(s)
    ensures var threads := UpdateScores(s.threads, metric);
            var sel := Selected(s.order, threads, |s.cores|);
            CanPlace(s.order, threads, Newcomers(sel, threads), Vacant(sel, threads, s.cores), metric)
  {
    hide Filter, Selected, UpdateScores;
    var threads := UpdateScores(s.threads, metric);
    var sel := Selected(s.order, threads, |s.cores|);
    UpdatedKeeps(s, metric);
    SelectedFacts(s.order, threads, |s.cores|);
    IncreasingNoDup(s.cores);
    EnoughVacant(sel, threads, s.cores);
    FilterMembers(sel, Coreless(threads));
    FilterNoDup(sel, Coreless(threads));
    FilterNoDup(s.cores, NoOwner(sel, threads));
    var news := Newcomers(sel, threads);
    forall i | 0 <= i < |news|
      ensures news[i] in threads && threads[news[i]].core.None?
    {
      var x := news[i];
      assert x in Filter(sel, Coreless(threads));
      assert x in sel && IsRunnable(threads, x) && Coreless(threads)(x);
    }
  }

  /** Fair periodic selection: there are enough vacant cores for the newcomers; afterwards the threads that own cores
      are exactly the selected ones, as many as there are runnable threads or cores; one that was running keeps its
      core; and no thread left waiting has a lower score than one that runs. */
  lemma PeriodicFair(s: State, metric: Metric)
    requires Inv(s)
    ensures var threads := UpdateScores(s.threads, metric);
            var sel := Selected(s.order, threads, |s.cores|);
            var s' := Periodic(s, metric);
            var runnable := |Filter(s.order, Runnable(threads))|;
            && |Newcomers(sel, threads)| <= |Vacant(sel, threads, s.cores)|
            && |sel| == (if runnable <= |s.cores| then runnable else |s.cores|)
            && s'.threads.Keys == s.threads.Keys
            && (forall x :: x in s'.threads ==>
                  && s'.threads[x].runnable == s.threads[x].runnable && s'.threads[x].score == threads[x].score
                  && (s'.threads[x].core.Some? <==> x in sel)
                  && (x in sel && s.threads[x].core.Some? ==> s'.threads[x].core == s.threads[x].core))
            && (forall x, y :: x in s'.threads && y in s'.threads && s'.threads[x].core.Some? &&
                               s'.threads[y].runnable && s'.threads[y].core.None? ==>
                  s'.threads[x].score <= s'.threads[y].score)
  {
    hide Filter, Selected, UpdateScores, PlaceAll, CanPlace;
    var threads := UpdateScores(s.threads, metric);
    var sel := Selected(s.order, threads, |s.cores|);
    var news, free := Newcomers(sel, threads), Vacant(sel, threads, s.cores);
    var s' := Periodic(s, metric);
    UpdatedKeeps(s, metric);
    SelectedFacts(s.order, threads, |s.cores|);
    IncreasingNoDup(s.cores);
    EnoughVacant(sel, threads, s.cores);
    CanPlaceSelected(s, metric);
    PlaceAllPlaces(s.order, threads, news, free, metric);
    forall x | x in s'.threads
      ensures s'.threads[x] == threads[x].(core := s'.threads[x].core)
      ensures s'.threads[x].core.Some? <==> x in sel
      ensures x in sel && threads[x].core.Some? ==> s'.threads[x].core == threads[x].core
    {
      AfterPlacing(s, sel, threads, s'.threads, x);
    }
  }

  lemma AfterPlacing(s: State, sel: seq<Id>, threads: map<Id, Thread>, threads': map<Id, Thread>, x: Id)
    requires Inv(s) && x in threads && (forall y :: y in s.order <==> y in threads)
    requires Exclusive(threads) && OwnersIn(threads, s.cores) && OwnersRun(threads)
    requires sel == Selected(s.order, threads, |s.cores|)
    requires |Newcomers(sel, threads)| <= |Vacant(sel, threads, s.cores)|
    requires |Vacant(sel, threads, s.cores)| - |Newcomers(sel, threads)| == |s.cores| - |sel|
    requires Placed(threads, Newcomers(sel, threads), Vacant(sel, threads, s.cores), threads')
    ensures threads'[x] == threads[x].(core := threads'[x].core)
    ensures threads'[x].core.Some? <==> x in sel
    ensures x in sel && threads[x].core.Some? ==> threads'[x].core == threads[x].core
  {
    hide Filter, Selected;
    var news, free := Newcomers(sel, threads), Vacant(sel, threads, s.cores);
    SelectedFacts(s.order, threads, |s.cores|);
    FilterMembers(sel, Coreless(threads));
    FilterMembers(s.cores, NoOwner(sel, threads));
    if x in news {
      var i :| 0 <= i < |news| && news[i] == x;
      assert threads'[news[i]] == threads[news[i]].(core := Some(free[i]));
    } else if threads[x].core.Some? {
      var c := threads[x].core.value;
      VacantOrUsed(sel, threads, c);
      if x in sel {
        assert Owns(threads, x, c);
        assert c !in free;
        assert c !in free[..|news|];
      } else {
        assert |sel| == |s.cores|;
        assert free[..|news|] == free;
        forall y | y in sel
          ensures !Owns(threads, y, c)
        {
          assert y in threads && y != x;
        }
        assert c in free;
      }
    }
  }

  /** Placing newcomers on distinct cores and evicting the owners of those cores keeps ownership exclusive. */
  lemma PlacedExclusive(threads: map<Id, Thread>, news: seq<Id>, free: seq<Core>, threads': map<Id, Thread>)
    requires NoDup(news) && NoDup(free) && |news| <= |free| && Exclusive(threads) &&
             Placed(threads, news, free, threads')
    requires forall i :: 0 <= i < |news| ==> news[i] in threads
    ensures Exclusive(threads')
  {
    forall x, y | x in threads' && y in threads' && x != y && threads'[x].core.Some?
      ensures threads'[x].core != threads'[y].core
    {
      if x in news {
        var i := PlacedAt(threads, news, free, threads', x);
        if y in news {
          var j := PlacedAt(threads, news, free, threads', y);
          assert i < j || j < i;
        }
      } else if y in news {
        var j := PlacedAt(threads, news, free, threads', y);
      }
    }
  }

  lemma PlacedAt(threads: map<Id, Thread>, news: seq<Id>, free: seq<Core>, threads': map<Id, Thread>, z: Id)
    returns (i: nat)
    requires |news| <= |free| && Placed(threads, news, free, threads') && z in news
    requires forall i :: 0 <= i < |news| ==> news[i] in threads
    ensures i < |news| && news[i] == z && z in threads' && threads'[z].core == Some(free[i]) &&
            free[i] in free[..|news|]
  {
    i :| 0 <= i < |news| && news[i] == z;
    assert threads'[news[i]] == threads[news[i]].(core := Some(free[i]));
    assert free[..|news|][i] == free[i];
  }

  lemma {:induction false} FilterPrefix(xs: seq<int>, ys: seq<int>, p: int -> bool, k: nat, c: int)
    requires k <= |Filter(xs, p)| <= |Filter(xs + ys, p)| && c in Filter(xs + ys, p)[..k]
    ensures c in xs
  {
    hide Filter;
    FilterConcat(xs, ys, p);
    FilterMembers(xs, p);
    assert (Filter(xs, p) + Filter(ys, p))[..k] == Filter(xs, p)[..k];
    assert c in Filter(xs, p)[..k];
    assert c in Filter(xs, p);
  }

  /** While cores remain unissued, the newcomers fit on issued ones. */
  lemma NewcomersOnIssued(s: State, sel: seq<Id>, threads: map<Id, Thread>, c: Core)
    requires Inv(s) && s.lastCore < |s.cores| && sel == Selected(s.order, threads, |s.cores|)
    requires threads.Keys == s.threads.Keys && Exclusive(threads) && OwnersIn(threads, s.cores[..s.lastCore])
    requires |Newcomers(sel, threads)| <= |Vacant(sel, threads, s.cores)|
    requires c in Vacant(sel, threads, s.cores)[..|Newcomers(sel, threads)|]
    ensures c in s.cores[..s.lastCore]
  {
    hide Filter, Selected;
    var issued, others := s.cores[..s.lastCore], s.cores[s.lastCore..];
    assert s.cores == issued + others;
    SelectedFacts(s.order, threads, |s.cores|);
    IncreasingNoDup(s.cores);
    assert forall x :: x in sel ==> x in threads;
    EnoughVacant(sel, threads, issued);
    SelectedAtMost(s.order, threads, |s.cores|);
    FilterConcat(issued, others, NoOwner(sel, threads));
    FilterPrefix(issued, others, NoOwner(sel, threads), |Newcomers(sel, threads)|, c);
  }

  lemma SelectedAtMost(order: seq<Id>, threads: map<Id, Thread>, ncores: nat)
    requires NoDup(order)
    ensures |Selected(order, threads, ncores)| <= |order|
  {
    hide Selected;
    SelectedFacts(order, threads, ncores);
    var sel := Selected(order, threads, ncores);
    CardNoDup(sel);
    CardNoDup(order);
    forall x | x in ToSet(sel)
      ensures x in ToSet(order)
    {
      assert x in sel;
    }
    SubsetCard(ToSet(sel), ToSet(order));
  }

  lemma PeriodicKeeps(s: State, metric: Metric)
    requires Inv(s)
    ensures Inv(Periodic(s, metric))
  {
    hide Filter, Selected, UpdateScores, PlaceAll;
    var threads := UpdateScores(s.threads, metric);
    var sel := Selected(s.order, threads, |s.cores|);
    var news, free := Newcomers(sel, threads), Vacant(sel, threads, s.cores);
    var s' := Periodic(s, metric);
    UpdatedKeeps(s, metric);
    CanPlaceSelected(s, metric);
    PlaceAllPlaces(s.order, threads, news, free, metric);
    PlacedExclusive(threads, news, free, s'.threads);
    PeriodicFair(s, metric);
    hide Newcomers, Vacant, Periodic, Placed, NoDup;
    forall x | x in s'.threads && s'.threads[x].core.Some?
      ensures s'.threads[x].runnable && s'.threads[x].core.value in s.cores
      ensures s.lastCore < |s.cores| ==> s'.threads[x].core.value in s.cores[..s.lastCore]
    {
      OwnerAfter(s, sel, threads, s'.threads, x);
    }
  }

  /** An owner after periodic is runnable, and its core is an issued one. */
  lemma OwnerAfter(s: State, sel: seq<Id>, threads: map<Id, Thread>, threads': map<Id, Thread>, x: Id)
    requires Inv(s) && threads.Keys == s.threads.Keys && sel == Selected(s.order, threads, |s.cores|)
    requires Exclusive(threads) && OwnersIn(threads, s.cores)
    requires s.lastCore < |s.cores| ==> OwnersIn(threads, s.cores[..s.lastCore])
    requires |Newcomers(sel, threads)| <= |Vacant(sel, threads, s.cores)|
    requires Placed(threads, Newcomers(sel, threads), Vacant(sel, threads, s.cores), threads')
    requires x in threads' && threads'[x].core.Some? && x in sel
    ensures threads'[x].runnable && threads'[x].core.value in s.cores
    ensures s.lastCore < |s.cores| ==> threads'[x].core.value in s.cores[..s.lastCore]
  {
    hide Filter, Selected, Newcomers;
    var news, free := Newcomers(sel, threads), Vacant(sel, threads, s.cores);
    SelectedFacts(s.order, threads, |s.cores|);
    FilterMembers(s.cores, NoOwner(sel, threads));
    if x in news {
      var i :| 0 <= i < |news| && news[i] == x;
      assert threads'[news[i]] == threads[news[i]].(core := Some(free[i]));
      assert free[i] in free && free[i] in free[..|news|] by { assert free[..|news|][i] == free[i]; }
      if s.lastCore < |s.cores| {
        NewcomersOnIssued(s, sel, threads, free[i]);
      }
    }
  }

  // ---- whole runs ----

  /** The hook calls a scheduler sees. An exit is a stall for a reason other than 'unscheduled'; `choice` is the core
      that a real resume takes out of the set of free cores. */
  datatype Event =
    | Started(id: Id)
    | Stalled(id: Id, unscheduled: bool)
    | Resumed(id: Id, choice: Option<Core>)
    | Ticked

  /** The choices a resume has: a free core if there is one. */
  ghost predicate ChoiceOk(s: State, choice: Option<Core>) {
    var free := FreeCores(s.order, s.threads, s.cores);
    if choice.None? then free == [] else choice.value in free
  }

  /** Hooks are called for started threads, a real resume follows a real stall, and it takes an issued core. */
  ghost predicate Enabled(s: State, e: Event) {
    match e
    case Started(_) => true
    case Stalled(id, _) => id in s.threads
    case Resumed(id, choice) =>
      && id in s.threads && s.lastCore <= |s.cores|
      && (s.threads[id].unscheduled ||
          (!s.threads[id].runnable && ChoiceOk(s, choice) && (choice.Some? ==> Issued(s, choice.value))))
    case Ticked => true
  }

  function After(s: State, e: Event, metric: Metric): State
    requires Enabled(s, e)
  {
    match e
    case Started(id) => ThreadStart(s, id, metric)
    case Stalled(id, unscheduled) => if unscheduled then ThreadUnscheduled(s, id, true) else ThreadStall(s, id, metric)
    case Resumed(id, choice) =>
      if s.threads[id].unscheduled then ThreadUnscheduled(s, id, false) else ThreadResume(s, id, metric, choice)
    case Ticked => Periodic(s, metric)
  }

  ghost predicate RunOk(s: State, events: seq<(Event, Metric)>)
    decreases |events|
  {
    events == [] || (Enabled(s, events[0].0) && RunOk(After(s, events[0].0, events[0].1), events[1..]))
  }

  function AfterAll(s: State, events: seq<(Event, Metric)>): State
    requires RunOk(s, events)
    decreases |events|
  {
    if events == [] then s else AfterAll(After(s, events[0].0, events[0].1), events[1..])
  }

  lemma EventKeeps(s: State, e: Event, metric: Metric)
    requires Inv(s) && Enabled(s, e)
    ensures Inv(After(s, e, metric))
  {
    hide Inv, ThreadStart, ThreadStall, ThreadUnscheduled, ThreadResume, Periodic, FreeCores, Issued;
    match e
    case Started(id) => StartKeeps(s, id, metric);
    case Stalled(id, unscheduled) =>
      UnscheduledKeeps(s, id, true);
      StallKeeps(s, id, metric);
    case Resumed(id, choice) =>
      UnscheduledKeeps(s, id, false);
      if !s.threads[id].unscheduled {
        ResumeKeeps(s, id, metric, choice);
      }
    case Ticked => PeriodicKeeps(s, metric);
  }

  /** Exclusive core ownership, over every run of hooks whose resumes take issued cores. */
  lemma {:induction false} RunKeeps(s: State, events: seq<(Event, Metric)>)
    requires Inv(s) && RunOk(s, events)
    ensures Inv(AfterAll(s, events))
    decreases |events|
  {
    hide Inv, After, Enabled;
    if events != [] {
      EventKeeps(s, events[0].0, events[0].1);
      RunKeeps(After(s, events[0].0, events[0].1), events[1..]);
    }
  }

  lemma InitialInv(cores: seq<Core>)
    requires Increasing(cores)
    ensures Inv(State([], map[], cores, 0))
  {
  }

  function Lowest(s: State): Option<Core> {
    var free := FreeCores(s.order, s.threads, s.cores);
    if free == [] then None else Some(free[0])
  }

  /** Taking the lowest free core is always among the choices of such a run. */
  lemma LowestEnabled(s: State, id: Id)
    requires Inv(s) && id in s.threads && !s.threads[id].runnable
    ensures Enabled(s, Resumed(id, Lowest(s)))
  {
    hide FreeCores;
    if s.lastCore < |s.cores| {
      LowestIsIssued(s, id);
    }
  }

  // ---- a resume onto a core that has not been issued ----

  lemma FreshId(ids: set<Id>) returns (x: Id)
    ensures x !in ids
  {
    x := Above(ids) + 1;
  }

  ghost function Above(ids: set<Id>): (n: Id)
    ensures forall x :: x in ids ==> x <= n
    decreases |ids|
  {
    if ids == {} then 0
    else
      var y := PickOne(ids);
      var n := Above(ids - {y});
      assert forall x :: x in ids ==> x == y || x in ids - {y};
      if y > n then y else n
  }

  /** Once a thread owns the core that the k-th start hands out, enough starts give that core a second owner. */
  lemma {:induction false} StartsClash(s: State, id: Id, k: nat, metric: Metric) returns (starts: seq<(Event, Metric)>)
    requires s.lastCore <= k < |s.cores| && Owns(s.threads, id, s.cores[k])
    ensures forall e :: e in starts ==> e.0.Started?
    ensures RunOk(s, starts) && !Exclusive(AfterAll(s, starts).threads)
    decreases k - s.lastCore
  {
    var x := FreshId(s.threads.Keys);
    var s' := ThreadStart(s, x, metric);
    var first := (Started(x), metric);
    var rest: seq<(Event, Metric)> := [];
    if s.lastCore == k {
      assert s'.threads[x].core == s'.threads[id].core;
    } else {
      rest := StartsClash(s', id, k, metric);
    }
    starts := [first] + rest;
    assert starts[1..] == rest && After(s, first.0, first.1) == s';
  }

  /** From every state of a run, a resume onto any core not yet issued leads to a core with two owners, by thread starts
      alone. */
  lemma UnissuedClashes(s: State, id: Id, metric: Metric, c: Core) returns (starts: seq<(Event, Metric)>)
    requires Inv(s) && id in s.threads && c in s.cores && !Issued(s, c)
    ensures forall e :: e in starts ==> e.0.Started?
    ensures var r := ThreadResume(s, id, metric, Some(c));
            RunOk(r, starts) && !Exclusive(AfterAll(r, starts).threads)
  {
    hide MinScore, RunOk, AfterAll, Exclusive;
    var k :| 0 <= k < |s.cores| && s.cores[k] == c;
    starts := StartsClash(ThreadResume(s, id, metric, Some(c)), id, k, metric);
  }

  /** Exactly when a resume is safe: no later run gives a core two owners if and only if the core taken is an issued
      one. */
  lemma ResumeExact(s: State, id: Id, metric: Metric, c: Core)
    requires Inv(s) && id in s.threads && !s.threads[id].runnable && c in FreeCores(s.order, s.threads, s.cores)
    ensures var r := ThreadResume(s, id, metric, Some(c));
            (forall events :: RunOk(r, events) ==> Exclusive(AfterAll(r, events).threads)) <==> Issued(s, c)
  {
    hide MinScore, Filter, RunOk, AfterAll, Exclusive, ThreadResume;
    var r := ThreadResume(s, id, metric, Some(c));
    if Issued(s, c) {
      ResumeKeeps(s, id, metric, Some(c));
      forall events | RunOk(r, events)
        ensures Exclusive(AfterAll(r, events).threads)
      {
        RunKeeps(r, events);
      }
    } else {
      FilterMembers(s.cores, NoOwner(s.order, s.threads));
      var starts := UnissuedClashes(s, id, metric, c);
    }
  }

  /** Such a resume is possible as soon as there are two cores: one thread that starts, stalls and resumes. */
  lemma UnissuedReachable(metric: Metric, cores: seq<Core>, id: Id, k: nat)
    requires Increasing(cores) && 0 < k < |cores|
    ensures var events: seq<(Event, Metric)> := [(Started(id), metric), (Stalled(id, false), metric)];
            var s0 := State([], map[], cores, 0);
            RunOk(s0, events) &&
            var s := AfterAll(s0, events);
            Inv(s) && id in s.threads && !s.threads[id].runnable && !Issued(s, cores[k]) &&
            cores[k] in FreeCores(s.order, s.threads, s.cores)
  {
    hide MinScore, SortByScore, Filter, RunOk, AfterAll, Inv, ThreadStall;
    var s0 := State([], map[], cores, 0);
    var s1 := ThreadStart(s0, id, metric);
    InitialInv(cores);
    StartKeeps(s0, id, metric);
    StallKeeps(s1, id, metric);
    var s := ThreadStall(s1, id, metric);
    StallAlone(s1, id, metric);
    FilterMembers(s.cores, NoOwner(s.order, s.threads));
    TwoEvents(s0, Started(id), Stalled(id, false), metric);
    assert s.cores[k] in s.cores && cores[k] !in cores[..1];
  }

  lemma TwoEvents(s: State, e: Event, f: Event, metric: Metric)
    requires Enabled(s, e) && Enabled(After(s, e, metric), f)
    ensures var events: seq<(Event, Metric)> := [(e, metric), (f, metric)];
            RunOk(s, events) && AfterAll(s, events) == After(After(s, e, metric), f, metric)
  {
    hide Enabled, After;
    var events: seq<(Event, Metric)> := [(e, metric), (f, metric)];
    var s', last: seq<(Event, Metric)> := After(s, e, metric), [(f, metric)];
    assert events[1..] == last && last[1..] == [];
    assert RunOk(After(s', f, metric), []);
    assert RunOk(s', last) && AfterAll(s', last) == After(s', f, metric);
  }

  lemma StallAlone(s: State, id: Id, metric: Metric)
    requires s.order == [id] && id in s.threads
    ensures ThreadStall(s, id, metric) ==
            s.(threads := s.threads[id := SetCore(s.threads[id], None, metric(id)).(runnable := false)])
  {
    var threads := s.threads[id := SetCore(s.threads[id], None, metric(id)).(runnable := false)];
    FilterFirst([id], Waiting(threads));
    assert !Waiting(threads)(id) && [id][1..] == [];
    assert Filter([], Waiting(threads)) == [];
    assert Waiters(s.order, threads) == [];
  }
}
