/** The scheduler of scripts/scheduler-locality.py as objects: threads that carry their own core and score, and the
    hooks that move them. */
module SchedulerHooks {
  import opened Collections
  import opened Scheduler
  import opened SchedulerLaws

  class ThreadObject {
    var core: Option<Core>
    var runnable: bool
    var unscheduled: bool
    var score: int
    var metricLast: int

    constructor ()
      ensures Value() == Thread(None, false, false, 0, 0)
    {
      core, runnable, unscheduled, score, metricLast := None, false, false, 0, 0;
    }

    function Value(): Thread
      reads this
    {
      Thread(core, runnable, unscheduled, score, metricLast)
    }

    method UpdateScore(now: int)
      modifies this
      ensures Value() == Scheduler.UpdateScore(old(Value()), now)
    {
      score := score + now - metricLast;
      metricLast := now;
    }

    method SetScore(newScore: int, now: int)
      modifies this
      ensures Value() == old(Value()).(score := newScore, metricLast := now)
    {
      score := newScore;
      metricLast := now;
    }

    method SetCore(newCore: Option<Core>, now: int)
      modifies this
      ensures Value() == Scheduler.SetCore(old(Value()), newCore, now)
    {
      core := newCore;
      if newCore.None? {
        UpdateScore(now);
      }
    }
  }

  class SchedulerLocality {
    const cores: seq<Core>
    var threads: map<Id, ThreadObject>
    var order: seq<Id>
    var lastCore: nat

    /** Every thread has an object of its own. */
    ghost predicate Valid()
      reads this`threads
    {
      forall x, y :: x in threads && y in threads && x != y ==> threads[x] != threads[y]
    }

    function Table(): map<Id, Thread>
      reads this`threads, threads.Values
    {
      map x | x in threads :: threads[x].Value()
    }

    ghost function View(): State
      reads this, threads.Values
    {
      State(order, Table(), cores, lastCore)
    }

    constructor (cores: seq<Core>)
      requires Increasing(cores)
      ensures Valid() && View() == State([], map[], cores, 0) && Inv(View())
    {
      this.cores, threads, order, lastCore := cores, map[], [], 0;
      new;
      InitialInv(cores);
      assert Table() == map[];
    }

    /** A change to one thread's object changes one entry of the table. */
    twostate lemma OnlyChanged(id: Id)
      requires Valid() && id in threads && threads == old(threads)
      requires forall x :: x in threads && threads[x] != threads[id] ==> threads[x].Value() == old(threads[x].Value())
      ensures Table() == old(Table())[id := threads[id].Value()]
    {
      forall x | x in threads && x != id
        ensures threads[x].Value() == old(threads[x].Value())
      {
        assert threads[x] != threads[id];
      }
      assert Table() == old(Table())[id := threads[id].Value()];
    }

    method SetCoreOf(id: Id, core: Option<Core>, now: int)
      requires Valid() && id in threads
      modifies threads[id]
      ensures Table() == old(Table())[id := SetCore(old(Table())[id], core, now)]
    {
      threads[id].SetCore(core, now);
      OnlyChanged(id);
    }

    method AddThread(id: Id) returns (t: ThreadObject)
      requires Valid()
      modifies this`threads, this`order
      ensures Valid() && fresh(t) && id in threads && threads == old(threads)[id := t]
      ensures order == if id in old(threads) then old(order) else old(order) + [id]
      ensures Table() == old(Table())[id := Thread(None, true, false, 0, 0)]
    {
      t := new ThreadObject();
      t.runnable := true;
      if id !in threads {
        order := order + [id];
      }
      threads := threads[id := t];
      assert Table() == old(Table())[id := t.Value()];
    }

    method HookThreadStart(id: Id, metric: Metric)
      requires Valid()
      modifies this
      ensures Valid() && fresh(threads.Values - old(threads.Values))
      ensures View() == ThreadStart(old(View()), id, metric)
    {
      hide Table;
      ghost var s := View();
      var t := AddThread(id);
      TableKeys();
      ghost var blank := Thread(None, true, false, 0, 0);
      assert s.threads[id := blank][id] == blank;
      if lastCore < |cores| {
        SetCoreOf(id, Some(cores[lastCore]), metric(id));
        lastCore := lastCore + 1;
      } else {
        SetCoreOf(id, None, metric(id));
      }
      TableKeys();
      assert Table() == s.threads[id := Table()[id]];
      assert s.threads.Keys == old(threads).Keys by { OldKeys(); }
    }

    method HookThreadStall(id: Id, unscheduled: bool, metric: Metric)
      requires Valid() && id in threads
      modifies threads.Values
      ensures View() == if unscheduled then ThreadUnscheduled(old(View()), id, true)
                        else ThreadStall(old(View()), id, metric)
    {
      hide SortByScore, Waiters;
      if unscheduled {
        threads[id].unscheduled := true;
        OnlyChanged(id);
      } else {
        var core := threads[id].core;
        threads[id].SetCore(None, metric(id));
        threads[id].runnable := false;
        OnlyChanged(id);
        var sorted := SortByScore(Waiters(order, Table()), Table());
        if sorted != [] && sorted[0] in threads {
          SetCoreOf(sorted[0], core, metric(sorted[0]));
        }
      }
    }

    method HookThreadResume(id: Id, metric: Metric, choice: Option<Core>)
      requires Valid() && id in threads
      requires var free := FreeCores(order, Table(), cores); if choice.Some? then choice.value in free else free == []
      modifies threads.Values
      ensures View() == if old(Table())[id].unscheduled then ThreadUnscheduled(old(View()), id, false)
                        else ThreadResume(old(View()), id, metric, choice)
    {
      hide MinScore, FreeCores;
      if threads[id].unscheduled {
        threads[id].unscheduled := false;
        OnlyChanged(id);
      } else {
        threads[id].SetScore(MinScore(order, Table(), threads[id].score), metric(id));
        threads[id].runnable := true;
        if choice.Some? {
          threads[id].SetCore(choice, metric(id));
        }
        OnlyChanged(id);
      }
    }

    /** The scores of all threads that own a core. */
    method UpdateAllScores(metric: Metric)
      requires Valid() && NoDup(order) && forall x :: x in order <==> x in threads
      modifies threads.Values
      ensures Table() == UpdateScores(old(Table()), metric)
    {
      TableKeys();
      hide Table;
      assert order[..0] == [] && UpdateSome(Table(), [], metric) == Table();
      for i := 0 to |order|
        invariant threads == old(threads) && Table() == UpdateSome(old(Table()), order[..i], metric)
      {
        var id := order[i];
        assert id in order && order[..i + 1] == order[..i] + [id];
        UpdateSomeMore(old(Table()), order[..i], id, metric);
        UpdateOne(id, metric);
      }
      assert order[..|order|] == order;
      TableKeys();
      UpdateEvery(old(Table()), order, metric);
    }

    twostate lemma OldKeys()
      ensures old(Table()).Keys == old(threads).Keys
    {
    }

    lemma TableKeys()
      ensures Table().Keys == threads.Keys
    {
    }

    method UpdateOne(id: Id, metric: Metric)
      requires Valid() && id in threads
      modifies threads[id]
      ensures Table() == if old(Table())[id].core.Some? then
                           old(Table())[id := UpdateScore(old(Table())[id], metric(id))]
                         else old(Table())
    {
      if threads[id].core.Some? {
        threads[id].UpdateScore(metric(id));
        OnlyChanged(id);
      }
    }

    /** One round of the loop of periodic. */
    method PlaceThread(x: Id, c: Core, metric: Metric)
      requires Valid() && x in threads
      modifies threads.Values
      ensures Table() == Place(order, old(Table()), x, c, metric)
    {
      hide OwnerOf;
      var owner := OwnerOf(order, Table(), c);
      if owner.Some? {
        SetCoreOf(owner.value, None, metric(owner.value));
      }
      SetCoreOf(x, Some(c), metric(x));
    }

    method HookPeriodic(metric: Metric)
      requires Valid() && Inv(View())
      modifies threads.Values
      ensures View() == Periodic(old(View()), metric) && Inv(View())
    {
      hide Inv, UpdateScores, Selected, Newcomers, Vacant, CanPlace, Place, Table;
      ghost var s := View();
      InvOrder(s);
      TableKeys();
      PeriodicFair(s, metric);
      PeriodicKeeps(s, metric);
      CanPlaceSelected(s, metric);
      UpdateAllScores(metric);
      var sel := Selected(order, Table(), |cores|);
      var news, free := Newcomers(sel, Table()), Vacant(sel, Table(), cores);
      ghost var start := Table();
      assert |free| >= |news|;
      assert news[0..] == news && free[0..] == free;
      for i := 0 to |news|
        invariant threads == old(threads)
        invariant PlaceAll(order, start, news, free, metric) == PlaceAll(order, Table(), news[i..], free[i..], metric)
        invariant CanPlace(order, Table(), news[i..], free[i..], metric)
      {
        assert news[i..][1..] == news[i + 1..] && free[i..][1..] == free[i + 1..];
        assert news[i..][0] == news[i] && free[i..][0] == free[i];
        PlaceOne(order, Table(), news[i..], free[i..], metric);
        CanPlaceFirst(order, Table(), news[i..], free[i..], metric);
        TableKeys();
        PlaceThread(news[i], free[i], metric);
      }
      assert news[|news|..] == [];
    }
  }

  /** The loop over the threads, part of the way. */
  function UpdateSome(threads: map<Id, Thread>, done: seq<Id>, metric: Metric): map<Id, Thread> {
    map x | x in threads ::
      if x in done && threads[x].core.Some? then UpdateScore(threads[x], metric(x)) else threads[x]
  }

  lemma UpdateSomeMore(threads: map<Id, Thread>, done: seq<Id>, id: Id, metric: Metric)
    requires id in threads && id !in done
    ensures var t := UpdateSome(threads, done, metric);
            UpdateSome(threads, done + [id], metric) ==
            if t[id].core.Some? then t[id := UpdateScore(t[id], metric(id))] else t
  {
    assert forall x :: x in done + [id] <==> x in done || x == id;
  }

  lemma UpdateEvery(threads: map<Id, Thread>, order: seq<Id>, metric: Metric)
    requires forall x :: x in threads ==> x in order
    ensures UpdateSome(threads, order, metric) == UpdateScores(threads, metric)
  {
    var a, b := UpdateSome(threads, order, metric), UpdateScores(threads, metric);
    assert a.Keys == threads.Keys && b.Keys == threads.Keys;
    forall x | x in threads
      ensures a[x] == b[x]
    {
      assert x in order;
    }
  }

  lemma CanPlaceFirst(order: seq<Id>, threads: map<Id, Thread>, news: seq<Id>, free: seq<Core>, metric: Metric)
    requires CanPlace(order, threads, news, free, metric) && news != []
    ensures news[0] in threads
  {
  }

  lemma InvOrder(s: State)
    requires Inv(s)
    ensures NoDup(s.order) && forall x :: x in s.order <==> x in s.threads
  {
  }
}
