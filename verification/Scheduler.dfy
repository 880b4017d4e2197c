/** The locality scheduler of scripts/scheduler-locality.py: which thread runs on which core, hook by hook. */
module Scheduler {
  import opened Collections

  type Id = int
  type Core = int
  type Metric = Id -> int

  datatype Thread = Thread(core: Option<Core>, runnable: bool, unscheduled: bool, score: int, metricLast: int)

  /** `order` is the insertion order of the dictionary `threads`. */
  datatype State = State(order: seq<Id>, threads: map<Id, Thread>, cores: seq<Core>, lastCore: nat)

  // ---- threads ----

  function UpdateScore(t: Thread, now: int): Thread {
    t.(score := t.score + now - t.metricLast, metricLast := now)
  }

  function SetCore(t: Thread, core: Option<Core>, now: int): Thread {
    if core.None? then UpdateScore(t.(core := None), now) else t.(core := core)
  }

  // ---- lists of threads ----

  function Filter(ids: seq<Id>, p: Id -> bool): seq<Id> {
    if ids == [] then [] else (if p(ids[0]) then [ids[0]] else []) + Filter(ids[1..], p)
  }

  predicate IsRunnable(threads: map<Id, Thread>, x: Id) {
    x in threads && threads[x].runnable
  }

  predicate IsWaiting(threads: map<Id, Thread>, x: Id) {
    IsRunnable(threads, x) && threads[x].core.None?
  }

  predicate Owns(threads: map<Id, Thread>, x: Id, c: Core) {
    x in threads && threads[x].core == Some(c)
  }

  function Runnable(threads: map<Id, Thread>): Id -> bool {
    x => IsRunnable(threads, x)
  }

  function Waiting(threads: map<Id, Thread>): Id -> bool {
    x => IsWaiting(threads, x)
  }

  function Coreless(threads: map<Id, Thread>): Id -> bool {
    x => !(x in threads && threads[x].core.Some?)
  }

  function ScoreOf(threads: map<Id, Thread>, x: Id): int {
    if x in threads then threads[x].score else 0
  }

  /** list.sort by score, which is stable. */
  function Insert(x: Id, ids: seq<Id>, threads: map<Id, Thread>): (r: seq<Id>)
    ensures multiset(r) == multiset{x} + multiset(ids)
  {
    if ids == [] || ScoreOf(threads, x) <= ScoreOf(threads, ids[0]) then [x] + ids
    else
      assert ids == [ids[0]] + ids[1..];
      [ids[0]] + Insert(x, ids[1..], threads)
  }

  function SortByScore(ids: seq<Id>, threads: map<Id, Thread>): (r: seq<Id>)
    ensures multiset(r) == multiset(ids)
  {
    if ids == [] then [] else
    assert ids == [ids[0]] + ids[1..];
    Insert(ids[0], SortByScore(ids[1..], threads), threads)
  }

  function Waiters(order: seq<Id>, threads: map<Id, Thread>): seq<Id> {
    Filter(order, Waiting(threads))
  }

  function NoOwner(order: seq<Id>, threads: map<Id, Thread>): Core -> bool {
    c => forall i :: 0 <= i < |order| ==> !Owns(threads, order[i], c)
  }

  /** The cores no thread owns, in the order of the core list. */
  function FreeCores(order: seq<Id>, threads: map<Id, Thread>, cores: seq<Core>): seq<Core> {
    Filter(cores, NoOwner(order, threads))
  }

  function MinScore(ids: seq<Id>, threads: map<Id, Thread>, least: int): int {
    if ids == [] then least
    else MinScore(ids[1..], threads, if ScoreOf(threads, ids[0]) < least then ScoreOf(threads, ids[0]) else least)
  }

  // ---- hooks ----

  function ThreadStart(s: State, id: Id, metric: Metric): State {
    var t := Thread(None, true, false, 0, 0);
    var order := if id in s.threads then s.order else s.order + [id];
    if s.lastCore < |s.cores| then
      s.(order := order, threads := s.threads[id := SetCore(t, Some(s.cores[s.lastCore]), metric(id))],
         lastCore := s.lastCore + 1)
    else
      s.(order := order, threads := s.threads[id := SetCore(t, None, metric(id))])
  }

  /** A stall with a reason other than 'unscheduled', and an exit: the best waiting thread gets the freed core. */
  function ThreadStall(s: State, id: Id, metric: Metric): State
    requires id in s.threads
  {
    var core := s.threads[id].core;
    var threads := s.threads[id := SetCore(s.threads[id], None, metric(id)).(runnable := false)];
    var sorted := SortByScore(Waiters(s.order, threads), threads);
    if sorted == [] || sorted[0] !in threads then s.(threads := threads)
    else s.(threads := threads[sorted[0] := SetCore(threads[sorted[0]], core, metric(sorted[0]))])
  }

  function ThreadUnscheduled(s: State, id: Id, flag: bool): State
    requires id in s.threads
  {
    s.(threads := s.threads[id := s.threads[id].(unscheduled := flag)])
  }

  /** A resume of a thread that was not merely scheduled out; `choice` is the element list(free_cores)[0]. */
  function ThreadResume(s: State, id: Id, metric: Metric, choice: Option<Core>): State
    requires id in s.threads
  {
    var t := s.threads[id].(score := MinScore(s.order, s.threads, s.threads[id].score), metricLast := metric(id),
                            runnable := true);
    s.(threads := s.threads[id := if choice.Some? then SetCore(t, choice, metric(id)) else t])
  }

  function UpdateScores(threads: map<Id, Thread>, metric: Metric): map<Id, Thread> {
    map x | x in threads :: if threads[x].core.Some? then UpdateScore(threads[x], metric(x)) else threads[x]
  }

  /** The first thread in dictionary order that owns the core. */
  function OwnerOf(order: seq<Id>, threads: map<Id, Thread>, c: Core): (r: Option<Id>)
    ensures r.Some? ==> r.value in order && Owns(threads, r.value, c)
    ensures r.None? ==> forall x :: x in order ==> !Owns(threads, x, c)
  {
    if order == [] then None else if Owns(threads, order[0], c) then Some(order[0]) else OwnerOf(order[1..], threads, c)
  }

  /** One round of the loop of periodic: the owner of the core, if any, is evicted, and the thread takes the core. */
  function Place(order: seq<Id>, threads: map<Id, Thread>, x: Id, c: Core, metric: Metric): map<Id, Thread> {
    var owner := OwnerOf(order, threads, c);
    var threads' := if owner.Some? then threads[owner.value := SetCore(threads[owner.value], None, metric(owner.value))]
                    else threads;
    if x in threads' then threads'[x := SetCore(threads'[x], Some(c), metric(x))] else threads'
  }

  function PlaceAll(order: seq<Id>, threads: map<Id, Thread>, news: seq<Id>, free: seq<Core>,
                    metric: Metric): map<Id, Thread>
    decreases |news|
  {
    if news == [] || free == [] then threads
    else PlaceAll(order, Place(order, threads, news[0], free[0], metric), news[1..], free[1..], metric)
  }

  /** The threads periodic selects to run. */
  function Selected(order: seq<Id>, threads: map<Id, Thread>, ncores: nat): seq<Id> {
    var sorted := SortByScore(Filter(order, Runnable(threads)), threads);
    if |sorted| <= ncores then sorted else sorted[..ncores]
  }

  /** The selected threads that have no core, and the cores the other selected threads do not use. */
  function Newcomers(sel: seq<Id>, threads: map<Id, Thread>): seq<Id> {
    Filter(sel, Coreless(threads))
  }

  function Vacant(sel: seq<Id>, threads: map<Id, Thread>, cores: seq<Core>): seq<Core> {
    FreeCores(sel, threads, cores)
  }

  function Periodic(s: State, metric: Metric): State {
    var threads := UpdateScores(s.threads, metric);
    var sel := Selected(s.order, threads, |s.cores|);
    s.(threads := PlaceAll(s.order, threads, Newcomers(sel, threads), Vacant(sel, threads, s.cores), metric))
  }
}
