/** The bottle graphs of scripts/bottlegraph.py: the time in the region of interest shared out among the running
    threads. */
module BottleGraph {
  import opened Collections

  datatype Thread = Thread(id: nat)

  // ---- the history, and what the graph ought to show of it ----

  /** A stretch of time, in nanoseconds, and the threads that ran in it. */
  datatype Span = Span(length: real, ran: set<Thread>)

  ghost function Total(log: seq<Span>): real {
    if log == [] then 0.0 else Total(log[..|log| - 1]) + log[|log| - 1].length
  }

  /** Time with at least one thread running. */
  ghost function Busy(log: seq<Span>): real {
    if log == [] then 0.0 else Busy(log[..|log| - 1]) + if log[|log| - 1].ran == {} then 0.0 else log[|log| - 1].length
  }

  ghost function Runtime(log: seq<Span>, t: Thread): real {
    if log == [] then 0.0
    else Runtime(log[..|log| - 1], t) + if t in log[|log| - 1].ran then log[|log| - 1].length else 0.0
  }

  /** A thread's share of a span: the time divided by the number of running threads. */
  ghost function Share(s: Span, t: Thread): real {
    if t in s.ran then s.length / |s.ran| as real else 0.0
  }

  ghost function Contrib(log: seq<Span>, t: Thread): real {
    if log == [] then 0.0 else Contrib(log[..|log| - 1], t) + Share(log[|log| - 1], t)
  }

  ghost predicate Ran(log: seq<Span>, t: Thread) {
    exists s :: s in log && t in s.ran
  }

  ghost predicate Positive(log: seq<Span>) {
    forall s :: s in log ==> s.length > 0.0
  }

  // ---- shares add up ----

  ghost function SumContrib(ts: set<Thread>, log: seq<Span>): real
    decreases |ts|
  {
    if ts == {} then 0.0 else var t := PickOne(ts); Contrib(log, t) + SumContrib(ts - {t}, log)
  }

  ghost function SumShare(ts: set<Thread>, s: Span): real
    decreases |ts|
  {
    if ts == {} then 0.0 else var t := PickOne(ts); Share(s, t) + SumShare(ts - {t}, s)
  }

  lemma {:induction false} SumSplits(ts: set<Thread>, log: seq<Span>)
    requires log != []
    ensures SumContrib(ts, log) == SumContrib(ts, log[..|log| - 1]) + SumShare(ts, log[|log| - 1])
    decreases |ts|
  {
    if ts != {} {
      SumSplits(ts - {PickOne(ts)}, log);
    }
  }

  lemma {:induction false} SumNothing(ts: set<Thread>)
    ensures SumContrib(ts, []) == 0.0
    decreases |ts|
  {
    if ts != {} {
      SumNothing(ts - {PickOne(ts)});
    }
  }

  lemma {:induction false} ShareSum(ts: set<Thread>, s: Span)
    ensures SumShare(ts, s) == if s.ran == {} then 0.0 else |ts * s.ran| as real * (s.length / |s.ran| as real)
    decreases |ts|
  {
    if ts == {} {
      assert ts * s.ran == {};
    } else {
      var t := PickOne(ts);
      ShareSum(ts - {t}, s);
      if t in s.ran {
        assert ts * s.ran == (ts - {t}) * s.ran + {t};
        var n, each := |(ts - {t}) * s.ran| as real, s.length / |s.ran| as real;
        assert (n + 1.0) * each == n * each + each;
      } else {
        assert ts * s.ran == (ts - {t}) * s.ran;
      }
    }
  }

  /** The contributions of all threads sum to the time in which at least one of them ran. */
  lemma {:induction false} ContribSum(ts: set<Thread>, log: seq<Span>)
    requires forall s :: s in log ==> s.ran <= ts
    ensures SumContrib(ts, log) == Busy(log)
  {
    if log == [] {
      SumNothing(ts);
    } else {
      var s := log[|log| - 1];
      assert s in log;
      ContribSum(ts, log[..|log| - 1]);
      SumSplits(ts, log);
      ShareSum(ts, s);
      assert ts * s.ran == s.ran;
    }
  }

  /** A share is positive and at most the span; times the number of threads it is at least the span. */
  lemma ShareBounds(s: Span, t: Thread, n: nat)
    requires s.length > 0.0 && |s.ran| <= n
    ensures t in s.ran ==> 0.0 < Share(s, t) <= s.length <= n as real * Share(s, t)
  {
    if t in s.ran {
      assert |s.ran| >= 1;
      var k := |s.ran| as real;
      var each := s.length / k;
      assert each * k == s.length;
      assert each > 0.0;
      assert each * 1.0 <= each * k;
      assert k * each <= n as real * each;
    }
  }

  lemma Scaled(k: real, c: real, e: real, r: real, l: real)
    requires r <= k * c && l <= k * e
    ensures r + l <= k * (c + e)
  {
  }

  /** What a thread contributes is at most its run time, and at least its run time divided by the number of threads; the
      run time is at most the whole. */
  lemma {:induction false} Bounds(log: seq<Span>, t: Thread, n: nat)
    requires Positive(log) && forall s :: s in log ==> |s.ran| <= n
    ensures 0.0 <= Contrib(log, t) <= Runtime(log, t) <= Total(log)
    ensures Runtime(log, t) <= n as real * Contrib(log, t)
  {
    if log != [] {
      hide Share;
      var front, s := log[..|log| - 1], log[|log| - 1];
      assert s in log;
      Bounds(front, t, n);
      ShareBounds(s, t, n);
      ShareNone(s, t);
      Scaled(n as real, Contrib(front, t), Share(s, t), Runtime(front, t), if t in s.ran then s.length else 0.0);
    }
  }

  lemma ShareNone(s: Span, t: Thread)
    ensures t !in s.ran ==> Share(s, t) == 0.0
  {
  }

  /** A thread contributes something exactly when it ran. */
  lemma {:induction false} RanContributes(log: seq<Span>, t: Thread)
    requires Positive(log)
    ensures Contrib(log, t) >= 0.0 && (Ran(log, t) <==> Contrib(log, t) > 0.0)
  {
    if log != [] {
      var front, s := log[..|log| - 1], log[|log| - 1];
      assert s in log && log == front + [s];
      RanContributes(front, t);
      ShareBounds(s, t, |s.ran|);
      hide Share;
      ShareNone(s, t);
      if Ran(front, t) {
        var x :| x in front && t in x.ran;
        assert x in log;
      }
    }
  }

  lemma {:induction false} BusyBound(log: seq<Span>)
    requires Positive(log)
    ensures 0.0 <= Busy(log) <= Total(log)
  {
    if log != [] {
      assert log[|log| - 1] in log;
      BusyBound(log[..|log| - 1]);
    }
  }

  // ---- the collector ----

  /** The tables show exactly the history. */
  ghost predicate Shows(log: seq<Span>, total: real, runtime: map<Thread, real>, contrib: map<Thread, real>,
                        threads: set<Thread>)
  {
    && Positive(log) && total == Total(log) && runtime.Keys == contrib.Keys
    && (forall s :: s in log ==> s.ran <= threads)
    && (forall t :: t in runtime <==> Ran(log, t))
    && (forall t :: t in runtime ==> runtime[t] == Runtime(log, t))
    && (forall t :: t in contrib ==> contrib[t] == Contrib(log, t))
  }

  /** Adding to an entry that starts at zero. */
  function AddTo(m: map<Thread, real>, t: Thread, v: real): map<Thread, real> {
    m[t := (if t in m then m[t] else 0.0) + v]
  }

  /** `v` added for every thread of `ts`, starting from zero where there was nothing. */
  ghost function Bump(m: map<Thread, real>, ts: set<Thread>, v: real): map<Thread, real> {
    map t | t in m.Keys + ts :: (if t in m then m[t] else 0.0) + (if t in ts then v else 0.0)
  }

  lemma {:induction false} NeverRan(log: seq<Span>, t: Thread)
    requires !Ran(log, t)
    ensures Runtime(log, t) == 0.0 && Contrib(log, t) == 0.0
  {
    if log != [] {
      var front, s := log[..|log| - 1], log[|log| - 1];
      assert log == front + [s];
      RanMore(front, s, t);
      NeverRan(front, t);
    }
  }

  lemma RanMore(log: seq<Span>, s: Span, t: Thread)
    ensures Ran(log + [s], t) <==> Ran(log, t) || t in s.ran
  {
    assert s in log + [s];
    if Ran(log, t) {
      var x :| x in log && t in x.ran;
      assert x in log + [s];
    }
  }

  lemma ShowsOne(log: seq<Span>, s: Span, t: Thread)
    ensures Runtime(log + [s], t) == Runtime(log, t) + if t in s.ran then s.length else 0.0
    ensures Contrib(log + [s], t) == Contrib(log, t) + Share(s, t)
  {
    assert (log + [s])[..|log|] == log;
  }

  lemma ShowsMore(log: seq<Span>, total: real, runtime: map<Thread, real>, contrib: map<Thread, real>,
                  threads: set<Thread>, s: Span)
    requires Shows(log, total, runtime, contrib, threads) && s.length > 0.0 && s.ran <= threads
    ensures Shows(log + [s], total + s.length, Bump(runtime, s.ran, s.length),
                  Bump(contrib, s.ran, if s.ran == {} then 0.0 else s.length / |s.ran| as real), threads)
  {
    hide Ran, Runtime, Contrib;
    assert (log + [s])[..|log|] == log;
    forall t
      ensures Ran(log + [s], t) <==> Ran(log, t) || t in s.ran
      ensures Runtime(log + [s], t) == Runtime(log, t) + if t in s.ran then s.length else 0.0
      ensures Contrib(log + [s], t) == Contrib(log, t) + Share(s, t)
      ensures !Ran(log, t) ==> Runtime(log, t) == 0.0 && Contrib(log, t) == 0.0
    {
      RanMore(log, s, t);
      ShowsOne(log, s, t);
      if !Ran(log, t) {
        NeverRan(log, t);
      }
    }
  }

  // ---- events ----

  /** What the hooks make of their calls: a start or a resume, an exit or a stall, and a stall that is ignored. */
  datatype Event =
    | RoiBegin(time: int)
    | RoiEnd(time: int)
    | Runs(t: Thread, time: int)
    | Stops(t: Thread, time: int)
    | Ignored(time: int)

  datatype State = State(log: seq<Span>, running: map<Thread, bool>, timeLast: int, inRoi: bool)

  ghost function RunningSet(running: map<Thread, bool>): set<Thread> {
    set t | t in running && running[t]
  }

  ghost function Initially(): State {
    State([], map[], 0, false)
  }

  /** update: the time since the last one goes to the threads that ran in it. */
  ghost function Updated(s: State, time: int): State {
    if s.inRoi && time > s.timeLast then
      s.(log := s.log + [Span((time - s.timeLast) as real / 1000000.0, RunningSet(s.running))], timeLast := time)
    else s
  }

  ghost function Step(s: State, e: Event): State {
    match e
    case RoiBegin(now) => s.(timeLast := now, inRoi := true)
    case RoiEnd(now) => Updated(s, now).(inRoi := false)
    case Runs(t, time) => var u := Updated(s, time); u.(running := u.running[t := true])
    case Stops(t, time) => var u := Updated(s, time); u.(running := u.running[t := false])
    case Ignored(_) => s
  }

  class BottleGraphs {
    var totalRuntime: real
    var runtime: map<Thread, real>
    var contrib: map<Thread, real>
    var running: map<Thread, bool>
    var timeLast: int
    var inRoi: bool
    ghost var log: seq<Span>   // the time spent in the region of interest so far

    ghost predicate Valid()
      reads this
    {
      Shows(log, totalRuntime, runtime, contrib, running.Keys)
    }

    ghost function View(): State
      reads this
    {
      State(log, running, timeLast, inRoi)
    }

    constructor ()
      ensures Valid() && View() == Initially()
    {
      totalRuntime, runtime, contrib, running, timeLast, inRoi, log := 0.0, map[], map[], map[], 0, false, [];
    }

    method Update(time: int)
      requires Valid()
      modifies this
      ensures Valid() && View() == Updated(old(View()), time)
    {
      hide Shows, Bump;
      if !inRoi {
        return;
      }
      var ran := set t | t in running && running[t];
      var nthreads := |ran|;
      if time > timeLast {
        var interval := (time - timeLast) as real / 1000000.0;
        ghost var s := Span(interval, ran);
        ShowsMore(log, totalRuntime, runtime, contrib, running.Keys, s);
        totalRuntime := totalRuntime + interval;
        if nthreads != 0 {
          Distribute(ran, interval, interval / nthreads as real);
        } else {
          BumpNone(runtime, interval);
          BumpNone(contrib, 0.0);
        }
        timeLast := time;
        log := log + [s];
      }
    }

    method Distribute(ran: set<Thread>, interval: real, share: real)
      modifies this`runtime, this`contrib
      ensures runtime == Bump(old(runtime), ran, interval) && contrib == Bump(old(contrib), ran, share)
    {
      hide Bump, AddTo;
      var left := ran;
      ghost var done: set<Thread> := {};
      ghost var runtime0, contrib0 := runtime, contrib;
      BumpNone(runtime, interval);
      BumpNone(contrib, share);
      while left != {}
        invariant left !! done && left + done == ran
        invariant runtime == Bump(runtime0, done, interval) && contrib == Bump(contrib0, done, share)
        decreases |left|
      {
        var t :| t in left;
        BumpOne(runtime0, done, interval, t);
        BumpOne(contrib0, done, share, t);
        runtime := AddTo(runtime, t, interval);
        contrib := AddTo(contrib, t, share);
        left, done := left - {t}, done + {t};
      }
      assert done == ran;
    }

    method HookRoiBegin(now: int)
      requires Valid()
      modifies this
      ensures Valid() && View() == Step(old(View()), RoiBegin(now))
    {
      timeLast := now;
      inRoi := true;
    }

    method HookRoiEnd(now: int)
      requires Valid()
      modifies this
      ensures Valid() && View() == Step(old(View()), RoiEnd(now))
    {
      Update(now);
      inRoi := false;
    }

    method HookThreadStart(t: Thread, time: int)
      requires Valid()
      modifies this
      ensures Valid() && View() == Step(old(View()), Runs(t, time))
    {
      Update(time);
      running := running[t := true];
    }

    method HookThreadExit(t: Thread, time: int)
      requires Valid()
      modifies this
      ensures Valid() && View() == Step(old(View()), Stops(t, time))
    {
      Update(time);
      running := running[t := false];
    }

    method HookThreadStall(t: Thread, reason: string, time: int)
      requires Valid()
      modifies this
      ensures Valid() && View() == Step(old(View()), if reason == "unscheduled" then Ignored(time) else Stops(t, time))
    {
      if reason != "unscheduled" {
        Update(time);
        running := running[t := false];
      }
    }

    method HookThreadResume(t: Thread, time: int)
      requires Valid()
      modifies this
      ensures Valid() && View() == Step(old(View()), Runs(t, time))
    {
      Update(time);
      running := running[t := true];
    }

    /** The boxes of the graph; no division by zero on the way. */
    method HookSimEnd() returns (xs: map<Thread, real>, ys: map<Thread, real>, height: real)
      requires Valid()
      ensures xs.Keys == ys.Keys == runtime.Keys && height == Total(log) / 1000000000.0
      ensures forall t :: t in runtime ==> Box(log, |running.Keys|, t, xs[t], ys[t], height)
      ensures SumContrib(running.Keys, log) == Busy(log) <= Total(log)
    {
      hide Box, Total, Busy, SumContrib, Ran, Runtime, Contrib;
      ContribSum(running.Keys, log);
      BusyBound(log);
      hide Positive;
      forall t | t in runtime
        ensures contrib[t] != 0.0 &&
                Box(log, |running.Keys|, t, runtime[t] / contrib[t], contrib[t] / 1000000000.0,
                    totalRuntime / 1000000000.0)
      {
        Boxes(log, totalRuntime, runtime, contrib, running.Keys, t);
      }
      xs := map t | t in runtime :: runtime[t] / contrib[t];
      ys := map t | t in runtime :: contrib[t] / 1000000000.0;
      height := totalRuntime / 1000000000.0;
    }
  }

  /** A thread's box: its width is the parallelism, between one and the number of threads; its height is what the thread
      contributes, in seconds. */
  ghost predicate Box(log: seq<Span>, n: nat, t: Thread, x: real, y: real, height: real) {
    && 1.0 <= x <= n as real && x * Contrib(log, t) == Runtime(log, t)
    && y == Contrib(log, t) / 1000000000.0 && 0.0 < y <= height
  }

  lemma Boxes(log: seq<Span>, total: real, runtime: map<Thread, real>, contrib: map<Thread, real>,
              threads: set<Thread>, t: Thread)
    requires Shows(log, total, runtime, contrib, threads) && t in runtime
    ensures contrib[t] != 0.0
    ensures Box(log, |threads|, t, runtime[t] / contrib[t], contrib[t] / 1000000000.0, total / 1000000000.0)
  {
    hide Ran, Runtime, Contrib, Total;
    assert forall s :: s in log ==> |s.ran| <= |threads| by { RanFewer(log, threads); }
    Bounds(log, t, |threads|);
    RanContributes(log, t);
    hide Positive;
    Quotient(runtime[t], contrib[t], |threads| as real);
  }

  lemma RanFewer(log: seq<Span>, threads: set<Thread>)
    requires forall s :: s in log ==> s.ran <= threads
    ensures forall s :: s in log ==> |s.ran| <= |threads|
  {
    forall s | s in log
      ensures |s.ran| <= |threads|
    {
      SubsetCard(s.ran, threads);
    }
  }

  lemma Quotient(r: real, c: real, n: real)
    requires 0.0 < c <= r <= n * c
    ensures 1.0 <= r / c <= n && r / c * c == r
  {
    var q := r / c;
    assert q * c == r;
    assert q < 1.0 ==> q * c < 1.0 * c;
    assert q > n ==> q * c > n * c;
  }

  lemma BumpNone(m: map<Thread, real>, v: real)
    ensures Bump(m, {}, v) == m
  {
  }

  lemma BumpOne(m: map<Thread, real>, ts: set<Thread>, v: real, t: Thread)
    requires t !in ts
    ensures var b := Bump(m, ts, v); Bump(m, ts + {t}, v) == AddTo(b, t, v)
  {
  }

  // ---- whole runs ----

  ghost function Run(es: seq<Event>): State {
    if es == [] then Initially() else Step(Run(es[..|es| - 1]), es[|es| - 1])
  }

  /** What the events say of the moment after them, without the collector. */
  ghost predicate InRoi(es: seq<Event>) {
    es != [] && var e := es[|es| - 1]; e.RoiBegin? || (!e.RoiEnd? && InRoi(es[..|es| - 1]))
  }

  ghost predicate IsRunning(es: seq<Event>, t: Thread) {
    es != [] && var e := es[|es| - 1];
    if e.Runs? && e.t == t then true else if e.Stops? && e.t == t then false else IsRunning(es[..|es| - 1], t)
  }

  /** The time from each event to the next, as far as it lies in the region of interest. */
  ghost function RoiTime(es: seq<Event>): int {
    if |es| <= 1 then 0
    else
      var front := es[..|es| - 1];
      RoiTime(front) + if InRoi(front) then es[|es| - 1].time - es[|es| - 2].time else 0
  }

  ghost function RoiTimeOf(es: seq<Event>, t: Thread): int {
    if |es| <= 1 then 0
    else
      var front := es[..|es| - 1];
      RoiTimeOf(front, t) + if InRoi(front) && IsRunning(front, t) then es[|es| - 1].time - es[|es| - 2].time else 0
  }

  /** Events come in order, and a region begins only when none is open. */
  ghost predicate Orderly(es: seq<Event>) {
    |es| > 0 ==>
      var front, e := es[..|es| - 1], es[|es| - 1];
      && Orderly(front) && (front != [] ==> front[|front| - 1].time <= e.time)
      && (e.RoiBegin? ==> !InRoi(front))
  }

  ghost predicate InTime(es: seq<Event>, s: State) {
    && s.inRoi == InRoi(es)
    && (forall t :: t in RunningSet(s.running) <==> IsRunning(es, t))
    && (s.inRoi ==> es != [] && s.timeLast <= es[|es| - 1].time)
  }

  lemma {:induction false} RunInTime(es: seq<Event>)
    requires Orderly(es)
    ensures InTime(es, Run(es))
  {
    if es != [] {
      RunInTime(es[..|es| - 1]);
    }
  }

  /** The time not yet accounted for, because the last events were ignored. */
  ghost function Pending(es: seq<Event>, s: State): real {
    if s.inRoi && es != [] then (es[|es| - 1].time - s.timeLast) as real else 0.0
  }

  lemma TotalSnoc(log: seq<Span>, x: Span, t: Thread)
    ensures Total(log + [x]) == Total(log) + x.length
    ensures Runtime(log + [x], t) == Runtime(log, t) + if t in x.ran then x.length else 0.0
  {
    assert (log + [x])[..|log|] == log;
  }

  /** What an update adds to the accounts, in the units of the clock. */
  lemma UpdatedTimes(s: State, time: int, t: Thread)
    ensures var d := if s.inRoi && time > s.timeLast then (time - s.timeLast) as real else 0.0;
            && Total(Updated(s, time).log) * 1000000.0 == Total(s.log) * 1000000.0 + d
            && Runtime(Updated(s, time).log, t) * 1000000.0 ==
               Runtime(s.log, t) * 1000000.0 + if t in RunningSet(s.running) then d else 0.0
  {
    hide Total, Runtime;
    TotalSnoc(s.log, Span((time - s.timeLast) as real / 1000000.0, RunningSet(s.running)), t);
  }

  lemma UpdatedFields(s: State, time: int)
    ensures var u := Updated(s, time);
            && u.running == s.running && u.inRoi == s.inRoi
            && u.timeLast == if s.inRoi && time > s.timeLast then time else s.timeLast
  {
  }

  /** Over every orderly run the accounted time is the time spent in the region of interest. */
  lemma {:induction false} RunTotal(es: seq<Event>)
    requires Orderly(es)
    ensures Total(Run(es).log) * 1000000.0 + Pending(es, Run(es)) == RoiTime(es) as real
  {
    if es != [] {
      hide Total, Updated, IsRunning, RunningSet;
      var front, e := es[..|es| - 1], es[|es| - 1];
      RunTotal(front);
      RunInTime(front);
      UpdatedTimes(Run(front), e.time, Thread(0));
      UpdatedFields(Run(front), e.time);
    }
  }

  /** And for each thread it is the time the thread spent running there. */
  lemma {:induction false} RunThread(es: seq<Event>, t: Thread)
    requires Orderly(es)
    ensures Runtime(Run(es).log, t) * 1000000.0 + (if IsRunning(es, t) then Pending(es, Run(es)) else 0.0) ==
            RoiTimeOf(es, t) as real
  {
    if es != [] {
      hide Runtime, Updated, RunningSet;
      var front, e := es[..|es| - 1], es[|es| - 1];
      RunThread(front, t);
      RunInTime(front);
      UpdatedTimes(Run(front), e.time, t);
      UpdatedFields(Run(front), e.time);
    }
  }

  /** Once the region has ended nothing is pending. */
  lemma EndedTimes(es: seq<Event>, t: Thread)
    requires Orderly(es) && !InRoi(es)
    ensures Total(Run(es).log) == RoiTime(es) as real / 1000000.0
    ensures Runtime(Run(es).log, t) == RoiTimeOf(es, t) as real / 1000000.0
  {
    hide Run, Total, Runtime, RoiTime, RoiTimeOf;
    RunTotal(es);
    RunThread(es, t);
    RunInTime(es);
  }

  // ---- conservation over runs ----

  ghost predicate SomeRuns(es: seq<Event>) {
    exists t :: IsRunning(es, t)
  }

  /** The time in the region of interest with at least one thread running. */
  ghost function BusyTime(es: seq<Event>): int {
    if |es| <= 1 then 0
    else
      var front := es[..|es| - 1];
      BusyTime(front) + if InRoi(front) && SomeRuns(front) then es[|es| - 1].time - es[|es| - 2].time else 0
  }

  lemma BusySnoc(log: seq<Span>, x: Span)
    ensures Busy(log + [x]) == Busy(log) + if x.ran == {} then 0.0 else x.length
  {
    assert (log + [x])[..|log|] == log;
  }

  lemma UpdatedBusy(s: State, time: int)
    ensures var d := if s.inRoi && time > s.timeLast then (time - s.timeLast) as real else 0.0;
            Busy(Updated(s, time).log) * 1000000.0 ==
            Busy(s.log) * 1000000.0 + if RunningSet(s.running) == {} then 0.0 else d
  {
    hide Busy;
    BusySnoc(s.log, Span((time - s.timeLast) as real / 1000000.0, RunningSet(s.running)));
  }

  lemma RunningMeans(es: seq<Event>, s: State)
    requires InTime(es, s)
    ensures RunningSet(s.running) == {} <==> !SomeRuns(es)
  {
    hide IsRunning, RunningSet;
  }

  lemma SameRuns(es: seq<Event>)
    requires es != [] && !es[|es| - 1].Runs? && !es[|es| - 1].Stops?
    ensures SomeRuns(es) <==> SomeRuns(es[..|es| - 1])
  {
    var front := es[..|es| - 1];
    assert forall t :: IsRunning(es, t) <==> IsRunning(front, t);
  }

  /** Over every orderly run the accounted busy time, and what is pending, is the time in the region with a running
      thread. */
  lemma {:induction false} RunBusy(es: seq<Event>)
    requires Orderly(es)
    ensures Busy(Run(es).log) * 1000000.0 + (if SomeRuns(es) then Pending(es, Run(es)) else 0.0) == BusyTime(es) as real
  {
    if es != [] {
      hide Busy, Updated, IsRunning, RunningSet, SomeRuns;
      var front, e := es[..|es| - 1], es[|es| - 1];
      RunBusy(front);
      RunInTime(front);
      RunningMeans(front, Run(front));
      if !e.Runs? && !e.Stops? {
        SameRuns(es);
      }
      UpdatedBusy(Run(front), e.time);
      UpdatedFields(Run(front), e.time);
    }
  }

  /** Only threads that have been started or stopped are in the history. */
  lemma {:induction false} RanKnown(es: seq<Event>)
    ensures forall x :: x in Run(es).log ==> x.ran <= Run(es).running.Keys
  {
    if es != [] {
      RanKnown(es[..|es| - 1]);
    }
  }

  /** Bottle-graph conservation: over every orderly run, once the region has ended, the contributions of the threads sum
      to the time in the region with at least one of them running. */
  lemma ContribConserved(es: seq<Event>)
    requires Orderly(es) && !InRoi(es)
    ensures SumContrib(Run(es).running.Keys, Run(es).log) == BusyTime(es) as real / 1000000.0
  {
    hide Run, Busy, BusyTime, SumContrib, SomeRuns;
    RanKnown(es);
    ContribSum(Run(es).running.Keys, Run(es).log);
    RunBusy(es);
    RunInTime(es);
  }

  // ---- a region that begins while one is open ----

  ghost predicate InOrder(es: seq<Event>) {
    forall i :: 0 <= i < |es| - 1 ==> es[i].time <= es[i + 1].time
  }

  /** The time of the last event that was not ignored, as far as the region is concerned. */
  ghost function LastCounted(es: seq<Event>): int {
    if es == [] then 0
    else
      var front, e := es[..|es| - 1], es[|es| - 1];
      if e.RoiBegin? || (InRoi(front) && !e.Ignored?) then e.time else LastCounted(front)
  }

  /** The time that goes unaccounted because a region begins again while it is open. */
  ghost function Dropped(es: seq<Event>): int {
    if es == [] then 0
    else
      var front, e := es[..|es| - 1], es[|es| - 1];
      Dropped(front) + if e.RoiBegin? && InRoi(front) then e.time - LastCounted(front) else 0
  }

  lemma {:induction false} RunClock(es: seq<Event>)
    requires InOrder(es)
    ensures Run(es).inRoi == InRoi(es)
    ensures InRoi(es) ==> Run(es).timeLast == LastCounted(es) <= es[|es| - 1].time
  {
    if es != [] {
      hide IsRunning, RunningSet;
      var front := es[..|es| - 1];
      RunClock(front);
      assert front != [] ==> es[|front| - 1].time <= es[|front| - 1 + 1].time;
      UpdatedFields(Run(front), es[|es| - 1].time);
    }
  }

  /** For every run of events in order: what is accounted, pending or dropped is the time in the region. */
  lemma {:induction false} RunAccounts(es: seq<Event>)
    requires InOrder(es)
    ensures Total(Run(es).log) * 1000000.0 + Pending(es, Run(es)) + Dropped(es) as real == RoiTime(es) as real
    ensures Dropped(es) >= 0
  {
    if es != [] {
      hide Total, Updated, IsRunning, RunningSet, InOrder;
      var front, e := es[..|es| - 1], es[|es| - 1];
      assert InOrder(front) && (front != [] ==> front[|front| - 1].time <= e.time) by { OrderBefore(es); }
      RunAccounts(front);
      RunClock(front);
      UpdatedTimes(Run(front), e.time, Thread(0));
      UpdatedFields(Run(front), e.time);
    }
  }

  lemma OrderBefore(es: seq<Event>)
    requires InOrder(es) && es != []
    ensures InOrder(es[..|es| - 1]) && (|es| > 1 ==> es[|es| - 2].time <= es[|es| - 1].time)
  {
    assert |es| > 1 ==> es[|es| - 2].time <= es[|es| - 2 + 1].time;
  }

  /** Once the region has ended the total is the time spent in it if and only if nothing was dropped. */
  lemma EndedExact(es: seq<Event>)
    requires InOrder(es) && !InRoi(es)
    ensures Total(Run(es).log) == RoiTime(es) as real / 1000000.0 <==> Dropped(es) == 0
  {
    hide Run, Total, RoiTime, Dropped, InOrder;
    RunAccounts(es);
    RunClock(es);
  }
}
