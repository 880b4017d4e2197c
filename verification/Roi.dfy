/** The instruction-count driven region of interest of scripts/roi-icount.py: what it does in any run of callbacks,
    and how far the measured region can be from the requested one. */
module Roi {

  datatype Phase = PreRoi | Init | Warmup | Detailed | Done
  datatype Lengths = Lengths(init: int, warmup: int, detailed: int)

  /** What the simulator is told, and at which instruction count. */
  datatype Action = ToWarmup(icount: int) | RoiBegin(icount: int) | RoiEnd(icount: int)
  datatype Event = Periodic(icount: int) | ApplicationRoi(icount: int)
  datatype State = State(phase: Phase, offset: int, actions: seq<Action>)

  function BeginAt(l: Lengths, offset: int): int {
    offset + l.init + l.warmup
  }

  // ---- the hooks ----

  class RoiIcount {
    const lengths: Lengths
    var state: Phase
    var offset: int
    ghost var actions: seq<Action>

    ghost function View(): State
      reads this
    {
      State(state, offset, actions)
    }

    constructor (lengths: Lengths, roirel: bool)
      ensures this.lengths == lengths && View() == Start(roirel)
    {
      this.lengths := lengths;
      state := if roirel then PreRoi else Init;
      offset, actions := 0, [];
    }

    method HookSimStart()
      modifies this
      ensures View() == Step(lengths, old(View()), Periodic(0))
    {
      PeriodicIns(0);
    }

    method HookApplicationRoiBegin(icount: int)
      modifies this
      ensures View() == Step(lengths, old(View()), ApplicationRoi(icount))
    {
      if state == PreRoi {
        state := Init;
        offset := icount;
      }
    }

    method PeriodicIns(icount: int)
      modifies this
      ensures View() == Step(lengths, old(View()), Periodic(icount))
    {
      if state == Done {
        return;
      }
      if state == PreRoi {
        return;
      }
      if state == Detailed && icount >= offset + lengths.init + lengths.warmup + lengths.detailed {
        actions := actions + [RoiEnd(icount)];
        state := Done;
      }
      if (state == Init || state == Warmup) && icount >= offset + lengths.init + lengths.warmup {
        actions := actions + [RoiBegin(icount)];
        state := Detailed;
      }
      if state == Init && icount >= offset + lengths.init {
        actions := actions + [ToWarmup(icount)];
        state := Warmup;
      }
    }
  }

  ghost function Start(roirel: bool): State {
    State(if roirel then PreRoi else Init, 0, [])
  }

  /** One hook, said phase by phase. */
  ghost function Step(l: Lengths, s: State, e: Event): State {
    match e
    case ApplicationRoi(n) => if s.phase == PreRoi then State(Init, n, s.actions) else s
    case Periodic(n) =>
      match s.phase
      case PreRoi => s
      case Init =>
        if n >= BeginAt(l, s.offset) then s.(phase := Detailed, actions := s.actions + [RoiBegin(n)])
        else if n >= s.offset + l.init then s.(phase := Warmup, actions := s.actions + [ToWarmup(n)])
        else s
      case Warmup =>
        if n >= BeginAt(l, s.offset) then s.(phase := Detailed, actions := s.actions + [RoiBegin(n)]) else s
      case Detailed =>
        if n >= BeginAt(l, s.offset) + l.detailed then s.(phase := Done, actions := s.actions + [RoiEnd(n)]) else s
      case Done => s
  }

  ghost function Run(l: Lengths, s: State, es: seq<Event>): State
    decreases es
  {
    if es == [] then s else Run(l, Step(l, s, es[0]), es[1..])
  }

  // ---- what a run does ----

  /** The callbacks of a run. */
  ghost function Callbacks(es: seq<Event>): seq<int> {
    if es == [] then []
    else (match es[0] { case Periodic(n) => [n] case ApplicationRoi(_) => [] }) + Callbacks(es[1..])
  }

  /** The index of the first callback at or after `bound`. */
  ghost function First(cs: seq<int>, bound: int): (i: nat)
    ensures i <= |cs|
    ensures i < |cs| ==> cs[i] >= bound
    ensures forall j :: 0 <= j < i ==> cs[j] < bound
  {
    if cs == [] || cs[0] >= bound then 0 else 1 + First(cs[1..], bound)
  }

  ghost function Ends(l: Lengths, offset: int, cs: seq<int>): seq<Action> {
    var e := First(cs, BeginAt(l, offset) + l.detailed);
    if e == |cs| then [] else [RoiEnd(cs[e])]
  }

  ghost function Begins(l: Lengths, offset: int, cs: seq<int>): seq<Action> {
    var b := First(cs, BeginAt(l, offset));
    if b == |cs| then [] else [RoiBegin(cs[b])] + Ends(l, offset, cs[b + 1..])
  }

  /** Warmup at the first callback past the first length unless that callback is past the second, too; the region begins
      at the first callback past the second length and ends at the first later callback past the third. */
  ghost function Expected(l: Lengths, offset: int, cs: seq<int>): seq<Action> {
    Warms(l, offset, cs) + Begins(l, offset, cs)
  }

  ghost function Warms(l: Lengths, offset: int, cs: seq<int>): seq<Action> {
    var a := First(cs, offset + l.init);
    if a < First(cs, BeginAt(l, offset)) then [ToWarmup(cs[a])] else []
  }

  lemma {:induction false} RunDone(l: Lengths, s: State, es: seq<Event>)
    requires s.phase == Done
    ensures Run(l, s, es) == s
  {
    if es != [] {
      RunDone(l, s, es[1..]);
    }
  }

  lemma {:induction false} RunDetailed(l: Lengths, s: State, es: seq<Event>)
    requires s.phase == Detailed
    ensures Run(l, s, es).actions == s.actions + Ends(l, s.offset, Callbacks(es))
  {
    if es != [] {
      var s' := Step(l, s, es[0]);
      var cs := Callbacks(es);
      if s'.phase == Done {
        RunDone(l, s', es[1..]);
      } else {
        RunDetailed(l, s, es[1..]);
        assert es[0].Periodic? ==> cs[1..] == Callbacks(es[1..]);
        assert es[0].ApplicationRoi? ==> cs == Callbacks(es[1..]);
      }
    }
  }

  lemma {:induction false} RunWarmup(l: Lengths, s: State, es: seq<Event>)
    requires s.phase == Warmup
    ensures Run(l, s, es).actions == s.actions + Begins(l, s.offset, Callbacks(es))
  {
    if es != [] {
      var s' := Step(l, s, es[0]);
      var cs := Callbacks(es);
      assert es[0].Periodic? ==> cs[1..] == Callbacks(es[1..]);
      assert es[0].ApplicationRoi? ==> cs == Callbacks(es[1..]);
      if s'.phase == Detailed {
        RunDetailed(l, s', es[1..]);
      } else {
        RunWarmup(l, s, es[1..]);
        if es[0].Periodic? {
          BeginsLater(l, s.offset, cs);
        }
      }
    }
  }

  lemma BeginsLater(l: Lengths, offset: int, cs: seq<int>)
    requires cs != [] && cs[0] < BeginAt(l, offset)
    ensures Begins(l, offset, cs) == Begins(l, offset, cs[1..])
  {
    hide Ends;
    var b := First(cs[1..], BeginAt(l, offset));
    if b < |cs| - 1 {
      assert cs[1..][b + 1..] == cs[b + 2..];
    }
  }

  lemma BeginsNow(l: Lengths, offset: int, cs: seq<int>)
    requires cs != [] && cs[0] >= BeginAt(l, offset)
    ensures Warms(l, offset, cs) == [] && Begins(l, offset, cs) == [RoiBegin(cs[0])] + Ends(l, offset, cs[1..])
  {
  }

  lemma WarmsNow(l: Lengths, offset: int, cs: seq<int>)
    requires cs != [] && offset + l.init <= cs[0] < BeginAt(l, offset)
    ensures Warms(l, offset, cs) == [ToWarmup(cs[0])]
  {
  }

  lemma WarmsLater(l: Lengths, offset: int, cs: seq<int>)
    requires cs != [] && cs[0] < BeginAt(l, offset) && cs[0] < offset + l.init
    ensures Warms(l, offset, cs) == Warms(l, offset, cs[1..])
  {
  }

  lemma CallbackHead(es: seq<Event>)
    requires es != []
    ensures es[0].Periodic? ==> Callbacks(es) == [es[0].icount] + Callbacks(es[1..])
    ensures es[0].Periodic? ==> Callbacks(es)[1..] == Callbacks(es[1..])
    ensures es[0].ApplicationRoi? ==> Callbacks(es) == Callbacks(es[1..])
  {
  }

  lemma NothingExpected(l: Lengths, offset: int)
    ensures Callbacks([]) == [] && Expected(l, offset, []) == []
  {
  }

  lemma {:induction false} RunInit(l: Lengths, s: State, es: seq<Event>)
    requires s.phase == Init
    ensures Run(l, s, es).actions == s.actions + Expected(l, s.offset, Callbacks(es))
  {
    hide Begins, Warms, Ends, First, Callbacks;
    if es == [] {
      NothingExpected(l, s.offset);
    } else {
      var s' := Step(l, s, es[0]);
      var cs := Callbacks(es);
      CallbackHead(es);
      if s'.phase == Detailed {
        RunDetailed(l, s', es[1..]);
        BeginsNow(l, s.offset, cs);
      } else if s'.phase == Warmup {
        RunWarmup(l, s', es[1..]);
        WarmsNow(l, s.offset, cs);
        BeginsLater(l, s.offset, cs);
      } else {
        RunInit(l, s, es[1..]);
        if es[0].Periodic? {
          BeginsLater(l, s.offset, cs);
          WarmsLater(l, s.offset, cs);
        }
      }
    }
  }

  /** Waiting for the application: nothing happens before it begins its own region, and that sets the offset. */
  lemma {:induction false} RunPreRoi(l: Lengths, s: State, before: seq<Event>, n: int, es: seq<Event>)
    requires s.phase == PreRoi && forall e :: e in before ==> e.Periodic?
    ensures Run(l, s, before).actions == s.actions
    ensures Run(l, s, before + [ApplicationRoi(n)] + es).actions == s.actions + Expected(l, n, Callbacks(es))
  {
    hide Expected, Callbacks;
    var all := before + [ApplicationRoi(n)] + es;
    if before == [] {
      assert all[0] == ApplicationRoi(n) && all[1..] == es;
      RunInit(l, State(Init, n, s.actions), es);
    } else {
      assert before[0] in before && all[0] == before[0];
      RunPreRoi(l, s, before[1..], n, es);
      assert all[1..] == before[1..] + [ApplicationRoi(n)] + es;
    }
  }

  // ---- the measured region ----

  /** Callbacks come in order, at most `p` instructions apart, the first within `p` of the offset. */
  ghost predicate Regular(cs: seq<int>, offset: int, p: nat) {
    (cs != [] ==> offset <= cs[0] <= offset + p) && forall i :: 0 <= i < |cs| - 1 ==> cs[i] <= cs[i + 1] <= cs[i] + p
  }

  function Rank(a: Action): int {
    match a
    case ToWarmup(_) => 0
    case RoiBegin(_) => 1
    case RoiEnd(_) => 2
  }

  /** Each thing happens at most once and in this order: warmup, begin, end; and what ended had begun. */
  lemma InOrder(l: Lengths, offset: int, cs: seq<int>)
    ensures var acts := Expected(l, offset, cs);
            (forall i, j :: 0 <= i < j < |acts| ==> Rank(acts[i]) < Rank(acts[j])) &&
            forall i :: 0 <= i < |acts| && acts[i].RoiEnd? ==> i > 0 && acts[i - 1].RoiBegin?
  {
    hide First;
  }

  /** The first callback past a bound that is not before the offset is at most one interval late. */
  lemma Prompt(cs: seq<int>, offset: int, p: nat, bound: int)
    requires Regular(cs, offset, p) && bound >= offset
    ensures var i := First(cs, bound); i < |cs| ==> bound <= cs[i] <= bound + p
  {
    var i := First(cs, bound);
    if 0 < i < |cs| {
      assert cs[i - 1] < bound && cs[i - 1 + 1] <= cs[i - 1] + p;
    }
  }

  /** The region begins at most one callback interval late, and its length is within one interval of the requested
      one. */
  lemma Measured(l: Lengths, offset: int, cs: seq<int>, p: nat)
    requires l.init + l.warmup >= 0 && l.detailed >= 1 && Regular(cs, offset, p)
    ensures var b := First(cs, BeginAt(l, offset));
            b < |cs| ==>
              BeginAt(l, offset) <= cs[b] <= BeginAt(l, offset) + p &&
              var e := First(cs[b + 1..], BeginAt(l, offset) + l.detailed);
              e < |cs| - b - 1 ==> l.detailed - p <= cs[b + 1 + e] - cs[b] <= l.detailed + p
  {
    var b := First(cs, BeginAt(l, offset));
    Prompt(cs, offset, p, BeginAt(l, offset));
    if b < |cs| {
      var rest := cs[b + 1..];
      var e := First(rest, BeginAt(l, offset) + l.detailed);
      if e < |rest| {
        assert rest[e] == cs[b + 1 + e] && cs[b + e] <= cs[b + e + 1] <= cs[b + e] + p;
        assert e > 0 ==> rest[e - 1] == cs[b + e];
      }
    }
  }

  /** What the simulator was told is in order, the region begins at most `p` late, and its length is within `p` of the
      requested one. */
  ghost predicate WellMeasured(l: Lengths, offset: int, acts: seq<Action>, p: nat) {
    && (forall i, j :: 0 <= i < j < |acts| ==> Rank(acts[i]) < Rank(acts[j]))
    && (forall i :: 0 <= i < |acts| && acts[i].RoiBegin? ==>
          BeginAt(l, offset) <= acts[i].icount <= BeginAt(l, offset) + p)
    && (forall i :: 0 <= i < |acts| && acts[i].RoiEnd? ==>
          && i > 0 && acts[i - 1].RoiBegin?
          && l.detailed - p <= acts[i].icount - acts[i - 1].icount <= l.detailed + p)
  }

  lemma ExpectedMeasured(l: Lengths, offset: int, cs: seq<int>, p: nat)
    requires l.init + l.warmup >= 0 && l.detailed >= 1 && Regular(cs, offset, p)
    ensures WellMeasured(l, offset, Expected(l, offset, cs), p)
  {
    hide First, Regular;
    InOrder(l, offset, cs);
    Measured(l, offset, cs, p);
  }

  /** ROI measurement over every run of callbacks, counted from the start. */
  lemma RunMeasured(l: Lengths, es: seq<Event>, p: nat)
    requires l.init + l.warmup >= 0 && l.detailed >= 1 && Regular(Callbacks(es), 0, p)
    ensures WellMeasured(l, 0, Run(l, Start(false), es).actions, p)
  {
    hide Run, Expected, Regular, WellMeasured;
    RunInit(l, Start(false), es);
    ExpectedMeasured(l, 0, Callbacks(es), p);
    assert [] + Expected(l, 0, Callbacks(es)) == Expected(l, 0, Callbacks(es));
  }

  /** The same, counted from the application's own region. */
  lemma RunMeasuredFromRoi(l: Lengths, before: seq<Event>, n: int, es: seq<Event>, p: nat)
    requires l.init + l.warmup >= 0 && l.detailed >= 1 && Regular(Callbacks(es), n, p)
    requires forall e :: e in before ==> e.Periodic?
    ensures WellMeasured(l, n, Run(l, Start(true), before + [ApplicationRoi(n)] + es).actions, p)
  {
    hide Run, Expected, Regular, WellMeasured;
    RunPreRoi(l, Start(true), before, n, es);
    ExpectedMeasured(l, n, Callbacks(es), p);
    assert [] + Expected(l, n, Callbacks(es)) == Expected(l, n, Callbacks(es));
  }

  // ---- lengths below zero, which the script does not refuse ----

  /** When the first callback comes at the offset itself, one interval of negative lengths does no harm. */
  lemma MeasuredAtOffset(l: Lengths, offset: int, cs: seq<int>, p: nat)
    requires 0 - p <= l.init + l.warmup < 0 && l.detailed >= 1 && Regular(cs, offset, p) && cs != [] && cs[0] == offset
    ensures First(cs, BeginAt(l, offset)) == 0
    ensures var e := First(cs[1..], BeginAt(l, offset) + l.detailed);
            e < |cs| - 1 ==> l.detailed - p <= cs[1 + e] - cs[0] <= l.detailed + p
  {
    var rest := cs[1..];
    var e := First(rest, BeginAt(l, offset) + l.detailed);
    if e < |rest| {
      assert rest[e] == cs[1 + e] && cs[e] <= cs[e + 1] <= cs[e] + p;
      assert e > 0 ==> rest[e - 1] == cs[e];
    }
  }

  lemma ExpectedAtOffset(l: Lengths, offset: int, cs: seq<int>, p: nat)
    requires 0 - p <= l.init + l.warmup && l.detailed >= 1 && Regular(cs, offset, p) && cs != [] && cs[0] == offset
    ensures WellMeasured(l, offset, Expected(l, offset, cs), p)
  {
    hide First, Regular;
    if l.init + l.warmup >= 0 {
      ExpectedMeasured(l, offset, cs, p);
    } else {
      InOrder(l, offset, cs);
      MeasuredAtOffset(l, offset, cs, p);
    }
  }

  /** A single callback past a beginning that lies before the offset. */
  lemma LateBegin(l: Lengths, offset: int, late: nat, p: nat)
    requires l.init + l.warmup < 0 && offset + late > BeginAt(l, offset) + p
    ensures !WellMeasured(l, offset, Expected(l, offset, [offset + late]), p)
  {
    var cs := [offset + late];
    assert cs[1..] == [] && First(cs, BeginAt(l, offset)) == 0;
    assert Expected(l, offset, cs) == [RoiBegin(offset + late)];
  }

  /** Exactly when the measurement is in order in every run that starts with the callback at 0: the first two lengths
      together may be negative by no more than one callback interval. */
  lemma RunMeasuredExact(l: Lengths, p: nat)
    requires l.detailed >= 1
    ensures (forall es :: Regular(Callbacks([Periodic(0)] + es), 0, p) ==>
               WellMeasured(l, 0, Run(l, Start(false), [Periodic(0)] + es).actions, p)) <==>
            l.init + l.warmup >= 0 - p
  {
    hide Run, Expected, Regular, WellMeasured, Callbacks;
    forall es: seq<Event>
      ensures Run(l, Start(false), [Periodic(0)] + es).actions == Expected(l, 0, Callbacks([Periodic(0)] + es))
      ensures Callbacks([Periodic(0)] + es) == [0] + Callbacks(es)
    {
      RunInit(l, Start(false), [Periodic(0)] + es);
      CallbackHead([Periodic(0)] + es);
      assert ([Periodic(0)] + es)[1..] == es;
      assert [] + Expected(l, 0, Callbacks([Periodic(0)] + es)) == Expected(l, 0, Callbacks([Periodic(0)] + es));
    }
    if l.init + l.warmup >= 0 - p {
      forall es | Regular(Callbacks([Periodic(0)] + es), 0, p)
        ensures WellMeasured(l, 0, Run(l, Start(false), [Periodic(0)] + es).actions, p)
      {
        ExpectedAtOffset(l, 0, Callbacks([Periodic(0)] + es), p);
      }
    } else {
      NoCallbacks();
      LateBegin(l, 0, 0, p);
      OneRegular(0, 0, p);
      assert [0] + [] == [0 + 0];
      assert Regular(Callbacks([Periodic(0)] + []), 0, p);
    }
  }

  lemma NoCallbacks()
    ensures Callbacks([]) == []
  {
  }

  ghost predicate OnlyCallbacks(es: seq<Event>) {
    forall e :: e in es ==> e.Periodic?
  }

  lemma OneRegular(offset: int, late: nat, p: nat)
    requires late <= p
    ensures Regular([offset + late], offset, p)
  {
  }

  /** The same when it is counted from the application's own region, after which the first callback may be a whole
      interval away: the first two lengths together may not be negative. */
  lemma RunMeasuredFromRoiExact(l: Lengths, n: int, p: nat)
    requires l.detailed >= 1
    ensures (forall before, es :: OnlyCallbacks(before) && Regular(Callbacks(es), n, p) ==>
               WellMeasured(l, n, Run(l, Start(true), before + [ApplicationRoi(n)] + es).actions, p)) <==>
            l.init + l.warmup >= 0
  {
    hide Run, Expected, Regular, WellMeasured, Callbacks;
    if l.init + l.warmup >= 0 {
      forall before, es | OnlyCallbacks(before) && Regular(Callbacks(es), n, p)
        ensures WellMeasured(l, n, Run(l, Start(true), before + [ApplicationRoi(n)] + es).actions, p)
      {
        RunMeasuredFromRoi(l, before, n, es, p);
      }
    } else {
      var es := [Periodic(n + p)];
      assert OnlyCallbacks([]);
      RunPreRoi(l, Start(true), [], n, es);
      CallbackHead(es);
      NoCallbacks();
      assert es[1..] == [] && Callbacks(es) == [n + p];
      LateBegin(l, n, p, p);
      OneRegular(n, p, p);
      assert [] + Expected(l, n, Callbacks(es)) == Expected(l, n, Callbacks(es));
    }
  }
}
