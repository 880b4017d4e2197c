/** The worklist of tools/gen_profile.py that visits every call after its children, and the totals and folds it
    builds in place. */
module ProfileBuild {
  import opened Collections
  import opened Profile

  // ---- the order of the visits ----

  /** Every child stands before its parent. */
  ghost predicate ChildrenFirst(xs: seq<Stack>) {
    forall i, j :: 0 <= i < |xs| && 0 <= j < |xs| && xs[i] != [] && Parent(xs[i]) == xs[j] ==> i < j
  }

  lemma NoDupAppend(xs: seq<Stack>, ys: seq<Stack>)
    requires NoDup(xs) && NoDup(ys) && forall y :: y in ys ==> y !in xs
    ensures NoDup(xs + ys)
  {
    forall i, j | 0 <= i < j < |xs + ys|
      ensures (xs + ys)[i] != (xs + ys)[j]
    {
      if i < |xs| <= j {
        assert (xs + ys)[j] in ys && (xs + ys)[i] in xs;
      }
    }
  }

  /** The elements of a set in some order. */
  method Listed(xs: set<Stack>) returns (r: seq<Stack>)
    ensures NoDup(r) && forall x :: x in r <==> x in xs
  {
    r := [];
    var left := xs;
    while left != {}
      invariant left <= xs && NoDup(r)
      invariant forall x :: x in r <==> x in xs - left
      decreases |left|
    {
      var x :| x in left;
      NoDupAppend(r, [x]);
      r := r + [x];
      left := left - {x};
    }
  }

  /** What the two queues of the worklist satisfy between visits. */
  ghost predicate Visiting(calls: set<Stack>, ordered: seq<Stack>, tovisit: seq<Stack>) {
    && NoDup(ordered) && NoDup(tovisit) && ChildrenFirst(ordered)
    && (forall x :: x in tovisit ==> x !in ordered)
    && (forall x :: x in ordered || x in tovisit ==> x in calls && (x in Roots(calls) || Parent(x) in ordered))
    && (forall x :: x in calls && x !in ordered && x !in tovisit ==> x !in Roots(calls) && Parent(x) !in ordered)
  }

  lemma {:induction false} AllVisited(calls: set<Stack>, ordered: seq<Stack>, x: Stack)
    requires Visiting(calls, ordered, []) && x in calls
    ensures x in ordered
    decreases |x|
  {
    if x !in Roots(calls) {
      AllVisited(calls, ordered, Parent(x));
    }
  }

  lemma VisitKeeps(calls: set<Stack>, ordered: seq<Stack>, tovisit: seq<Stack>, x: Stack, kids: seq<Stack>)
    requires Visiting(calls, ordered, tovisit + [x])
    requires NoDup(kids) && forall c :: c in kids <==> c in Children(calls, x)
    ensures Visiting(calls, [x] + ordered, tovisit + kids)
    ensures x in calls && x !in ordered
  {
    NoDupSnoc(tovisit, x);
    var old' := tovisit + [x];
    assert x in old' && forall y :: y in old' <==> y in tovisit || y == x;
    var ordered' := [x] + ordered;
    assert forall y :: y in ordered' <==> y == x || y in ordered;
    assert forall y :: y in tovisit + kids <==> y in tovisit || y in kids;
    forall c | c in kids
      ensures c !in ordered' && c !in tovisit && c !in Roots(calls)
    {
      assert |Parent(c)| < |c|;
    }
    NoDupAppend([x], ordered);
    NoDupAppend(tovisit, kids);
    forall i, j | 0 <= i < |ordered'| && 0 <= j < |ordered'| && ordered'[i] != [] && Parent(ordered'[i]) == ordered'[j]
      ensures i < j
    {
      var c := ordered'[i];
      assert |Parent(c)| < |c|;
      assert j == 0 && i > 0 ==> c in ordered && c in Children(calls, x);
    }
  }

  /** The worklist of Profile.__init__: every call once, children before parents. */
  method VisitOrder(calls: set<Stack>) returns (ordered: seq<Stack>)
    ensures NoDup(ordered) && ChildrenFirst(ordered)
    ensures forall x :: x in ordered <==> x in calls
  {
    ordered := [];
    var tovisit := Listed(Roots(calls));
    ghost var left := calls;
    while tovisit != []
      invariant Visiting(calls, ordered, tovisit)
      invariant left <= calls && forall x :: x in left <==> x in calls && x !in ordered
      decreases |left|
    {
      var x := tovisit[|tovisit| - 1];
      var kids := Listed(Children(calls, x));
      assert tovisit == tovisit[..|tovisit| - 1] + [x];
      VisitKeeps(calls, ordered, tovisit[..|tovisit| - 1], x, kids);
      ordered := [x] + ordered;
      tovisit := tovisit[..|tovisit| - 1] + kids;
      left := left - {x};
    }
    forall x | x in calls
      ensures x in ordered
    {
      AllVisited(calls, ordered, x);
    }
  }

  // ---- totals and folds ----

  function Get(d: Data, k: string): int {
    if k in d then d[k] else 0
  }

  /** prof.totals[k] = prof.totals.get(k, 0) + v */
  function Accumulate(acc: Data, d: Data): Data {
    map k | k in acc.Keys + d.Keys :: Get(acc, k) + Get(d, k)
  }

  /** self.total[k] += v for every counter of a child. */
  function AddAll(acc: Data, d: Data): Data {
    map k | k in acc :: acc[k] + Get(d, k)
  }

  /** self.data[k] += v for every counter but the number of calls. */
  function AddFolded(acc: Data, d: Data): Data {
    map k | k in acc :: if k == CALLS then acc[k] else acc[k] + Get(d, k)
  }

  /** Processed calls whose data are not contained in another processed call's: the unfolded ones, and the folded ones
      that have no processed parent. */
  ghost function Exposed(processed: set<Stack>, folds: set<Stack>): set<Stack> {
    set s | s in processed && (s !in folds || s == [] || Parent(s) !in processed)
  }

  /** The tables of the profile while it is being built. */
  datatype Tables = Tables(data: Table, total: Table, kids: map<Stack, set<Stack>>, folded: set<Stack>, totals: Data)

  /** Visited calls have what is shown below them for children, the others the calls made from them. */
  ghost predicate Kinship(calls: set<Stack>, folds: set<Stack>, processed: set<Stack>, kids: map<Stack, set<Stack>>) {
    && processed <= calls && kids.Keys == calls
    && (forall s :: s in processed ==> Children(calls, s) <= processed && kids[s] == Shown(calls, folds, s))
    && (forall s :: s in calls && s !in processed ==> kids[s] == Children(calls, s))
  }

  ghost predicate Untouched(orig: Table, calls: set<Stack>, processed: set<Stack>, data: Table) {
    forall s :: s in calls && s !in processed && s in data && s in orig ==> data[s] == orig[s]
  }

  ghost predicate WellKept(orig: Table, calls: set<Stack>, folds: set<Stack>,
                           processed: set<Stack>, p: Tables)
  {
    && KeysAs(orig, calls, p.data) && KeysAs(orig, processed, p.total)
    && (forall s :: s in processed && s in calls ==> NestedAt(orig, calls, s))
    && p.folded == folds * processed
    && Kinship(calls, folds, processed, p.kids)
    && Untouched(orig, calls, processed, p.data)
  }

  ghost predicate TotalsAdd(orig: Table, calls: set<Stack>, processed: set<Stack>, total: Table, totals: Data,
                            k: string)
  {
    && (forall s :: s in processed ==> At(total, s, k) == Sum(Subtree(calls, s), orig, k))
    && Get(totals, k) == Sum(processed, orig, k)
  }

  ghost predicate FoldsMove(orig: Table, calls: set<Stack>, folds: set<Stack>, processed: set<Stack>, data: Table,
                            k: string)
  {
    if k == CALLS then forall s :: s in calls ==> At(data, s, k) == At(orig, s, k)
    else Sum(Exposed(processed, folds), data, k) == Sum(processed, orig, k)
  }

  /** For one counter: totals are subtree sums, the grand total is the sum of the original data, and folding has only
      moved data from folded calls to their parents. */
  ghost predicate Adds(orig: Table, calls: set<Stack>, folds: set<Stack>, processed: set<Stack>, p: Tables, k: string) {
    TotalsAdd(orig, calls, processed, p.total, p.totals, k) && FoldsMove(orig, calls, folds, processed, p.data, k)
  }

  /** The children of a visited call: the unfolded ones of `cs`, and those of the folded ones. */
  ghost function Regrouped(cs: set<Stack>, folded: set<Stack>, kids: map<Stack, set<Stack>>): set<Stack>
    requires cs * folded <= kids.Keys
  {
    (cs - folded) + set c, g | c in cs * folded && g in kids[c] :: g
  }

  ghost predicate TotalBuilt(cs: set<Stack>, own: Data, total: Table, t: Data) {
    t.Keys == own.Keys && forall k :: k in t ==> t[k] == own[k] + Sum(cs, total, k)
  }

  ghost predicate DataBuilt(cs: set<Stack>, own: Data, data: Table, d: Data) {
    d.Keys == own.Keys && forall k :: k in d ==> d[k] == if k == CALLS then own[k] else own[k] + Sum(cs, data, k)
  }

  ghost function Store(s: Stack, p: Tables, folds: set<Stack>, t: Data, d: Data, ks: set<Stack>): Tables
    requires s in p.data
  {
    Tables(p.data[s := d], p.total[s := t], p.kids[s := ks], if s in folds then p.folded + {s} else p.folded,
           Accumulate(p.totals, p.data[s]))
  }

  /** A call can be visited when its children have been. */
  ghost predicate Ready(calls: set<Stack>, processed: set<Stack>, s: Stack) {
    s in calls && s !in processed && Children(calls, s) <= processed
  }

  lemma RegroupedShown(calls: set<Stack>, folds: set<Stack>, processed: set<Stack>, folded: set<Stack>,
                       kids: map<Stack, set<Stack>>, s: Stack)
    requires Kinship(calls, folds, processed, kids) && Ready(calls, processed, s) && folded == folds * processed
    ensures Regrouped(Children(calls, s), folded, kids) == Shown(calls, folds, s)
  {
    hide Shown, Children;
    var cs := Children(calls, s);
    ShownSplits(calls, folds, s);
    assert cs * folded == cs * folds && cs - folded == cs - folds;
    assert (set c, g | c in cs * folded && g in kids[c] :: g) == ShownUnder(calls, folds, cs * folds);
  }

  lemma KinshipKept(calls: set<Stack>, folds: set<Stack>, processed: set<Stack>, kids: map<Stack, set<Stack>>, s: Stack,
                    ks: set<Stack>)
    requires Kinship(calls, folds, processed, kids) && Ready(calls, processed, s) && ks == Shown(calls, folds, s)
    ensures Kinship(calls, folds, processed + {s}, kids[s := ks])
  {
    hide Shown, Children;
  }

  lemma KeysThere(orig: Table, calls: set<Stack>, table: Table)
    requires KeysAs(orig, calls, table)
    ensures calls <= orig.Keys && calls <= table.Keys
  {
  }

  lemma KeysKept(orig: Table, calls: set<Stack>, table: Table, s: Stack, d: Data)
    requires KeysAs(orig, calls, table) && s in orig && d.Keys == orig[s].Keys
    ensures KeysAs(orig, calls + {s}, table[s := d])
  {
  }

  lemma StoreKept(orig: Table, calls: set<Stack>, folds: set<Stack>, processed: set<Stack>, p: Tables, s: Stack,
                  t: Data, d: Data, ks: set<Stack>)
    requires WellKept(orig, calls, folds, processed, p) && Ready(calls, processed, s) && s in p.data
    requires t.Keys == orig[s].Keys && d.Keys == orig[s].Keys && ks == Shown(calls, folds, s)
    requires NestedAt(orig, calls, s)
    ensures WellKept(orig, calls, folds, processed + {s}, Store(s, p, folds, t, d, ks))
  {
    hide Shown, Children, Accumulate, Kinship, NestedAt, KeysAs;
    assert calls <= orig.Keys && calls <= p.data.Keys by { KeysThere(orig, calls, p.data); }
    KinshipKept(calls, folds, processed, p.kids, s, ks);
    KeysKept(orig, calls, p.data, s, d);
    KeysKept(orig, processed, p.total, s, t);
    assert calls + {s} == calls;
  }

  /** The counters of some visited children are all counters of the call. */
  ghost predicate Within(cs: set<Stack>, own: Data, table: Table) {
    cs <= table.Keys && forall c :: c in cs ==> table[c].Keys <= own.Keys
  }

  lemma AbsentSum(cs: set<Stack>, own: Data, table: Table, k: string)
    requires Within(cs, own, table) && k !in own
    ensures Sum(cs, table, k) == 0
  {
    hide Sum;
    SumZero(cs, table, k);
  }

  lemma TotalsKept(orig: Table, calls: set<Stack>, processed: set<Stack>, total: Table, totals: Data, s: Stack, t: Data,
                   own: Data, k: string)
    requires Ready(calls, processed, s) && TotalsAdd(orig, calls, processed, total, totals, k)
    requires s in orig && own == orig[s] && TotalBuilt(Children(calls, s), own, total, t)
    requires Within(Children(calls, s), own, total)
    ensures TotalsAdd(orig, calls, processed + {s}, total[s := t], Accumulate(totals, own), k)
  {
    hide Sum, Subtree, Children, Within;
    TotalFromChildren(calls, s, orig, total, k);
    SumWith(processed, s, orig, k);
    if k !in own {
      AbsentSum(Children(calls, s), own, total, k);
    }
  }

  lemma FoldsKept(orig: Table, calls: set<Stack>, folds: set<Stack>, processed: set<Stack>, p: Tables, s: Stack,
                  d: Data, k: string)
    requires Ready(calls, processed, s) && FoldsMove(orig, calls, folds, processed, p.data, k) && processed <= calls
    requires forall x :: x in processed ==> Children(calls, x) <= processed
    requires s in orig && DataBuilt(Children(calls, s) * folds, orig[s], p.data, d)
    requires Within(Children(calls, s) * folds, orig[s], p.data)
    ensures FoldsMove(orig, calls, folds, processed + {s}, p.data[s := d], k)
  {
    hide Sum, Children, Exposed, Within;
    if k != CALLS {
      if k !in orig[s] {
        AbsentSum(Children(calls, s) * folds, orig[s], p.data, k);
      }
      ExposedAdds(orig, calls, folds, processed, p, s, p.data[s := d], k);
    }
  }

  lemma StoreAdds(orig: Table, calls: set<Stack>, folds: set<Stack>, processed: set<Stack>, p: Tables, s: Stack,
                  t: Data, d: Data, ks: set<Stack>, k: string)
    requires WellKept(orig, calls, folds, processed, p) && Ready(calls, processed, s) && s in p.data
    requires NestedAt(orig, calls, s) && Adds(orig, calls, folds, processed, p, k)
    requires TotalBuilt(Children(calls, s), p.data[s], p.total, t)
    requires DataBuilt(Children(calls, s) * p.folded, p.data[s], p.data, d)
    ensures Adds(orig, calls, folds, processed + {s}, Store(s, p, folds, t, d, ks), k)
  {
    hide Shown, Sum, Subtree, Children, Accumulate, Exposed, TotalsAdd, FoldsMove, TotalBuilt, DataBuilt;
    assert Children(calls, s) * p.folded == Children(calls, s) * folds;
    assert p.data[s] == orig[s];
    TotalsKept(orig, calls, processed, p.total, p.totals, s, t, p.data[s], k);
    FoldsKept(orig, calls, folds, processed, p, s, d, k);
  }

  /** A visit moves the data of the folded children into the call, and exposes the call. */
  lemma ExposedAdds(orig: Table, calls: set<Stack>, folds: set<Stack>, processed: set<Stack>, p: Tables, s: Stack,
                    data': Table, k: string)
    requires processed <= calls && s in calls && s !in processed && Children(calls, s) <= processed
    requires forall x :: x in processed ==> Children(calls, x) <= processed
    requires Sum(Exposed(processed, folds), p.data, k) == Sum(processed, orig, k)
    requires forall x :: x in processed ==> At(data', x, k) == At(p.data, x, k)
    requires At(data', s, k) == At(orig, s, k) + Sum(Children(calls, s) * folds, p.data, k)
    ensures Sum(Exposed(processed + {s}, folds), data', k) == Sum(processed + {s}, orig, k)
  {
    hide Sum, At;
    var before, moved := Exposed(processed, folds), Children(calls, s) * folds;
    var kept := before - moved;
    assert s != [] && Parent(s) in processed ==> s in Children(calls, Parent(s));
    assert Exposed(processed + {s}, folds) == kept + {s};
    assert before == kept + moved;
    SumDisjoint(kept, moved, p.data, k);
    SumSame(kept, data', p.data, k);
    SumWith(kept, s, data', k);
    SumWith(processed, s, orig, k);
  }

  // ---- reading the trace ----

  /** One line of the trace: the stack and the counters. */
  datatype Line = Line(stack: Stack, data: Data)

  ghost function LineSum(lines: seq<Line>, k: string): int {
    if lines == [] then 0 else LineSum(lines[..|lines| - 1], k) + Get(lines[|lines| - 1].data, k)
  }

  /** A line adds its counters to its call, or makes a new call. */
  lemma LineAdds(calls: Table, l: Line, k: string)
    ensures var own := if l.stack in calls then Accumulate(calls[l.stack], l.data) else l.data;
            Sum(calls.Keys + {l.stack}, calls[l.stack := own], k) == Sum(calls.Keys, calls, k) + Get(l.data, k)
  {
    hide Sum;
    var own := if l.stack in calls then Accumulate(calls[l.stack], l.data) else l.data;
    var rest := calls.Keys - {l.stack};
    assert rest + {l.stack} == calls.Keys + {l.stack};
    SumWith(rest, l.stack, calls[l.stack := own], k);
    SumSame(rest, calls[l.stack := own], calls, k);
    if l.stack in calls {
      SumWith(rest, l.stack, calls, k);
      assert rest + {l.stack} == calls.Keys;
    } else {
      assert rest == calls.Keys;
    }
  }

  ghost predicate Loaded(lines: seq<Line>, calls: Table) {
    && (forall s :: s in calls <==> exists l :: l in lines && l.stack == s)
    && (forall k :: Sum(calls.Keys, calls, k) == LineSum(lines, k))
  }

  /** Lines that all have the same counters give calls that do. */
  ghost predicate UniformFrom(lines: seq<Line>, calls: Table, keys: set<string>) {
    (forall l :: l in lines ==> l.data.Keys == keys) ==> forall s :: s in calls ==> calls[s].Keys == keys
  }

  function AddLine(calls: Table, l: Line): Table {
    calls[l.stack := if l.stack in calls then Accumulate(calls[l.stack], l.data) else l.data]
  }

  lemma LoadedStacks(lines: seq<Line>, calls: Table, l: Line)
    requires forall s :: s in calls <==> exists x :: x in lines && x.stack == s
    ensures forall s :: s in AddLine(calls, l) <==> exists x :: x in lines + [l] && x.stack == s
  {
    hide Accumulate;
    assert l in lines + [l];
    forall s | s in AddLine(calls, l)
      ensures exists x :: x in lines + [l] && x.stack == s
    {
      if s != l.stack {
        var x :| x in lines && x.stack == s;
        assert x in lines + [l];
      }
    }
  }

  lemma LoadedMore(lines: seq<Line>, calls: Table, l: Line)
    requires Loaded(lines, calls)
    ensures Loaded(lines + [l], AddLine(calls, l))
  {
    hide Sum;
    LoadedStacks(lines, calls, l);
    var calls' := AddLine(calls, l);
    assert calls'.Keys == calls.Keys + {l.stack};
    forall k
      ensures Sum(calls'.Keys, calls', k) == LineSum(lines + [l], k)
    {
      LineAdds(calls, l, k);
      assert (lines + [l])[..|lines|] == lines;
    }
  }

  lemma UniformMore(lines: seq<Line>, calls: Table, l: Line, keys: set<string>)
    requires UniformFrom(lines, calls, keys)
    ensures UniformFrom(lines + [l], AddLine(calls, l), keys)
  {
    if forall x :: x in lines + [l] ==> x.data.Keys == keys {
      assert l in lines + [l];
      assert forall x :: x in lines ==> x in lines + [l];
    }
  }

  lemma NothingLoaded()
    ensures Loaded([], map[]) && forall keys :: UniformFrom([], map[], keys)
  {
    SumNothing(map[]);
    var none: Table := map[];
    assert none.Keys == {};
  }

  /** The loop over the lines: one call for every stack, and no counter lost, also where a line lacks some of them. */
  method Load(lines: seq<Line>) returns (calls: Table)
    ensures Loaded(lines, calls) && forall keys :: UniformFrom(lines, calls, keys)
  {
    hide Loaded, UniformFrom;
    calls := map[];
    NothingLoaded();
    for i := 0 to |lines|
      invariant Loaded(lines[..i], calls) && forall keys :: UniformFrom(lines[..i], calls, keys)
    {
      var l := lines[i];
      assert lines[..i + 1] == lines[..i] + [l];
      LoadedMore(lines[..i], calls, l);
      forall keys
        ensures UniformFrom(lines[..i] + [l], AddLine(calls, l), keys)
      {
        UniformMore(lines[..i], calls, l, keys);
      }
      if l.stack in calls {
        calls := calls[l.stack := Accumulate(calls[l.stack], l.data)];
      } else {
        calls := calls[l.stack := l.data];
      }
    }
    assert lines[..|lines|] == lines;
  }

  lemma SumNothing(table: Table)
    ensures forall k :: Sum({}, table, k) == 0
  {
  }

  // ---- the whole profile ----

  /** What holds of the tables once the calls in `processed` have been visited. */
  ghost predicate Sound(orig: Table, calls: set<Stack>, folds: set<Stack>, processed: set<Stack>,
                        p: Tables)
  {
    && WellKept(orig, calls, folds, processed, p)
    && forall k :: Adds(orig, calls, folds, processed, p, k)
  }

  /** What Gather asks for. */
  ghost predicate Gatherable(p: Tables, s: Stack) {
    && s in p.data && s in p.kids && p.kids[s] <= p.total.Keys && p.kids[s] <= p.data.Keys && p.kids[s] <= p.kids.Keys
    && (forall c :: c in p.kids[s] ==> p.data[c].Keys == p.total[c].Keys)
    && (forall c :: c in p.kids[s] * p.folded ==> p.kids[c] !! p.folded)
  }

  lemma ReadyGathers(orig: Table, calls: set<Stack>, folds: set<Stack>, processed: set<Stack>,
                     p: Tables, s: Stack)
    requires WellKept(orig, calls, folds, processed, p) && Ready(calls, processed, s)
    ensures Gatherable(p, s)
  {
    hide Children, Shown, NestedAt;
    FoldedShown(calls, folds, processed, p.folded, p.kids, s);
  }

  /** One visit keeps the tables sound. */
  lemma StoreSound(orig: Table, calls: set<Stack>, folds: set<Stack>, processed: set<Stack>,
                   p: Tables, s: Stack, t: Data, d: Data, ks: set<Stack>)
    requires Sound(orig, calls, folds, processed, p) && Ready(calls, processed, s) && Gatherable(p, s)
    requires TotalBuilt(p.kids[s], p.data[s], p.total, t) && DataBuilt(p.kids[s] * p.folded, p.data[s], p.data, d)
    requires ks == Regrouped(p.kids[s], p.folded, p.kids) && s in orig && calls <= orig.Keys && NestedAt(orig, calls, s)
    ensures Sound(orig, calls, folds, processed + {s}, Store(s, p, folds, t, d, ks))
  {
    hide Sum, Children, Shown, Adds, TotalBuilt, DataBuilt, Regrouped, Accumulate, Kinship, NestedAt;
    FoldedShown(calls, folds, processed, p.folded, p.kids, s);
    RegroupedShown(calls, folds, processed, p.folded, p.kids, s);
    BuiltKeys(p.kids[s], p.data[s], p.total, t, p.data, p.kids[s] * p.folded, d);
    StoreKept(orig, calls, folds, processed, p, s, t, d, ks);
    forall k
      ensures Adds(orig, calls, folds, processed + {s}, Store(s, p, folds, t, d, ks), k)
    {
      StoreAdds(orig, calls, folds, processed, p, s, t, d, ks, k);
    }
  }

  /** A finished profile: totals are subtree sums, the grand total is the sum over all calls, the calls shown
      below a call are the unfolded ones, and no counter but the number of calls is lost or counted twice by folding. */
  ghost predicate Finished(orig: Table, calls: set<Stack>, folds: set<Stack>, p: Tables) {
    && (forall s, k :: s in calls ==> At(p.total, s, k) == Sum(Subtree(calls, s), orig, k))
    && (forall k :: Get(p.totals, k) == Sum(calls, orig, k))
    && (forall k :: k != CALLS ==> Sum(Exposed(calls, folds), p.data, k) == Sum(calls, orig, k))
    && (forall s :: s in calls ==> At(p.data, s, CALLS) == At(orig, s, CALLS))
    && (forall s :: s in calls ==> s in p.kids && p.kids[s] == Shown(calls, folds, s))
  }

  lemma AllDone(orig: Table, calls: set<Stack>, folds: set<Stack>, p: Tables)
    requires Sound(orig, calls, folds, calls, p)
    ensures Finished(orig, calls, folds, p)
  {
    hide Sum, Subtree, Shown, Exposed, At, Adds, Get, KeysAs, NestedAt;
    forall s, k | s in calls
      ensures At(p.total, s, k) == Sum(Subtree(calls, s), orig, k)
    {
      DoneFor(orig, calls, folds, p, k);
    }
    forall k
      ensures Get(p.totals, k) == Sum(calls, orig, k)
    {
      DoneFor(orig, calls, folds, p, k);
    }
    forall k | k != CALLS
      ensures Sum(Exposed(calls, folds), p.data, k) == Sum(calls, orig, k)
    {
      DoneFor(orig, calls, folds, p, k);
    }
    DoneFor(orig, calls, folds, p, CALLS);
  }

  lemma DoneFor(orig: Table, calls: set<Stack>, folds: set<Stack>, p: Tables, k: string)
    requires Adds(orig, calls, folds, calls, p, k)
    ensures forall s :: s in calls ==> At(p.total, s, k) == Sum(Subtree(calls, s), orig, k)
    ensures Get(p.totals, k) == Sum(calls, orig, k)
    ensures k != CALLS ==> Sum(Exposed(calls, folds), p.data, k) == Sum(calls, orig, k)
    ensures k == CALLS ==> forall s :: s in calls ==> At(p.data, s, k) == At(orig, s, k)
  {
    hide Sum, Subtree, Exposed, At, Get;
  }

  class Profiler {
    const orig: Table
    const calls: set<Stack>
    const folds: set<Stack>   // the calls named '.plt', which foldCall folds
    var data: Table
    var total: Table
    var kids: map<Stack, set<Stack>>
    var folded: set<Stack>
    var totals: Data
    ghost var processed: set<Stack>

    ghost function View(): Tables
      reads this
    {
      Tables(data, total, kids, folded, totals)
    }

    ghost predicate Valid()
      reads this
    {
      Sound(orig, calls, folds, processed, View())
    }

    constructor (orig: Table, folds: set<Stack>)
      ensures Valid() && processed == {} && calls == orig.Keys && this.orig == orig && this.folds == folds
    {
      this.orig, this.calls, this.folds := orig, orig.Keys, folds;
      data, total, folded, totals := orig, map[], {}, map[];
      kids := map s | s in orig :: Children(orig.Keys, s);
      processed := {};
      new;
      assert Exposed({}, folds) == {};
    }

    /** The sums and the children that one visit of `s` computes; false is a KeyError, for a counter of a child that the
        call does not have. */
    method Gather(s: Stack) returns (ok: bool, t: Data, d: Data, ks: set<Stack>)
      requires Gatherable(View(), s)
      ensures ok <==> forall c :: c in kids[s] ==> total[c].Keys <= data[s].Keys
      ensures ok ==> TotalBuilt(kids[s], data[s], total, t)
      ensures ok ==> DataBuilt(kids[s] * folded, data[s], data, d)
      ensures ok ==> ks == Regrouped(kids[s], folded, kids)
    {
      hide Gatherable, Gathered, AddAll, AddFolded, TotalBuilt, DataBuilt, Regrouped;
      ghost var p := View();
      NothingGathered(p, s);
      var left := kids[s];
      ok, t, d, ks := true, data[s], data[s], kids[s];
      while left != {}
        invariant left <= p.kids[s] && Gathered(p, s, p.kids[s] - left, t, d, ks)
        decreases |left|
      {
        var c :| c in left;
        GatherStep(p, s, p.kids[s] - left, t, d, ks, c);
        if !(total[c].Keys <= t.Keys) {
          return false, t, d, ks;
        }
        GatherMore(p, s, p.kids[s] - left, t, d, ks, c);
        t := AddAll(t, total[c]);
        if c in folded {
          d := AddFolded(d, data[c]);
          ks := ks - {c} + kids[c];
        }
        assert p.kids[s] - (left - {c}) == p.kids[s] - left + {c};
        left := left - {c};
      }
      assert p.kids[s] - left == p.kids[s];
      AllGathered(p, s, t, d, ks);
    }

    /** Call.buildTotal; false is a KeyError. */
    method BuildTotal(s: Stack) returns (ok: bool)
      requires Valid() && Ready(calls, processed, s)
      modifies this
      ensures calls <= orig.Keys && s in calls && (ok <==> NestedAt(orig, calls, s))
      ensures ok ==> Valid() && processed == old(processed) + {s}
    {
      hide Ready, WellKept, Adds, TotalBuilt, DataBuilt, Regrouped, Accumulate, NestedAt;
      ghost var p := View();
      ReadyGathers(orig, calls, folds, processed, p, s);
      ReadyNested(orig, calls, folds, processed, p, s);
      var t, d, ks;
      ok, t, d, ks := Gather(s);
      if !ok {
        return;
      }
      StoreSound(orig, calls, folds, processed, p, s, t, d, ks);
      totals := Accumulate(totals, data[s]);
      total := total[s := t];
      data := data[s := d];
      kids := kids[s := ks];
      if s in folds {
        folded := folded + {s};
      }
      processed := processed + {s};
      assert View() == Store(s, p, folds, t, d, ks);
    }

    /** The tail of Profile.__init__: every call is visited, children first. It gets to its end if and only if every
        call has all counters of the calls made from it. */
    method BuildAll() returns (ok: bool)
      requires Valid() && processed == {}
      modifies this
      ensures ok <==> forall s :: s in calls ==> s in orig && calls <= orig.Keys && NestedAt(orig, calls, s)
      ensures ok ==> Valid() && processed == calls && Finished(orig, calls, folds, View())
    {
      hide Sound, Finished, NestedAt;
      var ordered := VisitOrder(calls);
      for i := 0 to |ordered|
        invariant Valid() && processed == set x | x in ordered[..i]
        invariant forall x :: x in processed ==>
                    x in orig && calls <= orig.Keys && x in calls && NestedAt(orig, calls, x)
      {
        ReadyAt(calls, ordered, i);
        ok := BuildTotal(ordered[i]);
        if !ok {
          return;
        }
        assert ordered[..i + 1] == ordered[..i] + [ordered[i]];
      }
      ok := true;
      assert ordered[..|ordered|] == ordered && processed == calls;
      AllDone(orig, calls, folds, View());
    }
  }

  /** At a call that is ready, the counters of its children are those they started with. */
  lemma ReadyNested(orig: Table, calls: set<Stack>, folds: set<Stack>, processed: set<Stack>, p: Tables, s: Stack)
    requires WellKept(orig, calls, folds, processed, p) && Ready(calls, processed, s) && Gatherable(p, s)
    ensures calls <= orig.Keys && s in calls
    ensures NestedAt(orig, calls, s) <==> forall c :: c in p.kids[s] ==> p.total[c].Keys <= p.data[s].Keys
  {
    hide Children, Shown;
    FoldedShown(calls, folds, processed, p.folded, p.kids, s);
  }

  /** From the lines of the trace to the finished profile: the grand total of every counter is the sum over the
      lines, and so is the sum over the unfolded calls and the folded ones without a caller, but for the number of
      calls. */
  method BuildProfile(lines: seq<Line>, folds: set<Stack>) returns (ok: bool, prof: Profiler)
    ensures fresh(prof) && Loaded(lines, prof.orig) && prof.calls == prof.orig.Keys && prof.folds == folds
    ensures ok <==> forall s :: s in prof.calls ==> NestedAt(prof.orig, prof.calls, s)
    ensures ok ==> Finished(prof.orig, prof.calls, folds, prof.View())
    ensures ok ==> forall k :: Get(prof.totals, k) == LineSum(lines, k)
    ensures ok ==> forall k :: k != CALLS ==> Sum(Exposed(prof.calls, folds), prof.data, k) == LineSum(lines, k)
  {
    hide NestedAt, Sum, LineSum, Exposed, Shown, Subtree, At, Sound;
    var calls := Load(lines);
    prof := new Profiler(calls, folds);
    ok := prof.BuildAll();
  }

  lemma BuiltKeys(cs: set<Stack>, own: Data, total: Table, t: Data, data: Table, moved: set<Stack>, d: Data)
    requires TotalBuilt(cs, own, total, t) && DataBuilt(moved, own, data, d)
    ensures t.Keys == own.Keys && d.Keys == own.Keys
  {
  }

  lemma TotalMore(done: set<Stack>, own: Data, total: Table, t: Data, c: Stack)
    requires TotalBuilt(done, own, total, t) && c !in done && c in total
    ensures TotalBuilt(done + {c}, own, total, AddAll(t, total[c]))
  {
    hide Sum;
    forall k | k in t
      ensures AddAll(t, total[c])[k] == own[k] + Sum(done + {c}, total, k)
    {
      SumWith(done, c, total, k);
    }
  }

  lemma DataMore(done: set<Stack>, own: Data, data: Table, d: Data, c: Stack)
    requires DataBuilt(done, own, data, d) && c !in done && c in data
    ensures DataBuilt(done + {c}, own, data, AddFolded(d, data[c]))
  {
    hide Sum;
    forall k | k in d && k != CALLS
      ensures AddFolded(d, data[c])[k] == own[k] + Sum(done + {c}, data, k)
    {
      SumWith(done, c, data, k);
    }
  }

  /** A folded child makes way for its own children. */
  lemma KidsMore(cs: set<Stack>, folded: set<Stack>, moved: set<Stack>, kids: map<Stack, set<Stack>>, c: Stack)
    requires c in cs && c in folded && c !in moved && moved <= cs * folded && cs <= kids.Keys
    requires forall x :: x in cs * folded ==> kids[x] !! folded
    ensures Regrouped(cs, moved, kids) - {c} + kids[c] == Regrouped(cs, moved + {c}, kids)
  {
    var taken := set x, g | x in cs * moved && g in kids[x] :: g;
    var taken' := set x, g | x in cs * (moved + {c}) && g in kids[x] :: g;
    assert c !in taken;
    assert taken' == taken + kids[c];
  }

  lemma RegroupedWithin(cs: set<Stack>, folded: set<Stack>, kids: map<Stack, set<Stack>>)
    requires cs * folded <= kids.Keys
    ensures Regrouped(cs, cs * folded, kids) == Regrouped(cs, folded, kids)
  {
    assert cs * (cs * folded) == cs * folded && cs - cs * folded == cs - folded;
  }

  /** What the loop over the children of `s` has computed when it has seen `done`. */
  ghost predicate Gathered(p: Tables, s: Stack, done: set<Stack>, t: Data, d: Data, ks: set<Stack>)
    requires Gatherable(p, s) && done <= p.kids[s]
  {
    && (forall c :: c in done ==> p.total[c].Keys <= p.data[s].Keys)
    && TotalBuilt(done, p.data[s], p.total, t) && DataBuilt(done * p.folded, p.data[s], p.data, d)
    && ks == Regrouped(p.kids[s], done * p.folded, p.kids)
  }

  lemma NothingGathered(p: Tables, s: Stack)
    requires Gatherable(p, s)
    ensures s in p.data && s in p.kids && Gathered(p, s, p.kids[s] - p.kids[s], p.data[s], p.data[s], p.kids[s])
  {
    assert p.kids[s] - p.kids[s] == {} && {} * p.folded == {};
  }

  /** The next child can be looked up, and the total still has the counters of the call. */
  lemma GatherStep(p: Tables, s: Stack, done: set<Stack>, t: Data, d: Data, ks: set<Stack>, c: Stack)
    requires Gatherable(p, s) && done <= p.kids[s] && Gathered(p, s, done, t, d, ks) && c in p.kids[s]
    ensures s in p.data && t.Keys == p.data[s].Keys && c in p.total && c in p.data && c in p.kids
  {
  }

  lemma GatherMore(p: Tables, s: Stack, done: set<Stack>, t: Data, d: Data, ks: set<Stack>, c: Stack)
    requires Gatherable(p, s) && done <= p.kids[s] && Gathered(p, s, done, t, d, ks) && c in p.kids[s] && c !in done
    requires p.total[c].Keys <= p.data[s].Keys
    ensures Gathered(p, s, done + {c}, AddAll(t, p.total[c]), if c in p.folded then AddFolded(d, p.data[c]) else d,
                     if c in p.folded then ks - {c} + p.kids[c] else ks)
  {
    hide Sum, TotalBuilt, DataBuilt, Regrouped, AddAll, AddFolded;
    TotalMore(done, p.data[s], p.total, t, c);
    if c in p.folded {
      DataMore(done * p.folded, p.data[s], p.data, d, c);
      KidsMore(p.kids[s], p.folded, done * p.folded, p.kids, c);
      assert (done + {c}) * p.folded == done * p.folded + {c};
    } else {
      assert (done + {c}) * p.folded == done * p.folded;
    }
  }

  lemma AllGathered(p: Tables, s: Stack, t: Data, d: Data, ks: set<Stack>)
    requires Gatherable(p, s) && Gathered(p, s, p.kids[s], t, d, ks)
    ensures s in p.data && s in p.kids && p.kids[s] * p.folded <= p.kids.Keys && p.kids[s] <= p.total.Keys
    ensures forall c :: c in p.kids[s] ==> p.total[c].Keys <= p.data[s].Keys
    ensures TotalBuilt(p.kids[s], p.data[s], p.total, t) && DataBuilt(p.kids[s] * p.folded, p.data[s], p.data, d)
    ensures ks == Regrouped(p.kids[s], p.folded, p.kids)
  {
    hide Sum, TotalBuilt, DataBuilt, Regrouped;
    RegroupedWithin(p.kids[s], p.folded, p.kids);
  }

  /** No folded call is shown below another one. */
  lemma FoldedShown(calls: set<Stack>, folds: set<Stack>, processed: set<Stack>, folded: set<Stack>,
                    kids: map<Stack, set<Stack>>, s: Stack)
    requires Kinship(calls, folds, processed, kids) && Ready(calls, processed, s) && folded == folds * processed
    ensures kids[s] == Children(calls, s) && kids[s] <= processed
    ensures forall c :: c in kids[s] * folded ==> kids[c] !! folded
  {
    hide Children, Via;
  }

  lemma ReadyAt(calls: set<Stack>, ordered: seq<Stack>, i: nat)
    requires NoDup(ordered) && ChildrenFirst(ordered) && (forall x :: x in ordered <==> x in calls) && i < |ordered|
    ensures Ready(calls, (set x | x in ordered[..i]), ordered[i])
  {
    assert ordered[i] in ordered;
    forall c | c in Children(calls, ordered[i])
      ensures c in ordered[..i]
    {
      assert c in ordered;
      var j :| 0 <= j < |ordered| && ordered[j] == c;
      assert j < i;
      assert ordered[..i][j] == c;
    }
  }
}
