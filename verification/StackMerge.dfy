/** merge_items over the values of every core, and the tables that cpistack_results.py shows from it. */
module StackMerge {
  import opened Collections
  import opened Stack
  import opened StackLabels

  const OTHER := "other"

  datatype Core = Core(id: int)
  datatype Merged = Merged(res: seq<Entry>, total: real, other: real, scale: real)

  /** What merge_items reports for one core. */
  ghost function Merge(items: seq<Item>, values: Values, nocollapse: bool): Merged {
    var scale := Scale(Amount(values));
    var w := Walk("", items, values, scale, nocollapse);
    var other := w.other + Amount(w.values);
    Merged(if other != 0.0 then w.res + [Entry(OTHER, other)] else w.res, w.total, other, scale)
  }

  /** The reported components sum to the original values, whatever the tree, the thresholds and the collapsing. */
  lemma MergeConserves(items: seq<Item>, values: Values, nocollapse: bool)
    ensures var m := Merge(items, values, nocollapse);
            Shown(m.res) == Amount(values) && m.total == Amount(values) - Amount(Unlisted(items, values))
  {
    hide Walk, Shown, Amount;
    var scale := Scale(Amount(values));
    var w := Walk("", items, values, scale, nocollapse);
    WalkBalances("", items, values, scale, nocollapse);
    WalkTakes("", items, values, scale, nocollapse);
    var other := w.other + Amount(w.values);
    ShownConcat(w.res, [Entry(OTHER, other)]);
    ShownOne(Entry(OTHER, other));
  }

  lemma ShownOne(e: Entry)
    ensures Shown([e]) == e.value
  {
    assert [e][..0] == [];
  }

  method AddUp(values: Values) returns (sum: real)
    ensures sum == Amount(values)
  {
    sum := 0.0;
    var left := values;
    while left.Keys != {}
      invariant sum + Amount(left) == Amount(values)
      decreases |left.Keys|
    {
      var k :| k in left.Keys;
      AmountWithout(left, k);
      assert (left - {k}).Keys == left.Keys - {k};
      sum, left := sum + left[k], left - {k};
    }
  }

  /** The counters that no component lists. */
  function Unlisted(items: seq<Item>, values: Values): Values {
    values - Listed(items)
  }

  /** The cores outside `left` have been merged, those in `left` are as they were. */
  ghost predicate MergedBut(items: seq<Item>, nocollapse: bool, was: map<Core, Values>, data: map<Core, Values>,
                            results: map<Core, Merged>, left: set<Core>)
  {
    && results.Keys == was.Keys - left && left <= data.Keys == was.Keys
    && (forall core :: core in left ==> data[core] == was[core])
    && (forall core :: core in results ==> results[core] == Merge(items, was[core], nocollapse))
    && (forall core :: core in results ==> data[core] == Unlisted(items, was[core]))
  }

  lemma MergedMore(items: seq<Item>, nocollapse: bool, was: map<Core, Values>, data: map<Core, Values>,
                   results: map<Core, Merged>, left: set<Core>, core: Core)
    requires MergedBut(items, nocollapse, was, data, results, left) && core in left
    ensures MergedBut(items, nocollapse, was, data[core := Unlisted(items, data[core])],
                      results[core := Merge(items, data[core], nocollapse)], left - {core})
  {
    hide Merge, Unlisted;
  }

  class Merger {
    var data: map<Core, Values>

    constructor (data: map<Core, Values>)
      ensures this.data == data
    {
      this.data := data;
    }

    /** One leaf: its counters are added up and deleted. */
    method TakeKeys(core: Core, keys: seq<string>) returns (value: real)
      requires core in data
      modifies this
      ensures core in data && value == Taken(keys, old(data[core]))
      ensures data == old(data)[core := old(data[core]) - KeySet(keys)]
    {
      value := 0.0;
      ghost var values := data[core];
      assert KeySet(keys[..0]) == {} && values - {} == values && data == data[core := values];
      for i := 0 to |keys|
        invariant core in data && data == old(data)[core := values - KeySet(keys[..i])]
        invariant value + Taken(keys[i..], data[core]) == Taken(keys, values)
      {
        var key := keys[i];
        assert keys[i..][1..] == keys[i + 1..];
        assert KeySet(keys[..i + 1]) == KeySet(keys[..i]) + {key};
        ghost var left := data[core];
        if key in data[core] {
          value := value + data[core][key];
          data := data[core := data[core] - {key}];
        } else {
          assert left - {key} == left;
        }
        assert data[core] == left - {key} == values - KeySet(keys[..i + 1]);
      }
      assert keys[..|keys|] == keys;
    }

    method GetItems(core: Core, prefix: string, items: seq<Item>, scale: real, nocollapse: bool)
      returns (res: seq<Entry>, total: real, other: real)
      requires core in data && scale != 0.0
      modifies this
      ensures core in data && data == old(data)[core := data[core]]
      ensures Walked(res, total, other, data[core]) == Walk(prefix, items, old(data[core]), scale, nocollapse)
      decreases items
    {
      hide Taken, KeySet;
      res, total, other := [], 0.0, 0.0;
      for i := 0 to |items|
        invariant core in data && data == old(data)[core := data[core]]
        invariant Walked(res, total, other, data[core]) == Walk(prefix, items[..i], old(data[core]), scale, nocollapse)
      {
        assert items[..i + 1] == items[..i] + [items[i]];
        match items[i] {
          case Group(name, threshold, sub) =>
            WalkGroup(prefix, items[..i], name, threshold, sub, old(data[core]), scale, nocollapse);
            var subRes, subTotal, subOther := GetItems(core, prefix + name + "-", sub, scale, nocollapse);
            total := total + subTotal;
            if subTotal / scale <= threshold && !nocollapse {
              other := other + subTotal;
            } else if subRes == [] && !nocollapse {
              res := res + [Entry(prefix + name, subTotal)];
            } else {
              res := res + subRes;
              other := other + subOther;
            }
          case Leaf(name, threshold, keys) =>
            WalkLeaf(prefix, items[..i], name, threshold, keys, old(data[core]), scale, nocollapse);
            var value := TakeKeys(core, keys);
            total := total + value;
            if value / scale <= threshold && !nocollapse {
              other := other + value;
            } else {
              res := res + [Entry(prefix + name, value)];
            }
        }
      }
      assert items[..|items|] == items;
    }

    method MergeCore(core: Core, items: seq<Item>, nocollapse: bool) returns (m: Merged)
      requires core in data
      modifies this
      ensures core in data && m == Merge(items, old(data[core]), nocollapse)
      ensures data == old(data)[core := Unlisted(items, old(data[core]))]
    {
      hide Walk, Listed, Amount;
      ghost var values := data[core];
      var sum := AddUp(data[core]);
      var scale := Scale(sum);
      var res, total, other := GetItems(core, "", items, scale, nocollapse);
      WalkTakes("", items, values, scale, nocollapse);
      var rest := AddUp(data[core]);
      other := other + rest;
      if other != 0.0 {
        res := res + [Entry(OTHER, other)];
      }
      m := Merged(res, total, other, scale);
    }

    /** Every core is merged on its own; what is left of its values are the counters that no component lists. */
    method MergeItems(items: seq<Item>, nocollapse: bool) returns (results: map<Core, Merged>)
      modifies this
      ensures results.Keys == old(data.Keys) == data.Keys
      ensures forall core :: core in results ==> results[core] == Merge(items, old(data)[core], nocollapse)
      ensures forall core :: core in results ==> data[core] == Unlisted(items, old(data)[core])
    {
      hide Merge, Unlisted;
      results := map[];
      var left := data.Keys;
      ghost var was := data;
      while left != {}
        invariant MergedBut(items, nocollapse, was, data, results, left)
        decreases |left|
      {
        hide MergedBut;
        var core :| core in left;
        assert core in data by { LeftIn(items, nocollapse, was, data, results, left, core); }
        MergedMore(items, nocollapse, was, data, results, left, core);
        var m := MergeCore(core, items, nocollapse);
        results := results[core := m];
        left := left - {core};
      }
    }
  }

  lemma LeftIn(items: seq<Item>, nocollapse: bool, was: map<Core, Values>, data: map<Core, Values>,
               results: map<Core, Merged>, left: set<Core>, core: Core)
    requires MergedBut(items, nocollapse, was, data, results, left) && core in left
    ensures core in data
  {
  }

  // ---- what is shown ----

  /** What a column is shown in: cycles per instruction, seconds, or a share of the longest time. */
  datatype Metric = Cpi(instrs: map<Core, real>) | AbsTime(fastforward: real, cyclesScale: real) | Time(maxCycles: real)

  /** Neither the clock nor the longest time is zero; the constructor refuses the latter. */
  predicate MetricOk(metric: Metric, cores: set<Core>) {
    match metric
    case Cpi(instrs) => cores <= instrs.Keys
    case AbsTime(_, cyclesScale) => cyclesScale != 0.0
    case Time(maxCycles) => maxCycles != 0.0
  }

  /** One value as get_data converts it. */
  function Convert(metric: Metric, core: Core, value: real): real
    requires MetricOk(metric, {core})
  {
    match metric
    case Cpi(instrs) => value / if instrs[core] != 0.0 then instrs[core] else 1.0
    case AbsTime(fastforward, cyclesScale) => fastforward * (value / cyclesScale) / 1000000000000000.0
    case Time(maxCycles) => value / maxCycles
  }

  /** Conversion is linear, so sums can be converted instead of their parts. */
  lemma ConvertSum(metric: Metric, core: Core, a: real, b: real)
    requires MetricOk(metric, {core})
    ensures Convert(metric, core, a + b) == Convert(metric, core, a) + Convert(metric, core, b)
    ensures Convert(metric, core, 0.0) == 0.0
  {
    match metric
    case Cpi(instrs) => DivSum(a, b, if instrs[core] != 0.0 then instrs[core] else 1.0);
    case AbsTime(fastforward, cyclesScale) =>
      DivSum(a, b, cyclesScale);
      var x, y := a / cyclesScale, b / cyclesScale;
      assert fastforward * (x + y) == fastforward * x + fastforward * y;
      DivSum(fastforward * x, fastforward * y, 1000000000000000.0);
    case Time(maxCycles) => DivSum(a, b, maxCycles);
  }

  /** The entries as a dictionary: a later one of the same name replaces an earlier one. */
  function Dict(res: seq<Entry>, metric: Metric, core: Core): map<string, real>
    requires MetricOk(metric, {core})
  {
    if res == [] then map[]
    else
      Dict(res[..|res| - 1], metric, core)[res[|res| - 1].name := Convert(metric, core, res[|res| - 1].value)]
  }

  /** The labels that are used by some core, in the order of the known names. */
  function Used(names: seq<string>, used: set<string>): seq<string> {
    if names == [] then []
    else Used(names[..|names| - 1], used) + if names[|names| - 1] in used then [names[|names| - 1]] else []
  }

  /** The sum of one core's column. */
  function Column(labels: seq<string>, m: map<string, real>): real {
    if labels == [] then 0.0
    else Column(labels[..|labels| - 1], m) + if labels[|labels| - 1] in m then m[labels[|labels| - 1]] else 0.0
  }

  lemma {:induction false} UsedMembers(names: seq<string>, used: set<string>)
    ensures forall n :: n in Used(names, used) <==> n in names && n in used
  {
    if names != [] {
      UsedMembers(names[..|names| - 1], used);
      assert names == names[..|names| - 1] + [names[|names| - 1]];
    }
  }

  lemma {:induction false} UsedNoDup(names: seq<string>, used: set<string>)
    requires NoDup(names)
    ensures NoDup(Used(names, used))
  {
    if names != [] {
      var front := names[..|names| - 1];
      UsedNoDup(front, used);
      UsedMembers(front, used);
      assert names[|names| - 1] !in front;
    }
  }

  lemma {:induction false} ColumnWith(labels: seq<string>, m: map<string, real>, n: string, v: real)
    requires NoDup(labels) && n !in m
    ensures Column(labels, m[n := v]) == Column(labels, m) + if n in labels then v else 0.0
  {
    if labels != [] {
      var front, last := labels[..|labels| - 1], labels[|labels| - 1];
      ColumnWith(front, m, n, v);
      assert last !in front;
      assert labels == front + [last];
    }
  }

  lemma {:induction false} ColumnEmpty(labels: seq<string>)
    ensures Column(labels, map[]) == 0.0
  {
    if labels != [] {
      ColumnEmpty(labels[..|labels| - 1]);
    }
  }

  lemma {:induction false} DictNames(res: seq<Entry>, metric: Metric, core: Core)
    requires MetricOk(metric, {core})
    ensures forall n :: n in Dict(res, metric, core) <==> n in NamesOf(res)
  {
    if res != [] {
      var front, last := res[..|res| - 1], res[|res| - 1];
      DictNames(front, metric, core);
      assert res == front + [last];
      NamesSnoc(front, last);
      hide NamesOf;
    }
  }

  lemma NamesSnoc(front: seq<Entry>, last: Entry)
    ensures NamesOf(front + [last]) == NamesOf(front) + [last.name]
  {
    hide NamesOf;
    NamesConcat(front, [last]);
    OneName(last);
  }

  lemma DivSum(a: real, b: real, unit: real)
    requires unit != 0.0
    ensures (a + b) / unit == a / unit + b / unit
  {
  }

  /** Where entries have different names and labels are known, a column sums to what is shown. */
  lemma {:induction false} ColumnShown(labels: seq<string>, res: seq<Entry>, metric: Metric, core: Core)
    requires MetricOk(metric, {core}) && NoDup(labels) && NoDup(NamesOf(res)) &&
             forall n :: n in NamesOf(res) ==> n in labels
    ensures Column(labels, Dict(res, metric, core)) == Convert(metric, core, Shown(res))
  {
    hide Convert;
    if res == [] {
      ColumnEmpty(labels);
      ConvertSum(metric, core, 0.0, 0.0);
    } else {
      var front, last := res[..|res| - 1], res[|res| - 1];
      assert res == front + [last];
      NamesSnoc(front, last);
      NoDupSnoc(NamesOf(front), last.name);
      hide NamesOf, NoDup, Column;
      ConvertSum(metric, core, Shown(front), last.value);
      assert last.name in NamesOf(res) && forall n :: n in NamesOf(front) ==> n in NamesOf(res);
      ColumnShown(labels, front, metric, core);
      DictNames(front, metric, core);
      ColumnWith(labels, Dict(front, metric, core), last.name, Convert(metric, core, last.value));
    }
  }

  /** What a core shows carries different names, all of them known. */
  lemma MergedNames(items: seq<Item>, values: Values, nocollapse: bool)
    requires Shallow(items) && NoDup(Labels("", items) + [OTHER])
    ensures var res := Merge(items, values, nocollapse).res;
            NoDup(NamesOf(res)) && forall n :: n in NamesOf(res) ==> n in Names(items, "", true) + [OTHER]
  {
    hide Walk, Labels, Names, Shallow, NoDup, NamesOf;
    var scale := Scale(Amount(values));
    var w := Walk("", items, values, scale, nocollapse);
    ShownLabels("", items, values, scale, nocollapse);
    ShallowNames(items);
    var names := Names(items, "", true) + [OTHER];
    NamesSnoc(w.res, Entry(OTHER, w.other + Amount(w.values)));
    var res := Merge(items, values, nocollapse).res;
    assert multiset(NamesOf(res)) <= multiset(names);
    Fewer(NamesOf(res), names);
  }

  lemma Fewer(a: seq<string>, b: seq<string>)
    requires multiset(a) <= multiset(b) && NoDup(b)
    ensures NoDup(a) && forall x :: x in a ==> x in b
  {
    hide NoDup;
    AtMostOnce(a);
    AtMostOnce(b);
    forall x | x in a
      ensures x in b
    {
      assert x in multiset(a);
    }
  }

  /** Labels a core does not use are shown as zero. */
  function Filled(m: map<string, real>, labels: seq<string>): map<string, real> {
    map n | n in m.Keys + KeySet(labels) :: if n in m then m[n] else 0.0
  }

  lemma {:induction false} ColumnFilled(labels: seq<string>, m: map<string, real>, all: seq<string>)
    ensures Column(labels, Filled(m, all)) == Column(labels, m)
  {
    if labels != [] {
      ColumnFilled(labels[..|labels| - 1], m, all);
    }
  }

  /** With groups at the top only and different full names, every core's column sums to that core's values: the display
      loses nothing. */
  lemma Displayed(items: seq<Item>, values: Values, nocollapse: bool, used: set<string>,
                  metric: Metric, core: Core)
    requires Shallow(items) && NoDup(Labels("", items) + [OTHER]) && MetricOk(metric, {core})
    requires forall n :: n in NamesOf(Merge(items, values, nocollapse).res) ==> n in used
    ensures var labels := Used(Names(items, "", true) + [OTHER], used);
            Column(labels, Filled(Dict(Merge(items, values, nocollapse).res, metric, core), labels)) ==
            Convert(metric, core, Amount(values))
  {
    hide Labels, Names, Shallow, NoDup, NamesOf, Merge, Column, Filled, Dict, Used;
    var names := Names(items, "", true) + [OTHER];
    var labels := Used(names, used);
    var res := Merge(items, values, nocollapse).res;
    MergedNames(items, values, nocollapse);
    ShallowNames(items);
    UsedMembers(names, used);
    UsedNoDup(names, used);
    ColumnShown(labels, res, metric, core);
    ColumnFilled(labels, Dict(res, metric, core), labels);
    MergeConserves(items, values, nocollapse);
  }

  /** The labels that some core uses. */
  ghost function UsedBy(results: map<Core, Merged>, cores: set<Core>): set<string>
    requires cores <= results.Keys
  {
    set core, n | core in cores && n in NamesOf(results[core].res) :: n
  }

  class CpiResults {
    const names: seq<string>
    const results: map<Core, Merged>
    var labels: seq<string>

    constructor (names: seq<string>, results: map<Core, Merged>)
      ensures this.names == names && this.results == results
      ensures labels == Used(names, UsedBy(results, results.Keys))
    {
      this.names, this.results, this.labels := names, results, [];
      new;
      hide NamesOf;
      var used: set<string> := {};
      var left := results.Keys;
      while left != {}
        invariant left <= results.Keys && used == UsedBy(results, results.Keys - left)
        decreases |left|
      {
        var core :| core in left;
        var own := set n | n in NamesOf(results[core].res);
        assert UsedBy(results, results.Keys - (left - {core})) == UsedBy(results, results.Keys - left) + own;
        used := used + own;
        left := left - {core};
      }
      assert results.Keys - {} == results.Keys;
      for i := 0 to |names|
        invariant labels == Used(names[..i], used)
      {
        assert names[..i + 1][..i] == names[..i];
        if names[i] in used {
          labels := labels + [names[i]];
        }
      }
      assert names[..|names|] == names;
    }

    /** get_data */
    method GetData(metric: Metric) returns (data: map<Core, map<string, real>>)
      requires MetricOk(metric, results.Keys)
      ensures data.Keys == results.Keys
      ensures forall core :: core in results ==> data[core] == Filled(Dict(results[core].res, metric, core), labels)
    {
      data := map[];
      var left := results.Keys;
      while left != {}
        invariant left <= results.Keys && data.Keys == results.Keys - left
        invariant forall core :: core in data ==> data[core] == Filled(Dict(results[core].res, metric, core), labels)
        decreases |left|
      {
        hide Dict, Filled;
        var core :| core in left;
        var column := Tabulate(results[core].res, metric, core);
        column := Fill(column, labels);
        data := data[core := column];
        left := left - {core};
      }
    }
  }

  method Tabulate(res: seq<Entry>, metric: Metric, core: Core) returns (column: map<string, real>)
    requires MetricOk(metric, {core})
    ensures column == Dict(res, metric, core)
  {
    column := map[];
    for i := 0 to |res|
      invariant column == Dict(res[..i], metric, core)
    {
      assert res[..i + 1][..i] == res[..i];
      column := column[res[i].name := Convert(metric, core, res[i].value)];
    }
    assert res[..|res|] == res;
  }

  method Fill(m: map<string, real>, labels: seq<string>) returns (column: map<string, real>)
    ensures column == Filled(m, labels)
  {
    column := m;
    assert Filled(m, labels[..0]) == m;
    for i := 0 to |labels|
      invariant column == Filled(m, labels[..i])
    {
      assert labels[..i + 1] == labels[..i] + [labels[i]];
      if labels[i] !in column {
        column := column[labels[i] := 0.0];
      }
      assert column == Filled(m, labels[..i + 1]);
    }
    assert labels[..|labels|] == labels;
  }

  lemma UsedByCore(results: map<Core, Merged>, core: Core)
    requires core in results
    ensures forall n :: n in NamesOf(results[core].res) ==> n in UsedBy(results, results.Keys)
  {
    hide NamesOf;
  }

  /** The whole way from the values of the cores to the table: with groups at the top only and different full names,
      each column sums to what its core's values convert to. */
  method Tabled(items: seq<Item>, data: map<Core, Values>, nocollapse: bool, metric: Metric)
    returns (labels: seq<string>, table: map<Core, map<string, real>>)
    requires Shallow(items) && NoDup(Labels("", items) + [OTHER]) && MetricOk(metric, data.Keys)
    ensures table.Keys == data.Keys
    ensures forall core :: core in data ==> Column(labels, table[core]) == Convert(metric, core, Amount(data[core]))
  {
    hide Shallow, NoDup, Labels, Names, Merge, Unlisted, Filled, Dict, Column, Used, UsedBy, Convert, Amount;
    hide Chosen, NamesOf;
    var merger := new Merger(data);
    var results := merger.MergeItems(items, nocollapse);
    var names := GetNames(items, "", true, {});
    ChosenAll(items);
    var cpi := new CpiResults(names + [OTHER], results);
    table := cpi.GetData(metric);
    labels := cpi.labels;
    forall core | core in data
      ensures Column(labels, table[core]) == Convert(metric, core, Amount(data[core]))
    {
      UsedByCore(results, core);
      Displayed(items, data[core], nocollapse, UsedBy(results, results.Keys), metric, core);
    }
  }
}
