/** The component stacks of tools/buildstack.py: a tree of components takes the values of a core, shows what is above
    its threshold and gathers the rest as others. */
module Stack {
  import opened Collections

  /** A component: a list of sub-components, or the counters it adds up. */
  datatype Item =
    | Group(name: string, threshold: real, items: seq<Item>)
    | Leaf(name: string, threshold: real, keys: seq<string>)

  type Values = map<string, real>
  datatype Entry = Entry(name: string, value: real)
  datatype Walked = Walked(res: seq<Entry>, total: real, other: real, values: Values)

  // ---- sums ----

  ghost function Amount(m: Values): real
    decreases |m.Keys|
  {
    if m.Keys == {} then 0.0
    else
      var k := PickOne(m.Keys);
      assert (m - {k}).Keys == m.Keys - {k};
      m[k] + Amount(m - {k})
  }

  lemma {:induction false} AmountWithout(m: Values, k: string)
    requires k in m
    ensures Amount(m) == m[k] + Amount(m - {k})
    decreases |m.Keys|
  {
    var x := PickOne(m.Keys);
    assert (m - {x}).Keys == m.Keys - {x};
    assert (m - {k}).Keys == m.Keys - {k};
    if x != k {
      AmountWithout(m - {x}, k);
      AmountWithout(m - {k}, x);
      assert m - {x} - {k} == m - {k} - {x};
    }
  }

  function Shown(res: seq<Entry>): real {
    if res == [] then 0.0 else Shown(res[..|res| - 1]) + res[|res| - 1].value
  }

  lemma {:induction false} ShownConcat(a: seq<Entry>, b: seq<Entry>)
    ensures Shown(a + b) == Shown(a) + Shown(b)
  {
    if b == [] {
      assert a + b == a;
    } else {
      ShownConcat(a, b[..|b| - 1]);
      assert (a + b)[..|a + b| - 1] == a + b[..|b| - 1];
    }
  }

  // ---- the walk ----

  /** What the counters of one component are worth; a counter is taken only once. */
  function Taken(keys: seq<string>, values: Values): real {
    if keys == [] then 0.0
    else (if keys[0] in values then values[keys[0]] else 0.0) + Taken(keys[1..], values - {keys[0]})
  }

  function KeySet(keys: seq<string>): set<string> {
    set k | k in keys
  }

  /** get_items: components left to right, each taking its counters out of `values`. */
  function Walk(prefix: string, items: seq<Item>, values: Values, scale: real, nocollapse: bool): Walked
    requires scale != 0.0
    decreases items
  {
    if items == [] then
      Walked([], 0.0, 0.0, values)
    else
      var w := Walk(prefix, items[..|items| - 1], values, scale, nocollapse);
      match items[|items| - 1]
      case Group(name, threshold, sub) =>
        AddGroup(w, prefix + name, threshold, Walk(prefix + name + "-", sub, w.values, scale, nocollapse), scale,
            nocollapse)
      case Leaf(name, threshold, keys) =>
        AddLeaf(w, prefix + name, threshold, Taken(keys, w.values), w.values - KeySet(keys), scale, nocollapse)
  }

  function AddGroup(w: Walked, full: string, threshold: real, sub: Walked, scale: real, nocollapse: bool): Walked
    requires scale != 0.0
  {
    if sub.total / scale <= threshold && !nocollapse then
      Walked(w.res, w.total + sub.total, w.other + sub.total, sub.values)
    else if sub.res == [] && !nocollapse then
      Walked(w.res + [Entry(full, sub.total)], w.total + sub.total, w.other, sub.values)
    else
      Walked(w.res + sub.res, w.total + sub.total, w.other + sub.other, sub.values)
  }

  function AddLeaf(w: Walked, full: string, threshold: real, value: real, values: Values, scale: real,
                   nocollapse: bool): Walked
    requires scale != 0.0
  {
    if value / scale <= threshold && !nocollapse then
      Walked(w.res, w.total + value, w.other + value, values)
    else
      Walked(w.res + [Entry(full, value)], w.total + value, w.other, values)
  }

  /** The conversion factor, which is never zero. */
  function Scale(amount: real): (r: real)
    ensures r != 0.0
  {
    if amount == 0.0 then 1.0 else amount
  }

  // ---- conservation ----

  /** Every counter listed anywhere in the tree. */
  function Listed(items: seq<Item>): set<string>
    decreases items
  {
    if items == [] then {}
    else Listed(items[..|items| - 1]) + match items[|items| - 1] {
      case Group(_, _, sub) => Listed(sub)
      case Leaf(_, _, keys) => KeySet(keys)
    }
  }

  lemma {:induction false} TakenAmount(keys: seq<string>, values: Values)
    ensures Taken(keys, values) + Amount(values - KeySet(keys)) == Amount(values)
  {
    if keys == [] {
      assert values - KeySet(keys) == values;
    } else {
      var rest := values - {keys[0]};
      TakenAmount(keys[1..], rest);
      assert KeySet(keys) == {keys[0]} + KeySet(keys[1..]);
      assert rest - KeySet(keys[1..]) == values - KeySet(keys);
      if keys[0] in values {
        AmountWithout(values, keys[0]);
      } else {
        assert rest == values;
      }
    }
  }

  /** What is shown and what is gathered as others add up to the total, however components collapse. */
  lemma {:induction false} WalkBalances(prefix: string, items: seq<Item>, values: Values, scale: real, nocollapse: bool)
    requires scale != 0.0
    ensures var w := Walk(prefix, items, values, scale, nocollapse); Shown(w.res) + w.other == w.total
    decreases items
  {
    if items != [] {
      var front := items[..|items| - 1];
      WalkBalances(prefix, front, values, scale, nocollapse);
      var w := Walk(prefix, front, values, scale, nocollapse);
      match items[|items| - 1]
      case Group(name, threshold, sub) =>
        WalkBalances(prefix + name + "-", sub, w.values, scale, nocollapse);
        GroupBalances(w, prefix + name, threshold, Walk(prefix + name + "-", sub, w.values, scale, nocollapse), scale,
            nocollapse);
      case Leaf(name, threshold, keys) =>
        LeafBalances(w, prefix + name, threshold, Taken(keys, w.values), w.values - KeySet(keys), scale, nocollapse);
    }
  }

  lemma GroupBalances(w: Walked, full: string, threshold: real, sub: Walked, scale: real, nocollapse: bool)
    requires scale != 0.0 && Shown(w.res) + w.other == w.total && Shown(sub.res) + sub.other == sub.total
    ensures var r := AddGroup(w, full, threshold, sub, scale, nocollapse); Shown(r.res) + r.other == r.total
  {
    ShownConcat(w.res, sub.res);
    ShownConcat(w.res, [Entry(full, sub.total)]);
  }

  lemma LeafBalances(w: Walked, full: string, threshold: real, value: real, values: Values, scale: real,
                     nocollapse: bool)
    requires scale != 0.0 && Shown(w.res) + w.other == w.total
    ensures var r := AddLeaf(w, full, threshold, value, values, scale, nocollapse); Shown(r.res) + r.other == r.total
  {
    ShownConcat(w.res, [Entry(full, value)]);
  }

  /** The walk takes out exactly the listed counters, once each however often they are listed, and its total is what
      they were worth. */
  lemma {:induction false} WalkTakes(prefix: string, items: seq<Item>, values: Values, scale: real, nocollapse: bool)
    requires scale != 0.0
    ensures var w := Walk(prefix, items, values, scale, nocollapse);
            w.values == values - Listed(items) && w.total + Amount(w.values) == Amount(values)
    decreases items
  {
    if items == [] {
      assert values - {} == values;
    } else {
      var front := items[..|items| - 1];
      WalkTakes(prefix, front, values, scale, nocollapse);
      var w := Walk(prefix, front, values, scale, nocollapse);
      match items[|items| - 1]
      case Group(name, threshold, sub) =>
        WalkTakes(prefix + name + "-", sub, w.values, scale, nocollapse);
        assert values - Listed(front) - Listed(sub) == values - (Listed(front) + Listed(sub));
      case Leaf(name, threshold, keys) =>
        TakenAmount(keys, w.values);
        assert values - Listed(front) - KeySet(keys) == values - (Listed(front) + KeySet(keys));
    }
  }

  // ---- what is shown ----

  /** Some component with the entry's label has a threshold that the entry exceeds. */
  ghost predicate Above(prefix: string, items: seq<Item>, e: Entry, scale: real)
    requires scale != 0.0
    decreases items
  {
    items != [] && (
      Above(prefix, items[..|items| - 1], e, scale) ||
      var item := items[|items| - 1];
      (e.name == prefix + item.name && e.value / scale > item.threshold) ||
      (item.Group? && Above(prefix + item.name + "-", item.items, e, scale)))
  }

  /** Nothing is shown that does not exceed its component's threshold. */
  lemma {:induction false} ShownIsAbove(prefix: string, items: seq<Item>, values: Values, scale: real, e: Entry)
    requires scale != 0.0 && e in Walk(prefix, items, values, scale, false).res
    ensures Above(prefix, items, e, scale)
    decreases items
  {
    if items != [] {
      var front, item := items[..|items| - 1], items[|items| - 1];
      var w := Walk(prefix, front, values, scale, false);
      if e in w.res {
        ShownIsAbove(prefix, front, values, scale, e);
      } else if item.Group? && e in Walk(prefix + item.name + "-", item.items, w.values, scale, false).res {
        ShownIsAbove(prefix + item.name + "-", item.items, w.values, scale, e);
      }
    }
  }

  /** The leaves of the tree with their full names, in order. */
  function Leaves(prefix: string, items: seq<Item>): seq<Item>
    decreases items
  {
    if items == [] then []
    else Leaves(prefix, items[..|items| - 1]) + match items[|items| - 1] {
      case Group(name, _, sub) => Leaves(prefix + name + "-", sub)
      case Leaf(name, threshold, keys) => [Leaf(prefix + name, threshold, keys)]
    }
  }

  lemma {:induction false} LeavesOnly(prefix: string, items: seq<Item>)
    ensures forall i :: i in Leaves(prefix, items) ==> i.Leaf?
    decreases items
  {
    if items != [] {
      LeavesOnly(prefix, items[..|items| - 1]);
      match items[|items| - 1]
      case Group(name, threshold, sub) => LeavesOnly(prefix + name + "-", sub);
      case Leaf(_, _, _) =>
    }
  }

  lemma WalkLeaf(prefix: string, front: seq<Item>, name: string, threshold: real, keys: seq<string>, values: Values,
                 scale: real,
                 nocollapse: bool)
    requires scale != 0.0
    ensures var w := Walk(prefix, front, values, scale, nocollapse);
            Walk(prefix, front + [Leaf(name, threshold, keys)], values, scale, nocollapse) ==
            AddLeaf(w, prefix + name, threshold, Taken(keys, w.values), w.values - KeySet(keys), scale, nocollapse)
  {
    assert (front + [Leaf(name, threshold, keys)])[..|front|] == front;
  }

  lemma WalkGroup(prefix: string, front: seq<Item>, name: string, threshold: real, sub: seq<Item>, values: Values,
                  scale: real,
                  nocollapse: bool)
    requires scale != 0.0
    ensures var w := Walk(prefix, front, values, scale, nocollapse);
            Walk(prefix, front + [Group(name, threshold, sub)], values, scale, nocollapse) ==
            AddGroup(w, prefix + name, threshold, Walk(prefix + name + "-", sub, w.values, scale, nocollapse), scale,
                nocollapse)
  {
    assert (front + [Group(name, threshold, sub)])[..|front|] == front;
  }

  /** Two walks, one after the other. */
  function Joined(w: Walked, v: Walked): Walked {
    Walked(w.res + v.res, w.total + v.total, w.other + v.other, v.values)
  }

  lemma JoinedLeaf(w: Walked, v: Walked, full: string, threshold: real, value: real, values: Values, scale: real)
    requires scale != 0.0
    ensures AddLeaf(Joined(w, v), full, threshold, value, values, scale, true) ==
            Joined(w, AddLeaf(v, full, threshold, value, values, scale, true))
  {
    assert w.res + v.res + [Entry(full, value)] == w.res + (v.res + [Entry(full, value)]);
  }

  /** Without collapsing, the tree is no more than the flat list of its leaves. */
  lemma {:induction false} UncollapsedIsFlat(prefix: string, items: seq<Item>, values: Values, scale: real)
    requires scale != 0.0
    ensures Walk(prefix, items, values, scale, true) == Walk("", Leaves(prefix, items), values, scale, true)
    decreases items
  {
    hide Taken, KeySet, AddLeaf;
    if items != [] {
      var front := items[..|items| - 1];
      UncollapsedIsFlat(prefix, front, values, scale);
      var w := Walk(prefix, front, values, scale, true);
      match items[|items| - 1]
      case Group(name, threshold, sub) =>
        UncollapsedGroup(prefix, front, name, threshold, sub, values, scale, w);
        UncollapsedIsFlat(prefix + name + "-", sub, w.values, scale);
        LeavesOnly(prefix + name + "-", sub);
        FlatConcat(Leaves(prefix, front), Leaves(prefix + name + "-", sub), values, scale);
      case Leaf(name, threshold, keys) =>
        WalkLeaf("", Leaves(prefix, front), prefix + name, threshold, keys, values, scale, true);
        assert "" + (prefix + name) == prefix + name;
    }
  }

  lemma UncollapsedGroup(prefix: string, front: seq<Item>, name: string, threshold: real, sub: seq<Item>,
                         values: Values, scale: real,
                         w: Walked)
    requires scale != 0.0 && w == Walk(prefix, front, values, scale, true)
    ensures Walk(prefix, front + [Group(name, threshold, sub)], values, scale, true) ==
            Joined(w, Walk(prefix + name + "-", sub, w.values, scale, true))
  {
    hide Walk;
    WalkGroup(prefix, front, name, threshold, sub, values, scale, true);
  }

  lemma {:induction false} FlatConcat(a: seq<Item>, b: seq<Item>, values: Values, scale: real)
    requires scale != 0.0 && forall i :: i in b ==> i.Leaf?
    ensures var w := Walk("", a, values, scale, true);
            Walk("", a + b, values, scale, true) == Joined(w, Walk("", b, w.values, scale, true))
  {
    var w := Walk("", a, values, scale, true);
    if b == [] {
      assert a + b == a;
      assert w.res + [] == w.res;
    } else {
      hide Walk, AddLeaf, Joined, Taken, KeySet;
      var front, l := b[..|b| - 1], b[|b| - 1];
      FlatConcat(a, front, values, scale);
      assert b == front + [l] && a + b == (a + front) + [l];
      WalkLeaf("", a + front, l.name, l.threshold, l.keys, values, scale, true);
      WalkLeaf("", front, l.name, l.threshold, l.keys, w.values, scale, true);
      var v := Walk("", front, w.values, scale, true);
      assert Joined(w, v).values == v.values by { JoinedValues(w, v); }
      JoinedLeaf(w, v, "" + l.name, l.threshold, Taken(l.keys, v.values), v.values - KeySet(l.keys), scale);
    }
  }

  lemma JoinedValues(w: Walked, v: Walked)
    ensures Joined(w, v).values == v.values
  {
  }

  /** Without collapsing, every leaf is shown and there are no others. */
  lemma {:induction false} UncollapsedShowsAll(leaves: seq<Item>, values: Values, scale: real)
    requires scale != 0.0 && forall i :: i in leaves ==> i.Leaf?
    ensures var w := Walk("", leaves, values, scale, true);
            w.other == 0.0 && |w.res| == |leaves| && forall i :: 0 <= i < |leaves| ==> w.res[i].name == leaves[i].name
  {
    if leaves != [] {
      hide Walk, Taken, KeySet;
      var front, l := leaves[..|leaves| - 1], leaves[|leaves| - 1];
      UncollapsedShowsAll(front, values, scale);
      assert leaves == front + [l] && l.Leaf? && "" + l.name == l.name;
      WalkLeaf("", front, l.name, l.threshold, l.keys, values, scale, true);
    }
  }

  // ---- labels ----

  /** The full names of all components. */
  function Labels(prefix: string, items: seq<Item>): seq<string>
    decreases items
  {
    if items == [] then []
    else Labels(prefix, items[..|items| - 1]) + match items[|items| - 1] {
      case Group(name, _, sub) => [prefix + name] + Labels(prefix + name + "-", sub)
      case Leaf(name, _, _) => [prefix + name]
    }
  }

  function NamesOf(res: seq<Entry>): seq<string> {
    seq(|res|, i requires 0 <= i < |res| => res[i].name)
  }

  lemma NamesConcat(a: seq<Entry>, b: seq<Entry>)
    ensures NamesOf(a + b) == NamesOf(a) + NamesOf(b)
  {
  }

  lemma GroupLabels(w: Walked, full: string, threshold: real, sub: Walked, scale: real, nocollapse: bool,
                    ws: seq<string>, subs: seq<string>)
    requires scale != 0.0 && multiset(NamesOf(w.res)) <= multiset(ws) && multiset(NamesOf(sub.res)) <= multiset(subs)
    ensures multiset(NamesOf(AddGroup(w, full, threshold, sub, scale,
            nocollapse).res)) <= multiset(ws + ([full] + subs))
  {
    hide NamesOf;
    NamesConcat(w.res, sub.res);
    NamesConcat(w.res, [Entry(full, sub.total)]);
    assert NamesOf([Entry(full, sub.total)]) == [full] by { OneName(Entry(full, sub.total)); }
  }

  lemma LeafLabels(w: Walked, full: string, threshold: real, value: real, values: Values, scale: real,
                   nocollapse: bool, ws: seq<string>)
    requires scale != 0.0 && multiset(NamesOf(w.res)) <= multiset(ws)
    ensures multiset(NamesOf(AddLeaf(w, full, threshold, value, values, scale,
            nocollapse).res)) <= multiset(ws + [full])
  {
    hide NamesOf;
    NamesConcat(w.res, [Entry(full, value)]);
    assert NamesOf([Entry(full, value)]) == [full] by { OneName(Entry(full, value)); }
  }

  lemma OneName(e: Entry)
    ensures NamesOf([e]) == [e.name]
  {
  }

  /** Every component is shown at most once, under its own full name. */
  lemma {:induction false} ShownLabels(prefix: string, items: seq<Item>, values: Values, scale: real, nocollapse: bool)
    requires scale != 0.0
    ensures multiset(NamesOf(Walk(prefix, items, values, scale, nocollapse).res)) <= multiset(Labels(prefix, items))
    decreases items
  {
    hide NamesOf, AddGroup, AddLeaf, Taken, KeySet;
    if items == [] {
      assert NamesOf([]) == [] by { NoNames(); }
    } else {
      var front := items[..|items| - 1];
      ShownLabels(prefix, front, values, scale, nocollapse);
      var w := Walk(prefix, front, values, scale, nocollapse);
      match items[|items| - 1]
      case Group(name, threshold, sub) =>
        var v := Walk(prefix + name + "-", sub, w.values, scale, nocollapse);
        ShownLabels(prefix + name + "-", sub, w.values, scale, nocollapse);
        GroupLabels(w, prefix + name, threshold, v, scale, nocollapse, Labels(prefix, front),
            Labels(prefix + name + "-", sub));
      case Leaf(name, threshold, keys) =>
        LeafLabels(w, prefix + name, threshold, Taken(keys, w.values), w.values - KeySet(keys), scale, nocollapse,
            Labels(prefix, front));
    }
  }

  lemma NoNames()
    ensures NamesOf([]) == []
  {
  }
}
