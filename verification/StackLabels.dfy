/** Which labels a component stack can be shown under, and which ones get_names knows. */
module StackLabels {
  import opened Stack

  /** get_names without a selection of names: a leaf is prefixed with its own group only, a group is added as it is. */
  function Names(items: seq<Item>, prefix: string, addPrefixes: bool): seq<string>
    decreases items
  {
    if items == [] then []
    else Names(items[..|items| - 1], prefix, addPrefixes) + NamesOne(items[|items| - 1], prefix, addPrefixes)
  }

  function NamesOne(item: Item, prefix: string, addPrefixes: bool): seq<string>
    decreases item
  {
    match item
    case Group(name, _, sub) => (if addPrefixes then [name] else []) + Names(sub, name, addPrefixes)
    case Leaf(name, _, _) => [if prefix != "" then prefix + "-" + name else name]
  }

  predicate Wanted(keys: set<string>, name: string) {
    keys == {} || name in keys
  }

  /** A selection applies to the topmost items only; an empty one selects everything. */
  function Chosen(items: seq<Item>, keys: set<string>): seq<Item> {
    if items == [] then []
    else
      var item := items[|items| - 1];
      Chosen(items[..|items| - 1], keys) + if Wanted(keys, item.name) then [item] else []
  }

  lemma {:induction false} ChosenAll(items: seq<Item>)
    ensures Chosen(items, {}) == items
  {
    if items != [] {
      ChosenAll(items[..|items| - 1]);
    }
  }

  lemma NamesSnoc(items: seq<Item>, item: Item, prefix: string, addPrefixes: bool)
    ensures Names(items + [item], prefix, addPrefixes) ==
            Names(items, prefix, addPrefixes) + NamesOne(item, prefix, addPrefixes)
  {
    hide NamesOne;
    assert (items + [item])[..|items|] == items;
  }

  lemma ChosenSnoc(items: seq<Item>, item: Item, keys: set<string>)
    ensures Chosen(items + [item], keys) ==
            if Wanted(keys, item.name) then Chosen(items, keys) + [item] else Chosen(items, keys)
  {
    assert (items + [item])[..|items|] == items;
  }

  method GetNames(items: seq<Item>, prefix: string, addPrefixes: bool, keys: set<string>) returns (names: seq<string>)
    ensures names == Names(Chosen(items, keys), prefix, addPrefixes)
    decreases items
  {
    names := [];
    for i := 0 to |items|
      invariant names == Names(Chosen(items[..i], keys), prefix, addPrefixes)
    {
      hide Names, Chosen, NamesOne;
      assert items[..i + 1] == items[..i] + [items[i]];
      ChosenSnoc(items[..i], items[i], keys);
      if Wanted(keys, items[i].name) {
        NamesSnoc(Chosen(items[..i], keys), items[i], prefix, addPrefixes);
        var more := GetItemNames(items[i], prefix, addPrefixes);
        names := names + more;
      }
    }
    assert items[..|items|] == items;
  }

  /** The body of the loop of get_names. */
  method GetItemNames(item: Item, prefix: string, addPrefixes: bool) returns (names: seq<string>)
    ensures names == NamesOne(item, prefix, addPrefixes)
    decreases item
  {
    hide Names, Chosen;
    names := [];
    match item {
      case Group(name, _, sub) =>
        if addPrefixes {
          names := names + [name];
        }
        var more := GetNames(sub, name, addPrefixes, {});
        ChosenAll(sub);
        names := names + more;
      case Leaf(name, _, _) =>
        if prefix != "" {
          names := names + [prefix + "-" + name];
        } else {
          names := names + [name];
        }
    }
  }

  /** Groups stand at the top only, and have a name. */
  predicate Shallow(items: seq<Item>) {
    forall g :: g in items && g.Group? ==> g.name != "" && AllLeaves(g.items)
  }

  predicate AllLeaves(items: seq<Item>) {
    forall i :: i in items ==> i.Leaf?
  }

  lemma {:induction false} GroupNames(items: seq<Item>, name: string)
    requires name != "" && AllLeaves(items)
    ensures Names(items, name, true) == Labels("" + name + "-", items)
  {
    if items != [] {
      assert items[|items| - 1] in items;
      GroupNames(items[..|items| - 1], name);
      assert "" + name == name;
    }
  }

  /** For trees of depth two, the known names are exactly the full names. */
  lemma {:induction false} ShallowNames(items: seq<Item>)
    requires Shallow(items)
    ensures Names(items, "", true) == Labels("", items)
  {
    if items != [] {
      var front, item := items[..|items| - 1], items[|items| - 1];
      assert item in items;
      ShallowNames(front);
      assert "" + item.name == item.name;
      if item.Group? {
        GroupNames(item.items, item.name);
      }
    }
  }

  // ---- deeper trees ----

  function Dashes(s: string): nat {
    if s == "" then 0 else Dashes(s[..|s| - 1]) + if s[|s| - 1] == '-' then 1 else 0
  }

  lemma {:induction false} DashesConcat(a: string, b: string)
    ensures Dashes(a + b) == Dashes(a) + Dashes(b)
  {
    if b == "" {
      assert a + b == a;
    } else {
      DashesConcat(a, b[..|b| - 1]);
      assert (a + b)[..|a + b| - 1] == a + b[..|b| - 1];
    }
  }

  lemma OneDash()
    ensures Dashes("-") == 1
  {
    assert "-"[..0] == "";
  }

  /** Names have no dash of their own, and groups have a name. */
  predicate Plain(items: seq<Item>)
    decreases items
  {
    items != [] ==>
      Plain(items[..|items| - 1]) && Dashes(items[|items| - 1].name) == 0 &&
      (items[|items| - 1].Group? ==> items[|items| - 1].name != "" && Plain(items[|items| - 1].items))
  }

  /** No leaf lies deeper than `d`. */
  predicate Within(items: seq<Item>, d: int)
    decreases items
  {
    items != [] ==>
      Within(items[..|items| - 1], d) &&
      match items[|items| - 1] {
        case Group(_, _, sub) => Within(sub, d - 1)
        case Leaf(_, _, _) => d >= 1
      }
  }

  lemma {:induction false} NamesDashes(items: seq<Item>, prefix: string, n: string)
    requires Plain(items) && Dashes(prefix) == 0 && n in Names(items, prefix, true)
    ensures Dashes(n) <= 1
    decreases items
  {
    hide Dashes;
    var front, item := items[..|items| - 1], items[|items| - 1];
    if n in Names(front, prefix, true) {
      NamesDashes(front, prefix, n);
    } else if item.Group? {
      if n != item.name {
        NamesDashes(item.items, item.name, n);
      }
    } else {
      OneDash();
      DashesConcat(prefix, "-");
      DashesConcat(prefix + "-", item.name);
    }
  }

  /** A leaf below `d` levels has a full name with at least `d` dashes. */
  lemma {:induction false} DeepLeaf(prefix: string, items: seq<Item>, d: int) returns (l: Item)
    requires Plain(items) && !Within(items, d)
    ensures l in Leaves(prefix, items) && Dashes(l.name) >= Dashes(prefix) + d
    decreases items
  {
    hide Dashes;
    var front, item := items[..|items| - 1], items[|items| - 1];
    if !Within(front, d) {
      l := DeepLeaf(prefix, front, d);
    } else {
      DashesConcat(prefix, item.name);
      match item
      case Group(name, _, sub) =>
        OneDash();
        DashesConcat(prefix + name, "-");
        l := DeepLeaf(prefix + name + "-", sub, d - 1);
      case Leaf(name, threshold, keys) =>
        l := Leaf(prefix + name, threshold, keys);
    }
  }

  lemma {:induction false} NoLeafWithin(prefix: string, items: seq<Item>)
    requires Within(items, 0)
    ensures Leaves(prefix, items) == []
    decreases items
  {
    if items != [] {
      NoLeafWithin(prefix, items[..|items| - 1]);
      match items[|items| - 1]
      case Group(name, _, sub) => WithinMore(sub, -1); NoLeafWithin(prefix + name + "-", sub);
    }
  }

  lemma {:induction false} WithinMore(items: seq<Item>, d: int)
    requires Within(items, d)
    ensures Within(items, d + 1)
    decreases items
  {
    if items != [] {
      WithinMore(items[..|items| - 1], d);
      match items[|items| - 1]
      case Group(_, _, sub) => WithinMore(sub, d - 1);
      case Leaf(_, _, _) =>
    }
  }

  lemma {:induction false} LeafInGroup(name: string, items: seq<Item>, l: Item)
    requires name != "" && Within(items, 1) && l in Leaves(name + "-", items)
    ensures l.name in Names(items, name, true)
  {
    if l in Leaves(name + "-", items[..|items| - 1]) {
      LeafInGroup(name, items[..|items| - 1], l);
    } else {
      match items[|items| - 1]
      case Group(n, _, sub) => NoLeafWithin(name + "-" + n + "-", sub);
      case Leaf(_, _, _) =>
    }
  }

  /** The groups at the top have names. */
  predicate Named(items: seq<Item>) {
    forall g :: g in items && g.Group? ==> g.name != ""
  }

  lemma {:induction false} LeafKnown(items: seq<Item>, l: Item)
    requires Named(items) && Within(items, 2) && l in Leaves("", items)
    ensures l.name in Names(items, "", true)
  {
    var front, item := items[..|items| - 1], items[|items| - 1];
    if l in Leaves("", front) {
      LeafKnown(front, l);
    } else {
      assert "" + item.name == item.name && item in items;
      if item.Group? {
        LeafInGroup(item.name, item.items, l);
      }
    }
  }

  /** With no leaf below the second level, every leaf's full name is known, whatever the names. */
  lemma ShallowLeavesKnown(items: seq<Item>)
    requires Named(items) && Within(items, 2)
    ensures forall l :: l in Leaves("", items) ==> l.name in Names(items, "", true)
  {
    hide Named, Names, Leaves, Within;
    forall l | l in Leaves("", items)
      ensures l.name in Names(items, "", true)
    {
      LeafKnown(items, l);
    }
  }

  lemma {:induction false} PlainNamed(items: seq<Item>)
    requires Plain(items)
    ensures Named(items)
  {
    hide Dashes;
    if items != [] {
      PlainNamed(items[..|items| - 1]);
      assert items == items[..|items| - 1] + [items[|items| - 1]];
    }
  }

  /** Where names have no dashes of their own, every leaf's full name is known exactly when no leaf is below the second
      level. */
  lemma LeavesKnown(items: seq<Item>)
    requires Plain(items)
    ensures (forall l :: l in Leaves("", items) ==> l.name in Names(items, "", true)) <==> Within(items, 2)
  {
    hide Plain, Names, Leaves, Within, Named;
    if Within(items, 2) {
      PlainNamed(items);
      ShallowLeavesKnown(items);
    } else {
      var l := DeepLeaf("", items, 2);
      if l.name in Names(items, "", true) {
        NamesDashes(items, "", l.name);
      }
    }
  }

  /** A leaf on the third level is shown under a label that is not known. */
  lemma DeepIsUnknown()
    ensures var items := [Group("a", 0.0, [Group("b", 0.0, [Leaf("c", 0.0, ["k"])])])];
            Walk("", items, map["k" := 1.0], 1.0, false).res == [Entry("a-b-c", 1.0)] &&
            Names(items, "", true) == ["a", "b", "b-c"]
  {
    hide Walk, Names;
    DeepWalk();
    DeepNames();
  }

  /** With a dash in a name the depth says nothing: here a leaf on the third level has the full name of a leaf at the
      top, so that every full name is known. */
  lemma DashesHideDepth()
    ensures var items := [Group("a", 0.0, [Group("b", 0.0, [Leaf("c", 0.0, ["k"])])]), Leaf("a-b-c", 0.0, ["m"])];
            !Within(items, 2) && forall l :: l in Leaves("", items) ==> l.name in Names(items, "", true)
  {
    var deep := Leaf("c", 0.0, ["k"]);
    var b := Group("b", 0.0, [deep]);
    var a, top := Group("a", 0.0, [b]), Leaf("a-b-c", 0.0, ["m"]);
    var items := [a, top];
    assert items[..1] == [a] && [a][..0] == [] && [b][..0] == [] && [deep][..0] == [];
    assert !Within([deep], 0) && !Within([b], 1) && !Within([a], 2);
    assert "" + "a" + "-" == "a-" && "a-" + "b" + "-" == "a-b-" && "a-b-" + "c" == "a-b-c" && "" + "a-b-c" == "a-b-c";
    assert Leaves("a-b-", [deep]) == [Leaf("a-b-c", 0.0, ["k"])];
    assert Leaves("a-", [b]) == [Leaf("a-b-c", 0.0, ["k"])];
    assert Leaves("", [a]) == [Leaf("a-b-c", 0.0, ["k"])];
    assert Leaves("", items) == [Leaf("a-b-c", 0.0, ["k"]), top];
    assert Names(items, "", true) == Names([a], "", true) + ["a-b-c"];
    assert "a-b-c" in Names(items, "", true);
  }

  lemma DeepNames()
    ensures Names([Group("a", 0.0, [Group("b", 0.0, [Leaf("c", 0.0, ["k"])])])], "", true) == ["a", "b", "b-c"]
  {
    var leaf := Leaf("c", 0.0, ["k"]);
    var b := Group("b", 0.0, [leaf]);
    assert [leaf][..0] == [] && [b][..0] == [] && "b" + "-" + "c" == "b-c";
    assert Names([leaf], "b", true) == ["b-c"];
    assert Names([b], "a", true) == ["b", "b-c"];
  }

  lemma DeepWalk()
    ensures Walk("", [Group("a", 0.0, [Group("b", 0.0, [Leaf("c", 0.0, ["k"])])])], map["k" := 1.0], 1.0, false).res ==
            [Entry("a-b-c", 1.0)]
  {
    hide Walk, Taken, KeySet;
    var leaf := Leaf("c", 0.0, ["k"]);
    var b := Group("b", 0.0, [leaf]);
    var a := Group("a", 0.0, [b]);
    var values: Values := map["k" := 1.0];
    TakenOne(values);
    assert "" + "a" == "a" && "a" + "-" == "a-" && "a-" + "b" == "a-b" && "a-b" + "-" == "a-b-" &&
           "a-b-" + "c" == "a-b-c";
    WalkNone("a-b-", values, 1.0, false);
    WalkLeaf("a-b-", [], "c", 0.0, ["k"], values, 1.0, false);
    assert [] + [leaf] == [leaf] && [] + [b] == [b] && [] + [a] == [a];
    WalkNone("a-", values, 1.0, false);
    WalkGroup("a-", [], "b", 0.0, [leaf], values, 1.0, false);
    WalkNone("", values, 1.0, false);
    WalkGroup("", [], "a", 0.0, [b], values, 1.0, false);
  }

  lemma WalkNone(prefix: string, values: Values, scale: real, nocollapse: bool)
    requires scale != 0.0
    ensures Walk(prefix, [], values, scale, nocollapse) == Walked([], 0.0, 0.0, values)
  {
  }

  lemma TakenOne(values: Values)
    requires "k" in values
    ensures Taken(["k"], values) == values["k"]
  {
    assert ["k"][1..] == [];
  }
}
