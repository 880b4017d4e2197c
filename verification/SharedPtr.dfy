/** The reference-counted pointers of frontend/shared_ptr.h as steps on a heap of counters: what every step keeps,
    and when objects are destroyed. */
module SharedPtr {
  import opened Collections

  /** A raw pointer: null, or the address of an object. */
  datatype Ptr = Null | To(obj: nat)
  datatype Link<C> = Unlinked | Linked(counter: C)

  /** A shared pointer: px and pn. */
  datatype Handle<C> = Handle(px: Ptr, pn: Link<C>)

  /** All shared pointers, the counters on the heap, the objects handed over so far and the destructions so far. */
  datatype State<H, C> = State(
    handles: map<H, Handle<C>>, counts: map<C, int>, adopted: set<nat>, destroyed: multiset<nat>)

  // ---- the operations ----

  /** acquire on a shared pointer whose counter is `pn`; `at` is the address a new counter gets. */
  ghost function Acquire<H, C>(s: State<H, C>, h: H, pn: Link<C>, p: Ptr, at: C): State<H, C>
    requires pn.Linked? ==> pn.counter in s.counts
  {
    match p
    case Null => s.(handles := s.handles[h := Handle(Null, pn)])
    case To(o) =>
      match pn
      case Unlinked =>
        State(s.handles[h := Handle(p, Linked(at))], s.counts[at := 1], s.adopted + {o}, s.destroyed)
      case Linked(c) =>
        s.(handles := s.handles[h := Handle(p, pn)], counts := s.counts[c := s.counts[c] + 1])
  }

  /** release */
  ghost function Release<H, C>(s: State<H, C>, h: H): State<H, C>
    requires h in s.handles && (s.handles[h].pn.Linked? ==> s.handles[h].pn.counter in s.counts)
  {
    var handles := s.handles[h := Handle(Null, Unlinked)];
    match s.handles[h].pn
    case Unlinked => s.(handles := handles)
    case Linked(c) =>
      if s.counts[c] - 1 == 0 then
        State(handles, s.counts - {c}, s.adopted, s.destroyed + Deleted(s.handles[h].px))
      else
        s.(handles := handles, counts := s.counts[c := s.counts[c] - 1])
  }

  /** What deleting through a raw pointer destroys. */
  function Deleted(p: Ptr): multiset<nat> {
    match p
    case Null => multiset{}
    case To(o) => multiset{o}
  }

  ghost function Swap<H, C>(s: State<H, C>, h: H, g: H): State<H, C>
    requires h in s.handles && g in s.handles
  {
    s.(handles := s.handles[h := s.handles[g]][g := s.handles[h]])
  }

  // ---- the invariant ----

  ghost predicate Coherent<H, C>(handles: map<H, Handle<C>>, counts: map<C, int>) {
    forall h :: h in handles ==>
      (handles[h].px.Null? <==> handles[h].pn.Unlinked?) && (handles[h].pn.Linked? ==> handles[h].pn.counter in counts)
  }

  ghost function On<H, C>(handles: map<H, Handle<C>>, c: C): set<H> {
    set h | h in handles && handles[h].pn == Linked(c)
  }

  /** A counter is on the heap exactly as long as there are shared pointers on it, and says how many. */
  ghost predicate Counted<H, C>(handles: map<H, Handle<C>>, counts: map<C, int>) {
    forall c :: c in counts ==> counts[c] == |On(handles, c)| && On(handles, c) != {}
  }

  /** Same object, same counter. */
  ghost predicate Agree<H, C>(handles: map<H, Handle<C>>) {
    forall h, g :: h in handles && g in handles && handles[h].px.To? ==>
      (handles[h].px == handles[g].px <==> handles[h].pn == handles[g].pn)
  }

  ghost predicate Held<H, C>(handles: map<H, Handle<C>>, o: nat) {
    exists h :: h in handles && handles[h].px == To(o)
  }

  /** Every object handed over is either held or destroyed, and destroyed at most once. */
  ghost predicate Owned<H, C>(handles: map<H, Handle<C>>, adopted: set<nat>, destroyed: multiset<nat>) {
    forall o :: destroyed[o] == if o in adopted && !Held(handles, o) then 1 else 0
  }

  ghost predicate Adopted<H, C>(handles: map<H, Handle<C>>, adopted: set<nat>) {
    forall h :: h in handles && handles[h].px.To? ==> handles[h].px.obj in adopted
  }

  ghost predicate Good<H, C>(s: State<H, C>) {
    && Coherent(s.handles, s.counts) && Counted(s.handles, s.counts) && Agree(s.handles)
    && Adopted(s.handles, s.adopted) && Owned(s.handles, s.adopted, s.destroyed)
  }

  // ---- one shared pointer changed ----

  lemma OnUpdate<H, C>(handles: map<H, Handle<C>>, h: H, v: Handle<C>, c: C)
    ensures On(handles[h := v], c) == On(handles, c) - {h} + if v.pn == Linked(c) then {h} else {}
    ensures h in On(handles, c) <==> h in handles && handles[h].pn == Linked(c)
  {
  }

  lemma HeldUpdate<H, C>(handles: map<H, Handle<C>>, h: H, v: Handle<C>, o: nat)
    requires h in handles ==> (handles[h].px == To(o) ==> v.px == To(o))
    ensures Held(handles[h := v], o) <==> Held(handles, o) || v.px == To(o)
  {
    if Held(handles, o) {
      var g :| g in handles && handles[g].px == To(o);
      assert handles[h := v][g].px == To(o);
    }
    if v.px == To(o) {
      assert handles[h := v][h].px == To(o);
    }
    if Held(handles[h := v], o) {
      var g :| g in handles[h := v] && handles[h := v][g].px == To(o);
      assert g == h || handles[g].px == To(o);
    }
  }

  // ---- release ----

  /** The counter still stands for every other shared pointer on it. */
  lemma StillCounted<H, C>(handles: map<H, Handle<C>>, counts: map<C, int>, h: H, g: H)
    requires h in handles && g in handles && g != h && Coherent(handles, counts) && Counted(handles, counts)
    requires handles[g].pn.Linked? && handles[h].pn == handles[g].pn
    ensures counts[handles[g].pn.counter] > 1
  {
    var c := handles[g].pn.counter;
    assert {g, h} <= On(handles, c);
    assert On(handles, c) == {g, h} + (On(handles, c) - {g, h});
    assert |{g, h}| == 2;
  }

  lemma ReleaseCount<H, C>(s: State<H, C>, h: H, c: C)
    requires h in s.handles && Coherent(s.handles, s.counts) && Counted(s.handles, s.counts) &&
             c in Release(s, h).counts
    ensures var r := Release(s, h); r.counts[c] == |On(r.handles, c)| && On(r.handles, c) != {}
  {
    hide On;
    OnUpdate(s.handles, h, Handle(Null, Unlinked), c);
    if s.handles[h].pn == Linked(c) {
      assert |On(s.handles, c) - {h}| == s.counts[c] - 1;
    } else {
      assert On(s.handles, c) - {h} == On(s.handles, c);
    }
  }

  lemma ReleaseCoherent<H, C>(s: State<H, C>, h: H, g: H)
    requires h in s.handles && g in s.handles && g != h && Coherent(s.handles, s.counts) && Counted(s.handles, s.counts)
    ensures s.handles[g].pn.Linked? ==> s.handles[g].pn.counter in Release(s, h).counts
  {
    hide On, Counted;
    if s.handles[g].pn.Linked? && s.handles[g].pn == s.handles[h].pn {
      StillCounted(s.handles, s.counts, h, g);
    }
  }

  lemma ReleaseCounted<H, C>(s: State<H, C>, h: H)
    requires h in s.handles && Coherent(s.handles, s.counts) && Counted(s.handles, s.counts)
    ensures var r := Release(s, h); Coherent(r.handles, r.counts) && Counted(r.handles, r.counts)
  {
    hide On;
    var r := Release(s, h);
    forall c | c in r.counts
      ensures r.counts[c] == |On(r.handles, c)| && On(r.handles, c) != {}
    {
      ReleaseCount(s, h, c);
    }
    forall g | g in r.handles
      ensures r.handles[g].pn.Linked? ==> r.handles[g].pn.counter in r.counts
    {
      if g != h {
        ReleaseCoherent(s, h, g);
      }
    }
  }

  /** An object stays held as long as another shared pointer is on its counter. */
  lemma HeldByOthers<H, C>(handles: map<H, Handle<C>>, counts: map<C, int>, h: H)
    requires h in handles && handles[h].px.To? && Coherent(handles, counts) && Counted(handles, counts) &&
             Agree(handles)
    ensures var c := handles[h].pn.counter;
            Held(handles[h := Handle(Null, Unlinked)], handles[h].px.obj) <==> counts[c] > 1
  {
    var o, c := handles[h].px.obj, handles[h].pn.counter;
    var handles' := handles[h := Handle(Null, Unlinked)];
    if Held(handles', o) {
      var g :| g in handles' && handles'[g].px == To(o);
      StillCounted(handles, counts, h, g);
    }
    if counts[c] > 1 {
      assert |On(handles, c) - {h}| == counts[c] - 1;
      var g :| g in On(handles, c) - {h};
      assert handles'[g].px == To(o);
    }
  }

  /** The last shared pointer on an object destroys it. */
  lemma ReleaseOwned<H, C>(s: State<H, C>, h: H)
    requires h in s.handles && Good(s)
    ensures var r := Release(s, h); Owned(r.handles, r.adopted, r.destroyed)
  {
    hide Counted, Agree;
    var r := Release(s, h);
    forall o
      ensures r.destroyed[o] == if o in r.adopted && !Held(r.handles, o) then 1 else 0
    {
      hide Held;
      if s.handles[h].px == To(o) {
        assert Held(s.handles, o) by { HeldBy(s.handles, h); }
        HeldByOthers(s.handles, s.counts, h);
        assert s.counts[s.handles[h].pn.counter] >= 1 by { AtLeastOne(s.handles, s.counts, h); }
      } else {
        HeldUpdate(s.handles, h, Handle(Null, Unlinked), o);
      }
    }
  }

  lemma HeldBy<H, C>(handles: map<H, Handle<C>>, h: H)
    requires h in handles && handles[h].px.To?
    ensures Held(handles, handles[h].px.obj)
  {
  }

  lemma AtLeastOne<H, C>(handles: map<H, Handle<C>>, counts: map<C, int>, h: H)
    requires h in handles && handles[h].pn.Linked? && handles[h].pn.counter in counts && Counted(handles, counts)
    ensures counts[handles[h].pn.counter] >= 1
  {
  }

  lemma ReleaseGood<H, C>(s: State<H, C>, h: H)
    requires h in s.handles && Good(s)
    ensures Good(Release(s, h)) && Release(s, h).handles == s.handles[h := Handle(Null, Unlinked)]
  {
    hide Counted, Owned;
    ReleaseCounted(s, h);
    ReleaseOwned(s, h);
    ReleaseAgree(s.handles, s.counts, s.adopted, h);
    hide Agree, Adopted;
  }

  lemma ReleaseAgree<H, C>(handles: map<H, Handle<C>>, counts: map<C, int>, adopted: set<nat>, h: H)
    requires Coherent(handles, counts) && Agree(handles) && Adopted(handles, adopted)
    ensures var handles' := handles[h := Handle(Null, Unlinked)]; Agree(handles') && Adopted(handles', adopted)
  {
  }

  // ---- acquire ----

  /** `h` does not hold anything yet. */
  ghost predicate Free<H, C>(handles: map<H, Handle<C>>, h: H) {
    h in handles ==> handles[h] == Handle(Null, Unlinked)
  }

  lemma FreeOff<H, C>(handles: map<H, Handle<C>>, h: H, c: C)
    requires Free(handles, h)
    ensures On(handles, c) - {h} == On(handles, c)
  {
  }

  /** Not holding anything changes nothing. */
  lemma NullGood<H, C>(s: State<H, C>, h: H, at: C)
    requires Good(s) && Free(s.handles, h)
    ensures Good(Acquire(s, h, Unlinked, Null, at))
  {
    hide Counted, Owned;
    ReleaseAgree(s.handles, s.counts, s.adopted, h);
    CountedFree(s.handles, s.counts, h);
    OwnedFree(s.handles, s.adopted, s.destroyed, h);
    hide Agree, Adopted;
  }

  lemma CountedFree<H, C>(handles: map<H, Handle<C>>, counts: map<C, int>, h: H)
    requires Counted(handles, counts) && Free(handles, h)
    ensures Counted(handles[h := Handle(Null, Unlinked)], counts)
  {
    forall c | c in counts
      ensures On(handles[h := Handle(Null, Unlinked)], c) == On(handles, c)
    {
    }
  }

  lemma OwnedFree<H, C>(handles: map<H, Handle<C>>, adopted: set<nat>, destroyed: multiset<nat>, h: H)
    requires Owned(handles, adopted, destroyed) && Free(handles, h)
    ensures Owned(handles[h := Handle(Null, Unlinked)], adopted, destroyed)
  {
    forall o
      ensures Held(handles[h := Handle(Null, Unlinked)], o) <==> Held(handles, o)
    {
      HeldUpdate(handles, h, Handle(Null, Unlinked), o);
    }
  }

  // A first shared pointer on an object.

  lemma AdoptCounted<H, C>(handles: map<H, Handle<C>>, counts: map<C, int>, h: H, o: nat, at: C)
    requires Coherent(handles, counts) && Counted(handles, counts) && Free(handles, h) && at !in counts
    ensures Coherent(handles[h := Handle(To(o), Linked(at))], counts[at := 1])
    ensures Counted(handles[h := Handle(To(o), Linked(at))], counts[at := 1])
  {
    var v := Handle(To(o), Linked(at));
    var counts' := counts[at := 1];
    forall c | c in counts'
      ensures counts'[c] == |On(handles[h := v], c)| && On(handles[h := v], c) != {}
    {
      OnUpdate(handles, h, v, c);
      FreeOff(handles, h, c);
      if c == at {
        assert On(handles, c) == {};
      }
    }
  }

  lemma AdoptOwned<H, C>(handles: map<H, Handle<C>>, counts: map<C, int>, adopted: set<nat>, destroyed: multiset<nat>,
                         h: H, o: nat, at: C)
    requires Coherent(handles, counts) && Agree(handles) && Adopted(handles, adopted) &&
             Owned(handles, adopted, destroyed)
    requires Free(handles, h) && at !in counts && o !in adopted
    ensures var handles' := handles[h := Handle(To(o), Linked(at))];
            Agree(handles') && Adopted(handles', adopted + {o}) && Owned(handles', adopted + {o}, destroyed)
  {
    var handles' := handles[h := Handle(To(o), Linked(at))];
    forall x
      ensures destroyed[x] == if x in adopted + {o} && !Held(handles', x) then 1 else 0
    {
      hide Agree, Coherent, Held;
      HeldUpdate(handles, h, Handle(To(o), Linked(at)), x);
    }
  }

  lemma AdoptGood<H, C>(s: State<H, C>, h: H, o: nat, at: C)
    requires Good(s) && Free(s.handles, h) && at !in s.counts && o !in s.adopted
    ensures Good(Acquire(s, h, Unlinked, To(o), at))
  {
    AdoptCounted(s.handles, s.counts, h, o, at);
    AdoptOwned(s.handles, s.counts, s.adopted, s.destroyed, h, o, at);
    hide Coherent, Counted, Agree, Adopted, Owned;
  }

  // One more shared pointer on an object.

  lemma ShareCount<H, C>(handles: map<H, Handle<C>>, counts: map<C, int>, h: H, v: Handle<C>, c: C)
    requires Counted(handles, counts) && Free(handles, h) && v.pn.Linked? && c in counts
    ensures On(handles[h := v], c) != {}
    ensures |On(handles[h := v], c)| == counts[c] + if v.pn == Linked(c) then 1 else 0
  {
    hide On;
    OnUpdate(handles, h, v, c);
    FreeOff(handles, h, c);
    var before := On(handles, c);
    assert h !in before;
    assert v.pn == Linked(c) ==> |before + {h}| == |before| + 1;
  }

  lemma ShareCounted<H, C>(handles: map<H, Handle<C>>, counts: map<C, int>, h: H, v: Handle<C>)
    requires Coherent(handles, counts) && Counted(handles, counts) && Free(handles, h)
    requires v.px.To? && v.pn.Linked? && v.pn.counter in counts
    ensures var d := v.pn.counter;
            Coherent(handles[h := v], counts[d := counts[d] + 1]) &&
            Counted(handles[h := v], counts[d := counts[d] + 1])
  {
    hide On;
    var d := v.pn.counter;
    var counts' := counts[d := counts[d] + 1];
    forall c | c in counts'
      ensures counts'[c] == |On(handles[h := v], c)| && On(handles[h := v], c) != {}
    {
      ShareCount(handles, counts, h, v, c);
    }
  }

  lemma ShareOwned<H, C>(handles: map<H, Handle<C>>, counts: map<C, int>, adopted: set<nat>, destroyed: multiset<nat>,
                         h: H, g: H)
    requires Coherent(handles, counts) && Agree(handles) && Adopted(handles, adopted) &&
             Owned(handles, adopted, destroyed)
    requires Free(handles, h) && g in handles && handles[g].px.To?
    ensures var handles' := handles[h := handles[g]];
            Agree(handles') && Adopted(handles', adopted) && Owned(handles', adopted, destroyed)
  {
    var handles' := handles[h := handles[g]];
    forall x
      ensures destroyed[x] == if x in adopted && !Held(handles', x) then 1 else 0
    {
      hide Agree, Coherent, Held;
      HeldUpdate(handles, h, handles[g], x);
      HeldBy(handles, g);
    }
  }

  lemma ShareGood<H, C>(s: State<H, C>, h: H, g: H, at: C)
    requires Good(s) && Free(s.handles, h) && g in s.handles && s.handles[g].px.To?
    ensures Good(Acquire(s, h, s.handles[g].pn, s.handles[g].px, at))
  {
    ShareCounted(s.handles, s.counts, h, s.handles[g]);
    ShareOwned(s.handles, s.counts, s.adopted, s.destroyed, h, g);
    hide Counted, Agree, Adopted, Owned;
  }

  // ---- swap, and the end of a shared pointer ----

  function Other<H(==)>(h: H, g: H, x: H): H {
    if x == h then g else if x == g then h else x
  }

  lemma SwapOn<H, C>(s: State<H, C>, h: H, g: H, c: C)
    requires h in s.handles && g in s.handles
    ensures |On(Swap(s, h, g).handles, c)| == |On(s.handles, c)|
    ensures On(s.handles, c) != {} <==> On(Swap(s, h, g).handles, c) != {}
  {
    hide On, Swap;
    var before, after := On(s.handles, c), On(Swap(s, h, g).handles, c);
    forall x
      ensures x in after <==> if x == g then h in before else if x == h then g in before else x in before
    {
      SwapMember(s, h, g, c, x);
    }
    Exchanged(before, after, h, g);
  }

  lemma Exchanged<H>(before: set<H>, after: set<H>, h: H, g: H)
    requires forall x :: x in after <==> if x == g then h in before else if x == h then g in before else x in before
    ensures |after| == |before|
  {
    if h in before && g !in before {
      Moved(before, h, g);
      assert after == before - {h} + {g};
    } else if g in before && h !in before {
      Moved(before, g, h);
      assert after == before - {g} + {h};
    } else {
      assert after == before;
    }
  }

  lemma SwapMember<H, C>(s: State<H, C>, h: H, g: H, c: C, x: H)
    requires h in s.handles && g in s.handles
    ensures var before := On(s.handles, c);
            x in On(Swap(s, h, g).handles, c) <==>
            if x == g then h in before else if x == h then g in before else x in before
  {
  }

  lemma Moved<H>(s: set<H>, h: H, g: H)
    requires h in s && g !in s
    ensures |s - {h} + {g}| == |s|
  {
  }

  lemma SwapHeld<H, C>(s: State<H, C>, h: H, g: H, o: nat)
    requires h in s.handles && g in s.handles
    ensures Held(Swap(s, h, g).handles, o) <==> Held(s.handles, o)
  {
    var handles' := Swap(s, h, g).handles;
    if Held(s.handles, o) {
      var x :| x in s.handles && s.handles[x].px == To(o);
      assert handles'[Other(h, g, x)].px == To(o);
    }
    if Held(handles', o) {
      var x :| x in handles' && handles'[x].px == To(o);
      assert s.handles[Other(h, g, x)].px == To(o);
    }
  }

  lemma SwapAgree<H, C>(s: State<H, C>, h: H, g: H)
    requires h in s.handles && g in s.handles && Agree(s.handles)
    ensures Agree(Swap(s, h, g).handles)
  {
    var handles' := Swap(s, h, g).handles;
    forall x, y | x in handles' && y in handles' && handles'[x].px.To?
      ensures handles'[x].px == handles'[y].px <==> handles'[x].pn == handles'[y].pn
    {
      assert handles'[x] == s.handles[Other(h, g, x)] && handles'[y] == s.handles[Other(h, g, y)];
    }
  }

  lemma SwapCounted<H, C>(s: State<H, C>, h: H, g: H)
    requires h in s.handles && g in s.handles && Counted(s.handles, s.counts)
    ensures Counted(Swap(s, h, g).handles, s.counts)
  {
    hide On, Swap;
    forall c | c in s.counts
      ensures s.counts[c] == |On(Swap(s, h, g).handles, c)| && On(Swap(s, h, g).handles, c) != {}
    {
      SwapOn(s, h, g, c);
    }
  }

  lemma SwapOwned<H, C>(s: State<H, C>, h: H, g: H)
    requires h in s.handles && g in s.handles && Owned(s.handles, s.adopted, s.destroyed)
    ensures Owned(Swap(s, h, g).handles, s.adopted, s.destroyed)
  {
    hide Held, Swap;
    forall o
      ensures s.destroyed[o] == if o in s.adopted && !Held(Swap(s, h, g).handles, o) then 1 else 0
    {
      SwapHeld(s, h, g, o);
    }
  }

  lemma SwapCoherent<H, C>(s: State<H, C>, h: H, g: H)
    requires h in s.handles && g in s.handles && Coherent(s.handles, s.counts) && Adopted(s.handles, s.adopted)
    ensures var handles' := Swap(s, h, g).handles; Coherent(handles', s.counts) && Adopted(handles', s.adopted)
  {
    var handles' := Swap(s, h, g).handles;
    assert forall x :: x in handles' ==> Other(h, g, x) in s.handles && handles'[x] == s.handles[Other(h, g, x)];
  }

  lemma SwapGood<H, C>(s: State<H, C>, h: H, g: H)
    requires Good(s) && h in s.handles && g in s.handles
    ensures Good(Swap(s, h, g))
  {
    SwapAgree(s, h, g);
    SwapCounted(s, h, g);
    SwapOwned(s, h, g);
    SwapCoherent(s, h, g);
    hide Agree, Counted, Owned, Coherent, Adopted;
  }

  ghost function Drop<H, C>(s: State<H, C>, h: H): State<H, C> {
    s.(handles := s.handles - {h})
  }

  lemma DropHeld<H, C>(handles: map<H, Handle<C>>, h: H, o: nat)
    requires h in handles && handles[h] == Handle(Null, Unlinked)
    ensures Held(handles - {h}, o) <==> Held(handles, o)
  {
    if Held(handles, o) {
      var x :| x in handles && handles[x].px == To(o);
      assert (handles - {h})[x].px == To(o);
    }
  }

  lemma DropGood<H, C>(s: State<H, C>, h: H)
    requires Good(s) && h in s.handles && s.handles[h] == Handle(Null, Unlinked)
    ensures Good(Drop(s, h))
  {
    hide Held;
    forall c | c in s.counts
      ensures On(s.handles - {h}, c) == On(s.handles, c)
    {
    }
    forall o
      ensures Held(s.handles - {h}, o) <==> Held(s.handles, o)
    {
      DropHeld(s.handles, h, o);
    }
  }

  // ---- runs ----

  datatype Event<H, C> =
    | Make(h: H, at: C)                     // shared_ptr()
    | MakeFrom(h: H, p: Ptr, at: C)         // shared_ptr(p)
    | Alias(h: H, g: H, p: Ptr, at: C)      // shared_ptr(ptr, p)
    | Copy(h: H, g: H, at: C)               // shared_ptr(ptr)
    | Assign(h: H, g: H, t: H, at: C)       // operator=, with its temporary
    | Exchange(h: H, g: H)                  // swap
    | Reset(h: H)                           // reset()
    | ResetTo(h: H, p: Ptr, at: C)          // reset(p)
    | Destroy(h: H)                         // ~shared_ptr

  /** A raw pointer may be handed over once. */
  ghost predicate Fresh<H, C>(s: State<H, C>, p: Ptr) {
    p.To? ==> p.obj !in s.adopted
  }

  /** The aliasing constructor is for casts of the pointer that is shared. */
  ghost predicate AliasOk<H, C>(s: State<H, C>, g: H, p: Ptr)
    requires g in s.handles
  {
    if s.handles[g].px.Null? then Fresh(s, p) else p == s.handles[g].px
  }

  /** What C++ and the assertions of the header ask for. */
  ghost predicate Allowed<H, C>(s: State<H, C>, e: Event<H, C>) {
    match e
    case Make(h, at) => h !in s.handles
    case MakeFrom(h, p, at) => h !in s.handles && Fresh(s, p) && at !in s.counts
    case Alias(h, g, p, at) => h !in s.handles && g in s.handles && at !in s.counts && AliasOk(s, g, p)
    case Copy(h, g, at) => h !in s.handles && g in s.handles
    case Assign(h, g, t, at) => h in s.handles && g in s.handles && t !in s.handles
    case Exchange(h, g) => h in s.handles && g in s.handles
    case Reset(h) => h in s.handles
    case ResetTo(h, p, at) => h in s.handles && Fresh(s, p) && at !in s.counts
    case Destroy(h) => h in s.handles
  }

  ghost function Assigned<H, C>(s: State<H, C>, h: H, g: H, t: H, at: C): State<H, C>
    requires Coherent(s.handles, s.counts) && h in s.handles && g in s.handles && t !in s.handles
    requires var s1 := Acquire(s, t, s.handles[g].pn, s.handles[g].px, at); Coherent(s1.handles, s1.counts)
  {
    var s1 := Acquire(s, t, s.handles[g].pn, s.handles[g].px, at);
    Drop(Release(Swap(s1, h, t), t), t)
  }

  lemma CopyGood<H, C>(s: State<H, C>, h: H, g: H, at: C)
    requires Good(s) && Free(s.handles, h) && g in s.handles
    ensures var r := Acquire(s, h, s.handles[g].pn, s.handles[g].px, at);
            Good(r) && r.handles == s.handles[h := s.handles[g]]
  {
    if s.handles[g].px.Null? {
      NullGood(s, h, at);
    } else {
      ShareGood(s, h, g, at);
    }
    hide Counted, Agree, Adopted, Owned;
  }

  ghost function Step<H, C>(s: State<H, C>, e: Event<H, C>): State<H, C>
    requires Good(s) && Allowed(s, e)
  {
    match e
    case Make(h, at) => Acquire(s, h, Unlinked, Null, at)
    case MakeFrom(h, p, at) => Acquire(s, h, Unlinked, p, at)
    case Alias(h, g, p, at) => Acquire(s, h, s.handles[g].pn, p, at)
    case Copy(h, g, at) => Acquire(s, h, s.handles[g].pn, s.handles[g].px, at)
    case Assign(h, g, t, at) => CopyGood(s, t, g, at); Assigned(s, h, g, t, at)
    case Exchange(h, g) => Swap(s, h, g)
    case Reset(h) => Release(s, h)
    case ResetTo(h, p, at) => Acquire(Release(s, h), h, Unlinked, p, at)
    case Destroy(h) => Drop(Release(s, h), h)
  }

  lemma AssignHandles<H, C>(handles: map<H, Handle<C>>, h: H, t: H, v: Handle<C>)
    requires h in handles && t !in handles
    ensures var copied := handles[t := v];
            copied[h := copied[t]][t := copied[h]][t := Handle(Null, Unlinked)] - {t} == handles[h := v]
  {
  }

  /** Assigning makes the target one more shared pointer on what the source points to, also when they are the same. */
  lemma AssignGood<H, C>(s: State<H, C>, h: H, g: H, t: H, at: C)
    requires Good(s) && h in s.handles && g in s.handles && t !in s.handles
    ensures var s1 := Acquire(s, t, s.handles[g].pn, s.handles[g].px, at); Coherent(s1.handles, s1.counts)
    ensures var r := Assigned(s, h, g, t, at); Good(r) && r.handles == s.handles[h := s.handles[g]]
  {
    CopyGood(s, t, g, at);
    hide Acquire, Release, Counted, Agree, Adopted, Owned;
    var s1 := Acquire(s, t, s.handles[g].pn, s.handles[g].px, at);
    SwapGood(s1, h, t);
    ReleaseGood(Swap(s1, h, t), t);
    DropGood(Release(Swap(s1, h, t), t), t);
    AssignHandles(s.handles, h, t, s.handles[g]);
  }

  /** The first object's adoption, or nothing. */
  lemma FreshGood<H, C>(s: State<H, C>, h: H, p: Ptr, at: C)
    requires Good(s) && Free(s.handles, h) && Fresh(s, p) && at !in s.counts
    ensures Good(Acquire(s, h, Unlinked, p, at))
  {
    match p
    case Null => NullGood(s, h, at);
    case To(o) => AdoptGood(s, h, o, at);
  }

  lemma ReleaseKeeps<H, C>(s: State<H, C>, h: H, at: C)
    requires Good(s) && h in s.handles && at !in s.counts
    ensures at !in Release(s, h).counts && Release(s, h).adopted == s.adopted
  {
  }

  /** Every step keeps the counters right and the objects owned. */
  lemma StepGood<H, C>(s: State<H, C>, e: Event<H, C>)
    requires Good(s) && Allowed(s, e)
    ensures Good(Step(s, e))
  {
    hide Acquire, Release, Swap, Counted, Agree, Adopted, Owned;
    match e
    case Make(h, at) => NullGood(s, h, at);
    case MakeFrom(h, p, at) => FreshGood(s, h, p, at);
    case Alias(h, g, p, at) =>
      if s.handles[g].px.Null? {
        FreshGood(s, h, p, at);
      } else {
        ShareGood(s, h, g, at);
      }
    case Copy(h, g, at) => CopyGood(s, h, g, at);
    case Assign(h, g, t, at) => AssignGood(s, h, g, t, at);
    case Exchange(h, g) => SwapGood(s, h, g);
    case Reset(h) => ReleaseGood(s, h);
    case ResetTo(h, p, at) =>
      ReleaseGood(s, h);
      ReleaseKeeps(s, h, at);
      FreshGood(Release(s, h), h, p, at);
    case Destroy(h) =>
      ReleaseGood(s, h);
      DropGood(Release(s, h), h);
  }

  // ---- whole runs ----

  ghost predicate Possible<H, C>(s: State<H, C>, es: seq<Event<H, C>>)
    requires Good(s)
    decreases |es|
  {
    es == [] || (Allowed(s, es[0]) && (StepGood(s, es[0]); Possible(Step(s, es[0]), es[1..])))
  }

  ghost function Run<H, C>(s: State<H, C>, es: seq<Event<H, C>>): State<H, C>
    requires Good(s) && Possible(s, es)
    decreases |es|
  {
    if es == [] then s else StepGood(s, es[0]); Run(Step(s, es[0]), es[1..])
  }

  /** Before the first shared pointer. */
  ghost function Nothing<H, C>(): (s: State<H, C>)
    ensures Good(s)
  {
    State(map[], map[], {}, multiset{})
  }

  /** After any run the counters are right; and when no shared pointer is left, every object that was handed over has
      been destroyed exactly once and no counter is left on the heap. */
  lemma {:induction false} RunGood<H, C>(s: State<H, C>, es: seq<Event<H, C>>)
    requires Good(s) && Possible(s, es)
    ensures var r := Run(s, es);
            Good(r) && (r.handles == map[] ==> r.destroyed == multiset(r.adopted) && r.counts == map[])
    decreases |es|
  {
    if es == [] {
      if s.handles == map[] {
        AllDestroyed(s);
      }
    } else {
      hide Step, Allowed, Good;
      StepGood(s, es[0]);
      RunGood(Step(s, es[0]), es[1..]);
    }
  }

  lemma RunFromNothing<H, C>(es: seq<Event<H, C>>)
    requires Possible(Nothing<H, C>(), es)
    ensures var r := Run(Nothing<H, C>(), es);
            Good(r) && (r.handles == map[] ==> r.destroyed == multiset(r.adopted) && r.counts == map[])
  {
    RunGood(Nothing<H, C>(), es);
  }

  lemma AllDestroyed<H, C>(s: State<H, C>)
    requires Good(s) && s.handles == map[]
    ensures s.destroyed == multiset(s.adopted) && s.counts == map[]
  {
    assert forall o :: !Held(s.handles, o);
    assert forall c :: c in s.counts ==> On(s.handles, c) == {};
    assert s.counts.Keys == {};
  }

  /** An object is destroyed by a step exactly when the step lets go of the last shared pointer on it. */
  lemma DestroyedByLast<H, C>(s: State<H, C>, e: Event<H, C>, o: nat)
    requires Good(s) && Allowed(s, e) && Held(s.handles, o)
    ensures s.destroyed[o] == 0 && (Step(s, e).destroyed[o] == 1 <==> !Held(Step(s, e).handles, o))
  {
    hide Step, Allowed, Held, Coherent, Counted, Agree;
    StepGood(s, e);
    AdoptedGrows(s, e);
    HeldAdopted(s.handles, s.adopted, o);
  }

  lemma HeldAdopted<H, C>(handles: map<H, Handle<C>>, adopted: set<nat>, o: nat)
    requires Adopted(handles, adopted) && Held(handles, o)
    ensures o in adopted
  {
  }

  lemma AdoptedGrows<H, C>(s: State<H, C>, e: Event<H, C>)
    requires Good(s) && Allowed(s, e)
    ensures s.adopted <= Step(s, e).adopted
  {
    hide Good, Counted, Agree, Owned;
  }

  // ---- what breaks it ----

  /** shared_ptr(ptr, p): the counter of another shared pointer, with a pointer of its own. */
  ghost function Share<H, C>(s: State<H, C>, h: H, g: H, p: Ptr, at: C): State<H, C>
    requires Good(s) && g in s.handles
  {
    Acquire(s, h, s.handles[g].pn, p, at)
  }

  /** The aliasing constructor keeps the invariant exactly when it is given the pointer that is shared, or, on an empty
      shared pointer, one that was not handed over before. */
  lemma AliasGood<H, C>(s: State<H, C>, h: H, g: H, p: Ptr, at: C)
    requires Good(s) && h !in s.handles && g in s.handles && (s.handles[g].pn.Unlinked? ==> at !in s.counts)
    ensures Good(Share(s, h, g, p, at)) <==> AliasOk(s, g, p)
  {
    var r := Share(s, h, g, p, at);
    if AliasOk(s, g, p) {
      if s.handles[g].px.Null? {
        FreshGood(s, h, p, at);
      } else {
        ShareGood(s, h, g, at);
      }
    } else if s.handles[g].px.To? {
      hide Counted, Owned, Adopted;
      assert r.handles[h].pn == r.handles[g].pn && r.handles[h].px != r.handles[g].px;
    } else if Held(s.handles, p.obj) {
      hide Counted, Owned, Adopted;
      var x :| x in s.handles && s.handles[x].px == p;
      assert r.handles[x].px == r.handles[h].px && r.handles[x].pn != r.handles[h].pn;
    } else {
      HeldBy(r.handles, h);
      assert s.destroyed[p.obj] == 1;
    }
  }

  // ---- what goes wrong then, by letting go of shared pointers alone ----

  /** reset() on some shared pointers, one after the other; None when one of them works on a counter that is gone. */
  ghost function ReleaseAll<H, C>(s: State<H, C>, hs: seq<H>): Option<State<H, C>>
    requires forall x :: x in hs ==> x in s.handles
    decreases |hs|
  {
    if hs == [] then Some(s)
    else if s.handles[hs[0]].pn.Linked? && s.handles[hs[0]].pn.counter !in s.counts then None
    else ReleaseAll(Release(s, hs[0]), hs[1..])
  }

  lemma {:induction false} ReleaseAllGood<H, C>(s: State<H, C>, hs: seq<H>)
    requires Good(s) && forall x :: x in hs ==> x in s.handles
    ensures var r := ReleaseAll(s, hs);
            r.Some? && Good(r.value) && r.value.adopted == s.adopted && Cleared(s.handles, hs, r.value.handles)
    decreases |hs|
  {
    if hs != [] {
      hide Counted, Agree, Adopted, Owned, Release;
      ReleaseGood(s, hs[0]);
      ReleaseAdopts(s, hs[0]);
      hide Cleared, Coherent;
      ReleaseAllGood(Release(s, hs[0]), hs[1..]);
      ClearedMore(s.handles, hs, ReleaseAll(s, hs).value.handles);
    } else {
      assert Cleared(s.handles, hs, s.handles);
    }
  }

  /** The shared pointers of `hs` have let go, and the others are as they were. */
  ghost predicate Cleared<H, C>(handles: map<H, Handle<C>>, hs: seq<H>, handles': map<H, Handle<C>>) {
    && handles'.Keys == handles.Keys
    && forall x :: x in handles ==> handles'[x] == if x in hs then Handle(Null, Unlinked) else handles[x]
  }

  lemma ClearedMore<H, C>(handles: map<H, Handle<C>>, hs: seq<H>, handles': map<H, Handle<C>>)
    requires hs != [] && hs[0] in handles && Cleared(handles[hs[0] := Handle(Null, Unlinked)], hs[1..], handles')
    ensures Cleared(handles, hs, handles')
  {
  }

  lemma ReleaseAdopts<H, C>(s: State<H, C>, h: H)
    requires h in s.handles && Coherent(s.handles, s.counts)
    ensures Release(s, h).adopted == s.adopted
  {
  }

  lemma {:induction false} ReleaseAllConcat<H, C>(s: State<H, C>, xs: seq<H>, ys: seq<H>)
    requires forall x :: x in xs + ys ==> x in s.handles
    requires ReleaseAll(s, xs).Some?
    ensures ReleaseAll(s, xs).value.handles.Keys == s.handles.Keys
    ensures ReleaseAll(s, xs + ys) == ReleaseAll(ReleaseAll(s, xs).value, ys)
    decreases |xs|
  {
    if xs == [] {
      assert xs + ys == ys;
    } else {
      assert (xs + ys)[1..] == xs[1..] + ys && (xs + ys)[0] == xs[0];
      assert forall x :: x in xs[1..] + ys ==> x in xs + ys;
      ReleaseAllConcat(Release(s, xs[0]), xs[1..], ys);
    }
  }

  /** The shared pointers on a counter, in some order. */
  ghost predicate Others<H, C>(handles: map<H, Handle<C>>, c: C, hs: seq<H>) {
    NoDup(hs) && (set x | x in hs) == On(handles, c)
  }

  lemma ReleaseShared<H, C>(s: State<H, C>, h: H)
    requires h in s.handles && s.handles[h].pn.Linked? && s.handles[h].pn.counter in s.counts
    requires s.counts[s.handles[h].pn.counter] > 1
    ensures var r := Release(s, h);
            && r.handles == s.handles[h := Handle(Null, Unlinked)] && r.adopted == s.adopted
            && r.destroyed == s.destroyed
  {
  }

  /** Letting go of shared pointers while another one stays on their counter destroys nothing. */
  lemma {:induction false} ReleaseButOne<H, C>(s: State<H, C>, h: H, hs: seq<H>)
    requires Coherent(s.handles, s.counts) && Counted(s.handles, s.counts) && h in s.handles && s.handles[h].pn.Linked?
    requires NoDup(hs) && h !in hs && forall x :: x in hs ==> x in s.handles && s.handles[x].pn == s.handles[h].pn
    ensures var r := ReleaseAll(s, hs);
            && r.Some? && Coherent(r.value.handles, r.value.counts) && Counted(r.value.handles, r.value.counts)
            && r.value.adopted == s.adopted && r.value.destroyed == s.destroyed
            && Cleared(s.handles, hs, r.value.handles)
    decreases |hs|
  {
    if hs != [] {
      var x := hs[0];
      StillCounted(s.handles, s.counts, h, x);
      ReleaseCounted(s, x);
      ReleaseShared(s, x);
      assert x !in hs[1..] && NoDup(hs[1..]);
      hide Counted, Release, Cleared, NoDup;
      ReleaseButOne(Release(s, x), h, hs[1..]);
      ClearedMore(s.handles, hs, ReleaseAll(s, hs).value.handles);
    }
  }

  /** Given another object than the one that is shared: once the other shared pointers on the counter have let go, and
      the new one too, the shared object is held by nobody, was never destroyed, and no counter stands for it. The
      object that is destroyed in its place is the one the new pointer was given. */
  lemma AliasLoses<H, C>(s: State<H, C>, h: H, g: H, p: Ptr, at: C, hs: seq<H>)
    requires Good(s) && h !in s.handles && g in s.handles && s.handles[g].px.To? && p.To? && p != s.handles[g].px
    requires Others(s.handles, s.handles[g].pn.counter, hs)
    ensures forall x :: x in hs + [h] ==> x in Share(s, h, g, p, at).handles
    ensures var o, e := s.handles[g].px.obj, ReleaseAll(Share(s, h, g, p, at), hs + [h]);
            && e.Some? && o in e.value.adopted && !Held(e.value.handles, o) && e.value.destroyed[o] == 0
            && s.handles[g].pn.counter !in e.value.counts
            && e.value.destroyed == s.destroyed + multiset{p.obj}
  {
    hide Counted, Owned, Others, Held;
    var r, c, o := Share(s, h, g, p, at), s.handles[g].pn.counter, s.handles[g].px.obj;
    OthersIn(s.handles, c, hs);
    ShareCounted(s.handles, s.counts, h, Handle(p, s.handles[g].pn));
    ReleaseButOne(r, h, hs);
    ReleaseAllConcat(r, hs, [h]);
    var r1 := ReleaseAll(r, hs).value;
    LastOn(r1.handles, r1.counts, h);
    assert [h][1..] == [];
    var e := Release(r1, h);
    assert ReleaseAll(r1, [h]) == Some(e);
    NotYetDestroyed(s, g);
    hide Agree;
    assert !Held(e.handles, o) by {
      AgreeOn(s.handles, g);
      NotHeld(e.handles, o);
    }
  }

  lemma OthersIn<H, C>(handles: map<H, Handle<C>>, c: C, hs: seq<H>)
    requires Others(handles, c, hs)
    ensures NoDup(hs) && forall x :: x in hs <==> x in handles && handles[x].pn == Linked(c)
  {
    forall x
      ensures x in hs <==> x in handles && handles[x].pn == Linked(c)
    {
      assert x in hs <==> x in (set y | y in hs);
      assert x in On(handles, c) <==> x in handles && handles[x].pn == Linked(c);
    }
  }

  /** The only one left on a counter. */
  lemma LastOn<H, C>(handles: map<H, Handle<C>>, counts: map<C, int>, h: H)
    requires Counted(handles, counts) && h in handles && handles[h].pn.Linked? && handles[h].pn.counter in counts
    requires forall x :: x in handles && handles[x].pn == handles[h].pn ==> x == h
    ensures counts[handles[h].pn.counter] == 1
  {
    assert On(handles, handles[h].pn.counter) == {h};
  }

  lemma NotYetDestroyed<H, C>(s: State<H, C>, g: H)
    requires Good(s) && g in s.handles && s.handles[g].px.To?
    ensures s.handles[g].px.obj in s.adopted && s.destroyed[s.handles[g].px.obj] == 0
  {
    HeldBy(s.handles, g);
  }

  lemma AgreeOn<H, C>(handles: map<H, Handle<C>>, g: H)
    requires Agree(handles) && g in handles && handles[g].px.To?
    ensures forall x :: x in handles && handles[x].px == handles[g].px ==> handles[x].pn == handles[g].pn
  {
  }

  lemma NotHeld<H, C>(handles: map<H, Handle<C>>, o: nat)
    requires forall x :: x in handles ==> handles[x].px != To(o)
    ensures !Held(handles, o)
  {
  }

  /** When the counter has one shared pointer more than it says, letting go of all of them in turn ends on a counter
      that is gone. */
  lemma {:induction false} Undercounted<H, C>(s: State<H, C>, c: C, hs: seq<H>)
    requires hs != [] && NoDup(hs) && forall x :: x in hs ==> x in s.handles && s.handles[x].pn == Linked(c)
    requires if |hs| == 1 then c !in s.counts else c in s.counts && s.counts[c] == |hs| - 1
    ensures ReleaseAll(s, hs).None?
    decreases |hs|
  {
    if |hs| > 1 {
      assert hs[0] !in hs[1..];
      Undercounted(Release(s, hs[0]), c, hs[1..]);
    }
  }

  /** Given null: the new shared pointer is on the counter and was not counted, so that after it lets go the last of the
      others works on a counter that is gone. */
  lemma AliasUndercounts<H, C>(s: State<H, C>, h: H, g: H, at: C, hs: seq<H>)
    requires Good(s) && h !in s.handles && g in s.handles && s.handles[g].px.To?
    requires Others(s.handles, s.handles[g].pn.counter, hs)
    ensures forall x :: x in [h] + hs ==> x in Share(s, h, g, Null, at).handles
    ensures ReleaseAll(Share(s, h, g, Null, at), [h] + hs).None?
  {
    var r, c := Share(s, h, g, Null, at), s.handles[g].pn.counter;
    hide Others, Owned, Agree, Adopted;
    OthersIn(s.handles, c, hs);
    OthersCount(s.handles, c, hs);
    assert g in hs && h !in hs;
    assert s.counts[c] == |hs|;
    hide Counted;
    UncountedReleased(s, h, g, at);
    assert ([h] + hs)[0] == h && ([h] + hs)[1..] == hs;
    hide Share, Release;
    Undercounted(Release(r, h), c, hs);
  }

  lemma UncountedReleased<H, C>(s: State<H, C>, h: H, g: H, at: C)
    requires Good(s) && h !in s.handles && g in s.handles && s.handles[g].pn.Linked?
    ensures var r, c := Share(s, h, g, Null, at), s.handles[g].pn.counter;
            && c in s.counts && c in r.counts && h in r.handles && r.handles[h].pn == Linked(c)
            && Release(r, h).handles == s.handles[h := Handle(Null, Unlinked)]
            && if s.counts[c] == 1 then c !in Release(r, h).counts
               else c in Release(r, h).counts && Release(r, h).counts[c] == s.counts[c] - 1
  {
    hide Counted, Owned, Agree, Adopted;
  }

  lemma OthersCount<H, C>(handles: map<H, Handle<C>>, c: C, hs: seq<H>)
    requires Others(handles, c, hs)
    ensures |hs| == |On(handles, c)|
  {
    NoDupCard(hs);
    assert (set x | x in hs) == On(handles, c);
  }

  /** What was destroyed before does not matter to what letting go destroys. */
  lemma {:induction false} ReleaseAllAfter<H, C>(s: State<H, C>, d: multiset<nat>, hs: seq<H>)
    requires (forall x :: x in hs ==> x in s.handles) && ReleaseAll(s, hs).Some?
    ensures ReleaseAll(s.(destroyed := s.destroyed + d), hs) ==
            Some(ReleaseAll(s, hs).value.(destroyed := ReleaseAll(s, hs).value.destroyed + d))
    decreases |hs|
  {
    if hs != [] {
      var x := hs[0];
      ReleaseAllAfter(Release(s, x), d, hs[1..]);
      var more := Deleted(s.handles[x].px);
      assert s.destroyed + d + more == s.destroyed + more + d;
    }
  }

  /** Given, on an empty shared pointer, an object that was handed over before: once all shared pointers on it have let
      go it was destroyed twice. */
  lemma AliasDestroysTwice<H, C>(s: State<H, C>, h: H, g: H, p: Ptr, at: C, hs: seq<H>)
    requires Good(s) && h !in s.handles && g in s.handles && s.handles[g].px.Null? && at !in s.counts
    requires p.To? && p.obj in s.adopted
    requires forall x :: x in hs <==> x in s.handles && s.handles[x].px == p
    ensures forall x :: x in [h] + hs ==> x in Share(s, h, g, p, at).handles
    ensures var e := ReleaseAll(Share(s, h, g, p, at), [h] + hs); e.Some? && e.value.destroyed[p.obj] == 2
  {
    hide Counted, Owned, Agree, Held;
    var r := Share(s, h, g, p, at);
    var empty := Acquire(s, h, Unlinked, Null, at);
    NullGood(s, h, at);
    AdoptedAgain(s, h, p, at);
    ReleaseAllGood(empty, hs);
    ReleaseAllAfter(empty, multiset{p.obj}, hs);
    hide Acquire, Release;
    assert ([h] + hs)[0] == h && ([h] + hs)[1..] == hs;
    GoneOnce(ReleaseAll(empty, hs).value, p.obj);
  }

  lemma AdoptedAgain<H, C>(s: State<H, C>, h: H, p: Ptr, at: C)
    requires Good(s) && h !in s.handles && at !in s.counts && p.To? && p.obj in s.adopted
    ensures var r, empty := Acquire(s, h, Unlinked, p, at), Acquire(s, h, Unlinked, Null, at);
            && h in r.handles && r.handles[h].pn == Linked(at) && at in r.counts
            && Release(r, h) == empty.(destroyed := empty.destroyed + multiset{p.obj})
  {
    hide Counted, Owned, Agree;
    assert s.counts[at := 1] - {at} == s.counts && s.adopted + {p.obj} == s.adopted;
  }

  lemma GoneOnce<H, C>(s: State<H, C>, o: nat)
    requires Owned(s.handles, s.adopted, s.destroyed) && o in s.adopted
    requires forall x :: x in s.handles ==> s.handles[x].px != To(o)
    ensures s.destroyed[o] == 1
  {
    NotHeld(s.handles, o);
  }

  /** Whatever shared pointers let go, no counter is used after it is gone, and every object handed over is held or was
      destroyed exactly once. */
  ghost predicate LetsGo<H(!new), C>(s: State<H, C>) {
    forall hs: seq<H> :: (forall x :: x in hs ==> x in s.handles) ==>
      var r := ReleaseAll(s, hs); r.Some? && Owned(r.value.handles, r.value.adopted, r.value.destroyed)
  }

  lemma Ordered<H>(xs: set<H>) returns (hs: seq<H>)
    ensures NoDup(hs) && forall x :: x in hs <==> x in xs
    decreases |xs|
  {
    if xs == {} {
      hs := [];
    } else {
      var x := PickOne(xs);
      var rest := Ordered(xs - {x});
      NoDupSnoc(rest, x);
      hs := rest + [x];
    }
  }

  /** Exactly when the aliasing constructor is harmless: every way of letting go of shared pointers after it is in order
      if and only if it was given the pointer that is shared, or, on an empty shared pointer, null or an object not
      handed over before. */
  lemma AliasExact<H(!new), C>(s: State<H, C>, h: H, g: H, p: Ptr, at: C)
    requires Good(s) && h !in s.handles && g in s.handles && (s.handles[g].pn.Unlinked? ==> at !in s.counts)
    ensures LetsGo(Share(s, h, g, p, at)) <==> AliasOk(s, g, p)
  {
    var r := Share(s, h, g, p, at);
    AliasGood(s, h, g, p, at);
    if AliasOk(s, g, p) {
      forall hs: seq<H> | forall x :: x in hs ==> x in r.handles
        ensures var e := ReleaseAll(r, hs); e.Some? && Owned(e.value.handles, e.value.adopted, e.value.destroyed)
      {
        ReleaseAllGood(r, hs);
      }
    } else {
      AliasFails(s, h, g, p, at);
    }
  }

  lemma AliasFails<H(!new), C>(s: State<H, C>, h: H, g: H, p: Ptr, at: C)
    requires Good(s) && h !in s.handles && g in s.handles && (s.handles[g].pn.Unlinked? ==> at !in s.counts)
    requires !AliasOk(s, g, p)
    ensures !LetsGo(Share(s, h, g, p, at))
  {
    hide ReleaseAll, Held, Counted, Agree, Share;
    if s.handles[g].px.Null? {
      var hs := Ordered(set x | x in s.handles && s.handles[x].px == p);
      AliasDestroysTwice(s, h, g, p, at, hs);
    } else {
      var hs := Ordered(On(s.handles, s.handles[g].pn.counter));
      if p.Null? {
        AliasUndercounts(s, h, g, at, hs);
      } else {
        AliasLoses(s, h, g, p, at, hs);
      }
    }
  }

  /** acquire when the counter cannot be allocated: the object is deleted, the exception is swallowed and px is set. */
  ghost function AcquireFailing<H, C>(s: State<H, C>, h: H, p: Ptr): State<H, C> {
    State(s.handles[h := Handle(p, Unlinked)], s.counts, s.adopted + (if p.To? then {p.obj} else {}),
          s.destroyed + Deleted(p))
  }

  /** A failed allocation leaves a shared pointer on a destroyed object, unless there was nothing to own; in a
      constructor and in reset(p), which has let go before. */
  lemma FailedAllocation<H, C>(s: State<H, C>, h: H, p: Ptr)
    requires Good(s) && Free(s.handles, h) && Fresh(s, p)
    ensures Good(AcquireFailing(s, h, p)) <==> p == Null
    ensures p.To? ==> var r := AcquireFailing(s, h, p); Held(r.handles, p.obj) && r.destroyed[p.obj] == 1
  {
    var r := AcquireFailing(s, h, p);
    if p.Null? {
      hide Counted, Owned;
      ReleaseAgree(s.handles, s.counts, s.adopted, h);
      CountedFree(s.handles, s.counts, h);
      OwnedFree(s.handles, s.adopted, s.destroyed, h);
      hide Agree, Adopted;
      assert s.destroyed + multiset{} == s.destroyed && s.adopted + {} == s.adopted;
    } else {
      HeldBy(r.handles, h);
      hide Counted, Agree, Adopted;
      assert r.handles[h].px.To? && r.handles[h].pn.Unlinked?;
    }
  }

  lemma FailedReset<H, C>(s: State<H, C>, h: H, p: Ptr)
    requires Good(s) && h in s.handles && Fresh(s, p)
    ensures var r := AcquireFailing(Release(s, h), h, p);
            (Good(r) <==> p == Null) && (p.To? ==> Held(r.handles, p.obj) && r.destroyed[p.obj] == 1)
  {
    ReleaseGood(s, h);
    ReleaseAdopts(s, h);
    hide Good, AcquireFailing, Release, Held;
    FailedAllocation(Release(s, h), h, p);
  }
}
