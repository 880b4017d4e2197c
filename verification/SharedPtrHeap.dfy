/** shared_ptr and shared_ptr_count as objects that update their fields in place; every operation is a step of module
    SharedPtr on all the shared pointers there are. */
module SharedPtrHeap {
  import opened SharedPtr

  class Counter {
    var n: int

    constructor (n: int)
      ensures this.n == n
    {
      this.n := n;
    }
  }

  /** What is there: the shared pointers, the counters on the heap, the objects handed over and those destroyed. */
  class World {
    ghost var live: set<Shared>
    ghost var counters: set<Counter>
    ghost var adopted: set<nat>
    ghost var destroyed: multiset<nat>

    ghost function Handles(): map<Shared, Handle<Counter?>>
      reads this`live, live
    {
      map h | h in live :: h.Value()
    }

    ghost function Counts(): map<Counter?, int>
      reads this`counters, counters
    {
      map c: Counter | c in counters :: c.n
    }

    ghost function View(): State<Shared, Counter?>
      reads this, live, counters
    {
      State(Handles(), Counts(), adopted, destroyed)
    }

    ghost predicate Valid()
      reads this, live, counters
    {
      Good(View())
    }

    /** One shared pointer has been changed or added. */
    twostate lemma HandleChanged(new h: Shared)
      requires live == old(live) + {h}
      requires forall x :: x in old(live) && x != h ==> x.px == old(x.px) && x.pn == old(x.pn)
      ensures Handles() == old(Handles())[h := h.Value()]
    {
    }

    /** One counter has been changed or added. */
    twostate lemma CounterChanged(new c: Counter)
      requires counters == old(counters) + {c}
      requires forall x :: x in old(counters) && x != c ==> x.n == old(x.n)
      ensures Counts() == old(Counts())[c := c.n]
    {
    }

    /** One counter has been given back. */
    twostate lemma CounterFreed(c: Counter)
      requires counters == old(counters) - {c}
      requires forall x :: x in old(counters) && x != c ==> x.n == old(x.n)
      ensures Counts() == old(Counts()) - {c}
    {
    }

    twostate lemma CountersSame()
      requires counters == old(counters) && forall x :: x in old(counters) ==> x.n == old(x.n)
      ensures Counts() == old(Counts())
    {
    }

    lemma HandlesThere()
      ensures Handles().Keys == live
    {
    }

    lemma HandleAt(h: Shared)
      requires h in live
      ensures h in Handles() && Handles()[h] == h.Value()
    {
    }

    lemma ViewThere(h: Shared, other: Shared)
      requires h in live && other !in live
      ensures h in View().handles && View().handles[h] == h.Value() && other !in View().handles
      ensures forall c :: c in View().counts <==> c in counters
    {
    }

    lemma CountAt(c: Counter)
      requires c in counters
      ensures c in Counts() && Counts()[c] == c.n
    {
    }

    lemma CounterThere(h: Shared)
      requires Valid() && h in live
      ensures h.pn != null ==> h.pn in counters
      ensures Handles()[h] == h.Value() && (h.px == Null <==> h.pn == null)
    {
      hide Counted, Agree, Owned, Adopted;
      assert View().handles[h] == h.Value();
    }
  }

  class Shared {
    var px: Ptr
    var pn: Counter?

    ghost function Value(): Handle<Counter?>
      reads this
    {
      Handle(px, if pn == null then Unlinked else Linked(pn))
    }

    method Acquire(p: Ptr, ghost w: World)
      requires pn != null ==> pn in w.counters
      modifies this, pn, w
      ensures w.View() == SharedPtr.Acquire(old(w.View()), this, old(Value().pn), p, pn)
      ensures w.live == old(w.live) + {this} && px == p
      ensures old(pn) == null && pn != null ==> fresh(pn)
      ensures old(pn) != null ==> pn == old(pn)
    {
      hide World.Handles, World.Counts;
      if p != Null {
        if pn == null {
          pn := new Counter(1);
          w.counters := w.counters + {pn};
          w.adopted := w.adopted + {p.obj};
          w.CounterChanged(pn);
        } else {
          w.CountAt(pn);
          pn.n := pn.n + 1;
          assert w.counters == w.counters + {pn};
          w.CounterChanged(pn);
        }
      } else {
        w.CountersSame();
      }
      px := p;
      w.live := w.live + {this};
      w.HandleChanged(this);
    }

    method Release(ghost w: World)
      requires this in w.live && (pn != null ==> pn in w.counters)
      modifies this, pn, w
      ensures w.View() == SharedPtr.Release(old(w.View()), this)
      ensures w.live == old(w.live) && px == Null && pn == null
    {
      hide World.Handles, World.Counts;
      w.HandleAt(this);
      if pn != null {
        w.CountAt(pn);
        pn.n := pn.n - 1;
        if pn.n == 0 {
          w.destroyed := w.destroyed + Deleted(px);
          w.counters := w.counters - {pn};
          w.CounterFreed(pn);
        } else {
          assert w.counters == w.counters + {pn};
          w.CounterChanged(pn);
        }
        pn := null;
      } else {
        w.CountersSame();
      }
      px := Null;
      assert w.live == w.live + {this};
      w.HandleChanged(this);
    }

    /** shared_ptr(): one more shared pointer, on nothing. */
    constructor Default(ghost w: World)
      requires w.Valid()
      modifies w
      ensures w.Valid() && w.View() == SharedPtr.Acquire(old(w.View()), this, Unlinked, Null, pn)
      ensures this in w.live
    {
      px, pn := Null, null;
      new;
      hide Good;
      ghost var before := w.View();
      Acquire(Null, w);
      NullGood(before, this, pn);
    }

    /** shared_ptr(p) */
    constructor From(p: Ptr, ghost w: World)
      requires w.Valid() && Fresh(w.View(), p)
      modifies w
      ensures w.Valid() && w.View() == SharedPtr.Acquire(old(w.View()), this, Unlinked, p, pn)
      ensures this in w.live
    {
      px, pn := Null, null;
      new;
      hide Good, Fresh;
      ghost var before := w.View();
      Acquire(p, w);
      FreshGood(before, this, p, pn);
    }

    /** shared_ptr(ptr, p): the invariant is kept exactly for the casts it is meant for. */
    constructor Aliased(ptr: Shared, p: Ptr, ghost w: World)
      requires w.Valid() && ptr in w.live
      modifies w, ptr.pn
      ensures w.View() == Share(old(w.View()), this, ptr, p, pn)
      ensures w.Valid() <==> old(AliasOk(w.View(), ptr, p))
      ensures this in w.live
    {
      px, pn := Null, ptr.pn;
      new;
      hide Good, AliasOk, World.View, SharedPtr.Acquire;
      ghost var before := w.View();
      assert before == old(w.View());
      w.CounterThere(ptr);
      w.ViewThere(ptr, this);
      Acquire(p, w);
      AliasGood(before, this, ptr, p, pn);
    }

    /** shared_ptr(ptr): one more shared pointer on the same object. */
    constructor Copied(ptr: Shared, ghost w: World)
      requires w.Valid() && ptr in w.live
      modifies w, ptr.pn
      ensures w.Valid() && w.live == old(w.live) + {this}
      ensures w.View().handles == old(w.View()).handles[this := old(ptr.Value())]
      ensures w.adopted == old(w.adopted) && w.destroyed == old(w.destroyed)
    {
      px, pn := Null, ptr.pn;
      new;
      hide Good, World.View;
      ghost var before := w.View();
      assert before == old(w.View());
      w.CounterThere(ptr);
      w.ViewThere(ptr, this);
      Acquire(ptr.px, w);
      CopyGood(before, this, ptr, pn);
    }

    /** swap */
    method Swap(lhs: Shared, ghost w: World)
      requires w.Valid() && this in w.live && lhs in w.live
      modifies this, lhs
      ensures w.Valid() && w.View() == SharedPtr.Swap(old(w.View()), this, lhs)
    {
      hide Good, World.Counts;
      SwapGood(w.View(), this, lhs);
      px, lhs.px := lhs.px, px;
      pn, lhs.pn := lhs.pn, pn;
      assert w.Handles() == SharedPtr.Swap(old(w.View()), this, lhs).handles;
    }

    /** reset() */
    method Reset(ghost w: World)
      requires w.Valid() && this in w.live
      modifies this, pn, w
      ensures w.Valid() && w.View() == SharedPtr.Release(old(w.View()), this)
    {
      hide Good;
      w.CounterThere(this);
      ReleaseGood(w.View(), this);
      Release(w);
    }

    /** reset(p) */
    method ResetTo(p: Ptr, ghost w: World)
      requires w.Valid() && this in w.live && Fresh(w.View(), p)
      modifies this, pn, w
      ensures w.Valid() && px == p && w.live == old(w.live)
      ensures w.View() == SharedPtr.Acquire(SharedPtr.Release(old(w.View()), this), this, Unlinked, p, pn)
    {
      hide Good;
      w.CounterThere(this);
      ReleaseGood(w.View(), this);
      Release(w);
      ghost var before := w.View();
      Acquire(p, w);
      FreshGood(before, this, p, pn);
    }

    /** ~shared_ptr */
    method Destroy(ghost w: World)
      requires w.Valid() && this in w.live
      modifies this, pn, w
      ensures w.Valid() && w.live == old(w.live) - {this}
      ensures w.View() == Drop(SharedPtr.Release(old(w.View()), this), this)
    {
      hide Good;
      w.CounterThere(this);
      ReleaseGood(w.View(), this);
      Release(w);
      DropGood(w.View(), this);
      w.live := w.live - {this};
      assert w.Handles() == SharedPtr.Release(old(w.View()), this).handles - {this};
    }

    /** operator=: the argument is copied into a temporary, which is swapped with this one and then destroyed. */
    method Assign(ptr: Shared, ghost w: World)
      requires w.Valid() && this in w.live && ptr in w.live
      modifies this, pn, ptr.pn, w
      ensures w.Valid() && w.live == old(w.live)
      ensures w.Handles() == old(w.Handles())[this := old(ptr.Value())]
    {
      hide Good, SharedPtr.Release, World.Handles, World.Counts;
      ghost var before, v := w.Handles(), ptr.Value();
      w.HandleAt(this);
      w.HandlesThere();
      var temp := new Shared.Copied(ptr, w);
      w.HandleAt(temp);
      Swap(temp, w);
      w.HandleAt(temp);
      ReleaseGood(w.View(), temp);
      temp.Destroy(w);
      AssignHandles(before, this, temp, v);
    }

    /** use_count: the number of shared pointers on the same object. */
    method UseCount(ghost w: World) returns (count: int)
      requires w.Valid() && this in w.live
      ensures px == Null ==> count == 0
      ensures px != Null ==> count == |set h | h in w.live && h.px == px| && count > 0
    {
      w.CounterThere(this);
      count := 0;
      if pn != null {
        count := pn.n;
        SameObject(w, this);
      }
    }
  }

  lemma SameObject(w: World, s: Shared)
    requires w.Valid() && s in w.live && s.pn != null
    ensures s.pn in w.counters && s.pn.n == |set h | h in w.live && h.px == s.px| && s.pn.n > 0
  {
    hide Owned, Adopted;
    var v := w.View();
    w.CounterThere(s);
    assert v.handles[s] == s.Value();
    assert On(v.handles, s.pn) == set h | h in w.live && h.px == s.px;
    assert v.counts[s.pn] == |On(v.handles, s.pn)|;
  }
}
