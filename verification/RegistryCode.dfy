/** The registry as the code has it: pools edited in place, and destructors that release nested sources. */
module RegistryCode {
  import opened Basics
  import opened Registry

  /** No number exceeds the extent of its pool. */
  predicate Bounded(entries: map<Ref, Slot>, handles: nat, resources: nat) {
    forall r :: r in entries ==> r.number <= if r.pool == Handles then handles else resources
  }

  /** Exactly the elements in `gone` went, each with one run of its destructor. */
  ghost predicate Released(t: Tables, gone: set<Ref>, t': Tables, log: seq<Ref>, log': seq<Ref>) {
    t' == Prune(t, gone) && multiset(log') == multiset(log) + multiset(gone)
  }

  lemma ReleasedNone(t: Tables, log: seq<Ref>)
    ensures Released(t, {}, t, log, log)
  {
    PruneNone(t);
  }

  lemma ReleasedAlso(t: Tables, a: set<Ref>, t1: Tables, b: set<Ref>, t2: Tables, log: seq<Ref>, log1: seq<Ref>,
    log2: seq<Ref>)
    requires Released(t, a, t1, log, log1) && Released(t1, b, t2, log1, log2) && a !! b
    ensures Released(t, a + b, t2, log, log2)
  {
    PruneTwice(t, a, b);
    MultisetUnion(a, b);
  }

  lemma WithinStep(t: Tables, ss: seq<Source>, k: nat, t1: Tables, t2: Tables, log: seq<Ref>, log1: seq<Ref>,
    log2: seq<Ref>)
    requires Inv(t) && Inv(t1) && k < |ss|
    requires Released(t, WithinFirst(t, ss, k), t1, log, log1) && Released(t1, WithinSet(t1, ss[k]), t2, log1, log2)
    ensures Released(t, WithinFirst(t, ss, k + 1), t2, log, log2)
  {
    WithinNext(t, ss, k);
    ReleasedAlso(t, WithinFirst(t, ss, k), t1, WithinSet(t1, ss[k]), t2, log, log1, log2);
  }

  lemma UnderStep(t: Tables, pool: Pool, s: Source, n: nat, t1: Tables, t2: Tables, log: seq<Ref>, log1: seq<Ref>,
    log2: seq<Ref>)
    requires Inv(t) && Inv(t1) && Released(t, UnderFirst(t, pool, s, n), t1, log, log1)
    requires if Elementary(t1, Ref(pool, n + 1), s) then Released(t1, UnderSet(t1, Ref(pool, n + 1)), t2, log1, log2)
      else t2 == t1 && log2 == log1
    ensures Released(t, UnderFirst(t, pool, s, n + 1), t2, log, log2)
  {
    UnderNext(t, pool, s, n);
    if Elementary(t1, Ref(pool, n + 1), s) {
      ReleasedAlso(t, UnderFirst(t, pool, s, n), t1, UnderSet(t1, Ref(pool, n + 1)), t2, log, log1, log2);
    }
  }

  lemma BothPools(t: Tables, s: Source, n: nat, m: nat, t1: Tables, t2: Tables, log: seq<Ref>, log1: seq<Ref>,
    log2: seq<Ref>)
    requires Inv(t) && Inv(t1)
    requires Bounded(t.entries, n, m)
    requires Released(t, UnderFirst(t, Handles, s, n), t1, log, log1)
    requires Released(t1, UnderFirst(t1, Resources, s, m), t2, log1, log2)
    ensures Released(t, WithinSet(t, s), t2, log, log2)
    ensures forall k :: k in t2.slots ==> k.source != s
  {
    var gone := UnderFirst(t, Handles, s, n);
    UnderFirstClosed(t, Handles, s, n);
    UnderFirstPruned(t, gone, Resources, s, m);
    WithinIsUnder(t, s, n, m);
    var rest := UnderFirst(t1, Resources, s, m);
    ReleasedAlso(t, gone, t1, rest, t2, log, log1, log2);
    assert gone + rest == WithinSet(t, s);
    SlotsGone(t, s);
  }

  /** After the release of everything within s, its pool is empty and can be freed. */
  lemma SlotsGone(t: Tables, s: Source)
    requires Inv(t)
    ensures forall k :: k in Prune(t, WithinSet(t, s)).slots ==> k.source != s
  {
  }

  lemma OwnStep(t: Tables, r: Ref, t1: Tables, t2: Tables, log: seq<Ref>, log1: seq<Ref>)
    requires Inv(t) && r in t.entries && r in t1.entries
    requires Released(t, WithinFirst(t, t.nested[r], |t.nested[r]|), t1, log, log1) && t2 == Prune(t1, {r})
    ensures Released(t, UnderSet(t, r), t2, log, log1 + [r])
  {
    RemainsAlone(t, r);
    assert multiset({r}) == multiset{r};
    ReleasedAlso(t, WithinFirst(t, t.nested[r], |t.nested[r]|), t1, {r}, t2, log, log1, log1 + [r]);
  }

  lemma NestedLeaveElement(t: Tables, r: Ref)
    requires Inv(t) && r in t.entries
    ensures r in Prune(t, WithinFirst(t, t.nested[r], |t.nested[r]|)).entries
  {
    RemainsAlone(t, r);
  }

  lemma RemovedOne(t: Tables, r: Ref)
    requires Inv(t) && r in t.entries
    ensures
      var owner := map s | s in t.owner && t.owner[s] != r :: t.owner[s];
      Prune(t, {r}) == Tables(t.entries - {r}, t.slots - {t.entries[r]}, t.nested - {r}, owner, t.names)
  {
    var p := Prune(t, {r});
    assert p.entries == t.entries - {r};
    assert p.slots == t.slots - {t.entries[r]};
    assert p.nested == t.nested - {r};
  }

  /** A failed constructor leaves no trace. */
  lemma CreatedUndone(t: Tables, r: Ref, k: Slot)
    requires Inv(t) && CanCreate(t, r, k)
    ensures Prune(Created(t, r, k), {r}) == t
  {
    CreatedInv(t, r, k);
    RemovedOne(Created(t, r, k), r);
    AddRemove(t.entries, r, k);
    AddRemove(t.slots, k, r);
    AddRemove(t.nested, r, []);
    assert (map s | s in t.owner && t.owner[s] != r :: t.owner[s]) == t.owner;
  }

  lemma AddRemove<K, V>(m: map<K, V>, k: K, v: V)
    requires k !in m
    ensures m[k := v] - {k} == m
  {
  }

  class Pools {
    var entries: map<Ref, Slot>
    var slots: map<Slot, Ref>
    var nested: map<Ref, seq<Source>>
    var owner: map<Source, Ref>
    var names: seq<string>
    /** How far the two global pools extend. */
    var handleCount: nat
    var resourceCount: nat
    /** Elements whose destruction has finished. */
    ghost var destroyed: seq<Ref>

    constructor ()
      ensures Valid() && View() == EMPTY && destroyed == []
    {
      entries, slots, nested, owner, names := map[], map[], map[], map[], [];
      handleCount, resourceCount, destroyed := 0, 0, [];
    }

    function View(): Tables
      reads this
    {
      Tables(entries, slots, nested, owner, names)
    }

    function Count(pool: Pool): nat
      reads this
    {
      if pool == Handles then handleCount else resourceCount
    }

    predicate Valid()
      reads this
    {
      Inv(View()) && Bounded(entries, handleCount, resourceCount)
    }

    /** wlc_source. */
    method InitSource(name: string, inside: Option<Ref>) returns (s: Source)
      requires Valid() && (inside.Some? ==> inside.value in entries)
      modifies this`nested, this`owner, this`names
      ensures Valid() && s == old(|names|) && View() == Initialised(old(View()), name, inside)
    {
      InitialisedInv(View(), name, inside);
      s := |names|;
      names := names + [name];
      if inside.Some? {
        nested := nested[inside.value := nested[inside.value] + [s]];
        owner := owner[s := inside.value];
      }
    }

    /**
     handle_create with wlc_handle_create or wlc_resource_create_from.  The two pools
     choose free places, or fail; the constructor initialises the sources `inner`, or fails.
     */
    method Create(pool: Pool, s: Source, number: Option<nat>, index: Option<nat>, inner: seq<string>, constructed: bool)
        returns (r: Option<Ref>)
      requires Valid() && s < |names|
      requires number.Some? ==> number.value > 0 && Ref(pool, number.value) !in entries
      requires index.Some? ==> Slot(s, index.value) !in slots
      modifies this
      ensures Valid() && destroyed == old(destroyed)
      ensures r.Some? <==> number.Some? && index.Some? && constructed
      ensures r.None? ==> View() == old(View())
      ensures r.Some? ==> r.value == Ref(pool, number.value)
      ensures r.Some? ==> View() == Constructed(Created(old(View()), r.value, Slot(s, index.value)), r.value, inner)
    {
      if number.None? {
        return None;
      }
      var h := Ref(pool, number.value);
      ghost var before := View();
      if index.None? {
        return None;
      }
      var k := Slot(s, index.value);
      AddEntry(h, k);
      if !constructed {
        CreatedUndone(before, h, k);
        RemoveEntry(h);
        return None;
      }
      Construct(h, inner);
      return Some(h);
    }

    /** The container, the slot and the back-pointer in the slot. */
    method AddEntry(h: Ref, k: Slot)
      requires Valid() && CanCreate(View(), h, k)
      modifies this`entries, this`slots, this`nested, this`handleCount, this`resourceCount
      ensures Valid() && View() == Created(old(View()), h, k) && old(handleCount) <= handleCount
      ensures old(resourceCount) <= resourceCount
    {
      CreatedInv(View(), h, k);
      Extend(h);
      entries, slots, nested := entries[h := k], slots[k := h], nested[h := []];
    }

    /** chck_pool_add past the end of a global pool. */
    method Extend(h: Ref)
      modifies this`handleCount, this`resourceCount
      ensures old(handleCount) <= handleCount && old(resourceCount) <= resourceCount
      ensures h.number <= if h.pool == Handles then handleCount else resourceCount
    {
      if h.pool == Handles && handleCount < h.number {
        handleCount := h.number;
      }
      if h.pool == Resources && resourceCount < h.number {
        resourceCount := h.number;
      }
    }

    /** The part of a constructor that initialises the sources inside its element. */
    method Construct(h: Ref, inner: seq<string>)
      requires Valid() && h in entries
      modifies this`nested, this`owner, this`names
      ensures Valid() && View() == Constructed(old(View()), h, inner)
    {
      var i := 0;
      while i < |inner|
        invariant 0 <= i <= |inner| && Valid() && h in entries
        invariant Constructed(View(), h, inner[i..]) == Constructed(old(View()), h, inner)
      {
        var _ := InitSource(inner[i], Some(h));
        assert inner[i..][1..] == inner[i + 1..];
        i := i + 1;
      }
      assert inner[i..] == [];
    }

    ghost predicate SameCounts(n: nat, m: nat)
      reads this
    {
      handleCount == n && resourceCount == m
    }

    /** handle_release of a number that may no longer be in use. */
    method Release(r: Ref)
      requires Valid()
      modifies this
      ensures Valid() && SameCounts(old(handleCount), old(resourceCount))
      ensures Released(old(View()), UnderSet(old(View()), r), View(), old(destroyed), destroyed)
      decreases |names| - (if r in entries then entries[r].source else |names|), 0
    {
      if r !in entries {
        NothingUnder(View(), r);
        ReleasedNone(View(), destroyed);
        return;
      }
      Destroy(r);
    }

    /** handle_release of a live element: its destructor, then its slot, then its public number. */
    method Destroy(r: Ref)
      requires Valid() && r in entries
      modifies this
      ensures Valid() && SameCounts(old(handleCount), old(resourceCount))
      ensures Released(old(View()), UnderSet(old(View()), r), View(), old(destroyed), destroyed)
      decreases |names| - entries[r].source - 1, 4
    {
      ghost var t := View();
      NestedLeaveElement(t, r);
      ReleaseNested(r);
      ghost var t1 := View();
      RemoveEntry(r);
      OwnStep(t, r, t1, View(), old(destroyed), destroyed);
      destroyed := destroyed + [r];
    }

    /** The destructor of an element, as far as the registry is concerned. */
    method ReleaseNested(r: Ref)
      requires Valid() && r in entries
      modifies this
      ensures Valid() && SameCounts(old(handleCount), old(resourceCount))
      ensures Released(old(View()), WithinFirst(old(View()), old(nested[r]), |old(nested[r])|), View(), old(destroyed),
        destroyed)
      decreases |names| - entries[r].source - 1, 3
    {
      ghost var t := View();
      var inner := nested[r];
      var k := 0;
      ReleasedNone(t, destroyed);
      assert WithinFirst(t, inner, 0) == {};
      while k < |inner|
        invariant 0 <= k <= |inner| && Valid() && SameCounts(old(handleCount), old(resourceCount))
        invariant Released(t, WithinFirst(t, inner, k), View(), old(destroyed), destroyed)
      {
        ghost var t1, log1 := View(), destroyed;
        assert t.owner[inner[k]] == r && inner[k] in t.owner;
        ReleaseSource(inner[k]);
        WithinStep(t, inner, k, t1, View(), old(destroyed), log1, destroyed);
        k := k + 1;
      }
    }

    /** The element's slot and its public handle are given back. */
    method RemoveEntry(r: Ref)
      requires Valid() && r in entries
      modifies this`entries, this`slots, this`nested, this`owner
      ensures Valid() && View() == Prune(old(View()), {r})
    {
      RemovedOne(View(), r);
      PruneInv(View(), {r});
      slots := slots - {entries[r]};
      owner := map s | s in owner && owner[s] != r :: owner[s];
      entries, nested := entries - {r}, nested - {r};
    }

    /** wlc_source_release: both global pools are searched for elements of the source. */
    method ReleaseSource(s: Source)
      requires Valid() && s <= |names|
      modifies this
      ensures Valid() && SameCounts(old(handleCount), old(resourceCount))
      ensures Released(old(View()), WithinSet(old(View()), s), View(), old(destroyed), destroyed)
      ensures forall k :: k in slots ==> k.source != s
      decreases |names| - s, 2
    {
      ReleaseIn(Handles, s);
      ghost var t1, log1 := View(), destroyed;
      ReleaseIn(Resources, s);
      BothPools(old(View()), s, handleCount, resourceCount, t1, View(), old(destroyed), log1, destroyed);
    }

    method ReleaseIn(pool: Pool, s: Source)
      requires Valid() && s <= |names|
      modifies this
      ensures Valid() && SameCounts(old(handleCount), old(resourceCount))
      ensures Released(old(View()), UnderFirst(old(View()), pool, s, Count(pool)), View(), old(destroyed), destroyed)
      decreases |names| - s, 1
    {
      ghost var t := View();
      ReleasedNone(t, destroyed);
      var n := 0;
      while n < Count(pool)
        invariant 0 <= n <= Count(pool) && Valid() && SameCounts(old(handleCount), old(resourceCount))
        invariant Released(t, UnderFirst(t, pool, s, n), View(), old(destroyed), destroyed)
      {
        var r := Ref(pool, n + 1);
        ghost var t1, log1 := View(), destroyed;
        if r in entries && entries[r].source == s {
          Release(r);
        }
        UnderStep(t, pool, s, n, t1, View(), old(destroyed), log1, destroyed);
        n := n + 1;
      }
    }
  }

  lemma {:induction false} NothingUnder(t: Tables, r: Ref)
    requires Inv(t) && r !in t.entries
    ensures UnderSet(t, r) == {}
  {
    forall x | x in t.entries
      ensures !Under(t, x, r)
    {
      NotUnder(t, x, r);
    }
  }

  lemma {:induction false} NotUnder(t: Tables, x: Ref, r: Ref)
    requires Inv(t) && x in t.entries && r !in t.entries
    ensures !Under(t, x, r)
    decreases SourceOf(t, x)
  {
    if SourceOf(t, x) in t.owner {
      NotUnder(t, t.owner[SourceOf(t, x)], r);
    }
  }

  /** Once its nested sources are gone, the element goes as the last of what was below it. */
  lemma RemainsAlone(t: Tables, r: Ref)
    requires Inv(t) && r in t.entries
    ensures
      var gone := WithinFirst(t, t.nested[r], |t.nested[r]|);
      && r !in gone && UnderSet(t, r) == gone + {r}
      && Prune(t, UnderSet(t, r)) == Prune(Prune(t, gone), {r})
  {
    var gone := WithinFirst(t, t.nested[r], |t.nested[r]|);
    forall x | x in t.entries
      ensures Under(t, x, r) <==> x == r || x in gone
    {
      UnderIsNested(t, x, r);
    }
    forall i | 0 <= i < |t.nested[r]|
      ensures !Within(t, r, t.nested[r][i])
    {
      assert t.owner[t.nested[r][i]] == r;
      NotWithinYounger(t, r, t.nested[r][i]);
    }
    PruneTwice(t, gone, {r});
  }

  /** An element is never within a source younger than its own. */
  lemma {:induction false} NotWithinYounger(t: Tables, x: Ref, s: Source)
    requires Inv(t) && x in t.entries && SourceOf(t, x) < s
    ensures !Within(t, x, s)
    decreases SourceOf(t, x)
  {
    if SourceOf(t, x) in t.owner {
      NotWithinYounger(t, t.owner[SourceOf(t, x)], s);
    }
  }
}
