/**
 The registry of src/resources/resources.c: public handles, the slots of the sources
 they stand for, and the sources nested inside elements, which die with them.
 */
module Registry {
  import opened Basics

  datatype Pool = Handles | Resources

  /** A public handle or resource number; numbers start at 1, and 0 is NULL. */
  datatype Ref = Ref(pool: Pool, number: nat)

  /** Sources are numbered in the order of their initialisation. */
  type Source = nat

  /** A place in the pool of a source. */
  datatype Slot = Slot(source: Source, index: nat)

  /**
   `entries` are the two global pools, `slots` the pools of the sources with the
   back-pointer in each element, `nested` the sources inside an element, and `owner`
   the element that a nested source is in.
   */
  datatype Tables = Tables(
    entries: map<Ref, Slot>,
    slots: map<Slot, Ref>,
    nested: map<Ref, seq<Source>>,
    owner: map<Source, Ref>,
    names: seq<string>)

  /** Handles and occupied slots name each other; nested sources are younger than what they are in. */
  predicate Inv(t: Tables) {
    && (forall r :: r in t.entries ==> t.entries[r] in t.slots && t.slots[t.entries[r]] == r)
    && (forall k :: k in t.slots ==> t.slots[k] in t.entries && t.entries[t.slots[k]] == k)
    && (forall r :: r in t.entries ==> r.number > 0 && t.entries[r].source < |t.names|)
    && t.nested.Keys == t.entries.Keys
    && (forall r, i :: r in t.nested && 0 <= i < |t.nested[r]| ==>
      t.nested[r][i] in t.owner && t.owner[t.nested[r][i]] == r)
    && (forall s :: s in t.owner ==> t.owner[s] in t.entries && s in t.nested[t.owner[s]])
    && (forall s :: s in t.owner ==> t.entries[t.owner[s]].source < s < |t.names|)
  }

  const EMPTY := Tables(map[], map[], map[], map[], [])

  function SourceOf(t: Tables, x: Ref): Source
    requires x in t.entries
  {
    t.entries[x].source
  }

  /** x is r, or lives in a source nested in r, at any depth. */
  predicate Under(t: Tables, x: Ref, r: Ref)
    requires Inv(t) && x in t.entries
    decreases SourceOf(t, x)
  {
    x == r || (SourceOf(t, x) in t.owner && Under(t, t.owner[SourceOf(t, x)], r))
  }

  /** x lives in s, or in a source nested in an element of s, at any depth. */
  predicate Within(t: Tables, x: Ref, s: Source)
    requires Inv(t) && x in t.entries
    decreases SourceOf(t, x)
  {
    SourceOf(t, x) == s || (SourceOf(t, x) in t.owner && Within(t, t.owner[SourceOf(t, x)], s))
  }

  function UnderSet(t: Tables, r: Ref): set<Ref>
    requires Inv(t)
  {
    set x | x in t.entries && Under(t, x, r)
  }

  function WithinSet(t: Tables, s: Source): set<Ref>
    requires Inv(t)
  {
    set x | x in t.entries && Within(t, x, s)
  }

  /** Without the given elements, their slots and the sources nested in them. */
  function Prune(t: Tables, gone: set<Ref>): Tables {
    Tables(
      map x | x in t.entries && x !in gone :: t.entries[x],
      map k | k in t.slots && t.slots[k] !in gone :: t.slots[k],
      map x | x in t.nested && x !in gone :: t.nested[x],
      map s | s in t.owner && t.owner[s] !in gone :: t.owner[s],
      t.names)
  }

  /** Whatever is nested in something gone is gone too. */
  predicate Closed(t: Tables, gone: set<Ref>) {
    forall x :: x in t.entries && SourceOf(t, x) in t.owner && t.owner[SourceOf(t, x)] in gone ==> x in gone
  }

  lemma PruneInv(t: Tables, gone: set<Ref>)
    requires Inv(t)
    ensures Inv(Prune(t, gone))
  {
  }

  lemma {:induction false} UnderPruned(t: Tables, gone: set<Ref>, x: Ref, r: Ref)
    requires Inv(t) && Closed(t, gone) && Inv(Prune(t, gone)) && x in Prune(t, gone).entries
    ensures Under(Prune(t, gone), x, r) <==> Under(t, x, r)
    decreases SourceOf(t, x)
  {
    if SourceOf(t, x) in t.owner {
      UnderPruned(t, gone, t.owner[SourceOf(t, x)], r);
    }
  }

  lemma {:induction false} WithinPruned(t: Tables, gone: set<Ref>, x: Ref, s: Source)
    requires Inv(t) && Closed(t, gone) && Inv(Prune(t, gone)) && x in Prune(t, gone).entries
    ensures Within(Prune(t, gone), x, s) <==> Within(t, x, s)
    decreases SourceOf(t, x)
  {
    if SourceOf(t, x) in t.owner {
      WithinPruned(t, gone, t.owner[SourceOf(t, x)], s);
    }
  }

  lemma PruneTwice(t: Tables, a: set<Ref>, b: set<Ref>)
    ensures Prune(Prune(t, a), b) == Prune(t, a + b)
  {
    var l, r := Prune(Prune(t, a), b), Prune(t, a + b);
    assert l.entries == r.entries;
    assert l.slots == r.slots;
    assert l.nested == r.nested;
    assert l.owner == r.owner;
  }

  lemma PruneNone(t: Tables)
    ensures Prune(t, {}) == t
  {
    var l := Prune(t, {});
    assert l.entries == t.entries && l.slots == t.slots && l.nested == t.nested && l.owner == t.owner;
  }

  lemma {:induction false} WithinAnElement(t: Tables, x: Ref, y: Ref)
    requires Inv(t) && x in t.entries && y in t.entries && Under(t, x, y)
    ensures Within(t, x, SourceOf(t, y))
    decreases SourceOf(t, x)
  {
    if x != y {
      WithinAnElement(t, t.owner[SourceOf(t, x)], y);
    }
  }

  lemma {:induction false} WithinSomeElement(t: Tables, x: Ref, s: Source) returns (y: Ref)
    requires Inv(t) && x in t.entries && Within(t, x, s)
    ensures y in t.entries && SourceOf(t, y) == s && Under(t, x, y)
    decreases SourceOf(t, x)
  {
    if SourceOf(t, x) == s {
      y := x;
    } else {
      y := WithinSomeElement(t, t.owner[SourceOf(t, x)], s);
    }
  }

  /** Below r there is r itself and what is within the sources nested in r. */
  lemma {:induction false} UnderIsNested(t: Tables, x: Ref, r: Ref)
    requires Inv(t) && x in t.entries && r in t.entries
    ensures Under(t, x, r) <==> x == r || exists i :: 0 <= i < |t.nested[r]| && Within(t, x, t.nested[r][i])
    decreases SourceOf(t, x)
  {
    var s := SourceOf(t, x);
    if x == r {
    } else if s in t.owner {
      UnderIsNested(t, t.owner[s], r);
      if t.owner[s] == r {
        var i :| 0 <= i < |t.nested[r]| && t.nested[r][i] == s;
        assert Within(t, x, t.nested[r][i]);
      }
    }
  }

  lemma {:induction false} UnderClosed(t: Tables, r: Ref)
    requires Inv(t)
    ensures Closed(t, UnderSet(t, r))
  {
  }

  /** What is within the first k of the given sources. */
  function WithinFirst(t: Tables, ss: seq<Source>, k: nat): set<Ref>
    requires Inv(t) && k <= |ss|
  {
    set x | x in t.entries && exists i :: 0 <= i < k && Within(t, x, ss[i])
  }

  /** What is below an element of s that is in the given pool and has a number up to n. */
  function UnderFirst(t: Tables, pool: Pool, s: Source, n: nat): set<Ref>
    requires Inv(t)
  {
    if n == 0 then {}
    else UnderFirst(t, pool, s, n - 1) + if Elementary(t, Ref(pool, n), s) then UnderSet(t, Ref(pool, n)) else {}
  }

  predicate Elementary(t: Tables, r: Ref, s: Source) {
    r in t.entries && SourceOf(t, r) == s
  }

  lemma WithinNext(t: Tables, ss: seq<Source>, k: nat)
    requires Inv(t) && k < |ss|
    ensures
      var gone := WithinFirst(t, ss, k);
      var t' := Prune(t, gone);
      && Inv(t') && Closed(t, gone)
      && WithinSet(t', ss[k]) !! gone && WithinFirst(t, ss, k + 1) == gone + WithinSet(t', ss[k])
      && Prune(t', WithinSet(t', ss[k])) == Prune(t, WithinFirst(t, ss, k + 1))
  {
    var gone := WithinFirst(t, ss, k);
    var t' := Prune(t, gone);
    PruneInv(t, gone);
    forall x | x in t'.entries
      ensures Within(t', x, ss[k]) <==> Within(t, x, ss[k])
    {
      WithinPruned(t, gone, x, ss[k]);
    }
    PruneTwice(t, gone, WithinSet(t', ss[k]));
  }

  lemma {:induction false} UnderFirstClosed(t: Tables, pool: Pool, s: Source, n: nat)
    requires Inv(t)
    ensures Closed(t, UnderFirst(t, pool, s, n))
  {
    if n > 0 {
      UnderFirstClosed(t, pool, s, n - 1);
      UnderClosed(t, Ref(pool, n));
    }
  }

  lemma UnderSetPruned(t: Tables, gone: set<Ref>, r: Ref)
    requires Inv(t) && Closed(t, gone)
    ensures Inv(Prune(t, gone)) && UnderSet(Prune(t, gone), r) == UnderSet(t, r) - gone
    ensures Prune(Prune(t, gone), UnderSet(Prune(t, gone), r)) == Prune(t, gone + UnderSet(t, r))
  {
    var t' := Prune(t, gone);
    PruneInv(t, gone);
    forall x | x in t'.entries
      ensures Under(t', x, r) <==> Under(t, x, r)
    {
      UnderPruned(t, gone, x, r);
    }
    PruneTwice(t, gone, UnderSet(t, r) - gone);
    assert gone + (UnderSet(t, r) - gone) == gone + UnderSet(t, r);
  }

  lemma UnderNext(t: Tables, pool: Pool, s: Source, n: nat)
    requires Inv(t)
    ensures
      var gone, r := UnderFirst(t, pool, s, n), Ref(pool, n + 1);
      var t' := Prune(t, gone);
      && Inv(t')
      && (if Elementary(t', r, s)
          then UnderSet(t', r) !! gone && UnderFirst(t, pool, s, n + 1) == gone + UnderSet(t', r)
               && Prune(t', UnderSet(t', r)) == Prune(t, UnderFirst(t, pool, s, n + 1))
          else UnderFirst(t, pool, s, n + 1) == gone)
  {
    var gone, r := UnderFirst(t, pool, s, n), Ref(pool, n + 1);
    UnderFirstClosed(t, pool, s, n);
    UnderSetPruned(t, gone, r);
    UnderNextCases(t, gone, UnderSet(t, r), r, s);
  }

  lemma UnderNextCases(t: Tables, gone: set<Ref>, below: set<Ref>, r: Ref, s: Source)
    requires Inv(t) && Closed(t, gone) && below == UnderSet(t, r)
    ensures Elementary(t, r, s) && r in gone ==> gone + below == gone
    ensures Elementary(Prune(t, gone), r, s) <==> Elementary(t, r, s) && r !in gone
    ensures gone + (below - gone) == gone + below
  {
    if r in gone {
      ClosedBelow(t, gone, r);
    }
  }

  lemma ClosedBelow(t: Tables, gone: set<Ref>, r: Ref)
    requires Inv(t) && Closed(t, gone) && r in gone
    ensures UnderSet(t, r) <= gone
  {
    forall x | x in UnderSet(t, r)
      ensures x in gone
    {
      ClosedUnder(t, gone, x, r);
    }
  }

  /** Releasing the elements of s one by one, over the two pools, releases all that is within s. */
  lemma WithinIsUnder(t: Tables, s: Source, n: nat, m: nat)
    requires Inv(t)
    requires forall r :: r in t.entries ==> r.number <= if r.pool == Handles then n else m
    ensures WithinSet(t, s) == UnderFirst(t, Handles, s, n) + UnderFirst(t, Resources, s, m)
  {
    forall x | x in t.entries
      ensures Within(t, x, s) <==> (x in UnderFirst(t, Handles, s, n) || x in UnderFirst(t, Resources, s, m))
    {
      if Within(t, x, s) {
        var y := WithinSomeElement(t, x, s);
        InUnderFirst(t, y.pool, s, if y.pool == Handles then n else m, x, y.number);
      } else {
        NotInUnderFirst(t, Handles, s, n, x);
        NotInUnderFirst(t, Resources, s, m, x);
      }
    }
    UnderFirstLive(t, Handles, s, n);
    UnderFirstLive(t, Resources, s, m);
  }

  lemma {:induction false} InUnderFirst(t: Tables, pool: Pool, s: Source, n: nat, x: Ref, k: nat)
    requires Inv(t) && 0 < k <= n && Elementary(t, Ref(pool, k), s) && x in UnderSet(t, Ref(pool, k))
    ensures x in UnderFirst(t, pool, s, n)
  {
    if k < n {
      InUnderFirst(t, pool, s, n - 1, x, k);
    }
  }

  lemma {:induction false} NotInUnderFirst(t: Tables, pool: Pool, s: Source, n: nat, x: Ref)
    requires Inv(t) && x in t.entries && !Within(t, x, s)
    ensures x !in UnderFirst(t, pool, s, n)
  {
    if n > 0 {
      NotInUnderFirst(t, pool, s, n - 1, x);
      if Elementary(t, Ref(pool, n), s) && Under(t, x, Ref(pool, n)) {
        WithinAnElement(t, x, Ref(pool, n));
      }
    }
  }

  lemma {:induction false} UnderFirstLive(t: Tables, pool: Pool, s: Source, n: nat)
    requires Inv(t)
    ensures UnderFirst(t, pool, s, n) <= t.entries.Keys
  {
    if n > 0 {
      UnderFirstLive(t, pool, s, n - 1);
    }
  }

  /** The second pool is scanned after the first: what is left of it is what the first did not take along. */
  lemma {:induction false} UnderFirstPruned(t: Tables, gone: set<Ref>, pool: Pool, s: Source, n: nat)
    requires Inv(t) && Closed(t, gone)
    ensures Inv(Prune(t, gone)) && UnderFirst(Prune(t, gone), pool, s, n) == UnderFirst(t, pool, s, n) - gone
  {
    PruneInv(t, gone);
    if n > 0 {
      UnderFirstPruned(t, gone, pool, s, n - 1);
      var r := Ref(pool, n);
      UnderSetPruned(t, gone, r);
      if r in gone {
        ClosedBelow(t, gone, r);
      }
    }
  }

  lemma {:induction false} ClosedUnder(t: Tables, gone: set<Ref>, x: Ref, y: Ref)
    requires Inv(t) && Closed(t, gone) && x in t.entries && y in gone && Under(t, x, y)
    ensures x in gone
    decreases SourceOf(t, x)
  {
    if x != y {
      ClosedUnder(t, gone, t.owner[SourceOf(t, x)], y);
    }
  }

  lemma MultisetUnion(a: set<Ref>, b: set<Ref>)
    requires a !! b
    ensures multiset(a + b) == multiset(a) + multiset(b)
  {
  }

  // -------------------------------------------------------------- lookups

  /** convert_from_wlc_handle and convert_from_wlc_resource: the element, if the number is live and of that type. */
  function Lookup(t: Tables, pool: Pool, number: nat, name: string): Option<Slot>
    requires Inv(t)
  {
    if number == 0 || Ref(pool, number) !in t.entries then None
    else
      var k := t.entries[Ref(pool, number)];
      if t.names[k.source] == name then Some(k) else None
  }

  /** convert_to_handle: the back-pointer stored in the element; NULL gives 0. */
  function BackPointer(t: Tables, k: Option<Slot>): nat
  {
    if k.Some? && k.value in t.slots then t.slots[k.value].number else 0
  }

  function Created(t: Tables, r: Ref, k: Slot): Tables {
    Tables(t.entries[r := k], t.slots[k := r], t.nested[r := []], t.owner, t.names)
  }

  /** wlc_source, inside the element r or in a static place. */
  function Initialised(t: Tables, name: string, inside: Option<Ref>): Tables {
    var s := |t.names|;
    if inside.Some? && inside.value in t.nested then
      t.(names := t.names + [name], nested := t.nested[inside.value := t.nested[inside.value] + [s]],
        owner := t.owner[s := inside.value])
    else t.(names := t.names + [name])
  }

  /** The sources a constructor initialises in its element, in order. */
  function Constructed(t: Tables, r: Ref, inner: seq<string>): Tables
    decreases |inner|
  {
    if inner == [] then t else Constructed(Initialised(t, inner[0], Some(r)), r, inner[1..])
  }

  predicate CanCreate(t: Tables, r: Ref, k: Slot) {
    r.number > 0 && r !in t.entries && k !in t.slots && k.source < |t.names|
  }

  lemma CreatedInv(t: Tables, r: Ref, k: Slot)
    requires Inv(t) && CanCreate(t, r, k)
    ensures Inv(Created(t, r, k))
  {
  }

  lemma InitialisedInv(t: Tables, name: string, inside: Option<Ref>)
    requires Inv(t) && (inside.Some? ==> inside.value in t.entries)
    ensures Inv(Initialised(t, name, inside))
  {
    var t' := Initialised(t, name, inside);
    forall s | s in t'.owner
      ensures s in t'.nested[t'.owner[s]]
    {
      if s == |t.names| {
        assert t'.nested[inside.value][|t.nested[inside.value]|] == s;
      } else {
        var i :| 0 <= i < |t.nested[t.owner[s]]| && t.nested[t.owner[s]][i] == s;
        assert t'.nested[t.owner[s]][i] == s;
      }
    }
  }

  lemma {:induction false} ConstructedInv(t: Tables, r: Ref, inner: seq<string>)
    requires Inv(t) && r in t.entries
    ensures Inv(Constructed(t, r, inner)) && Constructed(t, r, inner).entries == t.entries
    ensures Constructed(t, r, inner).slots == t.slots
    ensures |Constructed(t, r, inner).names| == |t.names| + |inner|
    decreases |inner|
  {
    if inner != [] {
      InitialisedInv(t, inner[0], Some(r));
      ConstructedInv(Initialised(t, inner[0], Some(r)), r, inner[1..]);
    }
  }

  /**
   An element made in a new source dies with itself, and with whatever dies with the element that
   the source is in; a source in a static place dies with nothing.
   */
  lemma NewSourceIsNested(t: Tables, name: string, inside: Option<Ref>, r: Ref, index: nat, y: Ref)
    requires Inv(t) && (inside.Some? ==> inside.value in t.entries) && r.number > 0 && r !in t.entries
    ensures
      var u := Created(Initialised(t, name, inside), r, Slot(|t.names|, index));
      Inv(u) && (Under(u, r, y) <==> r == y || (inside.Some? && Under(t, inside.value, y)))
  {
    var u := Created(Initialised(t, name, inside), r, Slot(|t.names|, index));
    NewSourceResolves(t, name, inside, r, index);
    assert SourceOf(u, r) == |t.names|;
    if inside.Some? { UnderGrows(t, u, inside.value, y); }
  }

  /** The element resolves under the name of the new source, which is in `inside` and nowhere else. */
  lemma NewSourceResolves(t: Tables, name: string, inside: Option<Ref>, r: Ref, index: nat)
    requires Inv(t) && (inside.Some? ==> inside.value in t.entries) && r.number > 0 && r !in t.entries
    ensures
      var u := Created(Initialised(t, name, inside), r, Slot(|t.names|, index));
      && Inv(u) && u.entries == t.entries[r := Slot(|t.names|, index)]
      && u.owner == (if inside.Some? then t.owner[|t.names| := inside.value] else t.owner) && |t.names| !in t.owner
      && (forall n :: Lookup(u, r.pool, r.number, n) == if n == name then Some(Slot(|t.names|, index)) else None)
  {
    var s := Initialised(t, name, inside);
    InitialisedInv(t, name, inside);
    FreshSlot(t, index);
    CreatedInv(s, r, Slot(|t.names|, index));
  }

  lemma FreshSlot(t: Tables, index: nat)
    requires Inv(t)
    ensures Slot(|t.names|, index) !in t.slots
  {
  }

  /** What is there already stays under what it was under. */
  lemma {:induction false} UnderGrows(t: Tables, u: Tables, x: Ref, y: Ref)
    requires Inv(t) && Inv(u) && x in t.entries
    requires forall r :: r in t.entries ==> r in u.entries && u.entries[r] == t.entries[r]
    requires forall s :: s < |t.names| ==> (s in u.owner <==> s in t.owner)
    requires forall s :: s in t.owner ==> s in u.owner && u.owner[s] == t.owner[s]
    ensures Under(u, x, y) <==> Under(t, x, y)
    decreases SourceOf(t, x)
  {
    if SourceOf(t, x) in t.owner { UnderGrows(t, u, t.owner[SourceOf(t, x)], y); }
  }

  // ------------------------------------------------------------------ runs

  datatype Operation =
    | InitSource(name: string)
    | Create(ref: Ref, slot: Slot, inner: seq<string>, constructed: bool)
    | Release(ref: Ref)
    | ReleaseSource(source: Source)

  predicate Allowed(t: Tables, o: Operation) {
    o.Create? ==> CanCreate(t, o.ref, o.slot)
  }

  function Apply(t: Tables, o: Operation): Tables
    requires Inv(t) && Allowed(t, o)
  {
    match o
    case InitSource(name) => Initialised(t, name, None)
    case Create(r, k, inner, constructed) => if constructed then Constructed(Created(t, r, k), r, inner) else t
    case Release(r) => Prune(t, UnderSet(t, r))
    case ReleaseSource(s) => Prune(t, WithinSet(t, s))
  }

  lemma ApplyInv(t: Tables, o: Operation)
    requires Inv(t) && Allowed(t, o)
    ensures Inv(Apply(t, o))
  {
    match o
    case InitSource(name) => InitialisedInv(t, name, None);
    case Create(r, k, inner, constructed) =>
      CreatedInv(t, r, k);
      ConstructedInv(Created(t, r, k), r, inner);
    case Release(r) => PruneInv(t, UnderSet(t, r));
    case ReleaseSource(s) => PruneInv(t, WithinSet(t, s));
  }

  ghost predicate AllowedRun(t: Tables, os: seq<Operation>)
    requires Inv(t)
    decreases |os|
  {
    os == [] || (Allowed(t, os[0]) && (ApplyInv(t, os[0]); AllowedRun(Apply(t, os[0]), os[1..])))
  }

  ghost function Run(t: Tables, os: seq<Operation>): (r: Tables)
    requires Inv(t) && AllowedRun(t, os)
    ensures Inv(r)
    decreases |os|
  {
    if os == [] then t else (ApplyInv(t, os[0]); Run(Apply(t, os[0]), os[1..]))
  }

  /**
   After any run, number to element and element to number are inverse: whatever a lookup
   finds has that number as its back-pointer, and every occupied slot is found by the
   number stored in it, under the name of its source and under no other.
   */
  lemma RunsStayBijective(t: Tables, os: seq<Operation>)
    requires Inv(t) && AllowedRun(t, os)
    ensures
      var r := Run(t, os);
      && (forall pool, number, name :: Lookup(r, pool, number, name).Some? ==>
        BackPointer(r, Lookup(r, pool, number, name)) == number)
      && (forall k, name :: k in r.slots ==>
            Lookup(r, r.slots[k].pool, BackPointer(r, Some(k)), name) ==
              if name == r.names[k.source] then Some(k) else None)
  {
  }

  /** A number that is not live stays dead until it is issued again. */
  lemma {:induction false} DeadStaysDead(t: Tables, os: seq<Operation>, r: Ref, name: string)
    requires Inv(t) && AllowedRun(t, os) && r !in t.entries
    requires forall o :: o in os && o.Create? ==> o.ref != r
    ensures Lookup(Run(t, os), r.pool, r.number, name) == None
    decreases |os|
  {
    if os != [] {
      ApplyInv(t, os[0]);
      if os[0].Create? {
        CreatedInv(t, os[0].ref, os[0].slot);
        ConstructedInv(Created(t, os[0].ref, os[0].slot), os[0].ref, os[0].inner);
      }
      DeadStaysDead(Apply(t, os[0]), os[1..], r, name);
    }
  }

  /** A release takes exactly what is below the released element; everything else resolves as before. */
  lemma ReleaseIsExact(t: Tables, r: Ref, x: Ref, name: string)
    requires Inv(t)
    ensures
      var t' := Apply(t, Release(r));
      && Inv(t')
      && Lookup(t', x.pool, x.number, name)
        == if x in t.entries && Under(t, x, r) then None else Lookup(t, x.pool, x.number, name)
  {
    ApplyInv(t, Release(r));
  }

  lemma SourceReleaseIsExact(t: Tables, s: Source, x: Ref, name: string)
    requires Inv(t)
    ensures
      var t' := Apply(t, ReleaseSource(s));
      && Inv(t')
      && Lookup(t', x.pool, x.number, name)
        == if x in t.entries && Within(t, x, s) then None else Lookup(t, x.pool, x.number, name)
  {
    ApplyInv(t, ReleaseSource(s));
  }
}
