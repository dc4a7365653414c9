/**
 Parent and child lists of surfaces: wlc_surface_set_parent, restacking among siblings,
 and what the destruction of a surface does to its neighbours.
 */
module SurfaceTree {

  /** A resource number; 0 is NULL. */
  type Id = nat

  datatype Tree = Tree(parent: map<Id, Id>, children: map<Id, seq<Id>>)

  /** The list without the first occurrence of s. */
  function Without(list: seq<Id>, s: Id): seq<Id> {
    if list == [] then [] else if list[0] == s then list[1..] else [list[0]] + Without(list[1..], s)
  }

  /** How often s is listed. */
  function Count(list: seq<Id>, s: Id): nat {
    if list == [] then 0 else (if list[0] == s then 1 else 0) + Count(list[1..], s)
  }

  /** Every surface is in the list of its parent, exactly once, and in no other list. */
  ghost predicate Consistent(t: Tree) {
    && 0 !in t.parent && t.children.Keys == t.parent.Keys
    && (forall s :: s in t.parent && t.parent[s] != 0 ==> t.parent[s] in t.parent)
    && (forall p, s {:trigger Count(t.children[p], s)} :: p in t.children ==>
      Count(t.children[p], s) == if s in t.parent && t.parent[s] == p then 1 else 0)
  }

  lemma {:induction false} CountWithout(list: seq<Id>, s: Id, c: Id)
    ensures Count(Without(list, s), c) == if c == s && Count(list, s) > 0 then Count(list, c) - 1 else Count(list, c)
  {
    if list != [] && list[0] != s {
      CountWithout(list[1..], s, c);
      assert ([list[0]] + Without(list[1..], s))[1..] == Without(list[1..], s);
    }
  }

  lemma {:induction false} CountAppend(a: seq<Id>, b: seq<Id>, c: Id)
    ensures Count(a + b, c) == Count(a, c) + Count(b, c)
  {
    if a == [] {
      assert a + b == b;
    } else {
      assert (a + b)[1..] == a[1..] + b;
      CountAppend(a[1..], b, c);
    }
  }

  lemma {:induction false} CountAt(list: seq<Id>, i: nat)
    requires i < |list|
    ensures Count(list, list[i]) > 0
  {
    if i > 0 {
      CountAt(list[1..], i - 1);
    }
  }

  lemma {:induction false} CountSome(list: seq<Id>, s: Id) returns (i: nat)
    requires Count(list, s) > 0
    ensures i < |list| && list[i] == s && forall j :: 0 <= j < i ==> list[j] != s
  {
    if list[0] == s {
      i := 0;
    } else {
      i := CountSome(list[1..], s);
      i := i + 1;
    }
  }

  lemma {:induction false} Twice(list: seq<Id>, i: nat, j: nat)
    requires i < j < |list| && list[i] == list[j]
    ensures Count(list, list[i]) >= 2
  {
    if i > 0 {
      Twice(list[1..], i - 1, j - 1);
    } else {
      CountAt(list[1..], j - 1);
    }
  }

  function Detached(t: Tree, s: Id): Tree
    requires s in t.parent
  {
    var p := t.parent[s];
    if p in t.children then Tree(t.parent[s := 0], t.children[p := Without(t.children[p], s)])
      else t.(parent := t.parent[s := 0])
  }

  /** wlc_surface_set_parent: leave the old list, enter the new one at the front. */
  function Reparented(t: Tree, s: Id, p: Id): Tree
    requires s in t.parent
  {
    if t.parent[s] == p then t
    else
      var d := Detached(t, s);
      if p in d.children then Tree(d.parent[s := p], d.children[p := [s] + d.children[p]]) else d
  }

  lemma DetachedConsistent(t: Tree, s: Id)
    requires Consistent(t) && s in t.parent
    ensures Consistent(Detached(t, s)) && Detached(t, s).parent == t.parent[s := 0]
  {
    var q := t.parent[s];
    if q == 0 {
      assert t.parent[s := 0] == t.parent;
    } else {
      forall c
        ensures Count(Without(t.children[q], s), c) == if c != s && c in t.parent && t.parent[c] == q then 1 else 0
      {
        CountWithout(t.children[q], s, c);
        assert Count(t.children[q], c) == if c in t.parent && t.parent[c] == q then 1 else 0;
        assert Count(t.children[q], s) == 1;
      }
      ShortenedConsistent(t, s, Without(t.children[q], s));
    }
  }

  lemma ShortenedConsistent(t: Tree, s: Id, list: seq<Id>)
    requires Consistent(t) && s in t.parent && t.parent[s] != 0
    requires forall c :: Count(list, c) == if c != s && c in t.parent && t.parent[c] == t.parent[s] then 1 else 0
    ensures Consistent(Tree(t.parent[s := 0], t.children[t.parent[s] := list]))
  {
  }

  lemma AttachedConsistent(t: Tree, s: Id, p: Id)
    requires Consistent(t) && s in t.parent && t.parent[s] == 0 && p in t.parent
    ensures Consistent(Tree(t.parent[s := p], t.children[p := [s] + t.children[p]]))
  {
    var a := Tree(t.parent[s := p], t.children[p := [s] + t.children[p]]);
    forall q, c | q in a.children
      ensures Count(a.children[q], c) == if c in a.parent && a.parent[c] == q then 1 else 0
    {
      CountAppend([s], t.children[p], c);
    }
  }

  lemma ReparentedConsistent(t: Tree, s: Id, p: Id)
    requires Consistent(t) && s in t.parent && (p == 0 || p in t.parent)
    ensures Consistent(Reparented(t, s, p)) && Reparented(t, s, p).parent[s] == p
  {
    DetachedConsistent(t, s);
    if t.parent[s] != p && p != 0 {
      AttachedConsistent(Detached(t, s), s, p);
    }
  }

  /**
   The parent a surface has already is no change at all.  A new one lists it before all its other
   children, the old one no longer does; nobody else's list and nobody's order changes.
   */
  lemma ReparentedExactly(t: Tree, s: Id, p: Id)
    requires Consistent(t) && s in t.parent && (p == 0 || p in t.parent)
    ensures
      var r := Reparented(t, s, p);
      && (t.parent[s] == p ==> r == t)
      && r.parent == t.parent[s := p] && r.children.Keys == t.children.Keys
      && (t.parent[s] != p && p != 0 ==> r.children[p] == [s] + t.children[p] && s !in t.children[p])
      && (t.parent[s] != p ==> forall q :: q in t.children && q != p ==> r.children[q] == Without(t.children[q], s))
  {
    if t.parent[s] == p {
      assert t.parent[s := p] == t.parent;
    } else {
      ReparentedLists(t, s, p);
      ListedOnce(t, s);
      if p != 0 { Unlisted(t, s, p); }
    }
  }

  /** Two lists change at most. */
  lemma ReparentedLists(t: Tree, s: Id, p: Id)
    requires s in t.parent && t.parent[s] != p && t.children.Keys == t.parent.Keys
    requires 0 !in t.parent && (p == 0 || p in t.parent)
    ensures
      var r, q := Reparented(t, s, p), t.parent[s];
      && r.parent == t.parent[s := p] && r.children.Keys == t.children.Keys
      && (p != 0 ==> r.children[p] == [s] + t.children[p])
      && (q in t.children ==> r.children[q] == Without(t.children[q], s))
      && (forall o :: o in t.children && o != p && o != q ==> r.children[o] == t.children[o])
  {
    assert t.parent[s := 0][s := p] == t.parent[s := p];
  }

  lemma Unlisted(t: Tree, s: Id, p: Id)
    requires Consistent(t) && s in t.parent && p in t.parent && t.parent[s] != p
    ensures s !in t.children[p]
  {
    if i :| 0 <= i < |t.children[p]| && t.children[p][i] == s {
      CountAt(t.children[p], i);
      assert false;
    }
  }

  // ---------------------------------------------------------------- acyclicity

  function ParentOf(t: Tree, s: Id): Id {
    if s in t.parent then t.parent[s] else 0
  }

  /** The k-th surface up from s. */
  function Up(t: Tree, s: Id, k: nat): Id
    decreases k
  {
    if k == 0 then s else Up(t, ParentOf(t, s), k - 1)
  }

  ghost predicate Acyclic(t: Tree) {
    forall s, k: nat :: s in t.parent && k > 0 ==> Up(t, s, k) != s
  }

  /** p is s, or lies below it. */
  ghost predicate Below(t: Tree, p: Id, s: Id) {
    exists k: nat :: Up(t, p, k) == s
  }

  lemma {:induction false} UpStep(t: Tree, s: Id, k: nat)
    ensures Up(t, s, k + 1) == ParentOf(t, Up(t, s, k))
    decreases k
  {
    if k > 0 {
      UpStep(t, ParentOf(t, s), k - 1);
    }
  }

  lemma {:induction false} UpSum(t: Tree, s: Id, j: nat, k: nat)
    ensures Up(t, s, j + k) == Up(t, Up(t, s, j), k)
    decreases j
  {
    if j > 0 {
      UpSum(t, ParentOf(t, s), j - 1, k);
    }
  }

  /** Until a path reaches s, it does not notice that s has a new parent. */
  lemma {:induction false} SamePath(t: Tree, u: Tree, s: Id, x: Id, k: nat)
    requires forall y :: y != s ==> ParentOf(u, y) == ParentOf(t, y)
    requires forall j: nat :: j < k ==> Up(t, x, j) != s
    ensures Up(u, x, k) == Up(t, x, k)
    decreases k
  {
    if k > 0 {
      SamePath(t, u, s, x, k - 1);
      UpStep(t, x, k - 1);
      UpStep(u, x, k - 1);
    }
  }

  /** The first time a path meets s, if it does. */
  lemma {:induction false} FirstMeeting(t: Tree, x: Id, s: Id, k: nat) returns (j: nat)
    requires Up(t, x, k) == s
    ensures j <= k && Up(t, x, j) == s && forall i: nat :: i < j ==> Up(t, x, i) != s
  {
    if i: nat :| i < k && Up(t, x, i) == s {
      j := FirstMeeting(t, x, s, i);
    } else {
      j := k;
    }
  }

  /**
   The code rejects only a surface as its own parent; a new parent keeps the tree acyclic
   exactly when it is not the surface itself or anything below it.
   */
  lemma ReparentedAcyclicIff(t: Tree, s: Id, p: Id)
    requires Consistent(t) && Acyclic(t) && s in t.parent && p in t.parent && t.parent[s] != p
    ensures Acyclic(Reparented(t, s, p)) <==> !Below(t, p, s)
  {
    var u := Reparented(t, s, p);
    assert forall y :: y != s ==> ParentOf(u, y) == ParentOf(t, y);
    if Below(t, p, s) {
      var k: nat :| Up(t, p, k) == s;
      var j := FirstMeeting(t, p, s, k);
      SamePath(t, u, s, p, j);
      assert Up(u, s, j + 1) == s;
    } else {
      forall x, k: nat | x in u.parent && k > 0
        ensures Up(u, x, k) != x
      {
        NoNewCycle(t, u, s, p, x, k);
      }
    }
  }

  lemma NoNewCycle(t: Tree, u: Tree, s: Id, p: Id, x: Id, k: nat)
    requires Acyclic(t) && x in t.parent && k > 0 && !Below(t, p, s)
    requires ParentOf(u, s) == p && forall y :: y != s ==> ParentOf(u, y) == ParentOf(t, y)
    ensures Up(u, x, k) != x
  {
    if i: nat :| i < k && Up(u, x, i) == s {
      if Up(u, x, k) == x {
        // From s to p, round to x, and up to s again: p would be below s.
        UpSum(u, x, i + 1, k - i - 1);
        UpStep(u, x, i);
        UpSum(u, p, k - i - 1, i);
        var j := FirstMeeting(u, p, s, k - 1);
        SamePath(u, t, s, p, j);
        assert false;
      }
    } else {
      SamePath(u, t, s, x, k);
    }
  }

  /** Two surfaces can be made each other's parent: the check for self-parenting does not see it. */
  lemma CycleExample()
    ensures
      var t := Tree(map[1 := 0, 2 := 0], map[1 := [], 2 := []]);
      var u := Reparented(Reparented(t, 1, 2), 2, 1);
      Consistent(u) && !Acyclic(u)
  {
    var t := Tree(map[1 := 0, 2 := 0], map[1 := [], 2 := []]);
    ReparentedConsistent(t, 1, 2);
    var m := Reparented(t, 1, 2);
    ReparentedConsistent(m, 2, 1);
    var u := Reparented(m, 2, 1);
    assert ParentOf(u, 1) == 2 && ParentOf(u, 2) == 1;
    assert Up(u, 1, 2) == Up(u, 2, 1) == Up(u, 1, 0) == 1;
  }

  // --------------------------------------------------------------- restacking

  /**
   The list after moving s next to its sibling: in front of it for offset 0, which is
   place_above, behind it for offset 1, which is place_below.  A surface placed relative to
   itself counts from its old place.
   */
  function Moved(list: seq<Id>, s: Id, sibling: Id, offset: nat): seq<Id>
    requires offset <= 1
  {
    var rest := Without(list, s);
    var i := (if s == sibling then IndexOf(list, s) else IndexOf(rest, sibling)) + offset;
    if i <= |rest| then rest[..i] + [s] + rest[i..] else list
  }

  /** Where s is listed first, or the length of the list. */
  function IndexOf(list: seq<Id>, s: Id): (i: nat)
    ensures i <= |list|
  {
    if list == [] || list[0] == s then 0 else 1 + IndexOf(list[1..], s)
  }

  lemma {:induction false} IndexIs(list: seq<Id>, s: Id, i: nat)
    requires i < |list| && list[i] == s && forall j :: 0 <= j < i ==> list[j] != s
    ensures IndexOf(list, s) == i && Without(list, s) == list[..i] + list[i + 1..]
  {
    if i == 0 {
      assert list[..0] + list[1..] == list[1..];
    } else {
      var tail := list[1..];
      assert forall j :: 0 <= j < i - 1 ==> tail[j] == list[j + 1];
      IndexIs(tail, s, i - 1);
      Prepended(list, i);
    }
  }

  lemma Prepended(list: seq<Id>, i: nat)
    requires 0 < i < |list|
    ensures [list[0]] + (list[1..][..i - 1] + list[1..][i..]) == list[..i] + list[i + 1..]
  {
    assert list[1..][i..] == list[i + 1..];
    assert [list[0]] + list[1..][..i - 1] == list[..i];
  }

  lemma OnlyAt(list: seq<Id>, s: Id, i: nat)
    requires i < |list| && list[i] == s && Count(list, s) == 1
    ensures IndexOf(list, s) == i && Without(list, s) == list[..i] + list[i + 1..]
  {
    forall j | 0 <= j < i
      ensures list[j] != s
    {
      if list[j] == s {
        Twice(list, j, i);
      }
    }
    IndexIs(list, s, i);
  }

  /**
   Restacking moves one surface and nothing else: the others keep their order, and s is next to
   its sibling in the list, right before it if placed above, right behind it if placed below.
   */
  lemma MovedIsRestacked(list: seq<Id>, s: Id, sibling: Id, offset: nat)
    requires Count(list, s) == 1 && Count(list, sibling) == 1 && s != sibling && offset <= 1
    ensures
      var m := Moved(list, s, sibling, offset);
      && (forall c :: Count(m, c) == Count(list, c)) && Without(m, s) == Without(list, s)
      && (if offset == 0 then IndexOf(m, s) + 1 == IndexOf(m, sibling) else IndexOf(m, s) == IndexOf(m, sibling) + 1)
  {
    var rest, m := Without(list, s), Moved(list, s, sibling, offset);
    CountWithout(list, s, sibling);
    CountWithout(list, s, s);
    var i := CountSome(rest, sibling);
    IndexIs(rest, sibling, i);
    Inserted(rest, s, i + offset);
    assert m[if offset == 0 then i + 1 else i] == sibling;
    IndexIs(m, sibling, if offset == 0 then i + 1 else i);
    InsertedCounts(list, s, i + offset);
  }

  lemma InsertedCounts(list: seq<Id>, s: Id, at: nat)
    requires Count(list, s) == 1 && at <= |Without(list, s)|
    ensures var rest := Without(list, s); forall c :: Count(rest[..at] + [s] + rest[at..], c) == Count(list, c)
  {
    var rest := Without(list, s);
    forall c
      ensures Count(rest[..at] + [s] + rest[at..], c) == Count(list, c)
    {
      CountInserted(rest, s, at, c);
      CountWithout(list, s, c);
    }
  }

  /** Placed above itself a surface stays; placed below itself it changes places with the one behind it. */
  lemma MovedPastItself(list: seq<Id>, s: Id, offset: nat)
    requires Count(list, s) == 1 && offset <= 1 && IndexOf(list, s) + offset < |list|
    ensures
      var i, m := IndexOf(list, s), Moved(list, s, s, offset);
      m == (if offset == 0 then list else list[i := list[i + 1]][i + 1 := s])
  {
    var i := CountSome(list, s);
    OnlyAt(list, s, i);
    if offset == 0 { PutBack(list, i); } else { PutBehind(list, i); }
  }

  lemma PutBack(list: seq<Id>, i: nat)
    requires i < |list|
    ensures var rest := list[..i] + list[i + 1..]; rest[..i] + [list[i]] + rest[i..] == list
  {
    var rest := list[..i] + list[i + 1..];
    assert rest[..i] == list[..i] && rest[i..] == list[i + 1..];
  }

  lemma PutBehind(list: seq<Id>, i: nat)
    requires i + 1 < |list|
    ensures
      var rest := list[..i] + list[i + 1..];
      rest[..i + 1] + [list[i]] + rest[i + 1..] == list[i := list[i + 1]][i + 1 := list[i]]
  {
    var rest := list[..i] + list[i + 1..];
    assert rest[..i + 1] == list[..i] + [list[i + 1]] && rest[i + 1..] == list[i + 2..];
  }

  lemma Inserted(rest: seq<Id>, s: Id, at: nat)
    requires at <= |rest| && Count(rest, s) == 0
    ensures
      var m := rest[..at] + [s] + rest[at..];
      IndexOf(m, s) == at && Without(m, s) == rest
  {
    var m := rest[..at] + [s] + rest[at..];
    forall j | 0 <= j < at
      ensures m[j] != s
    {
      CountAt(rest, j);
    }
    IndexIs(m, s, at);
    assert m[..at] + m[at + 1..] == rest;
  }

  lemma CountInserted(rest: seq<Id>, s: Id, at: nat, c: Id)
    requires at <= |rest|
    ensures Count(rest[..at] + [s] + rest[at..], c) == Count(rest, c) + if c == s then 1 else 0
  {
    CountAppend(rest[..at], [s], c);
    CountAppend(rest[..at] + [s], rest[at..], c);
    CountAppend(rest[..at], rest[at..], c);
    assert rest[..at] + rest[at..] == rest;
  }

  // ------------------------------------------------------------------ the code

  class Compositor {
    var parent: map<Id, Id>
    var children: map<Id, seq<Id>>
    /** All surfaces, in the order of their pool. */
    var surfaces: seq<Id>

    constructor ()
      ensures Valid() && View() == Tree(map[], map[])
    {
      parent, children, surfaces := map[], map[], [];
    }

    function View(): Tree
      reads this
    {
      Tree(parent, children)
    }

    ghost predicate Valid()
      reads this
    {
      Consistent(View()) && forall s :: s in parent <==> s in surfaces
    }

    /** A new surface, which has no parent and no children; its number is one that is not in use. */
    method CreateSurface(s: Id)
      requires Valid() && s != 0 && s !in parent
      modifies this
      ensures Valid() && View() == Tree(old(parent)[s := 0], old(children)[s := []])
      ensures surfaces == old(surfaces) + [s]
    {
      GrownConsistent(View(), s);
      parent, children, surfaces := parent[s := 0], children[s := []], surfaces + [s];
    }

    /** wl_cb_subcompositor_get_subsurface: refuses a surface that would be its own parent. */
    method GetSubsurface(s: Id, p: Id) returns (accepted: bool)
      requires Valid() && s in parent && p in parent
      modifies this`parent, this`children
      ensures Valid() && (accepted <==> s != p)
      ensures View() == if s == p then old(View()) else Reparented(old(View()), s, p)
    {
      if s == p {
        return false;
      }
      SetParent(s, p);
      return true;
    }

    /** wlc_surface_set_parent. */
    method SetParent(s: Id, p: Id)
      requires Valid() && s in parent && (p == 0 || p in parent)
      modifies this`parent, this`children
      ensures Valid() && View() == Reparented(old(View()), s, p)
    {
      ReparentedConsistent(View(), s, p);
      if parent[s] == p {
        return;
      }
      var q := parent[s];
      if q in children {
        var list := RemoveFirst(children[q], s);
        children := children[q := list];
      }
      LastWrites(old(View()), children, s, p);
      if p in children {
        children := children[p := [s] + children[p]];
        parent := parent[s := p];
      } else {
        parent := parent[s := 0];
      }
    }

    /**
     restack_subsurface_relative_to.  The surface must have a parent, because the code follows
     it unchecked; and placing the last surface below itself inserts past the end of the list.
     */
    method Restack(s: Id, sibling: Id, offset: nat)
      requires Valid() && s in parent && parent[s] != 0 && offset <= 1
      requires s == sibling ==> IndexOf(children[parent[s]], s) + offset < |children[parent[s]]|
      modifies this`children
      ensures Valid()
      ensures sibling !in old(children)[parent[s]] ==> children == old(children)
      ensures sibling in old(children)[parent[s]] ==>
        children == old(children)[parent[s] := Moved(old(children)[parent[s]], s, sibling, offset)]
    {
      var p := parent[s];
      var list := children[p];
      var from, to := FindBoth(list, s, sibling);
      if from == |list| || to == |list| {
        AbsentListed(list, s);
        return;
      }
      CountAt(list, to);
      assert Count(children[p], sibling) == 1 && Count(children[p], s) == 1;
      OnlyAt(list, s, from);
      OnlyAt(list, sibling, to);
      var moved := Move(list, s, sibling, from, to, offset);
      RestackedCounts(list, s, sibling, offset);
      children := children[p := moved];
    }

    /** One round of the loop below. */
    method LetGo(s: Id, d: Id)
      requires Valid() && s in parent && d in parent
      modifies this`parent, this`children
      ensures Valid() && parent == if old(parent)[s] == d then old(parent)[s := 0] else old(parent)
      ensures children.Keys == old(children).Keys && forall p :: p in children && p != d ==>
        children[p] == old(children)[p]
    {
      if parent[s] == d {
        OrphanEffect(View(), s);
        SetParent(s, 0);
      }
    }

    /** The destroyed branch of surface_event: every child of d becomes parentless. */
    method Orphan(d: Id)
      requires Valid() && d in parent
      modifies this`parent, this`children
      ensures Valid() && parent.Keys == old(parent.Keys)
      ensures forall s :: s in parent ==> parent[s] == if old(parent[s]) == d then 0 else old(parent[s])
      ensures forall p :: p in children && p != d ==> children[p] == old(children)[p]
    {
      var i := 0;
      while i < |surfaces|
        invariant 0 <= i <= |surfaces| && Valid() && parent.Keys == old(parent.Keys)
        invariant forall s :: s in parent ==> parent[s] == old(parent[s]) || (old(parent[s]) == d && parent[s] == 0)
        invariant forall j :: 0 <= j < i ==> parent[surfaces[j]] != d
        invariant forall p :: p in children && p != d ==> children[p] == old(children)[p]
      {
        assert surfaces[i] in parent;
        LetGo(surfaces[i], d);
        i := i + 1;
      }
    }

    /**
     wlc_surface_release: the children are let go before the list is walked to release
     them, so none of them dies, and nobody mentions the dead surface any more.
     */
    method Destroy(d: Id)
      requires Valid() && d in parent
      modifies this
      ensures Valid() && parent.Keys == old(parent.Keys) - {d}
      ensures forall s :: s in parent ==> parent[s] == if old(parent[s]) == d then 0 else old(parent[s])
      ensures forall p :: p in children ==> children[p] == Without(old(children)[p], d)
    {
      Orphan(d);
      ghost var t := View();
      SetParent(d, 0);
      DestroyEffect(old(View()), t, d);
      // The walk over the list of children, which would release them, finds none.
      assert children[d] == [];
      parent, children := parent - {d}, children - {d};
      surfaces := Remaining(surfaces, d);
    }
  }

  lemma GrownConsistent(t: Tree, s: Id)
    requires Consistent(t) && s != 0 && s !in t.parent
    ensures Consistent(Tree(t.parent[s := 0], t.children[s := []]))
  {
    var u := Tree(t.parent[s := 0], t.children[s := []]);
    forall p, c | p in u.children
      ensures Count(u.children[p], c) == if c in u.parent && u.parent[c] == p then 1 else 0
    {
      if p != s {
        assert Count(t.children[p], c) == if c in t.parent && t.parent[c] == p then 1 else 0;
      }
    }
  }

  /** From before to after letting go of the children, leaving the parent and going. */
  lemma DestroyEffect(t0: Tree, t: Tree, d: Id)
    requires Consistent(t0) && Consistent(t) && d in t0.parent && t.parent.Keys == t0.parent.Keys
    requires forall s :: s in t.parent ==> t.parent[s] == if t0.parent[s] == d then 0 else t0.parent[s]
    requires forall p :: p in t.children && p != d ==> t.children[p] == t0.children[p]
    ensures
      var u := Reparented(t, d, 0);
      var r := Tree(u.parent - {d}, u.children - {d});
      && Consistent(r) && r.parent.Keys == t0.parent.Keys - {d} && u.children[d] == []
      && (forall s :: s in r.parent ==> r.parent[s] == if t0.parent[s] == d then 0 else t0.parent[s])
      && (forall p :: p in r.children ==> r.children[p] == Without(t0.children[p], d))
  {
    ReparentedConsistent(t, d, 0);
    var u := Reparented(t, d, 0);
    LeaveEffect(t, d);
    Childless(u, d);
    RemovedConsistent(u, d);
    ListedOnce(t, d);
  }

  /** Leaving one's parent takes one out of every list. */
  lemma LeaveEffect(t: Tree, d: Id)
    requires Consistent(t) && d in t.parent
    ensures
      var u := Reparented(t, d, 0);
      u.parent == t.parent[d := 0] && u.children.Keys == t.children.Keys && forall p :: p in t.children ==>
        u.children[p] == Without(t.children[p], d)
  {
    ListedOnce(t, d);
  }

  lemma OrphanEffect(t: Tree, s: Id)
    requires Consistent(t) && s in t.parent && t.parent[s] != 0
    ensures
      var r := Reparented(t, s, 0);
      && r.parent == t.parent[s := 0] && r.children.Keys == t.children.Keys
      && forall p :: p in t.children && p != t.parent[s] ==> r.children[p] == t.children[p]
  {
  }

  /** The code writes the parent only once, at the end. */
  lemma LastWrites(t: Tree, children: map<Id, seq<Id>>, s: Id, p: Id)
    requires s in t.parent && t.parent[s] != p
    requires children == if t.parent[s] in t.children
      then t.children[t.parent[s] := Without(t.children[t.parent[s]], s)] else t.children
    ensures Reparented(t, s, p) == if p in children then Tree(t.parent[s := p], children[p := [s] + children[p]])
      else Tree(t.parent[s := 0], children)
  {
    assert t.parent[s := 0][s := p] == t.parent[s := p];
  }

  /** The loop of set_parent over the old parent's list. */
  method RemoveFirst(list: seq<Id>, s: Id) returns (r: seq<Id>)
    ensures r == Without(list, s)
  {
    var i := 0;
    while i < |list| && list[i] != s
      invariant 0 <= i <= |list| && forall j :: 0 <= j < i ==> list[j] != s
    {
      i := i + 1;
    }
    if i < |list| {
      IndexIs(list, s, i);
      return list[..i] + list[i + 1..];
    }
    WithoutMissing(list, s);
    return list;
  }

  /** The loop of restacking: where s and its sibling are, or the length of the list. */
  method FindBoth(list: seq<Id>, s: Id, sibling: Id) returns (from: nat, to: nat)
    ensures if s in list then from < |list| && list[from] == s else from == |list|
    ensures if sibling in list then to < |list| && list[to] == sibling else to == |list|
  {
    from, to := |list|, |list|;
    var i := 0;
    while i < |list|
      invariant 0 <= i <= |list|
      invariant if s in list[..i] then from < i && list[from] == s else from == |list|
      invariant if sibling in list[..i] then to < i && list[to] == sibling else to == |list|
    {
      if list[i] == s {
        from := i;
      }
      if list[i] == sibling {
        to := i;
      }
      i := i + 1;
    }
    assert list[..i] == list;
  }

  /** chck_iter_pool_remove and chck_iter_pool_insert, with the target adjusted for the removal. */
  method Move(list: seq<Id>, s: Id, sibling: Id, from: nat, to: nat, offset: nat) returns (r: seq<Id>)
    requires Count(list, s) == 1 && Count(list, sibling) == 1
    requires from < |list| && to < |list| && list[from] == s && list[to] == sibling && offset <= 1
    requires s == sibling ==> to + offset < |list|
    ensures r == Moved(list, s, sibling, offset)
  {
    OnlyAt(list, s, from);
    if s == sibling {
      OnlyAt(list, s, to);
      var others := list[..from] + list[from + 1..];
      return others[..to + offset] + [s] + others[to + offset..];
    }
    var target := if from < to then to - 1 else to;
    var rest := list[..from] + list[from + 1..];
    CountWithout(list, s, sibling);
    TargetAt(list, from, to);
    assert rest == Without(list, s);
    OnlyAt(rest, sibling, target);
    r := rest[..target + offset] + [s] + rest[target + offset..];
  }

  lemma TargetAt(list: seq<Id>, from: nat, to: nat)
    requires from < |list| && to < |list| && from != to
    ensures (list[..from] + list[from + 1..])[if from < to then to - 1 else to] == list[to]
  {
  }

  lemma RestackedCounts(list: seq<Id>, s: Id, sibling: Id, offset: nat)
    requires Count(list, s) == 1 && Count(list, sibling) == 1 && offset <= 1
    requires s == sibling ==> IndexOf(list, s) + offset < |list|
    ensures forall c :: Count(Moved(list, s, sibling, offset), c) == Count(list, c)
  {
    if s == sibling {
      var i := CountSome(list, s);
      OnlyAt(list, s, i);
      InsertedCounts(list, s, i + offset);
    } else {
      MovedIsRestacked(list, s, sibling, offset);
    }
  }

  lemma AbsentListed(list: seq<Id>, s: Id)
    requires Count(list, s) == 1
    ensures s in list
  {
    var i := CountSome(list, s);
  }

  lemma Childless(t: Tree, d: Id)
    requires Consistent(t) && d in t.parent && forall s :: s in t.parent ==> t.parent[s] != d
    ensures t.children[d] == []
  {
    forall c
      ensures Count(t.children[d], c) == 0
    {
    }
    NothingCounted(t.children[d]);
  }

  lemma NothingCounted(list: seq<Id>)
    requires forall c :: Count(list, c) == 0
    ensures list == []
  {
    assert list != [] ==> Count(list, list[0]) > 0;
  }

  /** Only the old parent of d lists it. */
  lemma ListedOnce(t: Tree, d: Id)
    requires Consistent(t) && d in t.parent
    ensures forall p :: p in t.children && p != t.parent[d] ==> Without(t.children[p], d) == t.children[p]
  {
    forall p | p in t.children && p != t.parent[d]
      ensures Without(t.children[p], d) == t.children[p]
    {
      forall j | 0 <= j < |t.children[p]|
        ensures t.children[p][j] != d
      {
        CountAt(t.children[p], j);
      }
      WithoutMissing(t.children[p], d);
    }
  }

  lemma {:induction false} WithoutMissing(list: seq<Id>, d: Id)
    requires forall j :: 0 <= j < |list| ==> list[j] != d
    ensures Without(list, d) == list
  {
    if list != [] {
      WithoutMissing(list[1..], d);
    }
  }

  /** A surface without parent and children can go. */
  lemma RemovedConsistent(t: Tree, d: Id)
    requires Consistent(t) && d in t.parent && t.parent[d] == 0 && forall s :: s in t.parent ==> t.parent[s] != d
    ensures Consistent(Tree(t.parent - {d}, t.children - {d}))
  {
  }

  function Remaining(list: seq<Id>, d: Id): (r: seq<Id>)
    ensures forall s :: s in r <==> s in list && s != d
  {
    if list == [] then [] else if list[0] == d then Remaining(list[1..], d) else [list[0]] + Remaining(list[1..], d)
  }
}
