/**
 The order of frame callbacks: a surface's callbacks are answered in the order of their
 requests exactly as long as those that wait are all in one output's queue.
 */
module FrameCallbacksOrder {
  import opened FrameCallbacks

  /** The callbacks of surface s in a list. */
  function Of(list: seq<Callback>, s: Id): seq<Callback> {
    if list == [] then [] else (if list[0].surface == s then [list[0]] else []) + Of(list[1..], s)
  }

  lemma {:induction false} OfAppend(a: seq<Callback>, b: seq<Callback>, s: Id)
    ensures Of(a + b, s) == Of(a, s) + Of(b, s)
  {
    if a == [] {
      assert a + b == b;
      assert Of(a, s) + Of(b, s) == Of(b, s);
    } else {
      var h := if a[0].surface == s then [a[0]] else [];
      OfAppend(a[1..], b, s);
      assert (a + b)[0] == a[0] && (a + b)[1..] == a[1..] + b;
      assert h + (Of(a[1..], s) + Of(b, s)) == (h + Of(a[1..], s)) + Of(b, s);
    }
  }

  lemma {:induction false} OfOwn(list: seq<Callback>, s: Id, t: Id)
    requires forall a :: a in list ==> a.surface == s
    ensures Of(list, t) == if s == t then list else []
  {
    if list != [] {
      OfOwn(list[1..], s, t);
    }
  }

  /** No output but o has a callback of s waiting. */
  ghost predicate OnlyAt(c: Callbacks, s: Id, o: Id) {
    forall p :: p != o ==> Of(Queue(c, p), s) == []
  }

  /**
   What was answered for s, then what waits for output o, then what is committed, then what is
   pending, is exactly what was requested, in that order.
   */
  ghost predicate InLine(c: Callbacks, s: Id, o: Id)
    requires s in c.committed && s in c.pending && s in c.issued
  {
    && OnlyAt(c, s, o)
    && Of(c.sent, s) + Of(Queue(c, o), s) + c.committed[s] + c.pending[s] == c.issued[s]
  }

  ghost predicate InOrder(c: Callbacks, s: Id) {
    s in c.issued ==> s in c.committed && s in c.pending && exists o :: InLine(c, s, o)
  }

  /** All that s has waiting is in the queue of o, or s has nothing to add to that queue. */
  ghost predicate Together(c: Callbacks, s: Id, o: Id) {
    s in c.committed && c.committed[s] != [] ==> OnlyAt(c, s, o)
  }

  lemma InOrderPrefix(c: Callbacks, s: Id)
    requires InOrder(c, s) && s in c.issued
    ensures Of(c.sent, s) <= c.issued[s]
  {
    var o :| InLine(c, s, o);
  }

  /** When all that waits is in one queue, it is in any line that fits. */
  lemma LineAt(c: Callbacks, s: Id, p: Id, o: Id)
    requires Listed(c) && s in c.issued && InLine(c, s, p) && OnlyAt(c, s, o)
    ensures InLine(c, s, o)
  {
    if p != o { assert Of(Queue(c, p), s) == [] == Of(Queue(c, o), s); }
  }

  lemma CollectOther(c: Callbacks, s: Id, t: Id, o: Id, p: Id)
    requires Inv(c) && s in c.issued && t in c.issued && s != t
    ensures Of(Queue(Collect(c, t, o), p), s) == Of(Queue(c, p), s)
  {
    if p == o {
      PendingOwn(c, t);
      OfAppend(Queue(c, o), c.committed[t], s);
      OfOwn(c.committed[t], t, s);
    }
  }

  lemma CollectOthersLine(c: Callbacks, s: Id, t: Id, o: Id, p: Id)
    requires Inv(c) && s in c.issued && s != t && InLine(c, s, p)
    ensures InLine(Collect(c, t, o), s, p)
  {
    var r := Collect(c, t, o);
    if t in c.issued {
      forall q ensures Of(Queue(r, q), s) == Of(Queue(c, q), s) { CollectOther(c, s, t, o, q); }
    }
  }

  lemma CollectOwnLine(c: Callbacks, s: Id, o: Id)
    requires Inv(c) && s in c.issued && InLine(c, s, o)
    ensures InLine(Collect(c, s, o), s, o)
  {
    var r := Collect(c, s, o);
    PendingOwn(c, s);
    OfAppend(Queue(c, o), c.committed[s], s);
    OfOwn(c.committed[s], s, s);
    Shift(Of(c.sent, s), Of(Queue(c, o), s), c.committed[s], c.pending[s]);
    forall q | q != o ensures Of(Queue(r, q), s) == [] { assert Queue(r, q) == Queue(c, q); }
  }

  lemma CollectNothing(c: Callbacks, s: Id, o: Id, p: Id)
    requires Inv(c) && s in c.issued && InLine(c, s, p) && c.committed[s] == []
    ensures InLine(Collect(c, s, o), s, p)
  {
    var r := Collect(c, s, o);
    forall q ensures Queue(r, q) == Queue(c, q) { assert Queue(c, o) + [] == Queue(c, o); }
  }

  lemma CollectOrder(c: Callbacks, s: Id, t: Id, o: Id)
    requires Inv(c) && s in c.issued && InOrder(c, s) && (s == t ==> Together(c, s, o))
    ensures InOrder(Collect(c, t, o), s)
  {
    var p :| InLine(c, s, p);
    if s != t {
      CollectOthersLine(c, s, t, o, p);
    } else if c.committed[s] == [] {
      CollectNothing(c, s, o, p);
    } else {
      LineAt(c, s, p, o);
      CollectOwnLine(c, s, o);
    }
  }

  lemma Shift(a: seq<Callback>, b: seq<Callback>, x: seq<Callback>, y: seq<Callback>)
    ensures a + b + x + y == a + (b + x) + [] + y
    ensures a + b + x + y == a + b + (x + y) + []
  {
  }

  /** Answering one callback moves it from the head of the line to what was answered. */
  lemma AnswerSends(c: Callbacks, s: Id, o: Id)
    requires Inv(c) && s in c.issued && Queue(c, o) != []
    ensures
      var r := AnswerOne(c, o);
      && Of(r.sent, s) + Of(Queue(r, o), s) == Of(c.sent, s) + Of(Queue(c, o), s)
      && (forall p :: p != o ==> Queue(r, p) == Queue(c, p))
  {
    var r, a := AnswerOne(c, o), Queue(c, o)[0];
    HeadLives(c, o);
    OfAppend(c.sent, [a], s);
    OfAppend([a], Queue(r, o), s);
    assert Queue(c, o) == [a] + Queue(r, o);
    assert Of([a], s) == if a.surface == s then [a] else [];
    assert a !in c.live ==> a.surface != s;
  }

  lemma AnswerOther(c: Callbacks, s: Id, o: Id)
    requires Inv(c) && s in c.issued && Queue(c, o) != [] && Of(Queue(c, o), s) == []
    ensures var r := AnswerOne(c, o); Of(Queue(r, o), s) == [] && Of(r.sent, s) == Of(c.sent, s)
  {
    var r, a := AnswerOne(c, o), Queue(c, o)[0];
    OfAppend([a], Queue(r, o), s);
    assert Queue(c, o) == [a] + Queue(r, o);
    OfAppend(c.sent, [a], s);
    assert Of([a], s) == [];
  }

  lemma AnswerLine(c: Callbacks, s: Id, o: Id, p: Id)
    requires Inv(c) && s in c.issued && Queue(c, o) != [] && InLine(c, s, p)
    ensures InLine(AnswerOne(c, o), s, p)
  {
    AnswerSends(c, s, o);
    if p != o { AnswerOther(c, s, o); }
  }

  lemma CommitLine(c: Callbacks, s: Id, t: Id, p: Id)
    requires Inv(c) && s in c.issued && InLine(c, s, p)
    ensures InLine(Commit(c, t), s, p)
  {
    var r := Commit(c, t);
    forall q ensures Queue(r, q) == Queue(c, q) {}
    Shift(Of(c.sent, s), Of(Queue(c, p), s), c.committed[s], c.pending[s]);
  }

  lemma RequestLine(c: Callbacks, s: Id, t: Id, p: Id)
    requires Inv(c) && s in c.issued && t in c.issued && InLine(c, s, p)
    ensures InLine(Request(c, t), s, p)
  {
    var r, a := Request(c, t), Callback(t, c.next);
    forall q ensures Queue(r, q) == Queue(c, q) {}
    if s == t {
      var front := Of(c.sent, s) + Of(Queue(c, p), s) + c.committed[s];
      assert front + (c.pending[s] + [a]) == (front + c.pending[s]) + [a];
    }
  }

  lemma {:induction false} OfNone(list: seq<Callback>, s: Id)
    requires forall a :: a in list ==> a.surface != s
    ensures Of(list, s) == []
  {
    if list != [] {
      OfNone(list[1..], s);
    }
  }

  lemma CreateOrder(c: Callbacks, s: Id, t: Id)
    requires Inv(c) && Unused(c, t) && s in Create(c, t).issued && (s != t ==> InOrder(c, s))
    ensures InOrder(Create(c, t), s)
  {
    var r := Create(c, t);
    forall q ensures Queue(r, q) == Queue(c, q) {}
    if s == t {
      forall a | a in c.sent ensures a.surface != s { assert IsAt(c, a, Answered); }
      OfNone(c.sent, s);
      forall q ensures Of(Queue(r, q), s) == [] {
        forall a | a in Queue(c, q) ensures a.surface != s { assert IsAt(c, a, Waiting(q)); }
        OfNone(Queue(c, q), s);
      }
      assert InLine(r, s, 0);
    } else {
      var p :| InLine(c, s, p);
      assert InLine(r, s, p);
    }
  }

  lemma DestroyOrder(c: Callbacks, s: Id, t: Id)
    requires Inv(c) && s in c.issued && s != t && InOrder(c, s)
    ensures InOrder(Destroy(c, t), s)
  {
    var r := Destroy(c, t);
    var p :| InLine(c, s, p);
    forall q ensures Queue(r, q) == Queue(c, q) {}
    assert InLine(r, s, p);
  }

  // -------------------------------------------------------------- whole runs

  /** Each surface in turn has all its waiting callbacks in the queue it is collected into. */
  ghost predicate TogetherAll(c: Callbacks, ids: seq<Id>, o: Id)
    decreases |ids|
  {
    ids != [] ==> Together(c, ids[0], o) && TogetherAll(Collect(c, ids[0], o), ids[1..], o)
  }

  ghost predicate TogetherRun(c: Callbacks, es: seq<Event>)
    requires PossibleRun(c, es)
    decreases |es|
  {
    es != [] ==>
      && (es[0].Rendered? || es[0].Flushed? ==> TogetherAll(c, Collected(es[0]), es[0].output))
      && TogetherRun(Step(c, es[0]), es[1..])
  }

  lemma {:induction false} CollectAllOrder(c: Callbacks, ids: seq<Id>, o: Id, s: Id)
    requires Inv(c) && s in c.issued && InOrder(c, s) && TogetherAll(c, ids, o)
    ensures InOrder(CollectAll(c, ids, o), s)
    decreases |ids|
  {
    if ids != [] {
      CollectInv(c, ids[0], o);
      CollectOrder(c, s, ids[0], o);
      CollectAllOrder(Collect(c, ids[0], o), ids[1..], o, s);
    }
  }

  lemma {:induction false} CommitAllOrder(c: Callbacks, ids: seq<Id>, s: Id)
    requires Inv(c) && s in c.issued && InOrder(c, s)
    ensures InOrder(CommitAll(c, ids), s)
    decreases |ids|
  {
    if ids != [] {
      var p :| InLine(c, s, p);
      CommitInv(c, ids[0]);
      CommitLine(c, s, ids[0], p);
      CommitAllOrder(Commit(c, ids[0]), ids[1..], s);
    }
  }

  lemma {:induction false} AnswerAllOrder(c: Callbacks, o: Id, s: Id)
    requires Inv(c) && s in c.issued && InOrder(c, s)
    ensures InOrder(AnswerAll(c, o), s)
    decreases |Queue(c, o)|
  {
    if Queue(c, o) != [] {
      var p :| InLine(c, s, p);
      AnswerInv(c, o);
      AnswerLine(c, s, o, p);
      AnswerAllOrder(AnswerOne(c, o), o, s);
    }
  }

  lemma {:induction false} CollectAllIssued(c: Callbacks, ids: seq<Id>, o: Id)
    ensures CollectAll(c, ids, o).issued == c.issued
    decreases |ids|
  {
    if ids != [] { CollectAllIssued(Collect(c, ids[0], o), ids[1..], o); }
  }

  lemma {:induction false} CommitAllIssued(c: Callbacks, ids: seq<Id>)
    ensures CommitAll(c, ids).issued == c.issued
    decreases |ids|
  {
    if ids != [] { CommitAllIssued(Commit(c, ids[0]), ids[1..]); }
  }

  lemma {:induction false} AnswerAllIssued(c: Callbacks, o: Id)
    ensures AnswerAll(c, o).issued == c.issued
    decreases |Queue(c, o)|
  {
    if Queue(c, o) != [] { AnswerAllIssued(AnswerOne(c, o), o); }
  }

  lemma StepOrder(c: Callbacks, e: Event, s: Id)
    requires Inv(c) && Possible(c, e) && (s in c.issued ==> InOrder(c, s)) && s in Step(c, e).issued
    requires e.Rendered? || e.Flushed? ==> TogetherAll(c, Collected(e), e.output)
    ensures InOrder(Step(c, e), s)
  {
    match e
    case Created(t) => CreateOrder(c, s, t);
    case Requested(t) =>
      var p :| InLine(c, s, p);
      RequestLine(c, s, t, p);
    case CommittedTree(t) =>
      CommitAllIssued(c, [t.id] + CommitOrder(t, 0));
      CommitAllOrder(c, [t.id] + CommitOrder(t, 0), s);
    case Rendered(t, o) =>
      CollectAllIssued(c, Collected(e), o);
      CollectAllOrder(c, Collected(e), o, s);
    case Flushed(t, o) =>
      CollectAllIssued(c, Collected(e), o);
      CollectAllOrder(c, Collected(e), o, s);
    case AnsweredOn(o) =>
      AnswerAllIssued(c, o);
      AnswerAllOrder(c, o, s);
    case Destroyed(t) => DestroyOrder(c, s, t);
  }

  lemma {:induction false} RunOrder(c: Callbacks, es: seq<Event>)
    requires Inv(c) && PossibleRun(c, es) && TogetherRun(c, es) && forall s :: s in c.issued ==> InOrder(c, s)
    ensures forall s :: s in Run(c, es).issued ==> InOrder(Run(c, es), s)
    decreases |es|
  {
    if es != [] {
      var r := Step(c, es[0]);
      StepInv(c, es[0]);
      forall s | s in r.issued ensures InOrder(r, s) { StepOrder(c, es[0], s); }
      RunOrder(r, es[1..]);
    }
  }

  /**
   Over every run in which a surface is only ever collected into the queue where its other
   callbacks wait, each surface's answers are a prefix of its requests: in order, none skipped.
   */
  lemma AnsweredInOrder(es: seq<Event>, s: Id)
    requires PossibleRun(START, es) && TogetherRun(START, es) && s in Run(START, es).issued
    ensures Of(Run(START, es).sent, s) <= Run(START, es).issued[s]
  {
    StartInv();
    RunOrder(START, es);
    InOrderPrefix(Run(START, es), s);
  }

  // -------------------------------------------------------- exactly in order

  lemma {:induction false} AnswerAllSends(c: Callbacks, s: Id, o: Id)
    requires Inv(c) && s in c.issued
    ensures Of(AnswerAll(c, o).sent, s) == Of(c.sent, s) + Of(Queue(c, o), s)
    decreases |Queue(c, o)|
  {
    if Queue(c, o) != [] {
      AnswerInv(c, o);
      AnswerSends(c, s, o);
      AnswerAllSends(AnswerOne(c, o), s, o);
    }
  }

  /**
   A surface in order is collected for output o.  When o answers next, the answers are still
   in order exactly if nothing of the surface was waiting at another output, or the surface
   had nothing committed.
   */
  lemma CollectKeepsOrderExactly(c: Callbacks, s: Id, o: Id)
    requires Inv(c) && s in c.issued && InOrder(c, s)
    ensures Of(AnswerAll(Collect(c, s, o), o).sent, s) <= c.issued[s] <==> Together(c, s, o)
  {
    var r := Collect(c, s, o);
    CollectInv(c, s, o);
    if Together(c, s, o) {
      CollectOrder(c, s, s, o);
      AnswerAllOrder(r, o, s);
      AnswerAllIssued(r, o);
      InOrderPrefix(AnswerAll(r, o), s);
    } else {
      var p: Id :| p != o && Of(Queue(c, p), s) != [];
      var q :| InLine(c, s, q);
      assert p == q;
      AnswerAllSends(r, s, o);
      PendingOwn(c, s);
      OfAppend(Queue(c, o), c.committed[s], s);
      OfOwn(c.committed[s], s, s);
      Overtakes(Of(c.sent, s), Of(Queue(c, p), s), c.committed[s], c.pending[s], s, c.next, c.issued[s]);
    }
  }

  lemma Overtakes(sent: seq<Callback>, waiting: seq<Callback>, committed: seq<Callback>, pending: seq<Callback>, s: Id,
    next: nat, whole: seq<Callback>)
    requires whole == sent + waiting + committed + pending && Rising(whole, s, next) && waiting != [] && committed != []
    ensures !(sent + ([] + committed) <= whole)
  {
    var n := |sent|;
    assert whole[n] == waiting[0] && whole[n + |waiting|] == committed[0];
    assert (sent + ([] + committed))[n] == committed[0];
  }

  // ---------------------------------------------------------- out of order

  const LONE := Tree(1, false, [])

  /** One more event at the front of a run. */
  lemma RunsOn(c: Callbacks, e: Event, es: seq<Event>)
    requires Possible(c, e) && PossibleRun(Step(c, e), es)
    ensures PossibleRun(c, [e] + es) && Run(c, [e] + es) == Run(Step(c, e), es)
  {
    assert ([e] + es)[1..] == es;
  }

  /** A callback is requested on surface 1 and committed with it. */
  const ASK := [Requested(1)] + [CommittedTree(LONE)]

  lemma Asks(c: Callbacks, es: seq<Event>)
    requires c.pending == map[1 := []] && c.committed == map[1 := []] && 1 in c.issued
    requires
      var a := Callback(1, c.next);
      PossibleRun(c.(committed := map[1 := [a]], issued := c.issued[1 := c.issued[1] + [a]], live := c.live + {a},
        next := c.next + 1), es)
    ensures
      var a := Callback(1, c.next);
      var r := c.(committed := map[1 := [a]], issued := c.issued[1 := c.issued[1] + [a]], live := c.live + {a},
        next := c.next + 1);
      PossibleRun(c, ASK + es) && Run(c, ASK + es) == Run(r, es)
  {
    var a := Callback(1, c.next);
    var r := c.(committed := map[1 := [a]], issued := c.issued[1 := c.issued[1] + [a]], live := c.live + {a},
      next := c.next + 1);
    var d := Step(c, Requested(1));
    assert c.pending[1] + [a] == [a] && d.pending == map[1 := [a]];
    CommitsLone(d);
    assert Commit(d, 1).pending == map[1 := []] && Commit(d, 1).committed == map[1 := [a]];
    assert Step(d, CommittedTree(LONE)) == r;
    RunsOn(d, CommittedTree(LONE), es);
    RunsOn(c, Requested(1), [CommittedTree(LONE)] + es);
    assert ASK + es == [Requested(1)] + ([CommittedTree(LONE)] + es);
  }

  lemma CommitsLone(c: Callbacks)
    ensures CommitAll(c, [1] + CommitOrder(LONE, 0)) == Commit(c, 1)
  {
    assert [1] + CommitOrder(LONE, 0) == [1] && [1][1..] == [];
    assert CommitAll(Commit(c, 1), []) == Commit(c, 1);
  }

  lemma CollectsLone(c: Callbacks, o: Id)
    ensures Step(c, Flushed(LONE, o)) == Step(c, Rendered(LONE, o)) == Collect(c, 1, o)
  {
    assert [1] + PreOrder(LONE, 0) == [1] == PostOrder(LONE, 0) && [1][1..] == [];
    assert CollectAll(Collect(c, 1, o), [], o) == Collect(c, 1, o);
  }

  /** The second half of the run below: another callback, on another output. */
  const ELSEWHERE := ASK + ([Rendered(LONE, 2)] + [AnsweredOn(2)])

  lemma AskedElsewhere(c: Callbacks, a: Callback, b: Callback)
    requires b == Callback(1, 1)
    requires c == Callbacks(map[1 := []], map[1 := []], map[1 := [a]], [], map[1 := [a]], {a}, 1)
    ensures PossibleRun(c, ELSEWHERE)
    ensures Run(c, ELSEWHERE).sent == [b] && Run(c, ELSEWHERE).issued == map[1 := [a, b]]
  {
    var r := c.(committed := map[1 := [b]], issued := map[1 := [a, b]], live := {a, b}, next := 2);
    assert c.issued[1] + [b] == [a, b] && c.issued[1 := [a, b]] == map[1 := [a, b]] && c.live + {b} == {a, b};
    DrawnElsewhere(r, a, b);
    Asks(c, [Rendered(LONE, 2)] + [AnsweredOn(2)]);
  }

  lemma DrawnElsewhere(c: Callbacks, a: Callback, b: Callback)
    requires c == Callbacks(map[1 := []], map[1 := [b]], map[1 := [a]], [], map[1 := [a, b]], {a, b}, 2)
    ensures PossibleRun(c, [Rendered(LONE, 2)] + [AnsweredOn(2)])
    ensures var r := Run(c, [Rendered(LONE, 2)] + [AnsweredOn(2)]); r.sent == [b] && r.issued == c.issued
  {
    CollectsLone(c, 2);
    var d := Collect(c, 1, 2);
    assert Queue(c, 2) + c.committed[1] == [b];
    AnswersB(d, d.(queues := d.queues[2 := []], sent := d.sent + [b], live := d.live - {b}), b);
    RunsOn(c, Rendered(LONE, 2), [AnsweredOn(2)]);
  }

  /**
   A callback is flushed to output 1, the surface moves to output 2 with another one, and
   output 2 draws and answers first: the later callback is answered before the earlier one.
   */
  lemma MovedSurfaceOvertakes()
    ensures
      var es := [Created(1)] + (ASK + ([Flushed(LONE, 1)] + ELSEWHERE));
      && PossibleRun(START, es) && Run(START, es).sent == [Callback(1, 1)]
      && Run(START, es).issued == map[1 := [Callback(1, 0), Callback(1, 1)]]
  {
    var a, b := Callback(1, 0), Callback(1, 1);
    var c0 := Callbacks(map[1 := []], map[1 := []], map[], [], map[1 := []], {}, 0);
    var c1 := c0.(committed := map[1 := [a]], issued := map[1 := [a]], live := {a}, next := 1);
    var c2 := c1.(committed := map[1 := []], queues := map[1 := [a]]);
    AskedElsewhere(c2, a, b);
    CollectsLone(c1, 1);
    assert Queue(c1, 1) + [a] == [a] && Collect(c1, 1, 1) == c2;
    RunsOn(c1, Flushed(LONE, 1), ELSEWHERE);
    assert c0.issued[1 := c0.issued[1] + [a]] == map[1 := [a]] && c0.live + {a} == {a};
    Asks(c0, [Flushed(LONE, 1)] + ELSEWHERE);
    StartUnused();
    RunsOn(START, Created(1), ASK + ([Flushed(LONE, 1)] + ELSEWHERE));
  }

  lemma StartUnused()
    ensures Unused(START, 1)
  {
    forall a: Callback, p ensures !IsAt(START, a, p) {}
  }

  lemma AnswersB(c: Callbacks, r: Callbacks, b: Callback)
    requires Queue(c, 2) == [b] && b in c.live
    requires r == c.(queues := c.queues[2 := []], sent := c.sent + [b], live := c.live - {b})
    ensures PossibleRun(c, [AnsweredOn(2)]) && Run(c, [AnsweredOn(2)]) == r
  {
    assert [b][1..] == [];
    assert AnswerOne(c, 2) == r && AnswerAll(r, 2) == r;
    RunsOn(c, AnsweredOn(2), []);
    assert [AnsweredOn(2)] + [] == [AnsweredOn(2)];
  }
}
