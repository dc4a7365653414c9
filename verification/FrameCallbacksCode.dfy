/** Frame callbacks as the code moves them: pools emptied into pools, along recursions over the surface tree. */
module FrameCallbacksCode {
  import opened FrameCallbacks

  class Compositor {
    var pending: map<Id, seq<Callback>>
    var committed: map<Id, seq<Callback>>
    /** The callback pools of the outputs. */
    var queues: map<Id, seq<Callback>>
    var sent: seq<Callback>
    var live: set<Callback>
    var next: nat
    ghost var issued: map<Id, seq<Callback>>

    constructor ()
      ensures View() == START
    {
      pending, committed, queues, sent, live, next, issued := map[], map[], map[], [], {}, 0, map[];
    }

    ghost function View(): Callbacks
      reads this
    {
      Callbacks(pending, committed, queues, sent, issued, live, next)
    }

    /** A new surface has no callbacks. */
    method Create(s: Id)
      modifies this`pending, this`committed, this`issued
      ensures View() == FrameCallbacks.Create(old(View()), s)
    {
      pending, committed, issued := pending[s := []], committed[s := []], issued[s := []];
    }

    /** wlc_surface_release: its callbacks are released wherever they are. */
    method Destroy(s: Id)
      modifies this`pending, this`committed, this`issued, this`live
      ensures View() == FrameCallbacks.Destroy(old(View()), s)
    {
      pending, committed, issued := pending - {s}, committed - {s}, issued - {s};
      live := set a | a in live && a.surface != s;
    }

    /** wl_cb_surface_frame. */
    method Frame(s: Id)
      requires s in pending && s in issued
      modifies this
      ensures View() == Request(old(View()), s)
    {
      var a := Callback(s, next);
      next, live := next + 1, live + {a};
      pending := pending[s := pending[s] + [a]];
      issued := issued[s := issued[s] + [a]];
    }

    /** commit_state, as far as callbacks go: they are pushed one by one, then the pool is flushed. */
    method CommitState(s: Id)
      modifies this`pending, this`committed
      ensures View() == Commit(old(View()), s)
    {
      if s !in pending || s !in committed {
        return;
      }
      var pool := committed[s];
      var i := 0;
      while i < |pending[s]|
        invariant 0 <= i <= |pending[s]| && pool == committed[s] + pending[s][..i]
      {
        pool := pool + [pending[s][i]];
        i := i + 1;
      }
      assert pending[s][..i] == pending[s];
      committed := committed[s := pool];
      pending := pending[s := []];
    }

    /** commit_subsurface_state: the surface, then every subsurface that commits with its parent. */
    method CommitTree(t: Tree)
      modifies this`pending, this`committed
      ensures View() == CommitAll(old(View()), [t.id] + CommitOrder(t, 0))
      decreases t
    {
      CommitState(t.id);
      ghost var goal := CommitAll(View(), CommitOrder(t, 0));
      assert ([t.id] + CommitOrder(t, 0))[1..] == CommitOrder(t, 0);
      var k := 0;
      while k < |t.subs|
        invariant 0 <= k <= |t.subs| && CommitAll(View(), CommitOrder(t, k)) == goal
      {
        var sub := t.subs[k];
        CommitAppend(View(), if sub.follows then [sub.id] + CommitOrder(sub, 0) else [], CommitOrder(t, k + 1));
        if sub.follows {
          CommitTree(sub);
        }
        k := k + 1;
      }
    }

    /** The loop that pushes the committed callbacks of one surface onto an output's pool, and the flush after it. */
    method CollectSurface(s: Id, o: Id)
      modifies this`committed, this`queues
      ensures View() == Collect(old(View()), s, o)
    {
      if s !in committed {
        return;
      }
      var pool := if o in queues then queues[o] else [];
      var i := 0;
      while i < |committed[s]|
        invariant 0 <= i <= |committed[s]| && pool == Queue(old(View()), o) + committed[s][..i]
      {
        pool := pool + [committed[s][i]];
        i := i + 1;
      }
      assert committed[s][..i] == committed[s];
      queues := queues[o := pool];
      committed := committed[s := []];
    }

    /** subsurfaces_render: subsurfaces first, the surface itself last. */
    method Render(t: Tree, o: Id)
      modifies this`committed, this`queues
      ensures View() == CollectAll(old(View()), PostOrder(t, 0), o)
      decreases t
    {
      ghost var goal := CollectAll(View(), PostOrder(t, 0), o);
      var k := 0;
      while k < |t.subs|
        invariant 0 <= k <= |t.subs| && CollectAll(View(), PostOrder(t, k), o) == goal
      {
        CollectAppend(View(), PostOrder(t.subs[k], 0), PostOrder(t, k + 1), o);
        Render(t.subs[k], o);
        k := k + 1;
      }
      ghost var last := View();
      assert CollectAll(Collect(last, t.id, o), [t.id][1..], o) == Collect(last, t.id, o);
      CollectSurface(t.id, o);
    }

    /** surface_flush_frame_callbacks_recursive: the surface first, then its subsurfaces. */
    method Flush(t: Tree, o: Id)
      modifies this`committed, this`queues
      ensures View() == CollectAll(old(View()), [t.id] + PreOrder(t, 0), o)
      decreases t
    {
      CollectSurface(t.id, o);
      ghost var goal := CollectAll(View(), PreOrder(t, 0), o);
      assert ([t.id] + PreOrder(t, 0))[1..] == PreOrder(t, 0);
      var k := 0;
      while k < |t.subs|
        invariant 0 <= k <= |t.subs| && CollectAll(View(), PreOrder(t, k), o) == goal
      {
        CollectAppend(View(), [t.subs[k].id] + PreOrder(t.subs[k], 0), PreOrder(t, k + 1), o);
        Flush(t.subs[k], o);
        k := k + 1;
      }
    }

    /** The loop of repaint after the swap of output o: done is sent to live resources, which are then released. */
    method Answer(o: Id)
      modifies this`queues, this`sent, this`live
      ensures View() == AnswerAll(old(View()), o)
    {
      if o !in queues {
        return;
      }
      var i := 0;
      ghost var goal := AnswerAll(View(), o);
      assert queues[o][i..] == queues[o] && queues[o := queues[o][i..]] == queues;
      while i < |queues[o]|
        invariant queues == old(queues) && 0 <= i <= |queues[o]|
        invariant AnswerAll(View().(queues := queues[o := queues[o][i..]]), o) == goal
      {
        ghost var before := View().(queues := queues[o := queues[o][i..]]);
        var a := queues[o][i];
        if a in live {
          sent := sent + [a];
          live := live - {a};
        }
        i := i + 1;
        assert before.queues[o][1..] == queues[o][i..];
        assert before.queues[o := queues[o][i..]] == queues[o := queues[o][i..]];
        assert View().(queues := queues[o := queues[o][i..]]) == AnswerOne(before, o);
      }
      assert queues[o][i..] == [];
      queues := queues[o := []];
    }
  }
}
