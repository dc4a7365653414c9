/**
 Key repeat by re-injection: when the timer fires, the keyboard lets go of every held key
 that repeats and feeds it through the seat's key handler again as a new press.
 */
module KeyRepeat {
  import opened Basics

  /**
   `down` is the xkb side's set of pressed keys, `timer` 0 when disarmed; `injected` and `sent`
   record key events made and delivered.
   */
  datatype Keyboard = Keyboard(
    keymap: bool, keys: seq<nat>, down: set<nat>,
    repeat: bool, repeating: bool, focused: bool, timer: nat, rate: nat, delay: nat,
    injected: seq<nat>, sent: seq<(nat, bool)>)

  /** Which keys the keymap repeats, which the application's handler takes, which switch the terminal. */
  datatype Bindings = Bindings(repeats: set<nat>, taken: set<nat>, switches: set<nat>)

  function Released(keys: seq<nat>, key: nat): (r: seq<nat>)
    ensures key !in r
    ensures forall k :: k in r <==> k in keys && k != key
  {
    if keys == [] then [] else if keys[0] == key then Released(keys[1..], key) else [keys[0]] + Released(keys[1..], key)
  }

  /** The keys that are in `s`, or those that are not, in their order. */
  function Pick(keys: seq<nat>, s: set<nat>, inside: bool): (r: seq<nat>)
    ensures forall k :: k in r <==> k in keys && (k in s <==> inside)
  {
    if keys == [] then []
    else if (keys[0] in s) == inside then [keys[0]] + Pick(keys[1..], s, inside)
    else Pick(keys[1..], s, inside)
  }

  function Keys(keys: seq<nat>): set<nat> {
    set k | k in keys
  }

  /** update_keys: false when a pressed key is held already. */
  function UpdateKeys(keys: seq<nat>, key: nat, pressed: bool): (seq<nat>, bool) {
    if !pressed then (Released(keys, key), true)
    else if key in keys then (keys, false)
    else (keys + [key], true)
  }

  /** reset_repeat. */
  function ResetRepeat(k: Keyboard): Keyboard {
    if k.repeat then k.(timer := 0, repeating := false, focused := false, repeat := false) else k
  }

  /** begin_repeat. */
  function BeginRepeat(k: Keyboard, focused: bool): Keyboard {
    k.(repeat := true, focused := focused, timer := if k.repeating then k.rate else k.delay)
  }

  function Turned(down: set<nat>, key: nat, pressed: bool): set<nat> {
    if pressed then down + {key} else down - {key}
  }

  /** wlc_keyboard_update. */
  function Update(k: Keyboard, key: nat, pressed: bool): (Keyboard, bool) {
    var (keys, ok) := UpdateKeys(k.keys, key, pressed);
    var k' := k.(down := Turned(k.down, key, pressed), keys := keys);
    (if ok then ResetRepeat(k') else k', ok)
  }

  /** seat_handle_key with wlc_keyboard_request_key and wlc_keyboard_key. */
  function HandleKey(k: Keyboard, key: nat, pressed: bool, b: Bindings): Keyboard {
    var (k', ok) := Update(k, key, pressed);
    if !ok || key in b.switches then k'
    else if key in b.taken then
      if pressed && k'.keymap && key in b.repeats then BeginRepeat(k', false) else k'
    else k'.(sent := k'.sent + [(key, pressed)])
  }

  /** The first loop of cb_repeat: repeating keys go up in xkb, the others are kept. */
  function Sort(keys: seq<nat>, down: set<nat>, todo: seq<nat>, b: Bindings): (seq<nat>, set<nat>)
    decreases |todo|
  {
    if todo == [] then (keys, down)
    else if todo[0] in b.repeats then Sort(keys, down - {todo[0]}, todo[1..], b)
    else Sort(UpdateKeys(keys, todo[0], true).0, down, todo[1..], b)
  }

  /** One synthesized key event. */
  function Press(k: Keyboard, x: nat, b: Bindings): Keyboard {
    HandleKey(k.(injected := k.injected + [x]), x, true, b)
  }

  /** The second loop: every repeating key is pressed again through the key handler. */
  function Inject(k: Keyboard, todo: seq<nat>, b: Bindings): Keyboard
    decreases |todo|
  {
    if todo == [] then k
    else if todo[0] !in b.repeats then Inject(k, todo[1..], b)
    else Inject(Press(k, todo[0], b), todo[1..], b)
  }

  /** cb_repeat. */
  function CbRepeat(k: Keyboard, b: Bindings): Keyboard {
    var k' := k.(keys := [], timer := 0, focused := false, repeat := false, repeating := true);
    if !k.keymap then k'
    else
      var (keys, down) := Sort([], k.down, k.keys, b);
      Inject(k'.(keys := keys, down := down), k.keys, b)
  }

  /** One event for each of a list of keys. */
  function Each(keys: seq<nat>, pressed: bool): seq<(nat, bool)> {
    seq(|keys|, i requires 0 <= i < |keys| => (keys[i], pressed))
  }

  /**
   wlc_keyboard_focus, to another view whose client has so many keyboards: the view left, if it is
   alive, is told that every key is released, and the repeating ones wait for the timer.
   */
  function Refocus(k: Keyboard, alive: bool, keyboards: nat, b: Bindings): Keyboard {
    var stopped := if k.repeating then k else ResetRepeat(k);
    var left := if alive then stopped.(sent := stopped.sent + Each(stopped.keys, false)) else stopped;
    if keyboards > 0 && left.keymap && Pick(left.keys, b.repeats, true) != [] then BeginRepeat(left, true) else left
  }

  /** No key is held twice, and xkb has down exactly the held keys. */
  predicate Inv(k: Keyboard) {
    Distinct(k.keys) && k.down == Keys(k.keys)
  }

  lemma {:induction false} ReleasedDistinct(keys: seq<nat>, key: nat)
    requires Distinct(keys)
    ensures Distinct(Released(keys, key))
  {
    if keys != [] {
      ReleasedDistinct(keys[1..], key);
      assert keys[0] !in keys[1..];
      assert Distinct([keys[0]] + Released(keys[1..], key));
    }
  }

  /** A key event keeps the held keys and the xkb state in step; a repeated press changes neither. */
  lemma HandleKeyInv(k: Keyboard, key: nat, pressed: bool, b: Bindings)
    requires Inv(k)
    ensures
      var r := HandleKey(k, key, pressed, b);
      && Inv(r) && Keys(r.keys) == Turned(Keys(k.keys), key, pressed) && r.keymap == k.keymap
      && (pressed && key in k.keys ==> r == k)
  {
    HandleKeyHolds(k, key, pressed, b);
    if !pressed {
      ReleasedDistinct(k.keys, key);
    } else if key in k.keys {
      assert k.down + {key} == k.down;
    }
  }

  lemma HandleKeyHolds(k: Keyboard, key: nat, pressed: bool, b: Bindings)
    ensures
      var r := HandleKey(k, key, pressed, b);
      r.keys == UpdateKeys(k.keys, key, pressed).0 && r.down == Turned(k.down, key, pressed) && r.keymap == k.keymap
  {
  }

  lemma {:induction false} SortIs(keys: seq<nat>, down: set<nat>, todo: seq<nat>, b: Bindings)
    requires Distinct(todo) && (forall x :: x in keys ==> x !in todo)
    ensures Sort(keys, down, todo, b) == (keys + Pick(todo, b.repeats, false), down - Keys(Pick(todo, b.repeats, true)))
    decreases |todo|
  {
    if todo == [] {
      assert down - Keys(Pick(todo, b.repeats, true)) == down;
      assert keys + Pick(todo, b.repeats, false) == keys;
    } else if todo[0] in b.repeats {
      SortIs(keys, down - {todo[0]}, todo[1..], b);
      assert down - {todo[0]} - Keys(Pick(todo[1..], b.repeats, true)) == down - Keys(Pick(todo, b.repeats, true));
    } else {
      assert todo[0] !in todo[1..];
      SortIs(keys + [todo[0]], down, todo[1..], b);
      assert keys + [todo[0]] + Pick(todo[1..], b.repeats, false) == keys + Pick(todo, b.repeats, false);
    }
  }

  /** The repeating keys among `todo` that the application takes, and those that reach the client. */
  function Taken(todo: seq<nat>, b: Bindings): seq<nat> {
    Pick(Pick(todo, b.repeats, true), b.taken - b.switches, true)
  }

  function Delivered(todo: seq<nat>, b: Bindings): seq<nat> {
    Pick(Pick(todo, b.repeats, true), b.taken + b.switches, false)
  }

  lemma PressesCat(x: nat, keys: seq<nat>)
    ensures Each([x] + keys, true) == [(x, true)] + Each(keys, true)
  {
  }

  /** What pressing a key that is not held does, apart from the repeat state. */
  predicate Pressed(k: Keyboard, next: Keyboard, x: nat, b: Bindings) {
    && next.keys == k.keys + [x] && next.injected == k.injected + [x] && next.down == k.down + {x}
      && next.keymap == k.keymap
    && next.sent == (if x in b.taken + b.switches then k.sent else k.sent + [(x, true)])
    && next.rate == k.rate && next.delay == k.delay
  }

  lemma PressIs(k: Keyboard, x: nat, b: Bindings)
    requires x !in k.keys
    ensures Pressed(k, Press(k, x, b), x, b)
  {
  }

  /** What pressing the repeating keys of `todo` again does, apart from the repeat state. */
  predicate Repeated(k: Keyboard, r: Keyboard, todo: seq<nat>, b: Bindings) {
    var again := Pick(todo, b.repeats, true);
    && r.keys == k.keys + again && r.injected == k.injected + again && r.down == k.down + Keys(again)
      && r.keymap == k.keymap
    && r.sent == k.sent + Each(Delivered(todo, b), true)
    && r.rate == k.rate && r.delay == k.delay
  }

  lemma Assoc(front: seq<nat>, x: nat, back: seq<nat>)
    ensures front + [x] + back == front + ([x] + back)
  {
  }

  lemma KeysCat(down: set<nat>, x: nat, keys: seq<nat>)
    ensures down + {x} + Keys(keys) == down + Keys([x] + keys)
  {
  }

  lemma RepeatedCat(k: Keyboard, next: Keyboard, r: Keyboard, todo: seq<nat>, b: Bindings)
    requires todo != [] && todo[0] in b.repeats && Pressed(k, next, todo[0], b) && Repeated(next, r, todo[1..], b)
    ensures Repeated(k, r, todo, b)
  {
    var x, again := todo[0], Pick(todo[1..], b.repeats, true);
    assert Pick(todo, b.repeats, true) == [x] + again;
    Assoc(k.keys, x, again);
    Assoc(k.injected, x, again);
    KeysCat(k.down, x, again);
    InjectSends(k.sent, next.sent, todo, b);
  }

  /** Each repeating key is pressed again once, in order, and nothing else is. */
  lemma {:induction false} InjectIs(k: Keyboard, todo: seq<nat>, b: Bindings)
    requires Distinct(todo) && (forall x :: x in todo && x in b.repeats ==> x !in k.keys)
    ensures Repeated(k, Inject(k, todo, b), todo, b)
    decreases |todo|
  {
    if todo == [] {
      assert k.down + Keys([]) == k.down;
    } else {
      assert forall x :: x in todo[1..] ==> x in todo && x != todo[0];
      if todo[0] !in b.repeats {
        InjectIs(k, todo[1..], b);
      } else {
        var next := Press(k, todo[0], b);
        PressIs(k, todo[0], b);
        InjectIs(next, todo[1..], b);
        RepeatedCat(k, next, Inject(next, todo[1..], b), todo, b);
      }
    }
  }

  lemma InjectSends(sent: seq<(nat, bool)>, next: seq<(nat, bool)>, todo: seq<nat>, b: Bindings)
    requires todo != [] && todo[0] in b.repeats
    requires next == if todo[0] in b.taken + b.switches then sent else sent + [(todo[0], true)]
    ensures next + Each(Delivered(todo[1..], b), true) == sent + Each(Delivered(todo, b), true)
  {
    var rest := Delivered(todo[1..], b);
    assert Pick(todo, b.repeats, true)[1..] == Pick(todo[1..], b.repeats, true);
    if todo[0] !in b.taken + b.switches {
      assert Delivered(todo, b) == [todo[0]] + rest;
      PressesCat(todo[0], rest);
    }
  }

  /** The repeat state after some injected keys: `n` of them were taken, and the last one was if `last`. */
  predicate Phase(k: Keyboard, n: nat, last: bool) {
    if last then k.repeat && n > 0 && k.repeating == (n == 1) && k.timer == (if n == 1 then k.rate else k.delay)
    else !k.repeat && k.timer == 0 && k.repeating == (n == 0)
  }

  predicate LastTaken(todo: seq<nat>, b: Bindings) {
    var again := Pick(todo, b.repeats, true);
    again != [] && again[|again| - 1] in b.taken - b.switches
  }

  lemma PressPhase(k: Keyboard, x: nat, b: Bindings, n: nat, last: bool)
    requires k.keymap && x in b.repeats && x !in k.keys && Phase(k, n, last)
    ensures
      var taken := x in b.taken - b.switches;
      Phase(Press(k, x, b), if taken then n + 1 else n, taken)
  {
  }

  lemma PhaseCat(r: Keyboard, todo: seq<nat>, b: Bindings, n: nat, last: bool)
    requires todo != [] && todo[0] in b.repeats
    requires
      var taken := todo[0] in b.taken - b.switches;
      Phase(r, (if taken then n + 1 else n) + |Taken(todo[1..], b)|, if Pick(todo[1..], b.repeats, true) == []
        then taken else LastTaken(todo[1..], b))
    ensures Phase(r, n + |Taken(todo, b)|, LastTaken(todo, b))
  {
    var again := Pick(todo[1..], b.repeats, true);
    assert Pick(todo, b.repeats, true) == [todo[0]] + again;
    assert ([todo[0]] + again)[1..] == again;
  }

  lemma {:induction false} InjectPhase(k: Keyboard, todo: seq<nat>, b: Bindings, n: nat, last: bool)
    requires k.keymap && Distinct(todo) && (forall x :: x in todo && x in b.repeats ==> x !in k.keys)
    requires Phase(k, n, last)
    ensures Phase(Inject(k, todo, b), n + |Taken(todo, b)|, if Pick(todo, b.repeats, true) == [] then last
      else LastTaken(todo, b))
    decreases |todo|
  {
    if todo != [] {
      assert forall x :: x in todo[1..] ==> x in todo && x != todo[0];
      if todo[0] !in b.repeats {
        InjectPhase(k, todo[1..], b, n, last);
      } else {
        var next, taken := Press(k, todo[0], b), todo[0] in b.taken - b.switches;
        PressIs(k, todo[0], b);
        PressPhase(k, todo[0], b, n, last);
        InjectPhase(next, todo[1..], b, if taken then n + 1 else n, taken);
        PhaseCat(Inject(next, todo[1..], b), todo, b, n, last);
      }
    }
  }

  /**
   The timer's callback with a keymap: the same keys are held, each repeating one was
   pressed once more and no other, and those the application does not take reach the client.
   The repeat goes on exactly if the application took the last one, at the repeat rate if
   it took no other.
   */
  lemma RepeatKeepsHeldKeys(k: Keyboard, b: Bindings)
    requires Inv(k) && k.keymap
    ensures
      var r, again := CbRepeat(k, b), Pick(k.keys, b.repeats, true);
      && Inv(r) && r.keymap && r.keys == Pick(k.keys, b.repeats, false) + again && r.down == k.down
      && r.injected == k.injected + again
      && r.sent == k.sent + Each(Delivered(k.keys, b), true)
      && r.repeat == LastTaken(k.keys, b) && r.repeating == (|Taken(k.keys, b)| == if r.repeat then 1 else 0)
      && r.timer == (if !r.repeat then 0 else if |Taken(k.keys, b)| == 1 then k.rate else k.delay)
  {
    var again, rest := Pick(k.keys, b.repeats, true), Pick(k.keys, b.repeats, false);
    SortIs([], k.down, k.keys, b);
    assert [] + rest == rest;
    var k' := k.(keys := rest, down := k.down - Keys(again), timer := 0, focused := false, repeat := false,
      repeating := true);
    InjectIs(k', k.keys, b);
    InjectPhase(k', k.keys, b, 0, false);
    assert k.down - Keys(again) + Keys(again) == k.down;
    PickDistinct(k.keys, b.repeats);
    assert Keys(rest + again) == k.down;
  }

  /**
   A new focus hears nothing of the keys that repeat until the timer fires; then each reaches it
   that the application does not take.  The timer runs then exactly if the client has a keyboard
   and a key that repeats is held, or a repeat was under way.
   */
  lemma FocusGetsHeldKeysLater(k: Keyboard, alive: bool, keyboards: nat, b: Bindings)
    requires Inv(k) && k.keymap
    ensures
      var f := Refocus(k, alive, keyboards, b);
      && Inv(f) && f.keys == k.keys && f.sent == k.sent + (if alive then Each(k.keys, false) else [])
      && (f.repeat <==> (keyboards > 0 && exists x :: x in k.keys && x in b.repeats) || (k.repeating && k.repeat))
      && (keyboards > 0 && (exists x :: x in k.keys && x in b.repeats) ==>
        f.focused && f.timer == if k.repeating then k.rate else k.delay)
      && CbRepeat(f, b).sent == f.sent + Each(Delivered(k.keys, b), true)
  {
    var f, again := Refocus(k, alive, keyboards, b), Pick(k.keys, b.repeats, true);
    assert again != [] <==> exists x :: x in k.keys && x in b.repeats by {
      if again != [] { assert again[0] in again; }
    }
    RepeatKeepsHeldKeys(f, b);
  }

  /** Without a keymap nothing starts a repeat, and the timer forgets the keys that are held. */
  lemma KeymaplessNeverRepeats(k: Keyboard, key: nat, pressed: bool, alive: bool, keyboards: nat, b: Bindings)
    requires !k.keymap
    ensures HandleKey(k, key, pressed, b).repeat ==> k.repeat
    ensures Refocus(k, alive, keyboards, b).repeat ==> k.repeat
    ensures
      var r := CbRepeat(k, b);
      r.keys == [] && !r.repeat && r.timer == 0 && r.sent == k.sent && r.injected == k.injected && r.down == k.down
  {
  }

  lemma PickDistinct(keys: seq<nat>, s: set<nat>)
    requires Distinct(keys)
    ensures Distinct(Pick(keys, s, false) + Pick(keys, s, true))
  {
    PickKeeps(keys, s, false);
    PickKeeps(keys, s, true);
    var rest, again := Pick(keys, s, false), Pick(keys, s, true);
    forall i, j | 0 <= i < |rest| && 0 <= j < |again| ensures rest[i] != again[j] {
      assert rest[i] in rest && again[j] in again;
    }
  }

  lemma {:induction false} PickKeeps(keys: seq<nat>, s: set<nat>, inside: bool)
    requires Distinct(keys)
    ensures Distinct(Pick(keys, s, inside))
  {
    if keys != [] {
      PickKeeps(keys[1..], s, inside);
      assert keys[0] !in keys[1..];
      assert Distinct([keys[0]] + Pick(keys[1..], s, inside));
    }
  }

  /** Two held keys, both taken: the repeat falls back to the initial delay. */
  lemma TwoTakenKeysUseTheDelay()
    ensures
      var k := Keyboard(true, [30, 31], {30, 31}, true, false, false, 660, 25, 660, [], []);
      Inv(k) && CbRepeat(k, Bindings({30, 31}, {30, 31}, {})).timer == 660
  {
    var k := Keyboard(true, [30, 31], {30, 31}, true, false, false, 660, 25, 660, [], []);
    var b := Bindings({30, 31}, {30, 31}, {});
    assert Keys(k.keys) == {30, 31};
    RepeatKeepsHeldKeys(k, b);
    assert Pick([30, 31], {30, 31}, true) == [30] + Pick([31], {30, 31}, true) by { assert [30, 31][1..] == [31]; }
    assert Pick([31], {30, 31}, true) == [31];
    assert b.taken - b.switches == {30, 31};
    assert Taken(k.keys, b) == [30, 31];
  }

  /** Each event comes with the bindings of its moment: modifiers and the application's answers vary. */
  datatype Event =
    | Key(key: nat, pressed: bool, bindings: Bindings)
    | Timer(bindings: Bindings)
    | NewFocus(alive: bool, keyboards: nat, bindings: Bindings)

  function Step(k: Keyboard, e: Event): Keyboard {
    match e
    case Key(key, pressed, b) => HandleKey(k, key, pressed, b)
    case Timer(b) => CbRepeat(k, b)
    case NewFocus(alive, keyboards, b) => Refocus(k, alive, keyboards, b)
  }

  function Run(k: Keyboard, es: seq<Event>): Keyboard
    decreases |es|
  {
    if es == [] then k else Run(Step(k, es[0]), es[1..])
  }

  /** The keys pressed and not released since. */
  function Held(held: set<nat>, es: seq<Event>): set<nat>
    decreases |es|
  {
    if es == [] then held
    else Held(if es[0].Key? then Turned(held, es[0].key, es[0].pressed) else held, es[1..])
  }

  /**
   However often the timer fires or the focus changes in between, the keyboard holds exactly the keys pressed and
   not released.  The keymap it was constructed with is never taken away.
   */
  lemma {:induction false} RunsHoldWhatIsPressed(k: Keyboard, es: seq<Event>)
    requires Inv(k) && k.keymap
    ensures var r := Run(k, es); Inv(r) && r.keymap && Keys(r.keys) == r.down == Held(Keys(k.keys), es)
    decreases |es|
  {
    if es != [] {
      match es[0]
      case Key(key, pressed, b) =>
        HandleKeyInv(k, key, pressed, b);
        RunsHoldWhatIsPressed(Step(k, es[0]), es[1..]);
      case Timer(b) =>
        RepeatKeepsHeldKeys(k, b);
        SortIs([], k.down, k.keys, b);
        RunsHoldWhatIsPressed(Step(k, es[0]), es[1..]);
      case NewFocus(alive, keyboards, b) =>
        RunsHoldWhatIsPressed(Step(k, es[0]), es[1..]);
    }
  }

  // -------------------------------------------------- what the client hears

  /** What was sent of one key. */
  function OfKey(sent: seq<(nat, bool)>, x: nat): seq<(nat, bool)> {
    if sent == [] then [] else (if sent[0].0 == x then [sent[0]] else []) + OfKey(sent[1..], x)
  }

  /** The application does not take the key, and it does not switch the terminal. */
  predicate Free(b: Bindings, x: nat) {
    x !in b.taken && x !in b.switches
  }

  /**
   What the client ought to hear of key x, which is held or not at first: each event of it as it
   comes, but for presses while it is held; a press at each repeat; a release when the focus goes.
   */
  function Heard(held: bool, es: seq<Event>, x: nat): seq<(nat, bool)>
    decreases |es|
  {
    if es == [] then []
    else
      match es[0]
      case Key(key, pressed, b) =>
        if key != x || (pressed && held) then Heard(held, es[1..], x)
        else (if Free(b, x) then [(x, pressed)] else []) + Heard(pressed, es[1..], x)
      case Timer(b) => (if held && x in b.repeats && Free(b, x) then [(x, true)] else []) + Heard(held, es[1..], x)
      case NewFocus(alive, _, _) => (if held && alive then [(x, false)] else []) + Heard(held, es[1..], x)
  }

  lemma {:induction false} OfKeyAppend(a: seq<(nat, bool)>, b: seq<(nat, bool)>, x: nat)
    ensures OfKey(a + b, x) == OfKey(a, x) + OfKey(b, x)
  {
    if a == [] {
      assert a + b == b;
      Cat([], [], OfKey(b, x));
    } else {
      var h := if a[0].0 == x then [a[0]] else [];
      OfKeyAppend(a[1..], b, x);
      assert (a + b)[1..] == a[1..] + b && (a + b)[0] == a[0];
      Cat(h, OfKey(a[1..], x), OfKey(b, x));
    }
  }

  lemma {:induction false} OfEach(keys: seq<nat>, pressed: bool, x: nat)
    requires Distinct(keys)
    ensures OfKey(Each(keys, pressed), x) == if x in keys then [(x, pressed)] else []
  {
    if keys != [] {
      OfEach(keys[1..], pressed, x);
      assert Each(keys, pressed)[1..] == Each(keys[1..], pressed);
      assert keys == [keys[0]] + keys[1..];
    }
  }

  lemma KeyHeard(k: Keyboard, key: nat, pressed: bool, b: Bindings, x: nat)
    requires Inv(k)
    ensures
      var own := if key == x && Free(b, x) && !(pressed && x in k.keys) then [(x, pressed)] else [];
      OfKey(HandleKey(k, key, pressed, b).sent, x) == OfKey(k.sent, x) + own
  {
    HandleKeySends(k, key, pressed, b);
    var said := if Free(b, key) && !(pressed && key in k.keys) then [(key, pressed)] else [];
    OfKeyAppend(k.sent, said, x);
    assert OfKey([(key, pressed)], x) == if key == x then [(key, pressed)] else [];
  }

  lemma HandleKeySends(k: Keyboard, key: nat, pressed: bool, b: Bindings)
    ensures HandleKey(k, key, pressed, b).sent
      == k.sent + if Free(b, key) && !(pressed && key in k.keys) then [(key, pressed)] else []
  {
  }

  lemma StepHeard(k: Keyboard, e: Event, x: nat)
    requires Inv(k) && k.keymap
    ensures OfKey(Step(k, e).sent, x) == OfKey(k.sent, x) + Heard(x in k.keys, [e], x)
  {
    assert [e][1..] == [];
    match e
    case Key(key, pressed, b) => KeyHeard(k, key, pressed, b, x);
    case Timer(b) =>
      var said := Delivered(k.keys, b);
      RepeatKeepsHeldKeys(k, b);
      PickKeeps(k.keys, b.repeats, true);
      PickKeeps(Pick(k.keys, b.repeats, true), b.taken + b.switches, false);
      OfKeyAppend(k.sent, Each(said, true), x);
      OfEach(said, true, x);
    case NewFocus(alive, keyboards, b) =>
      FocusGetsHeldKeysLater(k, alive, keyboards, b);
      OfKeyAppend(k.sent, Each(k.keys, false), x);
      OfEach(k.keys, false, x);
  }

  lemma HeardStep(held: bool, es: seq<Event>, x: nat)
    requires es != []
    ensures
      var held' := if es[0].Key? && es[0].key == x then es[0].pressed else held;
      Heard(held, es, x) == Heard(held, [es[0]], x) + Heard(held', es[1..], x)
  {
    assert [es[0]][1..] == [] && Heard(held, [], x) == [];
  }

  lemma StepHolds(k: Keyboard, e: Event)
    requires Inv(k) && k.keymap
    ensures
      var r := Step(k, e);
      && Inv(r) && r.keymap
      && Keys(r.keys) == if e.Key? then Turned(Keys(k.keys), e.key, e.pressed) else Keys(k.keys)
  {
    match e
    case Key(key, pressed, b) => HandleKeyInv(k, key, pressed, b);
    case Timer(b) => RepeatKeepsHeldKeys(k, b);
    case NewFocus(alive, keyboards, b) => FocusGetsHeldKeysLater(k, alive, keyboards, b);
  }

  /** Over every run the client hears of each key exactly that, in that order. */
  lemma {:induction false} ClientHearsExactly(k: Keyboard, es: seq<Event>, x: nat)
    requires Inv(k) && k.keymap
    ensures OfKey(Run(k, es).sent, x) == OfKey(k.sent, x) + Heard(x in k.keys, es, x)
    decreases |es|
  {
    if es != [] {
      var r, e := Step(k, es[0]), es[0];
      StepHeard(k, e, x);
      StepHolds(k, e);
      assert x in r.keys <==> x in Keys(r.keys);
      assert x in k.keys <==> x in Keys(k.keys);
      ClientHearsExactly(r, es[1..], x);
      HeardStep(x in k.keys, es, x);
      Cat(OfKey(k.sent, x), Heard(x in k.keys, [e], x), Heard(x in r.keys, es[1..], x));
    }
  }

  lemma Cat<T>(a: seq<T>, b: seq<T>, c: seq<T>)
    ensures a + b + c == a + (b + c)
  {
  }

  /**
   A key event that is not the press of a held key decides whether a repeat runs: exactly for the
   press of a repeating key that the application takes.  Any other one stops the timer.
   */
  lemma KeyDecidesRepeat(k: Keyboard, key: nat, pressed: bool, b: Bindings)
    requires k.keymap && k.rate > 0 && k.delay > 0 && (k.repeat <==> k.timer > 0) && !(pressed && key in k.keys)
    ensures
      var r := HandleKey(k, key, pressed, b);
      && (r.repeat <==> pressed && key in b.repeats && key in b.taken && key !in b.switches)
      && r.timer == (if !r.repeat then 0 else if k.repeating && !k.repeat then k.rate else k.delay)
      && (k.repeat || r.repeat ==> !r.focused)
  {
  }

  /** The keys once a scan that has come to index `i` is through. */
  function Scanned(keys: seq<nat>, i: nat, key: nat): seq<nat>
    requires i <= |keys|
  {
    keys[..i] + Released(keys[i..], key)
  }

  lemma ScanStep(keys: seq<nat>, i: nat, key: nat)
    requires i < |keys|
    ensures keys[i] != key ==> Scanned(keys, i + 1, key) == Scanned(keys, i, key)
    ensures keys[i] == key ==> Scanned(keys[..i] + keys[i + 1..], i, key) == Scanned(keys, i, key)
  {
    assert keys[i..][1..] == keys[i + 1..];
    if keys[i] != key {
      assert keys[..i + 1] == keys[..i] + [keys[i]];
      Assoc(keys[..i], keys[i], Released(keys[i + 1..], key));
    } else {
      var rest := keys[..i] + keys[i + 1..];
      assert rest[..i] == keys[..i] && rest[i..] == keys[i + 1..];
    }
  }

  lemma ScanEnd(keys: seq<nat>, key: nat)
    ensures Scanned(keys, |keys|, key) == keys
  {
  }

  /** The seat's keyboard. */
  class SeatKeyboard {
    var keymap: bool
    var keys: seq<nat>
    var down: set<nat>
    var repeat: bool
    var repeating: bool
    var focused: bool
    var timer: nat
    const rate: nat
    const delay: nat
    var injected: seq<nat>
    var sent: seq<(nat, bool)>

    constructor (rate: nat, delay: nat)
      ensures Inv(Snapshot()) && Snapshot().keymap
    {
      this.rate, this.delay := rate, delay;
      keymap, keys, down, injected, sent := true, [], {}, [], [];
      repeat, repeating, focused, timer := false, false, false, 0;
    }

    function Snapshot(): Keyboard
      reads this
    {
      Keyboard(keymap, keys, down, repeat, repeating, focused, timer, rate, delay, injected, sent)
    }

    method HoldKey(key: nat, pressed: bool) returns (ok: bool)
      modifies `keys
      ensures (keys, ok) == UpdateKeys(old(keys), key, pressed)
    {
      ghost var before := keys;
      var i := 0;
      while i < |keys|
        invariant i <= |keys|
        invariant Scanned(keys, i, key) == Released(before, key)
        invariant pressed ==> keys == before
        decreases |keys| - i
      {
        ScanStep(keys, i, key);
        if keys[i] != key {
          i := i + 1;
        } else {
          if pressed { return false; }
          keys := keys[..i] + keys[i + 1..];
        }
      }
      ScanEnd(keys, key);
      if pressed { keys := keys + [key]; }
      return true;
    }

    method CancelRepeat()
      modifies `timer, `repeating, `focused, `repeat
      ensures Snapshot() == ResetRepeat(old(Snapshot()))
    {
      if !repeat { return; }
      timer := 0;
      repeating, focused, repeat := false, false, false;
    }

    method StartRepeat(focus: bool)
      modifies `timer, `focused, `repeat
      ensures Snapshot() == BeginRepeat(old(Snapshot()), focus)
    {
      repeat := true;
      focused := focus;
      timer := if repeating then rate else delay;
    }

    method UpdateKey(key: nat, pressed: bool) returns (ok: bool)
      modifies this
      ensures (Snapshot(), ok) == Update(old(Snapshot()), key, pressed)
    {
      down := if pressed then down + {key} else down - {key};
      ok := HoldKey(key, pressed);
      if ok { CancelRepeat(); }
    }

    method SeatHandleKey(key: nat, pressed: bool, b: Bindings)
      modifies this
      ensures Snapshot() == HandleKey(old(Snapshot()), key, pressed, b)
    {
      var ok := UpdateKey(key, pressed);
      if !ok { return; }
      if key in b.switches { return; }
      if key in b.taken {
        if pressed && keymap && key in b.repeats { StartRepeat(false); }
        return;
      }
      sent := sent + [(key, pressed)];
    }

    /** wlc_keyboard_focus. */
    method FocusOn(alive: bool, keyboards: nat, b: Bindings)
      modifies this
      ensures Snapshot() == Refocus(old(Snapshot()), alive, keyboards, b)
    {
      if !repeating { CancelRepeat(); }
      if alive { SendReleases(); }
      ghost var left := Snapshot();
      var r := 0;
      while r < keyboards
        invariant r <= keyboards
        invariant Snapshot() == if r > 0 && keymap && Pick(keys, b.repeats, true) != [] then BeginRepeat(left, true)
          else left
      {
        var count := if keymap then CountRepeating(b) else 0;
        if count > 0 { StartRepeat(true); }
        r := r + 1;
      }
    }

    /** send_release_for_keys. */
    method SendReleases()
      modifies `sent
      ensures sent == old(sent) + Each(keys, false)
    {
      var i := 0;
      while i < |keys|
        invariant i <= |keys| && sent == old(sent) + Each(keys[..i], false)
      {
        assert Each(keys[..i + 1], false) == Each(keys[..i], false) + [(keys[i], false)];
        sent := sent + [(keys[i], false)];
        i := i + 1;
      }
      assert keys[..i] == keys;
    }

    /** How many of the held keys repeat. */
    function CountRepeating(b: Bindings): nat
      reads this
    {
      |Pick(keys, b.repeats, true)|
    }

    method RepeatTimer(b: Bindings)
      modifies this
      ensures Snapshot() == CbRepeat(old(Snapshot()), b)
    {
      var moved := keys;
      keys := [];
      timer := 0;
      focused, repeat := false, false;
      repeating := true;
      if keymap {
        var i := 0;
        while i < |moved|
          invariant i <= |moved|
          invariant Sort(keys, down, moved[i..], b) == Sort([], old(down), moved, b)
          invariant Snapshot() == old(Snapshot()).(keys := keys, down := down, timer := 0, focused := false,
            repeat := false, repeating := true)
        {
          assert moved[i..][0] == moved[i] && moved[i..][1..] == moved[i + 1..];
          if moved[i] in b.repeats {
            down := down - {moved[i]};
          } else {
            var ok := HoldKey(moved[i], true);
          }
          i := i + 1;
        }
        ghost var sorted := Snapshot();
        i := 0;
        while i < |moved|
          invariant i <= |moved|
          invariant Inject(Snapshot(), moved[i..], b) == Inject(sorted, moved, b)
        {
          assert moved[i..][0] == moved[i] && moved[i..][1..] == moved[i + 1..];
          if moved[i] in b.repeats {
            injected := injected + [moved[i]];
            SeatHandleKey(moved[i], true, b);
          }
          i := i + 1;
        }
      }
    }
  }
}
