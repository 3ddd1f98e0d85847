/**
 * Bounded undo/redo history (`UndoRedo<T>`): two stacks whose LAST element is
 * the top. A push appends to the undo stack, evicts the oldest (front) entry
 * when the stack grows past the capacity, and clears the redo stack. Undo and
 * redo hand back the top of one stack and push the caller's current value onto
 * the other.
 */
module History {
  import opened Wrappers

  datatype UndoRedo<T> = UndoRedo(capacity: int, undo: seq<T>, redo: seq<T>)

  /** A fresh history: both stacks empty. */
  function Empty<T>(capacity: int): (h: UndoRedo<T>)
    ensures h.capacity == capacity && h.undo == [] && h.redo == []
  {
    UndoRedo(capacity, [], [])
  }

  /** The invariant the operations keep: the two stacks together fit in the capacity. */
  predicate Bounded<T>(h: UndoRedo<T>)
  {
    0 <= h.capacity && |h.undo| + |h.redo| <= h.capacity
  }

  /** What `undo`/`redo` hand back: the history afterwards and the returned snapshot (`null` is `None`). */
  datatype Step<T> = Step(history: UndoRedo<T>, value: Option<T>)

  /** `push(state)`. */
  function Push<T>(h: UndoRedo<T>, s: T): (r: UndoRedo<T>)
    ensures r.capacity == h.capacity
    ensures r.redo == []
    // the new undo stack is what is left of `undo + [s]` after dropping front entries ...
    ensures |r.undo| <= |h.undo| + 1 && r.undo == (h.undo + [s])[|h.undo| + 1 - |r.undo|..]
    // ... and exactly one is dropped, precisely when the stack outgrew the capacity
    ensures |r.undo| == if |h.undo| + 1 > h.capacity then |h.undo| else |h.undo| + 1
    ensures h.capacity >= 1 ==> |r.undo| > 0 && r.undo[|r.undo| - 1] == s
    ensures |h.undo| <= h.capacity ==> |r.undo| <= h.capacity
    ensures Bounded(h) ==> Bounded(r)
  {
    var grown := h.undo + [s];
    var kept := if |grown| > h.capacity then grown[1..] else grown;
    UndoRedo(h.capacity, kept, [])
  }

  /** `undo(current)`. */
  function Undo<T>(h: UndoRedo<T>, current: T): (r: Step<T>)
    ensures h.undo == [] ==> r == Step(h, None)
    ensures h.undo != [] ==>
      && r.value == Some(h.undo[|h.undo| - 1])
      && r.history == UndoRedo(h.capacity, h.undo[..|h.undo| - 1], h.redo + [current])
    ensures Bounded(h) ==> Bounded(r.history)
  {
    if |h.undo| == 0 then Step(h, None)
    else
      var top := h.undo[|h.undo| - 1];
      Step(UndoRedo(h.capacity, h.undo[..|h.undo| - 1], h.redo + [current]), Some(top))
  }

  /** `redo(current)`: the mirror of `Undo`; it does not re-check the capacity. */
  function Redo<T>(h: UndoRedo<T>, current: T): (r: Step<T>)
    ensures h.redo == [] ==> r == Step(h, None)
    ensures h.redo != [] ==>
      && r.value == Some(h.redo[|h.redo| - 1])
      && r.history == UndoRedo(h.capacity, h.undo + [current], h.redo[..|h.redo| - 1])
    ensures Bounded(h) ==> Bounded(r.history)
  {
    if |h.redo| == 0 then Step(h, None)
    else
      var next := h.redo[|h.redo| - 1];
      Step(UndoRedo(h.capacity, h.undo + [current], h.redo[..|h.redo| - 1]), Some(next))
  }

  /** Undoing and then redoing with the value undo returned restores everything. */
  lemma UndoThenRedo<T>(h: UndoRedo<T>, current: T)
    requires Undo(h, current).value.Some?
    ensures Redo(Undo(h, current).history, Undo(h, current).value.value) == Step(h, Some(current))
  {
    var u := h.undo;
    assert u[..|u| - 1] + [u[|u| - 1]] == u;
  }

  /** Redoing and then undoing with the value redo returned restores everything. */
  lemma RedoThenUndo<T>(h: UndoRedo<T>, current: T)
    requires Redo(h, current).value.Some?
    ensures Undo(Redo(h, current).history, Redo(h, current).value.value) == Step(h, Some(current))
  {
    var w := h.redo;
    assert w[..|w| - 1] + [w[|w| - 1]] == w;
  }

  // ---------------------------------------------------------------------------
  // Capacity over a run of pushes

  /** Pushes every element of `xs` in order. */
  function PushAll<T>(h: UndoRedo<T>, xs: seq<T>): UndoRedo<T>
    decreases |xs|
  {
    if xs == [] then h else PushAll(Push(h, xs[0]), xs[1..])
  }

  /** The `n` most recent (last) elements of `s`, or all of them when there are fewer. */
  function Newest<T>(s: seq<T>, n: nat): (r: seq<T>)
    ensures |r| == if |s| < n then |s| else n
  {
    if |s| <= n then s else s[|s| - n..]
  }

  /**
   * A run of pushes keeps exactly the `capacity` most recent entries, oldest
   * first, and leaves the redo stack empty.
   */
  lemma {:induction false} PushAllKeepsNewest<T>(h: UndoRedo<T>, xs: seq<T>)
    requires |h.undo| <= h.capacity
    ensures PushAll(h, xs).undo == Newest(h.undo + xs, h.capacity)
    ensures xs != [] ==> PushAll(h, xs).redo == []
    decreases |xs|
  {
    if xs == [] {
      assert h.undo + xs == h.undo;
    } else {
      var h' := Push(h, xs[0]);
      PushKeepsNewest(h, xs[0]);
      PushAllKeepsNewest(h', xs[1..]);
      NewestAfterPush(h.undo, xs, h.capacity);
    }
  }

  /** One push keeps the `capacity` newest entries. */
  lemma PushKeepsNewest<T>(h: UndoRedo<T>, x: T)
    requires |h.undo| <= h.capacity
    ensures Push(h, x).capacity == h.capacity && |Push(h, x).undo| <= h.capacity
    ensures Push(h, x).undo == Newest(h.undo + [x], h.capacity)
  {
  }

  /** Trimming after the first of a run of appends does not change the newest entries at the end. */
  lemma NewestAfterPush<T>(u: seq<T>, xs: seq<T>, n: nat)
    requires xs != []
    ensures Newest(Newest(u + [xs[0]], n) + xs[1..], n) == Newest(u + xs, n)
  {
    NewestThenAppend(u + [xs[0]], xs[1..], n);
    assert (u + [xs[0]]) + xs[1..] == u + xs;
  }

  /** Trimming to the `n` newest before appending changes nothing about the `n` newest after. */
  lemma NewestThenAppend<T>(a: seq<T>, b: seq<T>, n: nat)
    ensures Newest(Newest(a, n) + b, n) == Newest(a + b, n)
  {
    if |a| > n {
      var p := a[..|a| - n];
      assert a == p + a[|a| - n..];
      assert a + b == p + (a[|a| - n..] + b);
      NewestOfSuffix(p, a[|a| - n..] + b, n);
    }
  }

  lemma NewestOfSuffix<T>(p: seq<T>, s: seq<T>, n: nat)
    requires |s| >= n
    ensures Newest(p + s, n) == Newest(s, n)
  {
    if |p + s| > n {
      assert (p + s)[|p + s| - n..] == s[|s| - n..];
    }
  }

  /** Pushing `capacity + extra` states into an empty history evicts exactly the first `extra`. */
  lemma OverflowEvictsOldest<T>(capacity: nat, xs: seq<T>, extra: nat)
    requires |xs| == capacity + extra
    ensures PushAll(Empty<T>(capacity), xs).undo == xs[extra..]
    ensures |PushAll(Empty<T>(capacity), xs).undo| == capacity
  {
    var h := Empty<T>(capacity);
    PushAllKeepsNewest(h, xs);
    NewestOfFull(h.undo + xs, xs, capacity, extra);
  }

  /** When `capacity + extra` entries were pushed onto nothing, the newest `capacity` are all but the first `extra`. */
  lemma NewestOfFull<T>(s: seq<T>, xs: seq<T>, capacity: nat, extra: nat)
    requires s == [] + xs && |xs| == capacity + extra
    ensures Newest(s, capacity) == xs[extra..]
  {
    assert s == xs;
  }

  // ---------------------------------------------------------------------------
  // Undo/redo as a cursor moving over a fixed timeline

  /** A value under history control: the history and the caller's current value. */
  datatype Tracked<T> = Tracked(history: UndoRedo<T>, current: T)

  /** `s` in reverse order. */
  function Reverse<T>(s: seq<T>): (r: seq<T>)
    ensures |r| == |s|
    ensures forall i :: 0 <= i < |s| ==> r[i] == s[|s| - 1 - i]
  {
    if s == [] then [] else Reverse(s[1..]) + [s[0]]
  }

  /** Every snapshot in chronological order: the undo stack, the current value, then the redo stack top-first. */
  function Timeline<T>(t: Tracked<T>): (line: seq<T>)
    ensures |line| == |t.history.undo| + 1 + |t.history.redo|
  {
    t.history.undo + [t.current] + Reverse(t.history.redo)
  }

  /** `undo()` applied to a tracked value: on success the returned snapshot becomes current. */
  function UndoTracked<T>(t: Tracked<T>): Tracked<T>
  {
    var st := Undo(t.history, t.current);
    Tracked(st.history, st.value.GetOr(t.current))
  }

  /** `redo()` applied to a tracked value. */
  function RedoTracked<T>(t: Tracked<T>): Tracked<T>
  {
    var st := Redo(t.history, t.current);
    Tracked(st.history, st.value.GetOr(t.current))
  }

  /** A successful undo moves the cursor one step back and leaves the timeline alone. */
  lemma UndoMovesCursorBack<T>(t: Tracked<T>)
    requires t.history.undo != []
    ensures Timeline(UndoTracked(t)) == Timeline(t)
    ensures |UndoTracked(t).history.undo| == |t.history.undo| - 1
    ensures UndoTracked(t).history.capacity == t.history.capacity
  {
    var u := t.history.undo;
    var w := t.history.redo;
    var t' := UndoTracked(t);
    assert Reverse(w + [t.current]) == [t.current] + Reverse(w);
    assert u[..|u| - 1] + [u[|u| - 1]] == u;
    calc {
      Timeline(t');
      u[..|u| - 1] + [u[|u| - 1]] + Reverse(w + [t.current]);
      u + ([t.current] + Reverse(w));
      Timeline(t);
    }
  }

  /** A successful redo moves the cursor one step forward and leaves the timeline alone. */
  lemma RedoMovesCursorForward<T>(t: Tracked<T>)
    requires t.history.redo != []
    ensures Timeline(RedoTracked(t)) == Timeline(t)
    ensures |RedoTracked(t).history.undo| == |t.history.undo| + 1
    ensures RedoTracked(t).history.capacity == t.history.capacity
  {
    var u := t.history.undo;
    var w := t.history.redo;
    var w' := w[..|w| - 1];
    assert w' + [w[|w| - 1]] == w;
    assert Reverse(w) == [w[|w| - 1]] + Reverse(w');
    calc {
      Timeline(RedoTracked(t));
      (u + [t.current]) + [w[|w| - 1]] + Reverse(w');
      u + [t.current] + ([w[|w| - 1]] + Reverse(w'));
      Timeline(t);
    }
  }

  /** The capacity, the timeline and the cursor position determine a tracked value completely. */
  lemma TimelineDetermines<T>(a: Tracked<T>, b: Tracked<T>)
    requires a.history.capacity == b.history.capacity
    requires Timeline(a) == Timeline(b)
    requires |a.history.undo| == |b.history.undo|
    ensures a == b
  {
    var k := |a.history.undo|;
    var line := Timeline(a);
    assert a.history.undo == line[..k] == b.history.undo;
    assert a.current == line[k] == b.current;
    assert Reverse(a.history.redo) == line[k + 1..] == Reverse(b.history.redo);
    ReverseInjective(a.history.redo, b.history.redo);
  }

  lemma ReverseInjective<T>(x: seq<T>, y: seq<T>)
    requires Reverse(x) == Reverse(y)
    ensures x == y
  {
    assert |x| == |y|;
    forall i | 0 <= i < |x|
      ensures x[i] == y[i]
    {
      var j := |x| - 1 - i;
      assert Reverse(x)[j] == x[i];
      assert Reverse(y)[j] == y[i];
    }
  }

  /** `undo()` called `n` times. */
  function UndoTimes<T>(t: Tracked<T>, n: nat): Tracked<T>
    decreases n
  {
    if n == 0 then t else UndoTimes(UndoTracked(t), n - 1)
  }

  /** `redo()` called `n` times. */
  function RedoTimes<T>(t: Tracked<T>, n: nat): Tracked<T>
    decreases n
  {
    if n == 0 then t else RedoTimes(RedoTracked(t), n - 1)
  }

  lemma {:induction false} UndoTimesMovesBack<T>(t: Tracked<T>, n: nat)
    requires n <= |t.history.undo|
    ensures Timeline(UndoTimes(t, n)) == Timeline(t)
    ensures |UndoTimes(t, n).history.undo| == |t.history.undo| - n
    ensures UndoTimes(t, n).history.capacity == t.history.capacity
    decreases n
  {
    if n > 0 {
      UndoMovesCursorBack(t);
      UndoTimesMovesBack(UndoTracked(t), n - 1);
    }
  }

  lemma {:induction false} RedoTimesMovesForward<T>(t: Tracked<T>, n: nat)
    requires n <= |t.history.redo|
    ensures Timeline(RedoTimes(t, n)) == Timeline(t)
    ensures |RedoTimes(t, n).history.undo| == |t.history.undo| + n
    ensures RedoTimes(t, n).history.capacity == t.history.capacity
    decreases n
  {
    if n > 0 {
      RedoMovesCursorForward(t);
      RedoTimesMovesForward(RedoTracked(t), n - 1);
    }
  }

  /** Any `n` undos that all succeed are cancelled by `n` redos. */
  lemma UndoTimesThenRedoTimes<T>(t: Tracked<T>, n: nat)
    requires n <= |t.history.undo|
    ensures RedoTimes(UndoTimes(t, n), n) == t
  {
    var back := UndoTimes(t, n);
    UndoTimesMovesBack(t, n);
    assert |back.history.redo| >= n;
    RedoTimesMovesForward(back, n);
    TimelineDetermines(RedoTimes(back, n), t);
  }

  /** Each element of `trail` becomes current in turn, the previous current value being pushed first. */
  function Record<T>(t: Tracked<T>, trail: seq<T>): Tracked<T>
    decreases |trail|
  {
    if trail == [] then t
    else Record(Tracked(Push(t.history, t.current), trail[0]), trail[1..])
  }

  /** Without eviction, recording a non-empty trail lays it out after the current value with nothing to redo. */
  lemma {:induction false} RecordTimeline<T>(t: Tracked<T>, trail: seq<T>)
    requires |t.history.undo| + |trail| <= t.history.capacity
    requires trail != []
    ensures Timeline(Record(t, trail)) == t.history.undo + [t.current] + trail
    ensures |Record(t, trail).history.undo| == |t.history.undo| + |trail|
    ensures Record(t, trail).history.capacity == t.history.capacity
    decreases |trail|
  {
    var t' := Tracked(UndoRedo(t.history.capacity, t.history.undo + [t.current], []), trail[0]);
    RecordStep(t, trail);
    if |trail| == 1 {
      FreshTimeline(t');
      OneMore(t.history.undo, t.current, trail);
    } else {
      RecordTimeline(t', trail[1..]);
      OneMore(t.history.undo, t.current, trail);
    }
  }

  /** The first recorded edit pushes the current value without eviction. */
  lemma RecordStep<T>(t: Tracked<T>, trail: seq<T>)
    requires |t.history.undo| + 1 <= t.history.capacity && trail != []
    ensures Record(t, trail)
         == Record(Tracked(UndoRedo(t.history.capacity, t.history.undo + [t.current], []), trail[0]), trail[1..])
  {
    PushWithoutEviction(t.history, t.current);
  }

  /** With nothing to redo the timeline ends at the current value. */
  lemma FreshTimeline<T>(t: Tracked<T>)
    requires t.history.redo == []
    ensures Timeline(t) == t.history.undo + [t.current]
  {
    assert Reverse(t.history.redo) == [];
  }

  lemma OneMore<T>(u: seq<T>, c: T, trail: seq<T>)
    requires trail != []
    ensures (u + [c]) + [trail[0]] + trail[1..] == u + [c] + trail
    ensures |trail| == 1 ==> (u + [c]) + [trail[0]] == u + [c] + trail
  {
    assert [trail[0]] + trail[1..] == trail;
  }

  /** A push that fits appends and evicts nothing. */
  lemma PushWithoutEviction<T>(h: UndoRedo<T>, x: T)
    requires |h.undo| + 1 <= h.capacity
    ensures Push(h, x) == UndoRedo(h.capacity, h.undo + [x], [])
  {
  }

  /**
   * A run of `|trail|` recorded edits that fits in the capacity is undone by
   * `|trail|` undos, which restore the starting value and undo stack, and
   * redone by as many redos.
   */
  lemma RecordUndoRedo<T>(t: Tracked<T>, trail: seq<T>)
    requires |t.history.undo| + |trail| <= t.history.capacity
    ensures UndoTimes(Record(t, trail), |trail|).current == t.current
    ensures UndoTimes(Record(t, trail), |trail|).history.undo == t.history.undo
    ensures RedoTimes(UndoTimes(Record(t, trail), |trail|), |trail|) == Record(t, trail)
  {
    if trail != [] {
      RecordTimeline(t, trail);
      UndoLaidOut(Record(t, trail), t.history.undo, t.current, trail);
    }
  }

  /** Undoing a value whose timeline ends with `trail` after the cursor goes back over the whole trail. */
  lemma UndoLaidOut<T>(r: Tracked<T>, u: seq<T>, c: T, trail: seq<T>)
    requires Timeline(r) == u + [c] + trail && |r.history.undo| == |u| + |trail|
    ensures UndoTimes(r, |trail|).current == c
    ensures UndoTimes(r, |trail|).history.undo == u
    ensures RedoTimes(UndoTimes(r, |trail|), |trail|) == r
  {
    UndoTimesMovesBack(r, |trail|);
    CursorAt(UndoTimes(r, |trail|), u, c, trail);
    UndoTimesThenRedoTimes(r, |trail|);
  }

  /** A tracked value whose timeline is `u + [c] + rest` with the cursor after `u` has undo stack `u` and current value `c`. */
  lemma CursorAt<T>(t: Tracked<T>, u: seq<T>, c: T, rest: seq<T>)
    requires Timeline(t) == u + [c] + rest && |t.history.undo| == |u|
    ensures t.history.undo == u && t.current == c
  {
    var line := Timeline(t);
    assert t.history.undo == line[..|u|];
    assert line[..|u|] == u;
    assert t.current == line[|u|];
  }
}
