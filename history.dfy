/** `useHistory`: a linear undo/redo history over snapshots of any type.
    `Log` is its value: the snapshots and the cursor, with the three
    transitions as functions; `History` is the stateful hook whose methods
    are proved to make exactly those transitions.

    The hook's no-op test is JavaScript's `===`. Here it is `==` on `T`:
    for a class type that is reference identity, for a datatype value
    equality. The playground instantiates `T` with a class, so a new array
    with the same contents still counts as a change. */
module History {

  datatype Log<T(==)> = Log(entries: seq<T>, index: nat) {

    /** The history is never empty and the cursor points into it. */
    predicate Valid() {
      |entries| > 0 && index < |entries|
    }

    /** `state`: the snapshot at the cursor. */
    function Current(): T
      requires Valid()
    {
      entries[index]
    }

    /** No two neighbouring snapshots are the same: `set` never pushes the
        snapshot that is already current. */
    predicate AdjacentDistinct() {
      forall i :: 0 < i < |entries| ==> entries[i - 1] != entries[i]
    }

    predicate CanUndo() { index > 0 }
    predicate CanRedo() { index < |entries| - 1 }

    /** `set(x)`: nothing when `x` is the current snapshot; otherwise the
        snapshots after the cursor are dropped, `x` is appended and the
        cursor moves to it. */
    function Set(x: T): (r: Log<T>)
      requires Valid()
      ensures r.Valid() && r.Current() == x
      ensures index + 1 <= |r.entries| && r.entries[..index + 1] == entries[..index + 1]
      ensures x != Current() ==> r.CanUndo() && !r.CanRedo() && |r.entries| == index + 2
    {
      if x == Current() then this
      else Log(entries[..index + 1] + [x], index + 1)
    }

    /** `undo()`: one step back, unless already at the oldest snapshot. */
    function Undo(): (r: Log<T>)
      requires Valid()
      ensures r.Valid() && r.entries == entries
      ensures CanUndo() ==> r.index + 1 == index
      ensures !CanUndo() ==> r == this
    {
      if index > 0 then Log(entries, index - 1) else this
    }

    /** `redo()`: one step forward, unless already at the newest snapshot. */
    function Redo(): (r: Log<T>)
      requires Valid()
      ensures r.Valid() && r.entries == entries
      ensures CanRedo() ==> r.index == index + 1
      ensures !CanRedo() ==> r == this
    {
      if index < |entries| - 1 then Log(entries, index + 1) else this
    }

    /** Setting a series of snapshots one after the other. */
    function SetAll(xs: seq<T>): (r: Log<T>)
      requires Valid()
      ensures r.Valid()
      decreases |xs|
    {
      if xs == [] then this else Set(xs[0]).SetAll(xs[1..])
    }
  }

  /** The history a session starts with: the one initial snapshot. */
  function Initial<T(==)>(x: T): (h: Log<T>)
    ensures h.Valid() && h.Current() == x && !h.CanUndo() && !h.CanRedo()
    ensures h.AdjacentDistinct()
  {
    Log([x], 0)
  }

  /** Setting the current snapshot again changes nothing. */
  lemma SetCurrentIsNoOp<T>(h: Log<T>)
    requires h.Valid()
    ensures h.Set(h.Current()) == h
  {
  }

  /** `set(x)` then `undo()` brings back what was current before. */
  lemma SetThenUndo<T>(h: Log<T>, x: T)
    requires h.Valid() && x != h.Current()
    ensures h.Set(x).Undo().Current() == h.Current()
    ensures h.Set(x).Undo().Redo().Current() == x
  {
  }

  /** Undo then set discards the redo branch: an immediate redo is a no-op. */
  lemma UndoSetRedo<T>(h: Log<T>, x: T)
    requires h.Valid() && x != h.Undo().Current()
    ensures h.Undo().Set(x).Redo() == h.Undo().Set(x)
    ensures h.Undo().Set(x).Current() == x
  {
  }

  /** The buttons are enabled exactly when clicking them does something. */
  lemma CanUndoExact<T>(h: Log<T>)
    requires h.Valid()
    ensures h.CanUndo() <==> h.Undo() != h
    ensures h.CanRedo() <==> h.Redo() != h
  {
  }

  /** Undo and redo are inverse to each other where they are enabled. */
  lemma UndoRedoInverse<T>(h: Log<T>)
    requires h.Valid()
    ensures h.CanUndo() ==> h.Undo().Redo() == h
    ensures h.CanRedo() ==> h.Redo().Undo() == h
  {
  }

  /** `set`, `undo` and `redo` keep neighbouring snapshots distinct, so an
      enabled undo or redo always changes the current snapshot. */
  lemma AdjacentDistinctKept<T>(h: Log<T>, x: T)
    requires h.Valid() && h.AdjacentDistinct()
    ensures h.Set(x).AdjacentDistinct() && h.Undo().AdjacentDistinct() && h.Redo().AdjacentDistinct()
    ensures h.CanUndo() ==> h.Undo().Current() != h.Current()
    ensures h.CanRedo() ==> h.Redo().Current() != h.Current()
  {
    var r := h.Set(x);
    if x != h.Current() {
      forall i | 0 < i < |r.entries|
        ensures r.entries[i - 1] != r.entries[i]
      {
        if i < h.index + 1 {
          assert r.entries[i - 1] == h.entries[i - 1] && r.entries[i] == h.entries[i];
        }
      }
    }
  }

  /** What the snapshot before `xs[k]` is, when `xs` is set in order from a
      history whose current snapshot is `cur`. */
  function Before<T>(cur: T, xs: seq<T>, k: nat): T
    requires k < |xs|
  {
    if k == 0 then cur else xs[k - 1]
  }

  /** How many of the snapshots in `xs` differ from the one before them,
      i.e. how many of the `set` calls are not no-ops. */
  function Changes<T(==)>(cur: T, xs: seq<T>): (n: nat)
    ensures n <= |xs|
    ensures n == 0 <==> forall k :: 0 <= k < |xs| ==> xs[k] == Before(cur, xs, k)
    decreases |xs|
  {
    if xs == [] then 0
    else
      var n := Changes(xs[0], xs[1..]);
      assert forall k :: 1 <= k < |xs| ==> Before(cur, xs, k) == Before(xs[0], xs[1..], k - 1);
      (if xs[0] == cur then 0 else 1) + n
  }

  /** A session of `set` calls alone, from any history (after undos too):
      the last snapshot set is current, the cursor has moved once per call
      that was not a no-op, and undo is enabled exactly when some call was
      not a no-op (or it already was). When every call was a no-op the
      history is unchanged; otherwise redo is off. */
  lemma {:induction false} SetAllMoves<T>(h: Log<T>, xs: seq<T>)
    requires h.Valid()
    ensures var r := h.SetAll(xs);
      && r.Current() == (if xs == [] then h.Current() else xs[|xs| - 1])
      && r.index == h.index + Changes(h.Current(), xs)
      && (r.CanUndo() <==> h.CanUndo() || Changes(h.Current(), xs) > 0)
      && (Changes(h.Current(), xs) == 0 ==> r == h)
      && (Changes(h.Current(), xs) > 0 ==> !r.CanRedo())
    decreases |xs|
  {
    if xs != [] {
      var h1 := h.Set(xs[0]);
      assert h1.Current() == xs[0];
      SetAllMoves(h1, xs[1..]);
      if xs[1..] != [] {
        assert xs[1..][|xs[1..]| - 1] == xs[|xs| - 1];
      }
    }
  }

  /** The hook's state: the history array and the cursor, updated in place
      by `set`, `undo` and `redo`. */
  class History<T(==)> {
    var entries: seq<T>
    var index: nat

    /** The value this object holds. */
    function Model(): Log<T>
      reads this
    {
      Log(entries, index)
    }

    ghost predicate Valid()
      reads this
    {
      Model().Valid()
    }

    /** `useHistory(initialState)`. */
    constructor (initial: T)
      ensures Valid() && Model() == Initial(initial)
    {
      entries := [initial];
      index := 0;
    }

    /** `state`, `canUndo` and `canRedo`. */
    function State(): T
      reads this
      requires Valid()
    {
      Model().Current()
    }

    predicate CanUndo()
      reads this
    {
      Model().CanUndo()
    }

    predicate CanRedo()
      reads this
    {
      Model().CanRedo()
    }

    method Set(x: T)
      requires Valid()
      modifies this
      ensures Valid() && Model() == old(Model()).Set(x)
    {
      if x == entries[index] {
        return;
      }
      var newHistory := entries[..index + 1];
      newHistory := newHistory + [x];
      entries := newHistory;
      index := |newHistory| - 1;
    }

    method Undo()
      requires Valid()
      modifies this
      ensures Valid() && Model() == old(Model()).Undo()
    {
      if index > 0 {
        index := index - 1;
      }
    }

    method Redo()
      requires Valid()
      modifies this
      ensures Valid() && Model() == old(Model()).Redo()
    {
      if index < |entries| - 1 {
        index := index + 1;
      }
    }
  }
}
