/**
 * `State`: the fixed window of the last ORDER symbols of a walk, the key of the
 * chain. The array `m_state` keeps the oldest symbol at index 0 and the newest
 * at index ORDER - 1.
 */
module States {
  import opened Symbols

  /** `State::ORDER`: the order of the Markov chain. */
  const ORDER: nat := 3

  /** The value of a state: the contents of `m_state`, oldest first. */
  type Window = w: seq<Symbol> | |w| == ORDER witness [ZERO, ZERO, ZERO]

  /** The state of a fresh walk: every position ZERO. */
  const EMPTY: Window := [ZERO, ZERO, ZERO]

  /** `push_back`: `x` enters at the newest end, every other symbol moves one place older. */
  function ShiftIn(w: Window, x: Symbol): (r: Window)
    ensures r[ORDER - 1] == x
    ensures forall i :: 0 <= i < ORDER - 1 ==> r[i] == w[i + 1]
  {
    w[1..] + [x]
  }

  /** `push_front`: `x` enters at the oldest end, every other symbol moves one place newer. */
  function ShiftBack(w: Window, x: Symbol): (r: Window)
    ensures r[0] == x
    ensures forall i :: 0 < i < ORDER ==> r[i] == w[i - 1]
  {
    [x] + w[..ORDER - 1]
  }

  /** `state(n)`: the n-th most recent symbol, 0 being the newest. */
  function Newest(w: Window, n: nat): Symbol
    requires n < ORDER
  {
    w[ORDER - n - 1]
  }

  /** Pushing the evicted symbol back at the front undoes `push_back`, for every symbol. */
  lemma ShiftBackUndoesShiftIn(w: Window, x: Symbol)
    ensures ShiftBack(ShiftIn(w, x), w[0]) == w
  {
  }

  /** And the other way round: `push_back` of what `push_front` evicted undoes it. */
  lemma ShiftInUndoesShiftBack(w: Window, x: Symbol)
    ensures ShiftIn(ShiftBack(w, x), w[ORDER - 1]) == w
  {
  }

  /** The state reached from EMPTY by pushing the symbols of `xs` in order. */
  function Walk(xs: seq<Symbol>): Window
  {
    if xs == [] then EMPTY else ShiftIn(Walk(xs[..|xs| - 1]), xs[|xs| - 1])
  }

  /** The symbols that fell off the window, one per push, while walking `xs`. */
  function Evicted(xs: seq<Symbol>): (r: seq<Symbol>)
    ensures |r| == |xs|
  {
    if xs == [] then [] else Evicted(xs[..|xs| - 1]) + [Walk(xs[..|xs| - 1])[0]]
  }

  /** The state after a walk holds its last ORDER symbols, padded with ZERO in front. */
  lemma {:induction false} WalkKeepsLast(xs: seq<Symbol>)
    ensures Walk(xs) == (EMPTY + xs)[|xs|..]
  {
    if xs != [] {
      var p := xs[..|xs| - 1];
      WalkKeepsLast(p);
      assert EMPTY + xs == (EMPTY + p) + [xs[|xs| - 1]];
    }
  }

  /** `state(n)` after a walk: the n-th last symbol pushed, or ZERO when fewer than n + 1 were pushed. */
  lemma NewestOfWalk(xs: seq<Symbol>, n: nat)
    requires n < ORDER
    ensures Newest(Walk(xs), n) == if n < |xs| then xs[|xs| - 1 - n] else ZERO
  {
    WalkKeepsLast(xs);
    NewestOfPadded(xs, Walk(xs), n);
  }

  lemma NewestOfPadded(xs: seq<Symbol>, w: Window, n: nat)
    requires n < ORDER && w == (EMPTY + xs)[|xs|..]
    ensures Newest(w, n) == if n < |xs| then xs[|xs| - 1 - n] else ZERO
  {
    assert w[ORDER - n - 1] == (EMPTY + xs)[|xs| + ORDER - n - 1];
  }

  /** Undo records are prefix-closed: the first k evictions are those of the first k pushes. */
  lemma {:induction false} EvictedPrefix(xs: seq<Symbol>, k: nat)
    requires k <= |xs|
    ensures Evicted(xs)[..k] == Evicted(xs[..k])
    decreases |xs|
  {
    if k < |xs| {
      var p := xs[..|xs| - 1];
      EvictedPrefix(p, k);
      assert p[..k] == xs[..k];
    } else {
      assert xs[..k] == xs;
    }
  }

  /** `State`: the working window of a walk, updated in place. */
  class State {
    /** `m_state`. */
    const cells: array<Symbol>

    ghost predicate Valid() {
      cells.Length == ORDER
    }

    /** The value of the state. */
    function Window(): Window
      reads cells
      requires Valid()
    {
      cells[..]
    }

    /** `State()`: a zeroed window. */
    constructor ()
      ensures Valid() && fresh(cells)
      ensures Window() == EMPTY
    {
      cells := new Symbol[ORDER];
      new;
      Clear();
    }

    /** `clear`: every position becomes ZERO. */
    method Clear()
      requires Valid()
      modifies cells
      ensures Window() == EMPTY
    {
      var i := 0;
      while i != ORDER
        invariant 0 <= i <= ORDER
        invariant forall j :: 0 <= j < i ==> cells[j] == ZERO
      {
        cells[i] := ZERO;
        i := i + 1;
      }
    }

    /** `operator()(n)`: the n-th most recent symbol. */
    function At(n: nat): (x: Symbol)
      reads cells
      requires Valid() && n < ORDER
      ensures x == Newest(Window(), n)
    {
      cells[ORDER - n - 1]
    }

    /** `operator==`: position-by-position comparison. */
    method Equals(other: State) returns (eq: bool)
      requires Valid() && other.Valid()
      ensures eq <==> Window() == other.Window()
    {
      var i := 0;
      while i != ORDER
        invariant 0 <= i <= ORDER
        invariant cells[..i] == other.cells[..i]
      {
        if cells[i] != other.cells[i] {
          return false;
        }
        i := i + 1;
      }
      assert cells[..] == cells[..ORDER] && other.cells[..] == other.cells[..ORDER];
      return true;
    }

    /** `push_back`: shift towards the old end, append `item`, return the symbol that fell off. */
    method PushBack(item: Symbol) returns (evicted: Symbol)
      requires Valid()
      modifies cells
      ensures Window() == ShiftIn(old(Window()), item)
      ensures evicted == old(Window())[0]
      ensures At(0) == item
    {
      evicted := cells[0];
      var i := 0;
      while i + 1 != ORDER
        invariant 0 <= i < ORDER
        invariant forall j :: 0 <= j < i ==> cells[j] == old(cells[j + 1])
        invariant forall j :: i <= j < ORDER ==> cells[j] == old(cells[j])
      {
        cells[i] := cells[i + 1];
        i := i + 1;
      }
      cells[ORDER - 1] := item;
    }

    /** `push_front`: shift towards the new end, put `item` first, return the symbol that fell off. */
    method PushFront(item: Symbol) returns (evicted: Symbol)
      requires Valid()
      modifies cells
      ensures Window() == ShiftBack(old(Window()), item)
      ensures evicted == old(Window())[ORDER - 1]
    {
      evicted := cells[ORDER - 1];
      var i := ORDER - 1;
      while i != 0
        invariant 0 <= i < ORDER
        invariant forall j :: i < j < ORDER ==> cells[j] == old(cells[j - 1])
        invariant forall j :: 0 <= j <= i ==> cells[j] == old(cells[j])
      {
        cells[i] := cells[i - 1];
        i := i - 1;
      }
      cells[0] := item;
    }
  }
}
