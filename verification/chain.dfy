/**
 * `MarkovChain`: the map from states to transitions, filled by training on
 * samples, and the weighted pick of the random walk.
 */
module Chains {
  import opened Symbols
  import opened States
  import opened Transitions

  /** The counts of a whole chain: for every recorded state, its transition's counts. */
  type Table = map<Window, map<Symbol, nat>>

  /** `add_state`: one more occurrence of `x` after the state `w`. */
  function Record(t: Table, w: Window, x: Symbol): Table {
    t[w := Bump(if w in t then t[w] else map[], x)]
  }

  /** The number of symbols of a sample before its first NUL (the loop test `input[i] != ZERO`). */
  function Length(input: seq<Symbol>): (n: nat)
    ensures n <= |input|
    ensures forall i :: 0 <= i < n ==> input[i] != ZERO
    ensures n < |input| ==> input[n] == ZERO
  {
    if input == [] || input[0] == ZERO then 0 else 1 + Length(input[1..])
  }

  /** `add_input` continued from the state `w`: the counts after the rest of a sample. */
  function TrainInput(t: Table, w: Window, input: seq<Symbol>, addZero: bool): Table
    decreases |input|
  {
    if input == [] || input[0] == ZERO then
      if addZero then Record(t, w, ZERO) else t
    else
      TrainInput(Record(t, w, input[0]), ShiftIn(w, input[0]), input[1..], addZero)
  }

  /** The `MarkovChain` constructor: every sample trained in turn, each from a fresh state. */
  function Train(t: Table, samples: seq<seq<Symbol>>, addZero: bool): Table
    decreases |samples|
  {
    if samples == [] then t else Train(TrainInput(t, EMPTY, samples[0], addZero), samples[1..], addZero)
  }

  /** The number of recorded occurrences in the whole table. */
  ghost function Total(t: Table): nat {
    Sum(map w | w in t :: Sum(t[w]))
  }

  /** Every `add_state` adds exactly one occurrence to the table. */
  lemma RecordTotal(t: Table, w: Window, x: Symbol)
    ensures Total(Record(t, w, x)) == Total(t) + 1
  {
    var base := if w in t then t[w] else map[];
    var sums := map v | v in t :: Sum(t[v]);
    assert (map v | v in Record(t, w, x) :: Sum(Record(t, w, x)[v])) == sums[w := Sum(Bump(base, x))];
    SumBump(base, x);
    SumUpdate(sums, w, Sum(Bump(base, x)));
    assert w !in t ==> Sum(base) == 0;
  }

  /** `add_input` adds one occurrence per symbol before the first NUL, plus one ZERO when asked. */
  lemma {:induction false} TrainInputTotal(t: Table, w: Window, input: seq<Symbol>, addZero: bool)
    ensures Total(TrainInput(t, w, input, addZero)) == Total(t) + Length(input) + (if addZero then 1 else 0)
    decreases |input|
  {
    if input == [] || input[0] == ZERO {
      if addZero { RecordTotal(t, w, ZERO); }
    } else {
      RecordTotal(t, w, input[0]);
      TrainInputTotal(Record(t, w, input[0]), ShiftIn(w, input[0]), input[1..], addZero);
    }
  }

  lemma TrainInputStep(t: Table, w: Window, input: seq<Symbol>, i: nat, addZero: bool)
    requires i < |input| && input[i] != ZERO
    ensures TrainInput(t, w, input[i..], addZero)
         == TrainInput(Record(t, w, input[i]), ShiftIn(w, input[i]), input[i + 1..], addZero)
  {
    assert input[i..][1..] == input[i + 1..];
  }

  lemma TrainInputEnd(t: Table, w: Window, input: seq<Symbol>, i: nat, addZero: bool)
    requires i <= |input| && (i == |input| || input[i] == ZERO)
    ensures TrainInput(t, w, input[i..], addZero) == if addZero then Record(t, w, ZERO) else t
  {
  }

  /** Every recorded non-ZERO symbol leads from a recorded state to a recorded state. */
  ghost predicate Closed(t: Table) {
    forall w, x {:trigger ShiftIn(w, x)} :: w in t && x in t[w] && x != ZERO ==> ShiftIn(w, x) in t
  }

  /** Closed, except that edges may still lead to the state `c` the walk is in. */
  ghost predicate ClosedExcept(t: Table, c: Window) {
    forall w, x :: w in t && x in t[w] && x != ZERO ==> ShiftIn(w, x) in t || ShiftIn(w, x) == c
  }

  /** No recorded state has an empty transition. */
  ghost predicate Filled(t: Table) {
    forall w :: w in t ==> t[w] != map[]
  }

  /** What the enumerator needs of a chain: the root is recorded, and every walk along recorded symbols stays recorded. */
  ghost predicate Enumerable(t: Table) {
    EMPTY in t && Closed(t) && Filled(t)
  }

  lemma RecordStep(t: Table, w: Window, x: Symbol)
    requires ClosedExcept(t, w)
    ensures x != ZERO ==> ClosedExcept(Record(t, w, x), ShiftIn(w, x))
    ensures x == ZERO ==> Closed(Record(t, w, x))
    ensures Filled(t) ==> Filled(Record(t, w, x))
    ensures t.Keys + {w} == Record(t, w, x).Keys
  {
    var r := Record(t, w, x);
    BumpCounts(if w in t then t[w] else map[], x);
    RecordKeepsEdges(t, w, x);
  }

  /** Every recorded edge but the new one leads to a recorded state once `w` is recorded. */
  lemma RecordKeepsEdges(t: Table, w: Window, x: Symbol)
    requires ClosedExcept(t, w)
    ensures forall v, y :: v in Record(t, w, x) && y in Record(t, w, x)[v] && y != ZERO && (v != w || y != x) ==> ShiftIn(v, y) in Record(t, w, x)
  {
    var r := Record(t, w, x);
    BumpCounts(if w in t then t[w] else map[], x);
    forall v, y | v in r && y in r[v] && y != ZERO && (v != w || y != x)
      ensures ShiftIn(v, y) in r
    {
      assert v in t && y in t[v];
    }
  }

  /** With `add_zero`, training a sample from the walk's state closes the table again. */
  lemma {:induction false} TrainInputCloses(t: Table, w: Window, input: seq<Symbol>)
    requires ClosedExcept(t, w)
    ensures Closed(TrainInput(t, w, input, true))
    ensures Filled(t) ==> Filled(TrainInput(t, w, input, true))
    ensures t.Keys + {w} <= TrainInput(t, w, input, true).Keys
    decreases |input|
  {
    if input == [] || input[0] == ZERO {
      RecordStep(t, w, ZERO);
    } else {
      RecordStep(t, w, input[0]);
      TrainInputCloses(Record(t, w, input[0]), ShiftIn(w, input[0]), input[1..]);
    }
  }

  /**
   * A chain trained with `add_zero` on at least one sample can be enumerated:
   * every state reached by pushing a recorded non-ZERO symbol from a recorded
   * state has an entry, so `transition()` never fails inside `dive`.
   */
  lemma {:induction false} TrainedIsEnumerable(t: Table, samples: seq<seq<Symbol>>)
    requires Closed(t) && Filled(t)
    requires EMPTY in t || samples != []
    ensures Enumerable(Train(t, samples, true))
    decreases |samples|
  {
    if samples != [] {
      TrainInputCloses(t, EMPTY, samples[0]);
      TrainedIsEnumerable(TrainInput(t, EMPTY, samples[0], true), samples[1..]);
    }
  }

  /** Without `add_zero` the table is not closed: the last state of a sample gets no entry. */
  lemma ClosureNeedsZero()
    ensures !Closed(Train(map[], [[97]], false))
  {
    var t := Train(map[], [[97]], false);
    assert t == map[EMPTY := map[97 := 1]];
    assert ShiftIn(EMPTY, 97) !in t;
  }

  /** `MarkovChain`: the transitions of every recorded state. */
  class MarkovChain {
    /** `m_chain`, keyed by the value of the state. */
    var table: map<Window, Transition>
    /** The counts of every transition. */
    ghost var Counts: Table

    ghost predicate Valid()
      reads this, table.Values
    {
      && table.Keys == Counts.Keys
      && (forall w :: w in table ==> table[w].Valid() && table[w].counts == Counts[w])
      && (forall v, w :: v in table && w in table && v != w ==> table[v] != table[w])
    }

    /** `MarkovChain(iterable, add_zero)`: train on every sample in order. */
    constructor (samples: seq<seq<Symbol>>, addZero: bool := true)
      ensures Valid() && fresh(table.Values)
      ensures Counts == Train(map[], samples, addZero)
    {
      table := map[];
      Counts := map[];
      new;
      var i := 0;
      while i < |samples|
        invariant i <= |samples|
        invariant Valid() && fresh(table.Values)
        invariant Train(Counts, samples[i..], addZero) == Train(map[], samples, addZero)
      {
        assert samples[i..][1..] == samples[i + 1..];
        AddInput(samples[i], addZero);
        i := i + 1;
      }
    }

    /** `add_state`: one more occurrence of `item` after `state`; a new state gets a new transition. */
    method AddState(state: Window, item: Symbol)
      requires Valid()
      modifies this, table.Values
      ensures Valid() && forall t :: t in table.Values ==> t in old(table.Values) || fresh(t)
      ensures Counts == Record(old(Counts), state, item)
      ensures forall v :: v in old(table) && v != state ==> table[v].frequencies == old(table[v].frequencies)
    {
      if state !in table {
        Insert(state, item);
      } else {
        Increment(state, item);
      }
    }

    /** `add_state` on a state not yet recorded: a new transition holding `item` once. */
    method Insert(state: Window, item: Symbol)
      requires Valid() && state !in table
      modifies this
      ensures Valid() && state in table && table == old(table)[state := table[state]] && fresh(table[state])
      ensures Counts == Record(old(Counts), state, item)
    {
      var t := new Transition();
      t.Add(item);
      table := table[state := t];
      Counts := Record(Counts, state, item);
    }

    /** `add_state` on a recorded state: its transition counts `item` once more, and no other transition changes. */
    method Increment(state: Window, item: Symbol)
      requires Valid() && state in table
      modifies this, table[state]
      ensures Valid() && table == old(table)
      ensures Counts == Record(old(Counts), state, item)
      ensures forall v :: v in table && v != state ==> table[v].frequencies == old(table[v].frequencies)
    {
      var t := table[state];
      assert forall v :: v in table && v != state ==> table[v] != t;
      t.Add(item);
      Counts := Record(Counts, state, item);
    }

    /** One pass of `add_input`'s loop: record `input[i]` after the walk's state, then push it into the state. */
    method Follow(state: State, input: seq<Symbol>, i: nat, ghost addZero: bool)
      requires Valid() && state.Valid()
      requires i < |input| && input[i] != ZERO
      modifies this, table.Values, state.cells
      ensures Valid() && forall t :: t in table.Values ==> t in old(table.Values) || fresh(t)
      ensures TrainInput(Counts, state.Window(), input[i + 1..], addZero)
           == TrainInput(old(Counts), old(state.Window()), input[i..], addZero)
    {
      TrainInputStep(Counts, state.Window(), input, i, addZero);
      AddState(state.Window(), input[i]);
      var _ := state.PushBack(input[i]);
    }

    /** `add_input`: walk a sample up to its first NUL, recording each symbol, then ZERO if asked. */
    method AddInput(input: seq<Symbol>, addZero: bool)
      requires Valid()
      modifies this, table.Values
      ensures Valid() && forall t :: t in table.Values ==> t in old(table.Values) || fresh(t)
      ensures Counts == TrainInput(old(Counts), EMPTY, input, addZero)
    {
      var state := new State();
      var i := 0;
      while i < |input| && input[i] != ZERO
        invariant i <= |input| && state.Valid() && fresh(state.cells)
        invariant Valid() && forall t :: t in table.Values ==> t in old(table.Values) || fresh(t)
        invariant TrainInput(Counts, state.Window(), input[i..], addZero) == TrainInput(old(Counts), EMPTY, input, addZero)
      {
        Follow(state, input, i, addZero);
        i := i + 1;
      }
      TrainInputEnd(Counts, state.Window(), input, i, addZero);
      if addZero {
        AddState(state.Window(), ZERO);
      }
    }

    /** `transition(state)` then `begin()`: the ordered view of a recorded state's transition. */
    method View(w: Window) returns (view: seq<Entry>)
      requires Valid() && w in Counts
      modifies table[w]
      ensures Valid()
      ensures IsView(view, Counts[w]) && |view| == |Counts[w]| <= ALPHABET
      ensures view == table[w].frequencies
      ensures old(table[w].frequencies) != [] ==> view == old(table[w].frequencies)
      ensures forall v :: v in table && v != w ==> table[v].frequencies == old(table[v].frequencies)
    {
      view := table[w].Begin();
      ViewLength(view, Counts[w]);
    }
  }

  /**
   * The weighted pick of `iteration`: walk the ordered view adding up counts
   * and take the first entry whose running total exceeds `choose` (the value
   * `std::rand() % count`, passed in).
   */
  method Pick(view: seq<Entry>, choose: int) returns (found: bool, item: Symbol, ghost index: nat)
    requires 0 <= choose
    ensures found <==> choose < ViewSum(view)
    ensures found ==> index < |view| && item == view[index].symbol
    ensures found ==> ViewSum(view[..index]) <= choose < ViewSum(view[..index + 1])
  {
    var current := 0;
    var k := 0;
    found, item, index := false, ZERO, 0;
    while k < |view|
      invariant k <= |view|
      invariant current == ViewSum(view[..k]) && choose >= current
    {
      assert view[..k + 1][..k] == view[..k];
      current := current + view[k].count;
      if choose < current {
        ViewSumPrefix(view, k + 1);
        found, item, index := true, view[k].symbol, k;
        return;
      }
      k := k + 1;
    }
    assert view[..k] == view;
  }

  /** Running totals never exceed the total: counts are not negative. */
  lemma {:induction false} ViewSumPrefix(v: seq<Entry>, k: nat)
    requires k <= |v|
    ensures ViewSum(v[..k]) <= ViewSum(v)
  {
    if k < |v| {
      ViewSumPrefix(v[..|v| - 1], k);
      assert v[..|v| - 1][..k] == v[..k];
    } else {
      assert v[..k] == v;
    }
  }
}
