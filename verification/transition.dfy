/**
 * `MarkovChain::Transition`: for one state, the count of every symbol seen
 * after it, and a lazily rebuilt view of those counts ordered by count,
 * largest first.
 */
module Transitions {
  import opened Symbols

  /** `frequency_t`: one (symbol, count) pair of the ordered view. */
  datatype Entry = Entry(symbol: Symbol, count: nat)

  /** The symbols that appear in a view. */
  function ViewSymbols(v: seq<Entry>): set<Symbol> {
    set i | 0 <= i < |v| :: v[i].symbol
  }

  lemma ViewSymbolsAppend(v: seq<Entry>, e: Entry)
    ensures ViewSymbols(v + [e]) == ViewSymbols(v) + {e.symbol}
  {
    assert (v + [e])[|v|] == e;
    forall s | s in ViewSymbols(v) ensures s in ViewSymbols(v + [e]) {
      var i :| 0 <= i < |v| && v[i].symbol == s;
      assert (v + [e])[i] == v[i];
    }
  }

  lemma SliceSymbolsGrow(v: seq<Entry>, lo: nat, i: nat)
    requires lo <= i < |v|
    ensures ViewSymbols(v[lo..i + 1]) == ViewSymbols(v[lo..i]) + {v[i].symbol}
  {
    assert v[lo..i + 1] == v[lo..i] + [v[i]];
    ViewSymbolsAppend(v[lo..i], v[i]);
  }

  lemma SliceSymbolsEnd(v: seq<Entry>, lo: nat)
    requires lo <= |v|
    ensures v[lo..|v|] == v[lo..]
    ensures lo == |v| ==> ViewSymbols(v[lo..]) == {}
  {
  }

  lemma MinusStep(m: map<Symbol, nat>, s: set<Symbol>, x: Symbol)
    ensures (m - s) - {x} == m - (s + {x})
  {
  }

  lemma MinusNothing(m: map<Symbol, nat>)
    ensures m - {} == m
  {
  }

  ghost predicate Distinct(v: seq<Entry>) {
    forall i, j :: 0 <= i < j < |v| ==> v[i].symbol != v[j].symbol
  }

  ghost predicate SortedByCount(v: seq<Entry>) {
    forall i, j :: 0 <= i < j < |v| ==> v[i].count >= v[j].count
  }

  /**
   * `v` is an ordered view of the counts `m`: every entry of `m` exactly once,
   * counts non-increasing. The order among equal counts is left open.
   */
  ghost predicate IsView(v: seq<Entry>, m: map<Symbol, nat>) {
    && Distinct(v)
    && SortedByCount(v)
    && ViewSymbols(v) == m.Keys
    && (forall i :: 0 <= i < |v| ==> v[i].symbol in m && v[i].count == m[v[i].symbol])
  }

  lemma {:induction false} DistinctSize(v: seq<Entry>)
    requires Distinct(v)
    ensures |ViewSymbols(v)| == |v|
  {
    if v != [] {
      var n := |v| - 1;
      var p := v[..n];
      assert Distinct(p) by {
        forall i, j | 0 <= i < j < n ensures p[i].symbol != p[j].symbol {
          assert p[i] == v[i] && p[j] == v[j];
        }
      }
      DistinctSize(p);
      assert v == p + [v[n]];
      ViewSymbolsAppend(p, v[n]);
      assert v[n].symbol !in ViewSymbols(p) by {
        forall i | 0 <= i < n ensures p[i].symbol != v[n].symbol {
          assert p[i] == v[i];
        }
      }
    }
  }

  /** A view has exactly one entry per distinct symbol: its length is `count()`. */
  lemma ViewLength(v: seq<Entry>, m: map<Symbol, nat>)
    requires IsView(v, m)
    ensures |v| == |m| <= ALPHABET
  {
    DistinctSize(v);
    SymbolSetSize(m.Keys);
  }

  /** `add`: one more occurrence of `x`. */
  function Bump(m: map<Symbol, nat>, x: Symbol): map<Symbol, nat> {
    m[x := if x in m then m[x] + 1 else 1]
  }

  /** Bumping raises `x` by one (or inserts it with 1), leaves every other count, and adds a key only for a new symbol. */
  lemma BumpCounts(m: map<Symbol, nat>, x: Symbol)
    ensures x in Bump(m, x) && Bump(m, x)[x] == (if x in m then m[x] + 1 else 1)
    ensures forall y :: y != x ==> (y in Bump(m, x) <==> y in m) && (y in m ==> Bump(m, x)[y] == m[y])
    ensures |Bump(m, x)| == if x in m then |m| else |m| + 1
  {
  }

  /** The sum of the values of a map. */
  ghost function Sum<K>(m: map<K, nat>): nat
    decreases m.Keys
  {
    if m == map[] then 0 else var k :| k in m; m[k] + Sum(m - {k})
  }

  /** The sum can be split at any key. */
  lemma {:induction false} SumRemove<K>(m: map<K, nat>, k: K)
    requires k in m
    ensures Sum(m) == m[k] + Sum(m - {k})
    decreases m.Keys
  {
    var j :| j in m && Sum(m) == m[j] + Sum(m - {j});
    if j != k {
      SumRemove(m - {j}, k);
      SumRemove(m - {k}, j);
      assert (m - {j}) - {k} == (m - {k}) - {j};
    }
  }

  /** Replacing the value of one key changes the sum by the difference. */
  lemma SumUpdate<K>(m: map<K, nat>, k: K, x: nat)
    ensures Sum(m[k := x]) == Sum(m) - (if k in m then m[k] else 0) + x
  {
    SumRemove(m[k := x], k);
    assert m[k := x] - {k} == m - {k};
    if k in m {
      SumRemove(m, k);
    } else {
      assert m - {k} == m;
    }
  }

  /** Every `add` raises the total number of recorded occurrences by one. */
  lemma SumBump(m: map<Symbol, nat>, x: Symbol)
    ensures Sum(Bump(m, x)) == Sum(m) + 1
  {
    SumUpdate(m, x, if x in m then m[x] + 1 else 1);
  }

  /** The sum of the counts of a view, in view order. */
  function ViewSum(v: seq<Entry>): nat {
    if v == [] then 0 else ViewSum(v[..|v| - 1]) + v[|v| - 1].count
  }

  /** The counts in the ordered view add up to the recorded occurrences of the state. */
  lemma {:induction false} ViewSumIsSum(v: seq<Entry>, m: map<Symbol, nat>)
    requires IsView(v, m)
    ensures ViewSum(v) == Sum(m)
  {
    if v == [] {
      assert m == map[];
    } else {
      var p, e := v[..|v| - 1], v[|v| - 1];
      var m' := m - {e.symbol};
      assert ViewSymbols(v) == ViewSymbols(p) + {e.symbol};
      assert e.symbol !in ViewSymbols(p);
      assert IsView(p, m');
      ViewSumIsSum(p, m');
      SumRemove(m, e.symbol);
    }
  }

  /** The first index of a sorted view whose count is below `c`. */
  method InsertionPoint(v: seq<Entry>, c: nat) returns (j: nat)
    requires SortedByCount(v)
    ensures j <= |v|
    ensures forall i :: 0 <= i < j ==> v[i].count >= c
    ensures forall i :: j <= i < |v| ==> v[i].count < c
  {
    j := 0;
    while j < |v| && v[j].count >= c
      invariant j <= |v|
      invariant forall i :: 0 <= i < j ==> v[i].count >= c
    {
      j := j + 1;
    }
  }

  /** The entry at position i after inserting `e` at position j. */
  lemma InsertedAt(v: seq<Entry>, e: Entry, j: nat, i: nat)
    requires j <= |v| && i <= |v|
    ensures (v[..j] + [e] + v[j..])[i] == (if i < j then v[i] else if i == j then e else v[i - 1])
  {
  }

  lemma InsertedSymbols(v: seq<Entry>, e: Entry, j: nat)
    requires j <= |v|
    ensures ViewSymbols(v[..j] + [e] + v[j..]) == ViewSymbols(v) + {e.symbol}
  {
    var r := v[..j] + [e] + v[j..];
    forall s | s in ViewSymbols(r) ensures s in ViewSymbols(v) + {e.symbol} {
      var i :| 0 <= i < |r| && r[i].symbol == s;
      InsertedAt(v, e, j, i);
    }
    forall s | s in ViewSymbols(v) ensures s in ViewSymbols(r) {
      var i :| 0 <= i < |v| && v[i].symbol == s;
      InsertedAt(v, e, j, if i < j then i else i + 1);
    }
    InsertedAt(v, e, j, j);
  }

  lemma InsertIntoView(v: seq<Entry>, m: map<Symbol, nat>, e: Entry, j: nat)
    requires IsView(v, m) && e.symbol !in m && j <= |v|
    requires forall i :: 0 <= i < j ==> v[i].count >= e.count
    requires forall i :: j <= i < |v| ==> v[i].count < e.count
    ensures IsView(v[..j] + [e] + v[j..], m[e.symbol := e.count])
  {
    var r := v[..j] + [e] + v[j..];
    var m' := m[e.symbol := e.count];
    forall a, b | 0 <= a < b < |r| ensures r[a].symbol != r[b].symbol && r[a].count >= r[b].count {
      InsertedAt(v, e, j, a);
      InsertedAt(v, e, j, b);
      if a == j {
        assert r[b].symbol in ViewSymbols(v);
      } else if b == j {
        assert r[a].symbol in ViewSymbols(v);
      }
    }
    InsertedSymbols(v, e, j);
    forall i | 0 <= i < |r| ensures r[i].symbol in m' && r[i].count == m'[r[i].symbol] {
      InsertedAt(v, e, j, i);
      if i != j {
        assert r[i].symbol in ViewSymbols(v);
      }
    }
  }

  /**
   * `build_frequencies`: the entries of `m`, taken in the map's own (unspecified)
   * iteration order, each placed after every entry whose count is at least its own.
   */
  method SortedView(m: map<Symbol, nat>) returns (v: seq<Entry>)
    ensures IsView(v, m)
  {
    v := [];
    var rest := m.Keys;
    while rest != {}
      invariant rest <= m.Keys
      invariant IsView(v, m - rest)
      decreases rest
    {
      var k :| k in rest;
      var e := Entry(k, m[k]);
      var j := InsertionPoint(v, e.count);
      InsertIntoView(v, m - rest, e, j);
      assert (m - rest)[k := m[k]] == m - (rest - {k});
      v := v[..j] + [e] + v[j..];
      rest := rest - {k};
    }
    assert m - {} == m;
  }

  /** The counts left by `refine(n)` over the view `v`: the entries from position n on are dropped. */
  function KeepTop(m: map<Symbol, nat>, v: seq<Entry>, n: int): map<Symbol, nat> {
    if n < 0 || n >= |v| then m else m - ViewSymbols(v[n..])
  }

  /**
   * `after` is what refining `before` to `n` entries promises: a negative `n`
   * changes nothing; otherwise exactly min(n, count) entries stay, with their
   * counts, and no dropped entry outnumbers a kept one.
   */
  ghost predicate IsRefinement(before: map<Symbol, nat>, after: map<Symbol, nat>, n: int) {
    if n < 0 then after == before
    else
      && |after| == (if n < |before| then n else |before|)
      && (forall x :: x in after ==> x in before && after[x] == before[x])
      && (forall x, y :: x in after && y in before && y !in after ==> before[y] <= before[x])
  }

  /** Splitting a distinct view at n splits its symbols into two disjoint parts. */
  lemma SplitSymbols(v: seq<Entry>, n: nat)
    requires Distinct(v) && n <= |v|
    ensures ViewSymbols(v) == ViewSymbols(v[..n]) + ViewSymbols(v[n..])
    ensures ViewSymbols(v[..n]) !! ViewSymbols(v[n..])
  {
    forall s | s in ViewSymbols(v) ensures s in ViewSymbols(v[..n]) + ViewSymbols(v[n..]) {
      var i :| 0 <= i < |v| && v[i].symbol == s;
      if i < n { assert v[..n][i] == v[i]; } else { assert v[n..][i - n] == v[i]; }
    }
    forall s | s in ViewSymbols(v[..n]) ensures s !in ViewSymbols(v[n..]) && s in ViewSymbols(v) {
      var i :| 0 <= i < n && v[..n][i].symbol == s;
      assert v[i].symbol == s;
      forall k | 0 <= k < |v| - n ensures v[n..][k].symbol != s {
        assert v[n..][k] == v[n + k];
      }
    }
    forall s | s in ViewSymbols(v[n..]) ensures s in ViewSymbols(v) {
      var k :| 0 <= k < |v| - n && v[n..][k].symbol == s;
      assert v[n + k].symbol == s;
    }
  }

  /** In a view, no symbol after position n outnumbers a symbol before it. */
  lemma PrefixOutnumbers(v: seq<Entry>, m: map<Symbol, nat>, n: nat, x: Symbol, y: Symbol)
    requires IsView(v, m) && n <= |v|
    requires x in ViewSymbols(v[..n]) && y in ViewSymbols(v[n..])
    ensures x in m && y in m && m[y] <= m[x]
  {
    var i :| 0 <= i < n && v[..n][i].symbol == x;
    var k :| 0 <= k < |v| - n && v[n..][k].symbol == y;
    assert v[i].symbol == x && v[n + k].symbol == y;
  }

  /** The symbols that `refine(n)` keeps are those of the first n entries of the view. */
  lemma KeptSymbols(m: map<Symbol, nat>, v: seq<Entry>, n: nat)
    requires IsView(v, m) && n < |v|
    ensures KeepTop(m, v, n).Keys == ViewSymbols(v[..n])
    ensures |KeepTop(m, v, n)| == n
  {
    SplitSymbols(v, n);
    assert Distinct(v[..n]);
    DistinctSize(v[..n]);
  }

  /** `refine` over an ordered view keeps its top n entries, as IsRefinement says. */
  lemma KeepTopRefines(m: map<Symbol, nat>, v: seq<Entry>, n: int)
    requires IsView(v, m)
    ensures IsRefinement(m, KeepTop(m, v, n), n)
  {
    ViewLength(v, m);
    if 0 <= n < |v| {
      var r := KeepTop(m, v, n);
      KeptSymbols(m, v, n);
      SplitSymbols(v, n);
      forall x, y | x in r && y in m && y !in r ensures m[y] <= m[x] {
        PrefixOutnumbers(v, m, n, x, y);
      }
    }
  }

  /** `Transition`: the counts of one state and the cached ordered view. */
  class Transition {
    /** `m_item_to_frequency`. */
    var counts: map<Symbol, nat>
    /** `m_frequencies`: the ordered view, or empty while it is not built. */
    var frequencies: seq<Entry>

    ghost predicate Valid()
      reads this
    {
      && (forall x :: x in counts ==> counts[x] >= 1)
      && (frequencies == [] || IsView(frequencies, counts))
    }

    /** `Transition()`: no counts, no view. */
    constructor ()
      ensures Valid() && counts == map[] && frequencies == []
    {
      counts := map[];
      frequencies := [];
    }

    /** The implicit copy constructor. */
    constructor Copy(other: Transition)
      requires other.Valid()
      ensures Valid() && counts == other.counts && frequencies == other.frequencies
    {
      counts := other.counts;
      frequencies := other.frequencies;
    }

    /** `count()`: the number of distinct next symbols, one per entry of a built view. */
    function Count(): (n: nat)
      reads this
      ensures n == 0 <==> counts == map[]
      ensures Valid() && frequencies != [] ==> n == |frequencies| <= ALPHABET
    {
      assert Valid() && frequencies != [] ==> |frequencies| == |counts| <= ALPHABET by {
        if Valid() && frequencies != [] {
          ViewLength(frequencies, counts);
        }
      }
      |counts|
    }

    /** `add`: one more occurrence of `item`; the cached view is dropped. */
    method Add(item: Symbol)
      requires Valid()
      modifies this
      ensures Valid()
      ensures counts == Bump(old(counts), item)
      ensures Count() == old(Count()) + (if item in old(counts) then 0 else 1)
      ensures frequencies == []
    {
      BumpCounts(counts, item);
      if item !in counts {
        counts := counts[item := 1];
      } else {
        counts := counts[item := counts[item] + 1];
      }
      frequencies := [];
    }

    /** `operator==`: the counts are compared, the cached views are not. */
    predicate Equals(other: Transition)
      reads this, other
      ensures Equals(other) ==> Count() == other.Count()
    {
      counts == other.counts
    }

    /** `build_frequencies`: build the ordered view unless it is already there. */
    method BuildFrequencies()
      requires Valid()
      modifies this`frequencies
      ensures Valid()
      ensures IsView(frequencies, counts)
      ensures old(frequencies) != [] ==> frequencies == old(frequencies)
    {
      if frequencies != [] {
        return;
      }
      frequencies := SortedView(counts);
    }

    /**
     * `begin()` and `end()`: both build the view when it is empty; the view is
     * returned whole, `begin()` being its position 0 and `end()` its length.
     */
    method Begin() returns (view: seq<Entry>)
      requires Valid()
      modifies this`frequencies
      ensures Valid()
      ensures view == frequencies && IsView(view, counts) && |view| == Count()
      ensures old(frequencies) != [] ==> frequencies == old(frequencies)
    {
      if |frequencies| == 0 {
        BuildFrequencies();
      }
      view := frequencies;
      ViewLength(view, counts);
    }

    /** `get(index)`: the symbol at position `index` of the ordered view. */
    method Get(index: nat) returns (item: Symbol)
      requires Valid() && index < Count()
      modifies this`frequencies
      ensures Valid()
      ensures IsView(frequencies, counts) && |frequencies| == Count()
      ensures item == frequencies[index].symbol
      ensures item in counts
      ensures old(frequencies) != [] ==> frequencies == old(frequencies)
    {
      BuildFrequencies();
      ViewLength(frequencies, counts);
      item := frequencies[index].symbol;
    }

    /**
     * `refine(threshold)`: keep the first `threshold` entries of the ordered
     * view and erase the rest. The index is compared with the view's size as
     * an unsigned value, so a negative threshold erases nothing.
     */
    method Refine(threshold: int) returns (ghost view: seq<Entry>)
      requires Valid()
      modifies this
      ensures Valid()
      ensures IsView(view, old(counts))
      ensures counts == KeepTop(old(counts), view, threshold)
      ensures IsRefinement(old(counts), counts, threshold)
      ensures frequencies == []
    {
      BuildFrequencies();
      view := frequencies;
      ghost var inRange := 0 <= threshold <= |view|;
      var i := threshold;
      while 0 <= i < |frequencies|
        invariant frequencies == view
        invariant inRange ==> threshold <= i <= |view| && counts == old(counts) - ViewSymbols(view[threshold..i])
        invariant !inRange ==> i == threshold && counts == old(counts)
        decreases |frequencies| - i
      {
        assert inRange && threshold <= i < |view|;
        SliceSymbolsGrow(view, threshold, i);
        MinusStep(old(counts), ViewSymbols(view[threshold..i]), view[i].symbol);
        counts := counts - {frequencies[i].symbol};
        i := i + 1;
      }
      if inRange {
        assert i == |view|;
        SliceSymbolsEnd(view, threshold);
        MinusNothing(old(counts));
        if threshold == |view| {
          assert counts == old(counts);
        } else {
          assert counts == old(counts) - ViewSymbols(view[threshold..]);
        }
      } else {
        assert counts == old(counts);
      }
      KeepTopRefines(old(counts), view, threshold);
      frequencies := [];
    }
  }
}
