/**
 * `MarkovChain::Iterator`: the lazy depth-first enumeration of every word the
 * chain can produce, walking the ordered views of the transitions with a
 * stack of levers, an undo stack of evicted symbols and a working state.
 */
module Enumeration {
  import opened Symbols
  import opened States
  import opened Transitions
  import opened Chains

  /**
   * A lever: the ordered view of one transition and a position in it.
   * In a list of levers the root comes first and the front of the source's
   * `m_position` (the deepest lever) comes last.
   */
  datatype Frame = Frame(view: seq<Entry>, pos: nat)

  /** The symbol a lever points at; ZERO once it has run off the end. */
  function Candidate(f: Frame): Symbol {
    if f.pos < |f.view| then f.view[f.pos].symbol else ZERO
  }

  /** The candidates of a list of levers, root first. */
  function Path(fs: seq<Frame>): (p: seq<Symbol>)
    ensures |p| == |fs|
    ensures forall i :: 0 <= i < |fs| ==> p[i] == Candidate(fs[i])
  {
    seq(|fs|, i requires 0 <= i < |fs| => Candidate(fs[i]))
  }

  /** The positions of a list of levers, root first. */
  function Positions(fs: seq<Frame>): (p: seq<nat>)
    ensures |p| == |fs|
    ensures forall i :: 0 <= i < |fs| ==> p[i] == fs[i].pos
  {
    seq(|fs|, i requires 0 <= i < |fs| => fs[i].pos)
  }

  /** The levers after moving the one at depth `k` to its next entry and dropping those below it. */
  function Advance(fs: seq<Frame>, k: nat): (r: seq<Frame>)
    requires k < |fs|
  {
    fs[..k] + [Frame(fs[k].view, fs[k].pos + 1)]
  }

  /** The lever stands on the last entry of its view: moving it runs off the end. */
  predicate OnLast(f: Frame) {
    f.pos + 1 == |f.view|
  }

  /** Every lever of `fs` from depth `k` down stands on the last entry of its view: `roll` drops them all. */
  predicate Exhausted(fs: seq<Frame>, k: nat)
    decreases |fs| - k
  {
    k >= |fs| || (OnLast(fs[k]) && Exhausted(fs, k + 1))
  }

  lemma {:induction false} ExhaustedAt(fs: seq<Frame>, k: nat, j: nat)
    requires Exhausted(fs, k) && k <= j < |fs|
    ensures OnLast(fs[j])
    decreases j - k
  {
    if k < j {
      ExhaustedAt(fs, k + 1, j);
    }
  }

  /** The non-ZERO symbols of `xs`, in order: what `operator*` prints. */
  function NonZero(xs: seq<Symbol>): (r: seq<Symbol>)
    ensures |r| <= |xs|
    ensures forall i :: 0 <= i < |r| ==> r[i] != ZERO
  {
    if xs == [] then []
    else NonZero(xs[..|xs| - 1]) + (if xs[|xs| - 1] == ZERO then [] else [xs[|xs| - 1]])
  }

  /** A word without ZERO is printed as it is. */
  lemma {:induction false} NonZeroKeeps(xs: seq<Symbol>)
    requires forall i :: 0 <= i < |xs| ==> xs[i] != ZERO
    ensures NonZero(xs) == xs
  {
    if xs != [] {
      NonZeroKeeps(xs[..|xs| - 1]);
    }
  }

  lemma NonZeroStep(xs: seq<Symbol>, i: nat)
    requires i < |xs|
    ensures NonZero(xs[..i + 1]) == NonZero(xs[..i]) + (if xs[i] == ZERO then [] else [xs[i]])
  {
    assert xs[..i + 1][..i] == xs[..i];
  }

  /** The word of an accepting lever list: every candidate but the last, which is ZERO. */
  lemma NonZeroAccepted(p: seq<Symbol>)
    requires p != [] && p[|p| - 1] == ZERO
    requires forall i :: 0 <= i < |p| - 1 ==> p[i] != ZERO
    ensures NonZero(p) == p[..|p| - 1]
  {
    NonZeroKeeps(p[..|p| - 1]);
  }

  /** Depth-first (pre-)order: a proper prefix comes first, otherwise the first difference decides. */
  predicate LexLess(p: seq<nat>, q: seq<nat>)
    decreases |p|
  {
    if p == [] then q != []
    else q != [] && (p[0] < q[0] || (p[0] == q[0] && LexLess(p[1..], q[1..])))
  }

  /** No position comes before itself: an enumeration that only moves forward never repeats one. */
  lemma {:induction false} LexLessIrreflexive(p: seq<nat>)
    ensures !LexLess(p, p)
    decreases |p|
  {
    if p != [] {
      LexLessIrreflexive(p[1..]);
    }
  }

  lemma {:induction false} LexLessTransitive(p: seq<nat>, q: seq<nat>, r: seq<nat>)
    requires LexLess(p, q) && LexLess(q, r)
    ensures LexLess(p, r)
    decreases |p|
  {
    if p != [] && p[0] == q[0] && q[0] == r[0] {
      LexLessTransitive(p[1..], q[1..], r[1..]);
    }
  }

  /** Going deeper below a later position keeps it later. */
  lemma {:induction false} LexLessExtend(p: seq<nat>, q: seq<nat>, r: seq<nat>)
    requires LexLess(p, q) && |q| <= |r| && r[..|q|] == q
    ensures LexLess(p, r)
    decreases |p|
  {
    if p != [] && p[0] == q[0] {
      assert r[1..][..|q[1..]|] == q[1..];
      LexLessExtend(p[1..], q[1..], r[1..]);
    }
  }

  /** `roll` moves to a later position: the lever at depth k moves on, the deeper ones are gone. */
  lemma {:induction false} AdvanceIsLater(fs: seq<Frame>, k: nat)
    requires k < |fs|
    ensures LexLess(Positions(fs), Positions(Advance(fs, k)))
    decreases k
  {
    var p, q := Positions(fs), Positions(Advance(fs, k));
    if k > 0 {
      AdvanceIsLater(fs[1..], k - 1);
      assert Advance(fs, k)[1..] == Advance(fs[1..], k - 1);
      assert Positions(fs[1..]) == p[1..];
      assert Positions(Advance(fs[1..], k - 1)) == q[1..];
    }
  }

  /** `dive` moves to a later position: the old levers are a proper prefix of the new ones. */
  lemma {:induction false} ExtendIsLater(p: seq<nat>, q: seq<nat>)
    requires |p| < |q| && q[..|p|] == p
    ensures LexLess(p, q)
    decreases |p|
  {
    if p != [] {
      assert q[1..][..|p[1..]|] == p[1..];
      ExtendIsLater(p[1..], q[1..]);
    }
  }

  /** One `roll` then one `dive` from a non-empty lever list that does not run out moves to a later position. */
  lemma StepIsLater(before: seq<Frame>, rolled: seq<Frame>, after: seq<Frame>)
    requires rolled != [] && |rolled| <= |before| && rolled == Advance(before, |rolled| - 1)
    requires |rolled| <= |after| && after[..|rolled|] == rolled
    ensures LexLess(Positions(before), Positions(after))
  {
    AdvanceIsLater(before, |rolled| - 1);
    PositionsPrefix(after, |rolled|);
    LexLessExtend(Positions(before), Positions(rolled), Positions(after));
  }

  lemma PositionsPrefix(fs: seq<Frame>, k: nat)
    requires k <= |fs|
    ensures Positions(fs)[..k] == Positions(fs[..k])
  {
  }

  /** `fs` is `before` with new levers below it, each on the first entry of its view: what `dive` leaves. */
  predicate Deepens(before: seq<Frame>, fs: seq<Frame>) {
    && |before| <= |fs| && fs[..|before|] == before
    && forall k :: |before| <= k < |fs| ==> fs[k].pos == 0
  }

  lemma DeepensStep(before: seq<Frame>, fs: seq<Frame>, f: Frame)
    requires Deepens(before, fs) && f.pos == 0
    ensures Deepens(before, fs + [f])
  {
    assert (fs + [f])[..|before|] == fs[..|before|];
  }

  /**
   * `fs` is what `roll` reaches from `start`: the lever at some depth moved
   * on, the deeper ones dropped, and every dropped lever stood on its last entry.
   */
  predicate Rolled(start: seq<Frame>, fs: seq<Frame>) {
    && fs != [] && |fs| <= |start|
    && fs == Advance(start, |fs| - 1)
    && Exhausted(start, |fs|)
  }

  lemma RolledStart(start: seq<Frame>)
    requires start != []
    ensures Rolled(start, Advance(start, |start| - 1))
  {
  }

  /** A lever that `roll` moved just past its view stood on its last entry; dropping it and moving the one above on is again a roll. */
  lemma RolledStep(start: seq<Frame>, fs: seq<Frame>)
    requires Rolled(start, fs) && fs[|fs| - 1].pos == |fs[|fs| - 1].view|
    ensures Exhausted(start, |fs| - 1)
    ensures |fs| >= 2 ==> Rolled(start, Advance(fs, |fs| - 2))
  {
    var m := |fs| - 1;
    assert fs[m] == Frame(start[m].view, start[m].pos + 1);
    if m >= 1 {
      assert fs[..m - 1] == start[..m - 1];
      assert fs[m - 1] == start[m - 1];
    }
  }

  /** `roll` stops at a lever still inside its view, so the start was not exhausted. */
  lemma RolledEnd(start: seq<Frame>, fs: seq<Frame>)
    requires Rolled(start, fs) && fs[|fs| - 1].pos < |fs[|fs| - 1].view|
    ensures !Exhausted(start, 0)
  {
    var m := |fs| - 1;
    assert fs[m] == Frame(start[m].view, start[m].pos + 1);
    if Exhausted(start, 0) {
      ExhaustedAt(start, 0, m);
    }
  }

  /** The radix of the progress measure: larger than any digit `pos + 1` of a lever in a view. */
  const BASE: nat := ALPHABET + 1

  function Pow(b: nat, e: nat): (r: nat)
    ensures b >= 1 ==> r >= 1
  {
    if e == 0 then 1 else b * Pow(b, e - 1)
  }

  /** Every position is the index of an entry of a view, hence below the alphabet size. */
  predicate InAlphabet(ps: seq<nat>) {
    forall i :: 0 <= i < |ps| ==> ps[i] < ALPHABET
  }

  /** Positions read as a number in base BASE with `d` digits, most significant first, digit `pos + 1`. */
  function Weight(ps: seq<nat>, d: nat): nat
    requires |ps| <= d
    decreases |ps|
  {
    if ps == [] then 0 else (ps[0] + 1) * Pow(BASE, d - 1) + Weight(ps[1..], d - 1)
  }

  lemma {:induction false} WeightBound(ps: seq<nat>, d: nat)
    requires |ps| <= d && InAlphabet(ps)
    ensures Weight(ps, d) < Pow(BASE, d)
    decreases |ps|
  {
    if ps == [] {
    } else {
      var p := Pow(BASE, d - 1);
      WeightBound(ps[1..], d - 1);
      MulMonotone(ps[0] + 1, ALPHABET, p);
      assert Pow(BASE, d) == ALPHABET * p + p;
    }
  }

  lemma MulMonotone(a: nat, b: nat, c: nat)
    requires a <= b
    ensures a * c <= b * c
  {
  }

  /** A later position in depth-first order has a larger weight: the measure that ends the enumeration. */
  lemma {:induction false} LexLessWeight(p: seq<nat>, q: seq<nat>, d: nat)
    requires |p| <= d && |q| <= d && InAlphabet(p) && InAlphabet(q)
    requires LexLess(p, q)
    ensures Weight(p, d) < Weight(q, d)
    decreases |p|
  {
    var b := Pow(BASE, d - 1);
    if p == [] {
      MulMonotone(1, q[0] + 1, b);
    } else if p[0] < q[0] {
      WeightBound(p[1..], d - 1);
      MulMonotone(p[0] + 2, q[0] + 1, b);
      assert (p[0] + 2) * b == (p[0] + 1) * b + b;
    } else {
      LexLessWeight(p[1..], q[1..], d - 1);
    }
  }

  /** What is left of the enumeration at the levers `fs`, at most `d` deep: BASE^d + 1 minus their weight, 0 at the end. */
  function Remaining(fs: seq<Frame>, d: nat): nat
    requires |fs| <= d
  {
    var w := Weight(Positions(fs), d);
    if fs == [] || w > Pow(BASE, d) then 0 else Pow(BASE, d) + 1 - w
  }

  /** Every step of `++` lowers what is left: to a later position, or to the end. */
  lemma RemainingDecreases(before: seq<Frame>, after: seq<Frame>, d: nat)
    requires before != [] && |before| <= d && |after| <= d
    requires InAlphabet(Positions(before)) && InAlphabet(Positions(after))
    requires after == [] || LexLess(Positions(before), Positions(after))
    ensures Remaining(after, d) < Remaining(before, d)
  {
    WeightBound(Positions(before), d);
    if after != [] {
      WeightBound(Positions(after), d);
      LexLessWeight(Positions(before), Positions(after), d);
    }
  }

  /**
   * The lever over `view` walks the transition of the recorded state `w`: every
   * entry of the view is a symbol recorded after `w`. (That the view is the
   * whole ordered view is what `MarkovChain.View` promises when the lever is placed.)
   */
  ghost predicate Anchored(t: Table, w: Window, view: seq<Entry>) {
    w in t && forall j :: 0 <= j < |view| ==> view[j].symbol in t[w]
  }

  /**
   * The invariant of the lever stack, stated for the deepest lever on top of
   * the levers above it: each lever walks the view of its state `keys[i]`; the
   * root's state is EMPTY; every other state is the one above with the
   * candidate of the lever above pushed in, that candidate being an entry and
   * not ZERO; and the undo stack holds, per lever above the deepest, what that
   * push evicted. Only the deepest lever may stand just past its view.
   */
  ghost predicate Levers(t: Table, keys: seq<Window>, fs: seq<Frame>, popped: seq<Symbol>)
    decreases |fs|
  {
    && |keys| == |fs|
    && if fs == [] then popped == []
       else
         var n := |fs| - 1;
         && |popped| == n
         && Anchored(t, keys[n], fs[n].view)
         && fs[n].pos <= |fs[n].view| <= ALPHABET
         && (n == 0 ==> keys[0] == EMPTY)
         && (n > 0 ==>
               && Levers(t, keys[..n], fs[..n], popped[..n - 1])
               && fs[n - 1].pos < |fs[n - 1].view| && Candidate(fs[n - 1]) != ZERO
               && keys[n] == ShiftIn(keys[n - 1], Candidate(fs[n - 1]))
               && popped[n - 1] == keys[n - 1][0])
  }

  /** The state of the deepest lever is the walk along the candidates above it, and the undo stack holds that walk's evictions. */
  lemma {:induction false} LeversWalk(t: Table, keys: seq<Window>, fs: seq<Frame>, popped: seq<Symbol>)
    requires Levers(t, keys, fs, popped) && fs != []
    ensures keys[|fs| - 1] == Walk(Path(fs)[..|fs| - 1])
    ensures popped == Evicted(Path(fs)[..|fs| - 1])
    decreases |fs|
  {
    var n := |fs| - 1;
    if n > 0 {
      var p, q := Path(fs), Path(fs[..n]);
      LeversWalk(t, keys[..n], fs[..n], popped[..n - 1]);
      assert q[..n - 1] == p[..n - 1];
      assert p[..n][..n - 1] == p[..n - 1];
    }
  }

  /** Every lever stands inside a view of at most ALPHABET entries, or just past it for the deepest. */
  lemma {:induction false} LeversBounds(t: Table, keys: seq<Window>, fs: seq<Frame>, popped: seq<Symbol>)
    requires Levers(t, keys, fs, popped)
    ensures forall i :: 0 <= i < |fs| ==> fs[i].pos <= |fs[i].view| <= ALPHABET
    ensures forall i :: 0 <= i < |fs| - 1 ==> fs[i].pos < |fs[i].view| && Candidate(fs[i]) != ZERO
    decreases |fs|
  {
    var n := |fs| - 1;
    if n > 0 {
      LeversBounds(t, keys[..n], fs[..n], popped[..n - 1]);
    }
  }

  /** Every lever stands on the view of a recorded state. */
  lemma {:induction false} LeversAnchored(t: Table, keys: seq<Window>, fs: seq<Frame>, popped: seq<Symbol>)
    requires Levers(t, keys, fs, popped)
    ensures forall i :: 0 <= i < |fs| ==> Anchored(t, keys[i], fs[i].view)
    decreases |fs|
  {
    var n := |fs| - 1;
    if n > 0 {
      LeversAnchored(t, keys[..n], fs[..n], popped[..n - 1]);
    }
  }

  /** The state of every lever is the walk along the candidates above it. */
  lemma {:induction false} LeversKeys(t: Table, keys: seq<Window>, fs: seq<Frame>, popped: seq<Symbol>)
    requires Levers(t, keys, fs, popped)
    ensures forall i :: 0 <= i < |fs| ==> keys[i] == Walk(Path(fs)[..i])
    decreases |fs|
  {
    var n := |fs| - 1;
    if n > 0 {
      var p := Path(fs);
      LeversKeys(t, keys[..n], fs[..n], popped[..n - 1]);
      assert Path(fs[..n]) == p[..n];
      forall i | 0 <= i < |fs|
        ensures keys[i] == Walk(Path(fs)[..i])
      {
        if i < n {
          assert keys[..n][i] == keys[i] && p[..n][..i] == p[..i];
        } else {
          assert p[..n][..n - 1] == p[..n - 1];
        }
      }
    }
  }

  /** `++last->second` on a lever that is not past its view keeps the invariant. */
  lemma LeversAdvance(t: Table, keys: seq<Window>, fs: seq<Frame>, popped: seq<Symbol>)
    requires Levers(t, keys, fs, popped) && fs != [] && fs[|fs| - 1].pos < |fs[|fs| - 1].view|
    ensures Levers(t, keys, Advance(fs, |fs| - 1), popped)
  {
    var n := |fs| - 1;
    assert Advance(fs, n)[..n] == fs[..n];
  }

  /** Dropping the deepest lever and moving the one above on keeps the invariant; the dropped lever's state is the one above with its candidate pushed in, and the undo stack's top is what that push evicted. */
  lemma LeversPop(t: Table, keys: seq<Window>, fs: seq<Frame>, popped: seq<Symbol>)
    requires Levers(t, keys, fs, popped) && |fs| >= 2
    ensures Levers(t, keys[..|fs| - 1], Advance(fs, |fs| - 2), popped[..|fs| - 2])
    ensures keys[|fs| - 1] == ShiftIn(keys[|fs| - 2], Candidate(fs[|fs| - 2]))
    ensures popped[|fs| - 2] == keys[|fs| - 2][0]
  {
    var m := |fs| - 1;
    LeversAdvance(t, keys[..m], fs[..m], popped[..m - 1]);
    assert Advance(fs[..m], m - 1) == Advance(fs, m - 1);
  }

  /** In a closed table, pushing the deepest lever's candidate leads to a recorded state: `transition()` finds it. */
  lemma LeversNext(t: Table, keys: seq<Window>, fs: seq<Frame>, popped: seq<Symbol>)
    requires Levers(t, keys, fs, popped) && Closed(t) && fs != []
    requires fs[|fs| - 1].pos < |fs[|fs| - 1].view| && Candidate(fs[|fs| - 1]) != ZERO
    ensures ShiftIn(keys[|fs| - 1], Candidate(fs[|fs| - 1])) in t
  {
    var n := |fs| - 1;
    assert fs[n].view[fs[n].pos].symbol in t[keys[n]];
  }

  /** A single lever on the first entry of the root's view. */
  lemma LeversRoot(t: Table, view: seq<Entry>)
    requires Anchored(t, EMPTY, view) && |view| <= ALPHABET
    ensures Levers(t, [EMPTY], [Frame(view, 0)], [])
  {
  }

  /** `push_back` into the state, the evicted symbol onto `m_popped` and a new lever on the new state keep the invariant. */
  lemma LeversPush(t: Table, keys: seq<Window>, fs: seq<Frame>, popped: seq<Symbol>, w: Window, view: seq<Entry>)
    requires Levers(t, keys, fs, popped) && fs != []
    requires fs[|fs| - 1].pos < |fs[|fs| - 1].view| && Candidate(fs[|fs| - 1]) != ZERO
    requires w == ShiftIn(keys[|keys| - 1], Candidate(fs[|fs| - 1]))
    requires Anchored(t, w, view) && |view| <= ALPHABET
    ensures Levers(t, keys + [w], fs + [Frame(view, 0)], popped + [keys[|keys| - 1][0]])
  {
    var n := |fs|;
    assert (keys + [w])[..n] == keys;
    assert (fs + [Frame(view, 0)])[..n] == fs;
    assert (popped + [keys[|keys| - 1][0]])[..n - 1] == popped;
  }

  /** The ordered view kept for each state the enumeration has entered. */
  type Views = map<Window, seq<Entry>>

  /** Every kept view is an ordered view of its state's counts. */
  ghost predicate ViewsOf(t: Table, views: Views) {
    forall w :: w in views ==> w in t && IsView(views[w], t[w])
  }

  /** Every lever walks the view kept for its state. */
  ghost predicate Fixed(keys: seq<Window>, fs: seq<Frame>, views: Views)
    decreases |fs|
  {
    && |keys| == |fs|
    && (fs != [] ==>
          var n := |fs| - 1;
          && keys[n] in views && fs[n].view == views[keys[n]]
          && Fixed(keys[..n], fs[..n], views))
  }

  /** `Fixed`, stated lever by lever. */
  lemma {:induction false} FixedAt(keys: seq<Window>, fs: seq<Frame>, views: Views)
    requires Fixed(keys, fs, views)
    ensures forall i :: 0 <= i < |fs| ==> keys[i] in views && fs[i].view == views[keys[i]]
    decreases |fs|
  {
    if fs != [] {
      var n := |fs| - 1;
      FixedAt(keys[..n], fs[..n], views);
      forall i | 0 <= i < n
        ensures keys[i] in views && fs[i].view == views[keys[i]]
      {
        assert keys[..n][i] == keys[i] && fs[..n][i] == fs[i];
      }
    }
  }

  /** Levers on views kept in `a` stay on them in any `b` that keeps every view of `a`. */
  lemma {:induction false} FixedExtends(keys: seq<Window>, fs: seq<Frame>, a: Views, b: Views)
    requires Fixed(keys, fs, a) && Extends(a, b)
    ensures Fixed(keys, fs, b)
    decreases |fs|
  {
    if fs != [] {
      FixedExtends(keys[..|fs| - 1], fs[..|fs| - 1], a, b);
    }
  }

  /** `b` keeps every view `a` kept. */
  ghost predicate Extends(a: Views, b: Views) {
    forall w :: w in a ==> w in b && b[w] == a[w]
  }

  /** The deepest lever stands on a ZERO entry of its view: the levers spell a word. */
  predicate Standing(fs: seq<Frame>) {
    fs != [] && fs[|fs| - 1].pos < |fs[|fs| - 1].view| && Candidate(fs[|fs| - 1]) == ZERO
  }

  /**
   * Two lever lists that walk the same kept views and both spell a word spell
   * the same word only at the same position: the enumeration, which never
   * returns to a position, never prints a word twice.
   */
  lemma DistinctWords(t: Table, views: Views,
                      keys1: seq<Window>, fs1: seq<Frame>, popped1: seq<Symbol>,
                      keys2: seq<Window>, fs2: seq<Frame>, popped2: seq<Symbol>)
    requires ViewsOf(t, views)
    requires Levers(t, keys1, fs1, popped1) && Fixed(keys1, fs1, views) && Standing(fs1)
    requires Levers(t, keys2, fs2, popped2) && Fixed(keys2, fs2, views) && Standing(fs2)
    ensures Path(fs1)[..|fs1| - 1] == Path(fs2)[..|fs2| - 1] ==> Positions(fs1) == Positions(fs2)
  {
    var n := |fs1|;
    if Path(fs1)[..n - 1] == Path(fs2)[..|fs2| - 1] {
      SamePath(fs1, fs2);
      SameKeys(t, keys1, fs1, popped1, keys2, fs2, popped2);
      StandingInside(t, keys1, fs1, popped1);
      StandingInside(t, keys2, fs2, popped2);
      FixedAt(keys1, fs1, views);
      FixedAt(keys2, fs2, views);
      ViewsDistinct(t, views);
      SamePositions(views, keys1, fs1, fs2);
    }
  }

  /** Every lever of a standing list stands inside its view. */
  lemma StandingInside(t: Table, keys: seq<Window>, fs: seq<Frame>, popped: seq<Symbol>)
    requires Levers(t, keys, fs, popped) && Standing(fs)
    ensures forall i :: 0 <= i < |fs| ==> fs[i].pos < |fs[i].view|
  {
    LeversBounds(t, keys, fs, popped);
  }

  /** Levers with the same candidates walk the same states. */
  lemma SameKeys(t: Table, keys1: seq<Window>, fs1: seq<Frame>, popped1: seq<Symbol>,
                 keys2: seq<Window>, fs2: seq<Frame>, popped2: seq<Symbol>)
    requires Levers(t, keys1, fs1, popped1) && Levers(t, keys2, fs2, popped2)
    requires Path(fs1) == Path(fs2)
    ensures keys1 == keys2
  {
    LeversKeys(t, keys1, fs1, popped1);
    LeversKeys(t, keys2, fs2, popped2);
    assert |keys1| == |Path(fs1)| == |Path(fs2)| == |keys2|;
  }

  /** The entries of every kept view are distinct. */
  lemma ViewsDistinct(t: Table, views: Views)
    requires ViewsOf(t, views)
    ensures forall w :: w in views ==> Distinct(views[w])
  {
  }

  /** Two standing lever lists that spell the same word have the same candidates. */
  lemma SamePath(fs1: seq<Frame>, fs2: seq<Frame>)
    requires Standing(fs1) && Standing(fs2)
    requires Path(fs1)[..|fs1| - 1] == Path(fs2)[..|fs2| - 1]
    ensures Path(fs1) == Path(fs2)
  {
    var n := |fs1|;
    var p1, p2 := Path(fs1), Path(fs2);
    forall i | 0 <= i < n - 1 ensures p1[i] == p2[i] {
      assert p1[..n - 1][i] == p2[..n - 1][i];
    }
  }

  /** Levers on the same states with the same candidates, each inside a distinct kept view, stand at the same positions. */
  lemma SamePositions(views: Views, keys: seq<Window>, fs1: seq<Frame>, fs2: seq<Frame>)
    requires |keys| == |fs1| == |fs2|
    requires forall i :: 0 <= i < |fs1| ==> keys[i] in views && fs1[i].view == views[keys[i]]
    requires forall i :: 0 <= i < |fs2| ==> keys[i] in views && fs2[i].view == views[keys[i]]
    requires forall w :: w in views ==> Distinct(views[w])
    requires Path(fs1) == Path(fs2)
    requires forall i :: 0 <= i < |fs1| ==> fs1[i].pos < |fs1[i].view|
    requires forall i :: 0 <= i < |fs2| ==> fs2[i].pos < |fs2[i].view|
    ensures Positions(fs1) == Positions(fs2)
  {
    forall i | 0 <= i < |fs1|
      ensures fs1[i].pos == fs2[i].pos
    {
      assert Candidate(fs1[i]) == Path(fs1)[i];
      assert Candidate(fs2[i]) == Path(fs2)[i];
    }
  }

  /**
   * The enumeration never prints a word twice: a later position, reached while
   * the kept views only grew, spells a different word.
   */
  lemma LaterWordDiffers(t: Table, views1: Views, views2: Views,
                         keys1: seq<Window>, fs1: seq<Frame>, popped1: seq<Symbol>,
                         keys2: seq<Window>, fs2: seq<Frame>, popped2: seq<Symbol>)
    requires ViewsOf(t, views2) && Extends(views1, views2)
    requires Levers(t, keys1, fs1, popped1) && Fixed(keys1, fs1, views1) && Standing(fs1)
    requires Levers(t, keys2, fs2, popped2) && Fixed(keys2, fs2, views2) && Standing(fs2)
    requires LexLess(Positions(fs1), Positions(fs2))
    ensures Path(fs1)[..|fs1| - 1] != Path(fs2)[..|fs2| - 1]
  {
    LexLessIrreflexive(Positions(fs1));
    FixedExtends(keys1, fs1, views1, views2);
    DistinctWords(t, views2, keys1, fs1, popped1, keys2, fs2, popped2);
  }

  /** Kept views only grow along a run of steps. */
  lemma ExtendsTransitive(a: Views, b: Views, c: Views)
    requires Extends(a, b) && Extends(b, c)
    ensures Extends(a, c)
  {
  }

  /** A new lever on state `w`, over the view kept for `w`, keeps every lever on its kept view. */
  lemma FixedPush(keys: seq<Window>, fs: seq<Frame>, views: Views, w: Window, view: seq<Entry>)
    requires Fixed(keys, fs, views)
    requires w in views ==> views[w] == view
    ensures Fixed(keys + [w], fs + [Frame(view, 0)], views[w := view])
  {
    ExtendsUpdate(views, w, view);
    FixedExtends(keys, fs, views, views[w := view]);
    var keys', fs' := keys + [w], fs + [Frame(view, 0)];
    assert keys'[..|fs|] == keys && fs'[..|fs|] == fs;
    assert keys'[|fs|] == w && fs'[|fs|].view == view;
  }

  /** Keeping a view for a new state, or the same view again, loses no kept view. */
  lemma ExtendsUpdate(views: Views, w: Window, view: seq<Entry>)
    requires w in views ==> views[w] == view
    ensures Extends(views, views[w := view])
  {
  }

  /** Dropping the deepest lever and moving the one above on keeps every lever on its kept view. */
  lemma FixedAdvance(keys: seq<Window>, fs: seq<Frame>, views: Views)
    requires Fixed(keys, fs, views) && |fs| >= 2
    ensures Fixed(keys[..|fs| - 1], Advance(fs, |fs| - 2), views)
  {
    var m := |fs| - 1;
    assert Fixed(keys[..m], fs[..m], views);
    assert keys[..m][..m - 1] == keys[..m - 1] && fs[..m][..m - 1] == fs[..m - 1];
    assert Advance(fs, m - 1)[..m - 1] == fs[..m - 1];
  }

  /** Standing levers spell a word the chain can produce; the deepest state is the walk along it, and the undo stack its evictions. */
  lemma LeversProduce(t: Table, keys: seq<Window>, fs: seq<Frame>, popped: seq<Symbol>)
    requires Levers(t, keys, fs, popped) && Standing(fs)
    ensures Produces(t, Path(fs)[..|fs| - 1])
    ensures keys[|fs| - 1] == Walk(Path(fs)[..|fs| - 1])
    ensures popped == Evicted(Path(fs)[..|fs| - 1])
  {
    var n := |fs|;
    var p := Path(fs);
    var word := p[..n - 1];
    LeversWalk(t, keys, fs, popped);
    LeversAnchored(t, keys, fs, popped);
    LeversKeys(t, keys, fs, popped);
    LeversBounds(t, keys, fs, popped);
    forall i | 0 <= i < |word|
      ensures Walk(word[..i]) in t && word[i] in t[Walk(word[..i])] && word[i] != ZERO
    {
      assert word[..i] == p[..i];
      assert word[i] == fs[i].view[fs[i].pos].symbol;
    }
    assert fs[n - 1].view[fs[n - 1].pos].symbol == ZERO;
  }

  /** The view the transition of a recorded state has cached; empty while it is not built. */
  ghost function CacheOf(chain: MarkovChain, w: Window): seq<Entry>
    reads chain, chain.table.Values
    requires w in chain.table
  {
    chain.table[w].frequencies
  }

  /** Every kept view is the one, already built, that the state's transition has cached: `begin()` hands it out again. */
  ghost predicate Cached(chain: MarkovChain, views: Views)
    reads chain, chain.table.Values
  {
    && views.Keys <= chain.table.Keys
    && forall w {:trigger CacheOf(chain, w)} :: w in views && w in chain.table ==> CacheOf(chain, w) == views[w] != []
  }

  /** A cached view is an ordered view of its state's counts. */
  lemma CachedViews(chain: MarkovChain, views: Views)
    requires chain.Valid() && Cached(chain, views)
    ensures ViewsOf(chain.Counts, views)
  {
    forall w | w in views
      ensures w in chain.Counts && IsView(views[w], chain.Counts[w])
    {
      assert CacheOf(chain, w) == views[w];
    }
  }

  /** The chain can produce `word` and end it: every symbol was recorded after the state before it, then ZERO. */
  ghost predicate Produces(t: Table, word: seq<Symbol>) {
    && (forall i :: 0 <= i < |word| ==> Walk(word[..i]) in t && word[i] in t[Walk(word[..i])] && word[i] != ZERO)
    && Walk(word) in t && ZERO in t[Walk(word)]
  }

  /** `MarkovChain::Iterator`. */
  class Iterator {
    /** `m_chain`. */
    const chain: MarkovChain
    /** `m_min`, `m_max`: bounds on the number of levers. */
    const min: nat
    const max: nat
    /** `m_popped`: the undo stack, its top last. */
    var popped: seq<Symbol>
    /** `m_state`. */
    const state: State
    /** `m_position`: the levers, root first. */
    var frames: seq<Frame>
    /** The state whose transition each lever walks. */
    ghost var keys: seq<Window>
    /** The ordered view of every state entered so far, cached by its transition. */
    ghost var views: Views

    /** The most levers the iterator can hold: the constructor places one even when `max` is 0. */
    function Depth(): nat {
      if max == 0 then 1 else max
    }

    /** All facts but the one on the deepest lever, which `roll` may leave just past its view. */
    ghost predicate Linked()
      reads this, state, state.cells, chain, chain.table.Values
    {
      && state.Valid()
      && |frames| <= Depth()
      && Levers(chain.Counts, keys, frames, popped)
      && (frames != [] ==> state.Window() == keys[|keys| - 1])
      && Fixed(keys, frames, views)
    }

    /** The kept views are the ones the chain's transitions have cached. */
    ghost predicate Pinned()
      reads this, chain, chain.table.Values
    {
      Cached(chain, views)
    }

    ghost predicate Valid()
      reads this, state, state.cells, chain, chain.table.Values
    {
      Linked() && (frames != [] ==> frames[|frames| - 1].pos < |frames[|frames| - 1].view|)
    }

    /** The iterator stands on a word: enough levers, and the deepest one points at ZERO. */
    predicate Accepting()
      reads this
      ensures Accepting() <==> |frames| >= min && frames != [] && Path(frames)[|frames| - 1] == ZERO
    {
      frames != [] && |frames| >= min && Candidate(frames[|frames| - 1]) == ZERO
    }

    /** Every lever points at an entry of a view of at most ALPHABET entries. */
    lemma ValidPositions()
      requires Valid()
      ensures InAlphabet(Positions(frames)) && |Positions(frames)| <= Depth()
    {
      LeversBounds(chain.Counts, keys, frames, popped);
    }

    /** The word an accepting iterator stands on is one the chain can produce, and the state is the walk along it. */
    lemma AcceptedWord()
      requires Valid() && Accepting()
      ensures Produces(chain.Counts, Path(frames)[..|frames| - 1])
      ensures state.Window() == Walk(Path(frames)[..|frames| - 1])
      ensures popped == Evicted(Path(frames)[..|frames| - 1])
      ensures min <= |frames| <= Depth()
    {
      LeversProduce(chain.Counts, keys, frames, popped);
    }

    /** Every lever walks the whole ordered view of its state, the one its transition has cached. */
    lemma LeversOrdered()
      requires Valid() && Pinned() && chain.Valid()
      ensures forall i :: 0 <= i < |frames| ==> keys[i] in chain.Counts && IsView(frames[i].view, chain.Counts[keys[i]])
    {
      CachedViews(chain, views);
      FixedAt(keys, frames, views);
    }

    /** `Iterator(chain)`: the end of every enumeration, with no levers. */
    constructor End(chain: MarkovChain)
      ensures Valid() && Pinned() && fresh(state) && fresh(state.cells)
      ensures this.chain == chain && min == 0 && max == 0
      ensures frames == [] && popped == []
    {
      this.chain := chain;
      min, max := 0, 0;
      popped, frames, keys, views := [], [], [], map[];
      state := new State();
    }

    /** `Iterator(chain, min, max)`: a lever on the root transition, dived and moved on to the first word. */
    constructor (chain: MarkovChain, min: nat, max: nat)
      requires chain.Valid() && Enumerable(chain.Counts)
      modifies chain.table.Values
      ensures Valid() && Pinned() && chain.Valid() && fresh(state) && fresh(state.cells)
      ensures this.chain == chain && this.min == min && this.max == max
      ensures frames == [] || Accepting()
    {
      this.chain := chain;
      this.min, this.max := min, max;
      popped := [];
      state := new State();
      frames, keys, views := [], [], map[];
      new;
      Start();
    }

    /** The body of `Iterator(chain, min, max)`: a lever on the root transition, dived and moved on to the first word. */
    method Start()
      requires Valid() && Pinned() && frames == [] && state.Window() == EMPTY
      requires chain.Valid() && Enumerable(chain.Counts)
      modifies this, state.cells, chain.table.Values
      ensures Valid() && Pinned() && chain.Valid()
      ensures frames == [] || Accepting()
      ensures Extends(old(views), views)
    {
      Root();
      ghost var rooted := views;
      Dive();
      ExtendsTransitive(old(views), rooted, views);
      if |frames| < min || Candidate(frames[|frames| - 1]) != ZERO {
        ghost var dived := views;
        Next();
        ExtendsTransitive(old(views), dived, views);
      }
    }

    /** The first lever of `Iterator(chain, min, max)`: on the first entry of the root's ordered view. */
    method Root()
      requires Valid() && Pinned() && frames == [] && state.Window() == EMPTY
      requires chain.Valid() && Enumerable(chain.Counts)
      modifies this, chain.table.Values
      ensures Valid() && Pinned() && chain.Valid()
      ensures |frames| == 1 && frames[0].pos == 0 && IsView(frames[0].view, chain.Counts[EMPTY])
      ensures Extends(old(views), views)
    {
      var view := Enter(EMPTY);
      Plant(view);
    }

    /** The lever of `Root` on the view `Enter` returned for EMPTY. */
    method Plant(view: seq<Entry>)
      requires state.Valid() && frames == [] && popped == [] && state.Window() == EMPTY
      requires Anchored(chain.Counts, EMPTY, view) && 0 < |view| <= ALPHABET
      requires (EMPTY in views ==> view == views[EMPTY]) && Cached(chain, views[EMPTY := view])
      modifies this
      ensures Valid() && Pinned()
      ensures frames == [Frame(view, 0)] && Extends(old(views), views)
    {
      LeversRoot(chain.Counts, view);
      FixedPush([], [], views, EMPTY, view);
      ExtendsUpdate(views, EMPTY, view);
      frames, keys, views := [Frame(view, 0)], [EMPTY], views[EMPTY := view];
    }

    /** `operator==`: the same levers. */
    predicate Equals(other: Iterator)
      reads this, other
      ensures Equals(other) ==> Path(frames) == Path(other.frames) && (frames == [] <==> other.frames == [])
    {
      frames == other.frames
    }

    /** `operator*`: the non-ZERO candidates, root first. */
    method Deref() returns (s: seq<Symbol>)
      requires Valid()
      ensures s == NonZero(Path(frames))
      ensures Accepting() ==> s == Path(frames)[..|frames| - 1] && |s| == |frames| - 1
    {
      ghost var p := Path(frames);
      s := [];
      var i := 0;
      while i < |frames|
        invariant i <= |frames|
        invariant s == NonZero(p[..i])
      {
        var c := Candidate(frames[i]);
        NonZeroStep(p, i);
        if c != ZERO {
          s := s + [c];
        }
        i := i + 1;
      }
      assert p[..i] == p;
      if Accepting() {
        LeversBounds(chain.Counts, keys, frames, popped);
        NonZeroAccepted(p);
      }
    }

    /**
     * One pass of `roll`'s inner loop, followed by the `++` of the lever above:
     * drop the deepest lever, restore the state from the undo stack, move on.
     */
    method Pop()
      requires Linked() && |frames| >= 2
      modifies this, state.cells
      ensures Linked() && views == old(views)
      ensures frames == Advance(old(frames), |old(frames)| - 2)
    {
      var m := |frames| - 1;
      LeversPop(chain.Counts, keys, frames, popped);
      FixedAdvance(keys, frames, views);
      ShiftBackUndoesShiftIn(keys[m - 1], Candidate(frames[m - 1]));
      frames, keys := Advance(frames, m - 1), keys[..m];
      var _ := state.PushFront(popped[m - 1]);
      popped := popped[..m - 1];
    }

    /**
     * `roll`: move the deepest lever on; while it runs off its view, drop it,
     * restore the state from the undo stack and move the lever above on.
     */
    method Roll()
      requires Valid()
      modifies this, state.cells
      ensures Valid() && views == old(views)
      ensures frames == [] <==> Exhausted(old(frames), 0)
      ensures frames != [] ==> Rolled(old(frames), frames)
    {
      if frames == [] {
        return;
      }
      LeversAdvance(chain.Counts, keys, frames, popped);
      RolledStart(frames);
      frames := Advance(frames, |frames| - 1);
      while frames[|frames| - 1].pos == |frames[|frames| - 1].view|
        invariant Linked() && Rolled(old(frames), frames) && views == old(views)
        decreases |frames|
      {
        RolledStep(old(frames), frames);
        if |frames| == 1 {
          frames, keys := [], [];
          return;
        }
        Pop();
      }
      RolledEnd(old(frames), frames);
    }

    /**
     * The work of one pass of `dive`'s loop on the state: push the deepest
     * lever's symbol in, and take the ordered view of the new state's transition.
     */
    method Descend() returns (evicted: Symbol, next: Window, view: seq<Entry>)
      requires Valid() && Pinned() && chain.Valid() && Enumerable(chain.Counts)
      requires frames != [] && Candidate(frames[|frames| - 1]) != ZERO
      modifies state.cells, chain.table.Values
      ensures chain.Valid()
      ensures next == ShiftIn(keys[|keys| - 1], Candidate(frames[|frames| - 1])) && state.Window() == next
      ensures evicted == keys[|keys| - 1][0]
      ensures next in chain.Counts && IsView(view, chain.Counts[next]) && 0 < |view| <= ALPHABET
      ensures Anchored(chain.Counts, next, view)
      ensures next in views ==> view == views[next]
      ensures Entered(evicted, next, view)
    {
      LeversNext(chain.Counts, keys, frames, popped);
      evicted := state.PushBack(Candidate(frames[|frames| - 1]));
      next := state.Window();
      view := Enter(next);
    }

    /**
     * `transition(w)` then `begin()` on a recorded state: its ordered view, the
     * one already kept when the state was entered before, since the transition
     * builds its view once.
     */
    method Enter(w: Window) returns (view: seq<Entry>)
      requires chain.Valid() && w in chain.Counts && chain.Counts[w] != map[]
      requires Cached(chain, views)
      modifies chain.table.Values
      ensures chain.Valid()
      ensures IsView(view, chain.Counts[w]) && 0 < |view| <= ALPHABET
      ensures w in views ==> view == views[w]
      ensures Cached(chain, views[w := view])
    {
      if w in views {
        assert CacheOf(chain, w) == views[w];
      }
      view := chain.View(w);
      forall v | v in views[w := view] && v in chain.table
        ensures CacheOf(chain, v) == views[w := view][v] != []
      {
        if v != w {
          assert old(CacheOf(chain, v)) == views[v];
        }
      }
    }

    /** What `Descend` leaves: the state moved on by the deepest lever's symbol, and the new state's view. */
    ghost predicate Entered(evicted: Symbol, next: Window, view: seq<Entry>)
      reads this, state, state.cells, chain, chain.table.Values
    {
      && state.Valid() && Levers(chain.Counts, keys, frames, popped) && Fixed(keys, frames, views)
      && frames != []
      && frames[|frames| - 1].pos < |frames[|frames| - 1].view| && Candidate(frames[|frames| - 1]) != ZERO
      && next == ShiftIn(keys[|keys| - 1], Candidate(frames[|frames| - 1])) && state.Window() == next
      && evicted == keys[|keys| - 1][0]
      && Anchored(chain.Counts, next, view) && 0 < |view| <= ALPHABET
      && (next in views ==> view == views[next]) && Cached(chain, views[next := view])
    }

    /** What `Attach` needs: the lever stack with the new lever below, on the view now kept for the new state. */
    ghost predicate Ready(evicted: Symbol, next: Window, view: seq<Entry>)
      reads this, state, state.cells, chain, chain.table.Values
    {
      && state.Valid() && state.Window() == next && 0 < |view|
      && Levers(chain.Counts, keys + [next], frames + [Frame(view, 0)], popped + [evicted])
      && Fixed(keys + [next], frames + [Frame(view, 0)], views[next := view])
      && Extends(views, views[next := view]) && Cached(chain, views[next := view])
    }

    /** A new lever on the entered state's view keeps the lever invariant and the kept views. */
    lemma EnteredReady(evicted: Symbol, next: Window, view: seq<Entry>)
      requires Entered(evicted, next, view)
      ensures Ready(evicted, next, view)
    {
      LeversPush(chain.Counts, keys, frames, popped, next, view);
      FixedPush(keys, frames, views, next, view);
      ExtendsUpdate(views, next, view);
    }

    /**
     * The rest of one pass of `dive`'s loop: the evicted symbol onto the undo
     * stack and a lever on the view of the state just entered.
     */
    method Attach(evicted: Symbol, next: Window, view: seq<Entry>)
      requires Ready(evicted, next, view) && |frames| < Depth() && chain.Valid()
      modifies this
      ensures Valid() && Pinned() && chain.Valid()
      ensures frames == old(frames) + [Frame(view, 0)]
      ensures views == old(views)[next := view] && Extends(old(views), views)
    {
      popped, frames, keys, views := popped + [evicted], frames + [Frame(view, 0)], keys + [next], views[next := view];
    }

    /** One pass of `dive`'s loop: push the deepest lever's symbol and add a lever on the first entry of the new state's view. */
    method Deeper() returns (ghost view: seq<Entry>)
      requires Valid() && Pinned() && chain.Valid() && Enumerable(chain.Counts)
      requires frames != [] && Candidate(frames[|frames| - 1]) != ZERO && |frames| < Depth()
      modifies this, state.cells, chain.table.Values
      ensures Valid() && Pinned() && chain.Valid()
      ensures frames == old(frames) + [Frame(view, 0)]
      ensures Extends(old(views), views)
    {
      var evicted, next, v := Descend();
      EnteredReady(evicted, next, v);
      Attach(evicted, next, v);
      view := v;
    }

    /**
     * `dive`: while the deepest lever points at a symbol and there is room,
     * push that symbol and add a lever on the new state's view.
     */
    method Dive()
      requires Valid() && Pinned()
      requires chain.Valid() && Enumerable(chain.Counts)
      modifies this, state.cells, chain.table.Values
      ensures Valid() && Pinned() && chain.Valid()
      ensures Deepens(old(frames), frames) && Extends(old(views), views)
      ensures old(frames) == [] ==> frames == []
      ensures frames != [] ==> Candidate(frames[|frames| - 1]) == ZERO || |frames| >= max
    {
      if frames == [] {
        return;
      }
      assert frames[..|frames|] == frames;
      while Candidate(frames[|frames| - 1]) != ZERO && |frames| < max
        invariant Valid() && Pinned() && chain.Valid() && frames != []
        invariant Deepens(old(frames), frames) && Extends(old(views), views)
        decreases max - |frames|
      {
        ghost var before, kept := frames, views;
        ghost var view := Deeper();
        DeepensStep(old(frames), before, Frame(view, 0));
        ExtendsTransitive(old(views), kept, views);
      }
    }

    /** One pass of the loop of `++`: `roll`, then `dive`, reaching a later position or the end. */
    method Step()
      requires Valid() && Pinned() && frames != []
      requires chain.Valid() && Enumerable(chain.Counts)
      modifies this, state.cells, chain.table.Values
      ensures Valid() && Pinned() && chain.Valid()
      ensures frames == [] || LexLess(Positions(old(frames)), Positions(frames))
      ensures Remaining(frames, Depth()) < Remaining(old(frames), Depth())
      ensures Extends(old(views), views)
    {
      ghost var before := frames;
      ValidPositions();
      Roll();
      ghost var rolled := frames;
      Dive();
      ValidPositions();
      if frames != [] {
        StepIsLater(before, rolled, frames);
      }
      RemainingDecreases(before, frames, Depth());
    }

    /** `operator++`: roll and dive until the iterator stands on a word or has run out. */
    method Next()
      requires Valid() && Pinned()
      requires chain.Valid() && Enumerable(chain.Counts)
      modifies this, state.cells, chain.table.Values
      ensures Valid() && Pinned() && chain.Valid()
      ensures frames == [] || Accepting()
      ensures frames == [] || LexLess(Positions(old(frames)), Positions(frames))
      ensures old(frames) == [] ==> frames == []
      ensures Extends(old(views), views)
    {
      if frames == [] {
        return;
      }
      Step();
      while frames != [] && (|frames| < min || Candidate(frames[|frames| - 1]) != ZERO)
        invariant Valid() && Pinned() && chain.Valid()
        invariant frames == [] || LexLess(Positions(old(frames)), Positions(frames))
        invariant Extends(old(views), views)
        decreases Remaining(frames, Depth())
      {
        ghost var before, kept := frames, views;
        Step();
        ExtendsTransitive(old(views), kept, views);
        if frames != [] {
          LexLessTransitive(Positions(old(frames)), Positions(before), Positions(frames));
        }
      }
    }
  }
}
