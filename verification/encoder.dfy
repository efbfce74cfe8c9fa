/**
 * `NumberEncoder`: a chain trained without ZERO whose transitions are refined
 * to their most frequent entries, which spells a number as a word; and the
 * bit diffusion the `encode` driver applies to each number first.
 */
module Encoding {
  import opened Symbols
  import opened States
  import opened Transitions
  import opened Chains

  /** A positive number divided by at least two gets smaller and stays non-negative. */
  lemma DivShrinks(n: int, b: int)
    requires n > 0 && b >= 2
    ensures 0 <= n / b < n
  {
  }

  /** A number is its quotient times the divisor plus its remainder. */
  lemma DivMod(n: int, b: int)
    requires b > 0
    ensures n == n % b + b * (n / b)
  {
  }

  /** A positive multiple of b is at least b. */
  lemma MulAtLeast(b: int, d: int)
    requires b > 0 && d >= 1
    ensures b * d >= b
  {
    assert b * d == b + b * (d - 1);
  }

  /** Euclidean division is unique: a quotient and a remainder in range are the ones `/` and `%` give. */
  lemma DivModUnique(x: int, b: int, q: int, r: int)
    requires b > 0 && x == b * q + r && 0 <= r < b
    ensures x / b == q && x % b == r
  {
    var q', r' := x / b, x % b;
    assert x == b * q' + r';
    if q > q' {
      MulAtLeast(b, q - q');
      assert false;
    } else if q < q' {
      MulAtLeast(b, q' - q);
      assert false;
    }
  }

  /** Shifting by `offset` before taking the remainder and back after it recovers the remainder. */
  lemma ModUnshift(n: int, offset: int, b: int)
    requires b > 0
    ensures ((n + offset) % b - offset) % b == n % b
  {
    var a := n + offset;
    var q := a / b;
    assert (a % b - offset) == b * (n / b - q) + n % b;
    DivModUnique(a % b - offset, b, n / b - q, n % b);
  }

  /**
   * The view positions `encode` picks for `n` from pass `offset` on, over `b`
   * branches: position (n + offset) mod b, then n / b is spelled from the next
   * pass on; nothing is spelled once n is no longer positive.
   */
  function Digits(n: int, b: nat, offset: nat): (ds: seq<nat>)
    requires b >= 2
    ensures forall i :: 0 <= i < |ds| ==> ds[i] < b
    ensures n <= 0 <==> ds == []
    decreases if n <= 0 then 0 else n
  {
    if n <= 0 then [] else DivShrinks(n, b); [(n + offset) % b] + Digits(n / b, b, offset + 1)
  }

  /** One pass of `encode`'s loop spells the next position and leaves n / b for the passes after it. */
  lemma DigitsNext(number: int, ds: seq<nat>, n: int, b: nat, offset: nat)
    requires b >= 2 && n > 0
    requires Digits(number, b, 0) == ds + Digits(n, b, offset)
    ensures Digits(number, b, 0) == (ds + [(n + offset) % b]) + Digits(n / b, b, offset + 1)
  {
    DivShrinks(n, b);
    assert Digits(n, b, offset) == [(n + offset) % b] + Digits(n / b, b, offset + 1);
  }

  /** Reading a number back from the positions: undo the offset of every pass, then weigh by powers of b. */
  function Undigits(ds: seq<nat>, b: nat, offset: nat): int
    requires b >= 2
  {
    if ds == [] then 0 else (ds[0] - offset) % b + b * Undigits(ds[1..], b, offset + 1)
  }

  /** The positions `encode` picks determine the number: every non-negative number is read back exactly. */
  lemma {:induction false} UndigitsDigits(n: int, b: nat, offset: nat)
    requires n >= 0 && b >= 2
    ensures Undigits(Digits(n, b, offset), b, offset) == n
    decreases n
  {
    if n > 0 {
      DivShrinks(n, b);
      var ds, rest := Digits(n, b, offset), Digits(n / b, b, offset + 1);
      assert ds[0] == (n + offset) % b && ds[1..] == rest;
      UndigitsDigits(n / b, b, offset + 1);
      ModUnshift(n, offset, b);
      assert Undigits(ds, b, offset) == n % b + b * (n / b);
      DivMod(n, b);
    }
  }

  /** The value of `number` after k passes of `encode`'s loop over b branches. */
  function After(n: int, b: nat, k: nat): int
    requires b >= 1
  {
    if k == 0 || n <= 0 then n else After(n / b, b, k - 1)
  }

  /** With a single branch `number /= 1` changes nothing: a positive number never leaves the loop. */
  lemma {:induction false} OneBranchNeverEnds(n: int, k: nat)
    requires n > 0
    ensures After(n, 1, k) == n
  {
    if k > 0 {
      OneBranchNeverEnds(n, k - 1);
    }
  }

  /** With at least two branches the loop ends: after one pass per spelled position the number is spent. */
  lemma {:induction false} TwoBranchesEnd(n: int, b: nat, offset: nat)
    requires n >= 0 && b >= 2
    ensures After(n, b, |Digits(n, b, offset)|) == 0
    decreases n
  {
    if n > 0 {
      DivShrinks(n, b);
      TwoBranchesEnd(n / b, b, offset + 1);
    }
  }

  /** `x` can stand at position k of the ordered view of `m`: some order by non-increasing count puts it there. */
  ghost predicate Ranked(m: map<Symbol, nat>, k: nat, x: Symbol) {
    exists v: seq<Entry> :: IsView(v, m) && k < |v| && v[k].symbol == x
  }

  /** Every entry of an ordered view stands at its own position in some order by count. */
  lemma ViewRanked(v: seq<Entry>, m: map<Symbol, nat>, k: nat)
    requires IsView(v, m) && k < |v|
    ensures Ranked(m, k, v[k].symbol)
  {
  }

  /** `word` spells the positions `ds` in the ordered view of `m`, one symbol per position. */
  ghost predicate Spells(m: map<Symbol, nat>, ds: seq<nat>, word: seq<Symbol>) {
    |ds| == |word| && forall i :: 0 <= i < |ds| ==> Ranked(m, ds[i], word[i])
  }

  /** Spelling one more position appends its symbol. */
  lemma SpellsAppend(m: map<Symbol, nat>, ds: seq<nat>, word: seq<Symbol>, k: nat, x: Symbol)
    requires Spells(m, ds, word) && Ranked(m, k, x)
    ensures Spells(m, ds + [k], word + [x])
  {
    forall i | 0 <= i < |ds| + 1
      ensures Ranked(m, (ds + [k])[i], (word + [x])[i])
    {
      if i < |ds| {
        assert (ds + [k])[i] == ds[i] && (word + [x])[i] == word[i];
      }
    }
  }

  /** Every transition of `before` outside `todo` is refined in `after`; the others are as they were. */
  ghost predicate RefinedBut(before: Table, after: Table, todo: set<Window>, threshold: int) {
    && after.Keys == before.Keys
    && forall w :: w in after ==> if w in todo then after[w] == before[w] else IsRefinement(before[w], after[w], threshold)
  }

  /** Refining one more transition of `todo` moves it out of `todo`. */
  lemma RefinedStep(before: Table, mid: Table, todo: set<Window>, w: Window, counts: map<Symbol, nat>, threshold: int)
    requires RefinedBut(before, mid, todo, threshold) && w in todo && w in mid
    requires IsRefinement(mid[w], counts, threshold)
    ensures RefinedBut(before, mid[w := counts], todo - {w}, threshold)
  {
  }

  /** `NumberEncoder`: a `MarkovChain` (its base class) trained without ZERO and refined. */
  class NumberEncoder {
    const chain: MarkovChain

    /** `NumberEncoder(words, threshold)`: train without ZERO, then refine every transition. */
    constructor (samples: seq<seq<Symbol>>, threshold: int := 15)
      ensures chain.Valid() && fresh(chain) && fresh(chain.table.Values)
      ensures chain.Counts.Keys == Train(map[], samples, false).Keys
      ensures forall w :: w in chain.Counts ==> IsRefinement(Train(map[], samples, false)[w], chain.Counts[w], threshold)
    {
      chain := new MarkovChain(samples, false);
      new;
      Refine(threshold);
    }

    /** `refine`: refine the transition of every recorded state to `threshold` entries. */
    method Refine(threshold: int)
      requires chain.Valid()
      modifies chain`Counts, chain.table.Values
      ensures chain.Valid()
      ensures chain.Counts.Keys == old(chain.Counts).Keys
      ensures forall w :: w in chain.Counts ==> IsRefinement(old(chain.Counts)[w], chain.Counts[w], threshold)
    {
      var todo := chain.table.Keys;
      while todo != {}
        invariant todo <= chain.table.Keys
        invariant chain.Valid() && RefinedBut(old(chain.Counts), chain.Counts, todo, threshold)
        decreases todo
      {
        var w :| w in todo;
        ghost var before := chain.Counts;
        RefineOne(w, threshold);
        RefinedStep(old(chain.Counts), before, todo, w, chain.Counts[w], threshold);
        todo := todo - {w};
      }
    }

    /** One pass of `refine`'s loop: the transition of `w` is refined, every other one is left alone. */
    method RefineOne(w: Window, threshold: int)
      requires chain.Valid() && w in chain.table
      modifies chain`Counts, chain.table[w]
      ensures chain.Valid()
      ensures chain.Counts == old(chain.Counts)[w := chain.Counts[w]]
      ensures IsRefinement(old(chain.Counts)[w], chain.Counts[w], threshold)
    {
      ghost var view := chain.table[w].Refine(threshold);
      chain.Counts := chain.Counts[w := chain.table[w].counts];
      forall v | v in chain.table
        ensures chain.table[v].Valid() && chain.table[v].counts == chain.Counts[v]
      {
        if v != w {
          assert chain.table[v] != chain.table[w];
        }
      }
    }

    /**
     * The symbol of one pass of `encode`'s loop: on a copy of the root's
     * transition, the entry at position `(n + offset) mod count()` of its
     * ordered view.
     */
    method Emit(n: nat, offset: nat) returns (b: nat, index: nat, x: Symbol)
      requires chain.Valid() && EMPTY in chain.Counts && |chain.Counts[EMPTY]| >= 2
      ensures b == |chain.Counts[EMPTY]| && index == (n + offset) % b
      ensures Ranked(chain.Counts[EMPTY], index, x)
    {
      var transition := new Transition.Copy(chain.table[EMPTY]);
      b := transition.Count();
      index := (n + offset) % b;
      x := transition.Get(index);
      ViewRanked(transition.frequencies, chain.Counts[EMPTY], index);
    }

    /**
     * `encode`: spell `number` with the symbols of the root transition. Each
     * pass looks up the walk's state, which is never pushed and so stays
     * EMPTY, copies its transition, emits the entry at position
     * (number + offset) mod count() of the copy's ordered view, and divides
     * `number` by count(). A missing root fails the call and leaves `result`
     * as it was (`prior`).
     */
    method Encode(number: int, prior: seq<Symbol>) returns (ok: bool, result: seq<Symbol>)
      requires chain.Valid()
      requires number > 0 && EMPTY in chain.Counts ==> |chain.Counts[EMPTY]| >= 2
      ensures ok <==> number <= 0 || EMPTY in chain.Counts
      ensures !ok ==> result == prior
      ensures ok && number <= 0 ==> result == []
      ensures ok && number > 0 && EMPTY in chain.Counts ==>
        var root := chain.Counts[EMPTY];
        Spells(root, Digits(number, |root|, 0), result)
    {
      ghost var root := if EMPTY in chain.Counts then chain.Counts[EMPTY] else map[];
      ghost var b0 := if |root| >= 2 then |root| else 2;
      ghost var ds: seq<nat> := [];
      var offset := 0;
      var state := EMPTY;
      var n := number;
      var spelled := [];
      while 0 < n
        invariant offset == 0 ==> n == number
        invariant offset > 0 ==> number > 0 && EMPTY in chain.Counts && n >= 0
        invariant |ds| == offset
        invariant Digits(number, b0, 0) == ds + Digits(n, b0, offset)
        invariant Spells(root, ds, spelled)
        decreases if n <= 0 then 0 else n
      {
        var w := state;
        if w !in chain.table {
          return false, prior;
        }
        var b, index, x := Emit(n, offset);
        SpellsAppend(root, ds, spelled, index, x);
        DivShrinks(n, b);
        DigitsNext(number, ds, n, b, offset);
        ds, spelled := ds + [index], spelled + [x];
        n := n / b;
        offset := offset + 1;
      }
      ok, result := true, spelled;
    }
  }

  /**
   * One round of the driver's diffusion: flip the bits of 0b10011010, then
   * shift left by one keeping 31 bits, and bring the two top bits round to
   * the bottom.
   */
  function Round(x: bv32): bv32 {
    var y := x ^ 0x9A;
    ((y << 1) & 0x7FFF_FFFF) | (y >> 30)
  }

  /** k rounds of the diffusion. */
  function Rounds(x: bv32, k: nat): bv32 {
    if k == 0 then x else Round(Rounds(x, k - 1))
  }

  /** The inverse of a round on 31 bits: rotate right by one inside 31 bits, then flip the same bits back. */
  function Unround(y: bv32): bv32 {
    ((y >> 1) | ((y & 1) << 30)) ^ 0x9A
  }

  /** k inverse rounds, last round first. */
  function Unrounds(y: bv32, k: nat): bv32
    decreases k
  {
    if k == 0 then y else Unrounds(Unround(y), k - 1)
  }

  /** The top bit of a round is always clear, so the value passed on as an `int` is never negative. */
  lemma RoundBelow(x: bv32)
    ensures Round(x) < 0x8000_0000
  {
  }

  /** After at least one round the top bit is clear. */
  lemma RoundsBelow(x: bv32, k: nat)
    requires k > 0
    ensures Rounds(x, k) < 0x8000_0000
  {
    RoundBelow(Rounds(x, k - 1));
  }

  /** On values whose top bit is clear a round is a bijection: `Unround` undoes it. */
  lemma UnroundRound(x: bv32)
    requires x < 0x8000_0000
    ensures Unround(Round(x)) == x
  {
  }

  /** A round merges bit 31 into bit 1: the top-bit input 0x80000000 collides with 1. */
  lemma RoundMergesTopBit()
    ensures Round(0x8000_0000) == Round(1)
  {
  }

  /** Any number of rounds on a value whose top bit is clear is undone by as many inverse rounds. */
  lemma {:induction false} UnroundsRounds(x: bv32, k: nat)
    requires x < 0x8000_0000
    ensures Unrounds(Rounds(x, k), k) == x
  {
    if k > 0 {
      var r := Rounds(x, k - 1);
      if k > 1 {
        RoundBelow(Rounds(x, k - 2));
      }
      UnroundRound(r);
      UnroundsRounds(x, k - 1);
    }
  }

  /** The number of rounds of the diffusion. */
  const ROUNDS: nat := 8

  /**
   * The loop of the `encode` driver over one number: ROUNDS rounds of
   * diffusion, updating `value` in place.
   */
  method Diffuse(number: bv32) returns (value: bv32)
    ensures value == Rounds(number, ROUNDS)
  {
    value := number;
    var i := 0;
    while i != ROUNDS
      invariant 0 <= i <= ROUNDS
      invariant value == Rounds(number, i)
    {
      ghost var before := value;
      value := value ^ 0x9A;
      value := ((value << 1) & 0x7FFF_FFFF) | (value >> 30);
      assert value == Round(before);
      i := i + 1;
    }
  }

  /** The diffusion loses nothing on numbers below 2^31: two of them that diffuse alike are equal. */
  lemma DiffuseInjective(x: bv32, y: bv32)
    requires x < 0x8000_0000 && y < 0x8000_0000
    requires Rounds(x, ROUNDS) == Rounds(y, ROUNDS)
    ensures x == y
  {
    UnroundsRounds(x, ROUNDS);
    UnroundsRounds(y, ROUNDS);
  }
}
