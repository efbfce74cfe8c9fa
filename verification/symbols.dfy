/** The alphabet of the chain: one C++ `char` of a sample (`item_t`). */
module Symbols {

  /** A symbol is one byte; `char` has 256 values. */
  type Symbol = x: int | 0 <= x < 256

  /** `ZERO`: the NUL byte, which ends a sample and marks a terminated walk. */
  const ZERO: Symbol := 0

  /** The number of distinct symbols. */
  const ALPHABET: nat := 256

  /** The symbols below n. */
  ghost function Below(n: nat): set<Symbol>
    requires n <= ALPHABET
  {
    if n == 0 then {} else Below(n - 1) + {n - 1}
  }

  lemma {:induction false} BelowSize(n: nat)
    requires n <= ALPHABET
    ensures |Below(n)| == n
    ensures forall x: Symbol :: x in Below(n) <==> x < n
  {
    if n > 0 {
      BelowSize(n - 1);
    }
  }

  lemma {:induction false} SubsetSize(a: set<Symbol>, b: set<Symbol>)
    requires a <= b
    ensures |a| <= |b|
    decreases a
  {
    if x :| x in a {
      SubsetSize(a - {x}, b - {x});
    }
  }

  /** No set of symbols has more than ALPHABET members: a transition has at most 256 branches. */
  lemma SymbolSetSize(s: set<Symbol>)
    ensures |s| <= ALPHABET
  {
    BelowSize(ALPHABET);
    SubsetSize(s, Below(ALPHABET));
  }
}
