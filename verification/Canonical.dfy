/** Canonical Huffman codes, section 3.2.2 of RFC 1951, and a decoder that reads one bit at a time. */
module Canonical {
  import opened Bits
  import opened Options

  const MAX_BITS := 15

  // A list of code lengths; 0 means that the symbol has no code.
  predicate ValidLens(lens: seq<nat>) {
    forall i :: 0 <= i < |lens| ==> lens[i] <= MAX_BITS
  }

  // How many of the first i symbols have length l.
  function Rank(lens: seq<nat>, l: nat, i: nat): nat
    requires i <= |lens|
  {
    if i == 0 then 0 else Rank(lens, l, i - 1) + (if lens[i - 1] == l then 1 else 0)
  }

  function Count(lens: seq<nat>, l: nat): nat {
    if l == 0 then 0 else Rank(lens, l, |lens|)
  }

  // The smallest code of length l.
  function First(lens: seq<nat>, l: nat): nat
    decreases l, 0
  {
    if l <= 1 then 0 else 2 * End(lens, l - 1)
  }

  // One more than the largest code of length l.
  function End(lens: seq<nat>, l: nat): nat
    decreases l, 1
  {
    First(lens, l) + Count(lens, l)
  }

  // The code of symbol i: codes of one length are consecutive, in the order of the symbols.
  function Code(lens: seq<nat>, i: nat): nat
    requires i < |lens|
  {
    First(lens, lens[i]) + Rank(lens, lens[i], i)
  }

  predicate HasCode(lens: seq<nat>, i: nat) {
    i < |lens| && lens[i] > 0
  }

  // No length has more codes than it has room for.
  predicate Fits(lens: seq<nat>) {
    forall l: nat :: 1 <= l <= MAX_BITS ==> End(lens, l) <= Shl(1, l)
  }

  lemma {:induction false} RankMonotone(lens: seq<nat>, l: nat, i: nat, j: nat)
    requires i <= j <= |lens|
    ensures Rank(lens, l, i) <= Rank(lens, l, j)
    ensures i < j && lens[i] == l ==> Rank(lens, l, i) < Rank(lens, l, j)
    decreases j
  {
    if i < j {
      RankMonotone(lens, l, i, j - 1);
    }
  }

  lemma CodeBelowEnd(lens: seq<nat>, i: nat)
    requires HasCode(lens, i)
    ensures First(lens, lens[i]) <= Code(lens, i) < End(lens, lens[i])
  {
    RankMonotone(lens, lens[i], i, |lens|);
  }

  // Codes of length n come after every extension of the codes of length m < n.
  lemma {:induction false} EndShift(lens: seq<nat>, m: nat, n: nat)
    requires 1 <= m <= n
    ensures Shl(End(lens, m), n - m) <= End(lens, n)
    ensures m < n ==> Shl(End(lens, m), n - m) <= First(lens, n)
    decreases n
  {
    if m < n {
      EndShift(lens, m, n - 1);
      assert n - m == n - 1 - m + 1;
    }
  }

  // No code is a prefix of another one, and no two symbols share a code.
  lemma PrefixFree(lens: seq<nat>, i: nat, j: nat)
    requires HasCode(lens, i) && HasCode(lens, j) && lens[i] <= lens[j]
    requires Shr(Code(lens, j), lens[j] - lens[i]) == Code(lens, i)
    ensures i == j
  {
    var m, n := lens[i], lens[j];
    CodeBelowEnd(lens, i);
    CodeBelowEnd(lens, j);
    if m < n {
      EndShift(lens, m, n);
      ShrLess(Code(lens, j), End(lens, m), n - m);
    } else if i < j {
      RankMonotone(lens, m, i, j);
    } else if j < i {
      RankMonotone(lens, m, j, i);
    }
  }

  /* ---- The Kraft inequality ---- */

  // The share of the 2^m codewords of m bits taken by the first n symbols.
  function Kraft(lens: seq<nat>, m: nat, n: nat): nat
    requires n <= |lens|
  {
    if n == 0 then 0
    else Kraft(lens, m, n - 1) + (if 0 < lens[n - 1] <= m then Shl(1, m - lens[n - 1]) else 0)
  }

  // End(lens, l) with only the first n symbols counted.
  function EndUpTo(lens: seq<nat>, l: nat, n: nat): nat
    requires n <= |lens|
    decreases l
  {
    if l == 0 then 0
    else 2 * EndUpTo(lens, l - 1, n) + Rank(lens, l, n)
  }

  lemma {:induction false} EndUpToAll(lens: seq<nat>, l: nat)
    requires l > 0
    ensures EndUpTo(lens, l, |lens|) == End(lens, l)
    decreases l
  {
    if l > 1 {
      EndUpToAll(lens, l - 1);
    } else {
      assert EndUpTo(lens, 0, |lens|) == 0;
    }
  }

  lemma {:induction false} EndUpToStep(lens: seq<nat>, l: nat, n: nat)
    requires n < |lens|
    ensures EndUpTo(lens, l, n + 1)
         == EndUpTo(lens, l, n) + (if 0 < lens[n] <= l then Shl(1, l - lens[n]) else 0)
    decreases l
  {
    if l != 0 {
      EndUpToStep(lens, l - 1, n);
    }
  }

  lemma {:induction false} EndUpToNone(lens: seq<nat>, l: nat)
    ensures EndUpTo(lens, l, 0) == 0
    decreases l
  {
    if l != 0 {
      EndUpToNone(lens, l - 1);
    }
  }

  lemma {:induction false} KraftIsEnd(lens: seq<nat>, m: nat, n: nat)
    requires n <= |lens|
    ensures Kraft(lens, m, n) == EndUpTo(lens, m, n)
    decreases n
  {
    if n == 0 {
      EndUpToNone(lens, m);
    } else {
      KraftIsEnd(lens, m, n - 1);
      EndUpToStep(lens, m, n - 1);
    }
  }

  lemma EndFits(lens: seq<nat>, l: nat, m: nat)
    requires 1 <= l <= m && End(lens, m) <= Shl(1, m)
    ensures End(lens, l) <= Shl(1, l)
  {
    EndShift(lens, l, m);
    ShlMonotone(End(lens, l), Shl(1, l), m - l);
    ShlAdd(1, l, m - l);
  }

  // The codes of all lengths fit exactly when the Kraft sum is at most one.
  lemma FitsIffKraft(lens: seq<nat>)
    ensures Fits(lens) <==> Kraft(lens, MAX_BITS, |lens|) <= Shl(1, MAX_BITS)
  {
    KraftIsEnd(lens, MAX_BITS, |lens|);
    EndUpToAll(lens, MAX_BITS);
    if End(lens, MAX_BITS) <= Shl(1, MAX_BITS) {
      forall l: nat | 1 <= l <= MAX_BITS
        ensures End(lens, l) <= Shl(1, l)
      {
        EndFits(lens, l, MAX_BITS);
      }
    }
  }

  /* ---- Finding the symbol of a code ---- */

  // The r-th symbol (from 0) of length l.
  function Select(lens: seq<nat>, l: nat, r: nat, n: nat): (i: nat)
    requires n <= |lens| && r < Rank(lens, l, n)
    ensures i < n && lens[i] == l && Rank(lens, l, i) == r
  {
    if lens[n - 1] == l && Rank(lens, l, n - 1) == r then n - 1 else Select(lens, l, r, n - 1)
  }

  // Every l-bit value below End(lens, l) starts with the code of some symbol no longer than l.
  lemma {:induction false} Covered(lens: seq<nat>, l: nat, v: nat) returns (i: nat)
    requires l >= 1 && v < End(lens, l)
    ensures HasCode(lens, i) && lens[i] <= l && Shr(v, l - lens[i]) == Code(lens, i)
    decreases l
  {
    if v >= First(lens, l) {
      i := Select(lens, l, v - First(lens, l), |lens|);
    } else {
      i := Covered(lens, l - 1, v / 2);
    }
  }

  /* ---- The bit-by-bit reference decoder ---- */

  // The first symbol from i on whose code is the l-bit number `code`.
  function FindSymbol(lens: seq<nat>, l: nat, code: nat, i: nat): (r: Option<nat>)
    requires i <= |lens|
    decreases |lens| - i
  {
    if i == |lens| then None
    else if lens[i] == l && Code(lens, i) == code then Some(i)
    else FindSymbol(lens, l, code, i + 1)
  }

  // A decoded symbol and the number of bits its code has.
  datatype Symbol = Symbol(sym: nat, bits: nat)

  // `acc` holds the bits from p up to q; reads one more at a time until they are some symbol's code.
  function ReadSymbol(lens: seq<nat>, input: seq<u8>, p: nat, q: nat, acc: nat): (r: Option<Symbol>)
    requires p <= q <= p + MAX_BITS
    ensures r.Some? ==> r.value.bits > 0
    decreases p + MAX_BITS - q
  {
    if q == p + MAX_BITS then None
    else
      var code := 2 * acc + BitAt(input, q);
      match FindSymbol(lens, q + 1 - p, code, 0)
      case Some(i) => Some(Symbol(i, q + 1 - p))
      case None => ReadSymbol(lens, input, p, q + 1, code)
  }

  function DecodeSymbol(lens: seq<nat>, input: seq<u8>, p: nat): (r: Option<Symbol>)
    ensures r.Some? ==> r.value.bits > 0
  {
    ReadSymbol(lens, input, p, p, 0)
  }

  // The stream at p starts with the code of symbol i.
  ghost predicate Matches(lens: seq<nat>, input: seq<u8>, p: nat, i: nat) {
    HasCode(lens, i) && CodeBits(input, p, lens[i]) == Code(lens, i)
  }

  lemma {:induction false} FindSymbolFirst(lens: seq<nat>, l: nat, code: nat, i: nat)
    requires i <= |lens|
    ensures match FindSymbol(lens, l, code, i)
      case Some(j) => i <= j < |lens| && lens[j] == l && Code(lens, j) == code
      case None => forall j :: i <= j < |lens| ==> !(lens[j] == l && Code(lens, j) == code)
    decreases |lens| - i
  {
    if i < |lens| {
      FindSymbolFirst(lens, l, code, i + 1);
    }
  }

  lemma MatchUnique(lens: seq<nat>, input: seq<u8>, p: nat, i: nat, j: nat)
    requires Matches(lens, input, p, i) && Matches(lens, input, p, j)
    ensures i == j
  {
    if lens[i] <= lens[j] {
      CodeBitsShr(input, p, lens[i], lens[j] - lens[i]);
      PrefixFree(lens, i, j);
    } else {
      CodeBitsShr(input, p, lens[j], lens[i] - lens[j]);
      PrefixFree(lens, j, i);
    }
  }

  lemma {:induction false} ReadSymbolExact(lens: seq<nat>, input: seq<u8>, p: nat, q: nat, acc: nat)
    requires ValidLens(lens) && p <= q <= p + MAX_BITS && acc == CodeBits(input, p, q - p)
    requires forall i: nat :: Matches(lens, input, p, i) ==> lens[i] > q - p
    ensures match ReadSymbol(lens, input, p, q, acc)
      case Some(s) => Matches(lens, input, p, s.sym) && s.bits == lens[s.sym]
      case None => forall i: nat :: !Matches(lens, input, p, i)
    decreases p + MAX_BITS - q
  {
    hide Code, BitAt, FindSymbol;
    if q < p + MAX_BITS {
      var n := q + 1 - p;
      var code := 2 * acc + BitAt(input, q);
      assert code == CodeBits(input, p, n);
      FindSymbolFirst(lens, n, code, 0);
      if FindSymbol(lens, n, code, 0) == None {
        forall i: nat | Matches(lens, input, p, i)
          ensures lens[i] > n
        {
          if lens[i] == n {
            assert false;
          }
        }
        ReadSymbolExact(lens, input, p, q + 1, code);
      }
    }
  }

  // The reference decoder returns exactly the one symbol whose code the stream starts with.
  lemma DecodeSymbolExact(lens: seq<nat>, input: seq<u8>, p: nat)
    requires ValidLens(lens)
    ensures match DecodeSymbol(lens, input, p)
      case Some(s) => Matches(lens, input, p, s.sym) && s.bits == lens[s.sym]
      case None => forall i: nat :: !Matches(lens, input, p, i)
  {
    ReadSymbolExact(lens, input, p, p, 0);
  }

  lemma DecodeSymbolMatch(lens: seq<nat>, input: seq<u8>, p: nat, i: nat)
    requires ValidLens(lens) && Matches(lens, input, p, i)
    ensures DecodeSymbol(lens, input, p) == Some(Symbol(i, lens[i]))
  {
    DecodeSymbolExact(lens, input, p);
    MatchUnique(lens, input, p, i, DecodeSymbol(lens, input, p).value.sym);
  }

  /* ---- Positions in the decoder's tables ---- */

  // How many symbols have a code shorter than l.
  function FirstSymbol(lens: seq<nat>, l: nat): nat {
    if l <= 1 then 0 else FirstSymbol(lens, l - 1) + Count(lens, l - 1)
  }

  // Where symbol i stands when the symbols are sorted by code.
  function Position(lens: seq<nat>, i: nat): nat
    requires i < |lens|
  {
    FirstSymbol(lens, lens[i]) + Rank(lens, lens[i], i)
  }

  lemma {:induction false} FirstSymbolMonotone(lens: seq<nat>, m: nat, n: nat)
    requires 1 <= m <= n
    ensures m < n ==> FirstSymbol(lens, m) + Count(lens, m) <= FirstSymbol(lens, n)
    ensures FirstSymbol(lens, m) <= FirstSymbol(lens, n)
    decreases n
  {
    if m < n {
      FirstSymbolMonotone(lens, m, n - 1);
    }
  }

  lemma PositionInjective(lens: seq<nat>, i: nat, j: nat)
    requires HasCode(lens, i) && HasCode(lens, j) && Position(lens, i) == Position(lens, j)
    ensures i == j
  {
    RankMonotone(lens, lens[i], i, |lens|);
    RankMonotone(lens, lens[j], j, |lens|);
    if lens[i] < lens[j] {
      FirstSymbolMonotone(lens, lens[i], lens[j]);
    } else if lens[j] < lens[i] {
      FirstSymbolMonotone(lens, lens[j], lens[i]);
    } else if i < j {
      RankMonotone(lens, lens[i], i, j);
    } else if j < i {
      RankMonotone(lens, lens[i], j, i);
    }
  }

  // Symbols shorter than l among the first n.
  function Shorter(lens: seq<nat>, l: nat, n: nat): nat
    requires n <= |lens|
    decreases l
  {
    if l <= 1 then 0 else Shorter(lens, l - 1, n) + Rank(lens, l - 1, n)
  }

  lemma {:induction false} ShorterStep(lens: seq<nat>, l: nat, n: nat)
    requires n < |lens|
    ensures Shorter(lens, l, n + 1) == Shorter(lens, l, n) + (if 0 < lens[n] < l then 1 else 0)
    decreases l
  {
    if l > 1 {
      ShorterStep(lens, l - 1, n);
    }
  }

  lemma {:induction false} ShorterBound(lens: seq<nat>, l: nat, n: nat)
    requires n <= |lens|
    ensures Shorter(lens, l, n) <= n
    decreases n
  {
    if n == 0 {
      ShorterNone(lens, l);
    } else {
      ShorterBound(lens, l, n - 1);
      ShorterStep(lens, l, n - 1);
    }
  }

  lemma {:induction false} ShorterNone(lens: seq<nat>, l: nat)
    ensures Shorter(lens, l, 0) == 0
    decreases l
  {
    if l > 1 {
      ShorterNone(lens, l - 1);
    }
  }

  lemma {:induction false} FirstSymbolIsShorter(lens: seq<nat>, l: nat)
    ensures FirstSymbol(lens, l) == Shorter(lens, l, |lens|)
    decreases l
  {
    if l > 1 {
      FirstSymbolIsShorter(lens, l - 1);
    }
  }

  lemma FirstSymbolBound(lens: seq<nat>, l: nat)
    ensures FirstSymbol(lens, l) <= |lens|
  {
    FirstSymbolIsShorter(lens, l);
    ShorterBound(lens, l, |lens|);
  }

  lemma PositionBound(lens: seq<nat>, i: nat)
    requires HasCode(lens, i)
    ensures Position(lens, i) < |lens|
  {
    FirstSymbolBound(lens, lens[i] + 1);
    RankMonotone(lens, lens[i], i, |lens|);
  }
}
