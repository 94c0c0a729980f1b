/** A bit array stored in 64-bit words: range updates and scans that work a word at a time. */
module BitArray {
  import opened Bits

  const ONES := 0xFFFF_FFFF_FFFF_FFFF
  type u64 = x: int | 0 <= x < 0x1_0000_0000_0000_0000

  /* ---- Words ---- */

  // ~v
  function Not(v: u64): u64 {
    ONES - v
  }

  // ~uint64_t {0} << bit
  function StartMask(bit: nat): u64
    requires bit < 64
  {
    WordBound(Shl(ONES, bit));
    Low(Shl(ONES, bit), 64)
  }

  // The bits up to and including `bit`.
  function EndMask(bit: nat): u64
    requires bit < 64
  {
    Pow2Of64();
    Pow2Monotone(bit + 1, 64);
    if bit == 63 then ONES else Shl(1, bit + 1) - 1
  }

  lemma Pow2Of64()
    ensures Shl(1, 64) == 0x1_0000_0000_0000_0000
  {
    Pow2Of16();
    ShlAdd(1, 16, 16);
    ShlAdd(1, 32, 32);
    ShlBy16(0x1_0000);
    ShlBy16(0x1_0000_0000);
    ShlBy16(0x1_0000_0000_0000);
    ShlAdd(0x1_0000_0000, 16, 16);
  }

  lemma ShlBy16(v: nat)
    ensures Shl(v, 16) == 0x1_0000 * v
  {
    ShlAdd(v, 8, 8);
    ShlBy8(v);
    ShlBy8(0x100 * v);
  }

  lemma WordBound(v: nat)
    ensures Low(v, 64) < 0x1_0000_0000_0000_0000
  {
    LowBound(v, 64);
    Pow2Of64();
  }

  lemma {:induction false} OnesBit(n: nat, i: nat)
    ensures Shl(1, n) >= 1 && Bit(Shl(1, n) - 1, i) == (i < n)
    decreases n
  {
    if n == 0 {
      ZeroBit(i);
    } else if i == 0 {
      OnesBit(n - 1, 0);
    } else {
      OnesBit(n - 1, i - 1);
      BitOfHalf(Shl(1, n) - 1, i);
    }
  }

  lemma {:induction false} NotBits(v: nat, n: nat, i: nat)
    requires v < Shl(1, n)
    ensures Bit(Shl(1, n) - 1 - v, i) == (i < n && !Bit(v, i))
    decreases n
  {
    if n == 0 {
      ZeroBit(i);
    } else if i != 0 {
      NotBits(v / 2, n - 1, i - 1);
      BitOfHalf(Shl(1, n) - 1 - v, i);
      BitOfHalf(v, i);
    }
  }

  lemma NotBit(v: u64, i: nat)
    requires i < 64
    ensures Bit(Not(v), i) == !Bit(v, i)
  {
    Pow2Of64();
    NotBits(v, 64, i);
  }

  lemma StartMaskBit(bit: nat, i: nat)
    requires bit < 64 && i < 64
    ensures Bit(StartMask(bit), i) == (bit <= i)
  {
    hide Shl, Low, Bit;
    LowBit(Shl(ONES, bit), 64, i);
    ShlBit(ONES, bit, i);
    if bit <= i {
      AllOnes(i - bit);
    }
  }

  lemma EndMaskBit(bit: nat, i: nat)
    requires bit < 64 && i < 64
    ensures Bit(EndMask(bit), i) == (i <= bit)
  {
    Pow2Of64();
    OnesBit(bit + 1, i);
    OnesBit(64, i);
  }

  /* ---- Counting bits ---- */

  // std::countr_zero of a nonzero word
  function TrailingZeros(w: nat): nat
    requires w > 0
    decreases w
  {
    if w % 2 == 1 then 0 else 1 + TrailingZeros(w / 2)
  }

  // std::countr_one
  function TrailingOnes(w: nat): nat
    decreases w
  {
    if w % 2 == 0 then 0 else 1 + TrailingOnes(w / 2)
  }

  // std::countl_zero and std::countl_one of an n-bit word
  function LeadingZeros(w: nat, n: nat): (r: nat)
    ensures r <= n
  {
    if n == 0 || Bit(w, n - 1) then 0 else 1 + LeadingZeros(w, n - 1)
  }

  function LeadingOnes(w: nat, n: nat): (r: nat)
    ensures r <= n
  {
    if n == 0 || !Bit(w, n - 1) then 0 else 1 + LeadingOnes(w, n - 1)
  }

  lemma {:induction false} TrailingZerosBits(w: nat)
    requires w > 0
    ensures Bit(w, TrailingZeros(w)) && forall i: nat :: i < TrailingZeros(w) ==> !Bit(w, i)
    decreases w
  {
    if w % 2 == 0 {
      TrailingZerosBits(w / 2);
      BitOfHalf(w, TrailingZeros(w));
      forall i: nat | i < TrailingZeros(w)
        ensures !Bit(w, i)
      {
        if i > 0 {
          BitOfHalf(w, i);
        }
      }
    }
  }

  lemma {:induction false} TrailingOnesBits(w: nat)
    ensures !Bit(w, TrailingOnes(w)) && forall i: nat :: i < TrailingOnes(w) ==> Bit(w, i)
    decreases w
  {
    if w % 2 == 1 {
      TrailingOnesBits(w / 2);
      BitOfHalf(w, TrailingOnes(w));
      forall i: nat | i < TrailingOnes(w)
        ensures Bit(w, i)
      {
        if i > 0 {
          BitOfHalf(w, i);
        }
      }
    }
  }

  lemma {:induction false} LeadingZerosBits(w: nat, n: nat)
    ensures LeadingZeros(w, n) < n ==> Bit(w, n - 1 - LeadingZeros(w, n))
    ensures forall i: nat :: n - LeadingZeros(w, n) <= i < n ==> !Bit(w, i)
    decreases n
  {
    if n > 0 && !Bit(w, n - 1) {
      LeadingZerosBits(w, n - 1);
    }
  }

  lemma {:induction false} LeadingOnesBits(w: nat, n: nat)
    ensures LeadingOnes(w, n) < n ==> !Bit(w, n - 1 - LeadingOnes(w, n))
    ensures forall i: nat :: n - LeadingOnes(w, n) <= i < n ==> Bit(w, i)
    decreases n
  {
    if n > 0 && Bit(w, n - 1) {
      LeadingOnesBits(w, n - 1);
    }
  }

  // A word is zero, or all ones, exactly when its bits are.
  lemma ZeroWord(w: u64)
    ensures w == 0 <==> forall i: nat :: i < 64 ==> !Bit(w, i)
  {
    if w == 0 {
      forall i: nat
        ensures !Bit(w, i)
      {
        ZeroBit(i);
      }
    } else if forall i: nat :: i < 64 ==> !Bit(w, i) {
      Pow2Of64();
      forall i: nat
        ensures !Bit(0, i)
      {
        ZeroBit(i);
      }
      SameBits(w, 0, 64);
    }
  }

  lemma OnesWord(w: u64)
    ensures w == ONES <==> forall i: nat :: i < 64 ==> Bit(w, i)
  {
    Pow2Of64();
    forall i: nat | i < 64
      ensures Bit(ONES, i)
    {
      OnesBit(64, i);
    }
    if forall i: nat :: i < 64 ==> Bit(w, i) {
      SameBits(w, ONES, 64);
    }
  }

  lemma AndWord(v: u64, w: u64)
    ensures And(v, w) < 0x1_0000_0000_0000_0000
  {
    AndBound(v, w);
  }

  lemma OrWord(v: u64, w: u64)
    ensures Or(v, w) < 0x1_0000_0000_0000_0000
  {
    Pow2Of64();
    OrBound(v, w, 64);
  }

  /* ---- The array as a set of bits ---- */

  // Bit i of the words.
  predicate Has(words: seq<u64>, i: nat)
    requires i < 64 * |words|
  {
    Bit(words[i / 64], i % 64)
  }

  // All of, or none of, the bits from lo up to hi.
  ghost predicate AllIn(words: seq<u64>, lo: nat, hi: nat) {
    hi <= 64 * |words| && forall i :: lo <= i < hi ==> Has(words, i)
  }

  ghost predicate NoneIn(words: seq<u64>, lo: nat, hi: nat) {
    hi <= 64 * |words| && forall i :: lo <= i < hi ==> !Has(words, i)
  }

  datatype Range = Range(first: nat, last: nat)

  // The first run at or after `start`, cut off there; (n, n) when there is none.
  ghost predicate FirstRun(words: seq<u64>, start: nat, r: Range) {
    var n := 64 * |words|;
    if r.first == n then r.last == n && (start < n ==> NoneIn(words, start, n))
    else
      && start <= r.first < r.last <= n
      && NoneIn(words, start, r.first) && AllIn(words, r.first, r.last)
      && (r.last < n ==> !Has(words, r.last))
  }

  // The last run before `end`, cut off there; (0, 0) when there is none.
  ghost predicate LastRun(words: seq<u64>, end: nat, r: Range) {
    var n := if end <= 64 * |words| then end else 64 * |words|;
    if r.last == 0 then r.first == 0 && NoneIn(words, 0, n)
    else
      && r.first < r.last <= n
      && NoneIn(words, r.last, n) && AllIn(words, r.first, r.last)
      && (r.first > 0 ==> !Has(words, r.first - 1))
  }

  // Where position i lies relative to a bound, word by word.
  lemma Place(i: nat, bound: nat)
    ensures i == 64 * (i / 64) + i % 64
    ensures bound <= i <==> bound / 64 < i / 64 || (bound / 64 == i / 64 && bound % 64 <= i % 64)
  {
  }

  // A run of bits inside word w.
  lemma WordRun(words: seq<u64>, w: nat, lo: nat, hi: nat, v: bool)
    requires w < |words| && lo <= hi <= 64
    requires forall k: nat :: lo <= k < hi ==> Bit(words[w], k) == v
    ensures forall i :: 64 * w + lo <= i < 64 * w + hi ==> Has(words, i) == v
  {
    forall i | 64 * w + lo <= i < 64 * w + hi
      ensures Has(words, i) == v
    {
      assert i / 64 == w && i % 64 == i - 64 * w;
    }
  }

  lemma WordBit(words: seq<u64>, w: nat, k: nat)
    requires w < |words| && k < 64
    ensures Has(words, 64 * w + k) == Bit(words[w], k)
  {
    assert (64 * w + k) / 64 == w && (64 * w + k) % 64 == k;
  }

  /* ---- What a range update does to word w ---- */

  // Word w is outside the words of the range, or its only, first, last or an inner one.
  datatype Where = Outside | Only | FirstWord | LastWord | Inner

  function WhereIs(start: nat, end: nat, w: nat): Where
    requires start < end
  {
    var first, last := start / 64, (end - 1) / 64;
    if w < first || w > last then Outside
    else if first == last then Only
    else if w == first then FirstWord
    else if w == last then LastWord
    else Inner
  }

  function SetWord(v: u64, start: nat, end: nat, w: nat): u64
    requires start < end
  {
    var sm, em := StartMask(start % 64), EndMask((end - 1) % 64);
    AndWord(sm, em);
    OrWord(v, And(sm, em));
    OrWord(v, sm);
    OrWord(v, em);
    match WhereIs(start, end, w)
    case Outside => v
    case Only => Or(v, And(sm, em))
    case FirstWord => Or(v, sm)
    case LastWord => Or(v, em)
    case Inner => ONES
  }

  function UnsetWord(v: u64, start: nat, end: nat, w: nat): u64
    requires start < end
  {
    var below, above := BelowMask(start % 64), Not(EndMask((end - 1) % 64));
    OrWord(below, above);
    AndWord(v, Or(below, above));
    AndWord(v, below);
    AndWord(v, above);
    match WhereIs(start, end, w)
    case Outside => v
    case Only => And(v, Or(below, above))
    case FirstWord => And(v, below)
    case LastWord => And(v, above)
    case Inner => 0
  }

  function WindowWord(v: u64, start: nat, end: nat, w: nat): u64
    requires start < end
  {
    var sm, em := StartMask(start % 64), EndMask((end - 1) % 64);
    AndWord(v, sm);
    AndWord(And(v, sm), em);
    AndWord(v, em);
    match WhereIs(start, end, w)
    case Outside => 0
    case Only => And(And(v, sm), em)
    case FirstWord => And(v, sm)
    case LastWord => And(v, em)
    case Inner => v
  }

  // (uint64_t {1} << bit) - 1
  function BelowMask(bit: nat): u64
    requires bit < 64
  {
    Pow2Of64();
    Pow2Monotone(bit, 64);
    Shl(1, bit) - 1
  }

  ghost predicate InRange(start: nat, end: nat, w: nat, k: nat) {
    start <= 64 * w + k < end
  }

  lemma RangeMasks(start: nat, end: nat, w: nat, k: nat)
    requires start < end && k < 64
    ensures InRange(start, end, w, k) <==> match WhereIs(start, end, w)
      case Outside => false
      case Only => start % 64 <= k <= (end - 1) % 64
      case FirstWord => start % 64 <= k
      case LastWord => k <= (end - 1) % 64
      case Inner => true
  {
    Place(64 * w + k, start);
    Place(end - 1, 64 * w + k);
    assert (64 * w + k) / 64 == w && (64 * w + k) % 64 == k;
  }

  lemma SetWordBit(v: u64, start: nat, end: nat, w: nat, k: nat)
    requires start < end && k < 64
    ensures Bit(SetWord(v, start, end, w), k) == (InRange(start, end, w, k) || Bit(v, k))
  {
    hide Bit, Shl, Or, And, StartMask, EndMask, InRange;
    var sm, em := StartMask(start % 64), EndMask((end - 1) % 64);
    RangeMasks(start, end, w, k);
    StartMaskBit(start % 64, k);
    EndMaskBit((end - 1) % 64, k);
    AndBit(sm, em, k);
    OrBit(v, And(sm, em), k);
    OrBit(v, sm, k);
    OrBit(v, em, k);
    AllOnes(k);
  }

  lemma UnsetWordBit(v: u64, start: nat, end: nat, w: nat, k: nat)
    requires start < end && k < 64
    ensures Bit(UnsetWord(v, start, end, w), k) == (!InRange(start, end, w, k) && Bit(v, k))
  {
    hide Bit, Shl, Or, And, BelowMask, EndMask, Not, InRange;
    var below, above := BelowMask(start % 64), Not(EndMask((end - 1) % 64));
    RangeMasks(start, end, w, k);
    BelowMaskBit(start % 64, k);
    EndMaskBit((end - 1) % 64, k);
    NotBit(EndMask((end - 1) % 64), k);
    OrBit(below, above, k);
    AndBit(v, Or(below, above), k);
    AndBit(v, below, k);
    AndBit(v, above, k);
    ZeroBit(k);
  }

  lemma WindowWordBit(v: u64, start: nat, end: nat, w: nat, k: nat)
    requires start < end && k < 64
    ensures Bit(WindowWord(v, start, end, w), k) == (InRange(start, end, w, k) && Bit(v, k))
  {
    hide Bit, Shl, And, StartMask, EndMask, InRange;
    var sm, em := StartMask(start % 64), EndMask((end - 1) % 64);
    RangeMasks(start, end, w, k);
    StartMaskBit(start % 64, k);
    EndMaskBit((end - 1) % 64, k);
    AndBit(v, sm, k);
    AndBit(And(v, sm), em, k);
    AndBit(v, em, k);
    ZeroBit(k);
  }

  lemma BelowMaskBit(bit: nat, i: nat)
    requires bit < 64
    ensures Bit(BelowMask(bit), i) == (i < bit)
  {
    OnesBit(bit, i);
  }

  lemma AllOnes(k: nat)
    requires k < 64
    ensures Bit(ONES, k)
  {
    Pow2Of64();
    OnesBit(64, k);
  }

  // The words of a range update, seen as bits.
  lemma SetRangeBits(before: seq<u64>, after: seq<u64>, start: nat, end: nat)
    requires |before| == |after| && start < end
    requires forall w :: 0 <= w < |after| ==> after[w] == SetWord(before[w], start, end, w)
    ensures forall i :: 0 <= i < 64 * |after| ==> Has(after, i) == (start <= i < end || Has(before, i))
  {
    hide SetWord, Bit;
    forall i | 0 <= i < 64 * |after|
      ensures Has(after, i) == (start <= i < end || Has(before, i))
    {
      SetWordBit(before[i / 64], start, end, i / 64, i % 64);
    }
  }

  lemma UnsetRangeBits(before: seq<u64>, after: seq<u64>, start: nat, end: nat)
    requires |before| == |after| && start < end
    requires forall w :: 0 <= w < |after| ==> after[w] == UnsetWord(before[w], start, end, w)
    ensures forall i :: 0 <= i < 64 * |after| ==> Has(after, i) == (!(start <= i < end) && Has(before, i))
  {
    hide UnsetWord, Bit;
    forall i | 0 <= i < 64 * |after|
      ensures Has(after, i) == (!(start <= i < end) && Has(before, i))
    {
      UnsetWordBit(before[i / 64], start, end, i / 64, i % 64);
    }
  }

  lemma WindowBits(before: seq<u64>, after: seq<u64>, start: nat, end: nat)
    requires |before| == |after| && start < end
    requires forall w :: 0 <= w < |after| ==> after[w] == WindowWord(before[w], start, end, w)
    ensures forall i :: 0 <= i < 64 * |after| ==> Has(after, i) == (start <= i < end && Has(before, i))
  {
    hide WindowWord, Bit;
    forall i | 0 <= i < 64 * |after|
      ensures Has(after, i) == (start <= i < end && Has(before, i))
    {
      WindowWordBit(before[i / 64], start, end, i / 64, i % 64);
    }
  }

  class BitArray {
    const data: array<u64>

    // N / 64 words, all zero
    constructor (wordCount: nat)
      requires wordCount > 0
      ensures data.Length == wordCount && fresh(data) && NoneIn(data[..], 0, 64 * wordCount)
    {
      data := new u64[wordCount](_ => 0);
      new;
      forall i | 0 <= i < 64 * wordCount
        ensures !Has(data[..], i)
      {
        ZeroBit(i % 64);
      }
    }

    method Get(index: nat) returns (b: bool)
      requires index < 64 * data.Length
      ensures b == Has(data[..], index)
    {
      TestBit(data[index / 64], index % 64);
      b := And(data[index / 64], Shl(1, index % 64)) != 0;
    }

    method Set(index: nat)
      requires index < 64 * data.Length
      modifies data
      ensures forall i :: 0 <= i < 64 * data.Length ==> Has(data[..], i) == (i == index || Has(old(data[..]), i))
    {
      var w, k := index / 64, index % 64;
      PowerWord(k);
      OrWord(data[w], Shl(1, k));
      data[w] := Or(data[w], Shl(1, k));
      forall i | 0 <= i < 64 * data.Length
        ensures Has(data[..], i) == (i == index || Has(old(data[..]), i))
      {
        PowerBit(k, i % 64);
        OrBit(old(data[w]), Shl(1, k), i % 64);
      }
    }

    method Unset(index: nat)
      requires index < 64 * data.Length
      modifies data
      ensures forall i :: 0 <= i < 64 * data.Length ==> Has(data[..], i) == (i != index && Has(old(data[..]), i))
    {
      var w, k := index / 64, index % 64;
      PowerWord(k);
      AndWord(data[w], Not(Shl(1, k)));
      data[w] := And(data[w], Not(Shl(1, k)));
      forall i | 0 <= i < 64 * data.Length
        ensures Has(data[..], i) == (i != index && Has(old(data[..]), i))
      {
        PowerBit(k, i % 64);
        NotBit(Shl(1, k), i % 64);
        AndBit(old(data[w]), Not(Shl(1, k)), i % 64);
      }
    }

    static lemma PowerWord(k: nat)
      requires k < 64
      ensures Shl(1, k) < 0x1_0000_0000_0000_0000
    {
      Pow2Of64();
      ShlMonotone(1, 2, k);
      ShlInner(1, k);
      Pow2Monotone(k + 1, 64);
    }

    // Sets exactly the bits from start up to end; an empty range, or one beyond the array, does nothing.
    method SetRange(start: nat, end: nat)
      modifies data
      ensures forall i :: 0 <= i < 64 * data.Length ==> (
        Has(data[..], i) == ((end <= 64 * data.Length && start <= i < end) || Has(old(data[..]), i)))
    {
      if start >= end || end > 64 * data.Length {
        return;
      }
      hide SetWord, StartMask, EndMask, Has, Or, And;
      ghost var before := data[..];
      var first, last := start / 64, (end - 1) / 64;
      var sm, em := StartMask(start % 64), EndMask((end - 1) % 64);
      SetWords(before, start, end);
      if first == last {
        AndWord(sm, em);
        OrWord(data[first], And(sm, em));
        data[first] := Or(data[first], And(sm, em));
      } else {
        OrWord(data[first], sm);
        data[first] := Or(data[first], sm);
        for w := first + 1 to last
          invariant forall v :: 0 <= v < data.Length ==>
            data[v] == if first < v < w then ONES else if v == first then Or(before[v], sm) else before[v]
        {
          data[w] := ONES;
        }
        OrWord(data[last], em);
        data[last] := Or(data[last], em);
      }
      SetRangeBits(before, data[..], start, end);
    }

    static lemma SetWords(before: seq<u64>, start: nat, end: nat)
      requires start < end <= 64 * |before|
      ensures start / 64 <= (end - 1) / 64 < |before|
      ensures var sm, em := StartMask(start % 64), EndMask((end - 1) % 64);
        forall w :: 0 <= w < |before| ==> (
          SetWord(before[w], start, end, w) == (
          if w < start / 64 || w > (end - 1) / 64 then before[w]
          else if start / 64 == (end - 1) / 64 then Or(before[w], And(sm, em))
          else if w == start / 64 then Or(before[w], sm)
          else if w == (end - 1) / 64 then Or(before[w], em)
          else ONES))
    {
      hide StartMask, EndMask, Or, And;
    }

    // Clears exactly the bits from start up to end.
    method UnsetRange(start: nat, end: nat)
      modifies data
      ensures forall i :: 0 <= i < 64 * data.Length ==> (
        Has(data[..], i) == (!(end <= 64 * data.Length && start <= i < end) && Has(old(data[..]), i)))
    {
      if start >= end || end > 64 * data.Length {
        return;
      }
      hide UnsetWord, BelowMask, EndMask, Not, Has, Or, And;
      ghost var before := data[..];
      var first, last := start / 64, (end - 1) / 64;
      var below, above := BelowMask(start % 64), Not(EndMask((end - 1) % 64));
      UnsetWords(before, start, end);
      if first == last {
        OrWord(below, above);
        AndWord(data[first], Or(below, above));
        data[first] := And(data[first], Or(below, above));
      } else {
        AndWord(data[first], below);
        data[first] := And(data[first], below);
        for w := first + 1 to last
          invariant forall v :: 0 <= v < data.Length ==>
            data[v] == if first < v < w then 0 else if v == first then And(before[v], below) else before[v]
        {
          data[w] := 0;
        }
        AndWord(data[last], above);
        data[last] := And(data[last], above);
      }
      UnsetRangeBits(before, data[..], start, end);
    }

    static lemma UnsetWords(before: seq<u64>, start: nat, end: nat)
      requires start < end <= 64 * |before|
      ensures start / 64 <= (end - 1) / 64 < |before|
      ensures var below, above := BelowMask(start % 64), Not(EndMask((end - 1) % 64));
        forall w :: 0 <= w < |before| ==> (
          UnsetWord(before[w], start, end, w) == (
          if w < start / 64 || w > (end - 1) / 64 then before[w]
          else if start / 64 == (end - 1) / 64 then And(before[w], Or(below, above))
          else if w == start / 64 then And(before[w], below)
          else if w == (end - 1) / 64 then And(before[w], above)
          else 0))
    {
      hide BelowMask, EndMask, Not, Or, And;
    }

    // A copy of the bits of `other` from start up to end, with every other bit clear.
    constructor Window(other: BitArray, start: nat, end: nat)
      requires other.data.Length > 0
      ensures data.Length == other.data.Length && fresh(data)
      ensures forall i :: 0 <= i < 64 * data.Length ==> (
        Has(data[..], i) == (end <= 64 * data.Length && start <= i < end && Has(other.data[..], i)))
    {
      data := new u64[other.data.Length](_ => 0);
      new;
      if start >= end || end > 64 * data.Length {
        NoBits(data[..]);
        return;
      }
      hide WindowWord, StartMask, EndMask, Has, And;
      ghost var before := other.data[..];
      var first, last := start / 64, (end - 1) / 64;
      var sm, em := StartMask(start % 64), EndMask((end - 1) % 64);
      WindowWords(before, start, end);
      if first == last {
        AndWord(other.data[first], sm);
        AndWord(And(other.data[first], sm), em);
        data[first] := And(And(other.data[first], sm), em);
      } else {
        AndWord(other.data[first], sm);
        data[first] := And(other.data[first], sm);
        CopyWords(other, first + 1, last);
        AndWord(other.data[last], em);
        data[last] := And(other.data[last], em);
      }
      WindowBits(before, data[..], start, end);
    }

    // The loop over the inner words of a window.
    method CopyWords(other: BitArray, from: nat, to: nat)
      requires from <= to <= data.Length == other.data.Length && other.data != data
      modifies data
      ensures forall v :: 0 <= v < data.Length ==> data[v] == if from <= v < to then other.data[v] else old(data[v])
    {
      for w := from to to
        invariant forall v :: 0 <= v < data.Length ==> data[v] == if from <= v < w then other.data[v] else old(data[v])
      {
        data[w] := other.data[w];
      }
    }

    static lemma NoBits(words: seq<u64>)
      requires forall w :: 0 <= w < |words| ==> words[w] == 0
      ensures forall i :: 0 <= i < 64 * |words| ==> !Has(words, i)
    {
      forall i | 0 <= i < 64 * |words|
        ensures !Has(words, i)
      {
        ZeroBit(i % 64);
      }
    }

    static lemma WindowWords(before: seq<u64>, start: nat, end: nat)
      requires start < end <= 64 * |before|
      ensures start / 64 <= (end - 1) / 64 < |before|
      ensures var sm, em := StartMask(start % 64), EndMask((end - 1) % 64);
        forall w :: 0 <= w < |before| ==> (
          WindowWord(before[w], start, end, w) == (
          if w < start / 64 || w > (end - 1) / 64 then 0
          else if start / 64 == (end - 1) / 64 then And(And(before[w], sm), em)
          else if w == start / 64 then And(before[w], sm)
          else if w == (end - 1) / 64 then And(before[w], em)
          else before[w]))
    {
      hide StartMask, EndMask, And;
    }

    /* ---- Scans ---- */

    // The nearest run at or after `start`.
    method FirstRangeFrom(start: nat) returns (r: Range)
      ensures FirstRun(data[..], start, r)
    {
      hide Has, Bit, StartMask, And, Shr, TrailingZeros, TrailingOnes, FromStart;
      var n := 64 * data.Length;
      ghost var words := data[..];
      if start >= n {
        return Range(n, n);
      }
      var w := start / 64;
      AndWord(data[w], StartMask(start % 64));
      var word: u64 := And(data[w], StartMask(start % 64));
      MaskedStart(words, start);
      while word == 0
        invariant w < data.Length && FromStart(words, start, w, word)
        decreases data.Length - w
      {
        NothingHere(words, start, w);
        w := w + 1;
        if w == data.Length {
          return Range(n, n);
        }
        word := data[w];
      }
      FirstBit(words, start, w, word);
      var bit := TrailingZeros(word);
      var first := w * 64 + bit;
      ShrWord(data[w], bit);
      var ones := TrailingOnes(Shr(data[w], bit));
      RunInWord(words, w, bit);
      if bit + ones < 64 {
        return Range(first, first + ones);
      }
      r := RunOn(first, w + 1);
    }

    // The loop that carries a run over the words after it.
    method RunOn(first: nat, from: nat) returns (r: Range)
      requires from <= data.Length && first < 64 * from && AllIn(data[..], first, 64 * from)
      ensures r.first == first < r.last <= 64 * data.Length && AllIn(data[..], first, r.last)
      ensures r.last < 64 * data.Length ==> !Has(data[..], r.last)
    {
      hide Has, Bit, TrailingOnes;
      for w := from to data.Length
        invariant AllIn(data[..], first, 64 * w)
      {
        var word := data[w];
        RunFromBottom(data[..], w);
        if word != ONES {
          return Range(first, w * 64 + TrailingOnes(word));
        }
      }
      return Range(first, 64 * data.Length);
    }

    // The nearest run before `bound`.
    method LastRangeFrom(bound: nat) returns (r: Range)
      requires data.Length > 0
      ensures LastRun(data[..], bound, r)
    {
      hide Has, Bit, EndMask, And, Shl, Low, LeadingZeros, LeadingOnes, NoneIn, AllIn, ToEnd;
      if bound == 0 {
        NothingInEmpty(data[..]);
        return Range(0, 0);
      }
      var end := if bound > 64 * data.Length then 64 * data.Length else bound;
      ghost var words := data[..];
      var w := (end - 1) / 64;
      AndWord(data[w], EndMask((end - 1) % 64));
      var word: u64 := And(data[w], EndMask((end - 1) % 64));
      MaskedEnd(words, end);
      while word == 0
        invariant w < data.Length && ToEnd(words, end, w, word)
        decreases w
      {
        NothingBelow(words, end, w);
        if w == 0 {
          return Range(0, 0);
        }
        w := w - 1;
        word := data[w];
      }
      LastBit(words, end, w, word);
      var empty := LeadingZeros(word, 64);
      WordBound(Shl(word, empty));
      var ones := LeadingOnes(Low(Shl(word, empty), 64), 64);
      var last := (w + 1) * 64 - empty;
      RunInWordDown(words, end, w, word);
      if empty + ones < 64 {
        return Range(last - ones, last);
      }
      r := RunBack(last, w);
    }

    // The loop that carries a run over the words before it.
    method RunBack(last: nat, to: nat) returns (r: Range)
      requires to < data.Length && 64 * to < last <= 64 * data.Length && AllIn(data[..], 64 * to, last)
      ensures r.first < r.last == last && AllIn(data[..], r.first, last)
      ensures r.first > 0 ==> !Has(data[..], r.first - 1)
    {
      hide Has, Bit, LeadingOnes;
      var w := to;
      while w != 0
        invariant 0 <= w <= to && AllIn(data[..], 64 * w, last)
        decreases w
      {
        w := w - 1;
        var word := data[w];
        RunFromTop(data[..], w);
        if word != ONES {
          return Range((w + 1) * 64 - LeadingOnes(word, 64), last);
        }
      }
      return Range(0, last);
    }
  }

  /* ---- Iteration over the runs ---- */

  // The maximal runs below `upTo`, in order, and every set bit below it in one of them.
  ghost predicate RunsBelow(words: seq<u64>, runs: seq<Range>, upTo: nat) {
    && upTo <= 64 * |words|
    && (forall j :: 0 <= j < |runs| ==> MaximalRun(words, runs[j]) && runs[j].last <= upTo)
    && (forall j, k :: 0 <= j < k < |runs| ==> runs[j].last < runs[k].first)
    && (forall i :: 0 <= i < upTo && Has(words, i) ==> exists j :: 0 <= j < |runs| && runs[j].first <= i < runs[j].last)
  }

  ghost predicate MaximalRun(words: seq<u64>, r: Range) {
    && r.first < r.last <= 64 * |words| && AllIn(words, r.first, r.last)
    && (r.first > 0 ==> !Has(words, r.first - 1))
    && (r.last < 64 * |words| ==> !Has(words, r.last))
  }

  // Where the run after `runs` is looked for.
  function After(runs: seq<Range>): nat {
    if runs == [] then 0 else runs[|runs| - 1].last
  }

  lemma NextRun(words: seq<u64>, runs: seq<Range>, r: Range)
    requires RunsBelow(words, runs, After(runs)) && FirstRun(words, After(runs), r)
    ensures r.first < 64 * |words| ==> RunsBelow(words, runs + [r], r.last)
    ensures r.first == 64 * |words| ==> RunsBelow(words, runs, 64 * |words|)
  {
    hide Has;
    var at, next := After(runs), runs + [r];
    if r.first < 64 * |words| {
      NextIsMaximal(words, runs, r);
      forall i | 0 <= i < r.last && Has(words, i)
        ensures exists j :: 0 <= j < |next| && next[j].first <= i < next[j].last
      {
        if i < at {
          var j :| 0 <= j < |runs| && runs[j].first <= i < runs[j].last;
          assert next[j] == runs[j];
        } else {
          assert next[|runs|] == r;
        }
      }
    }
  }

  lemma NextIsMaximal(words: seq<u64>, runs: seq<Range>, r: Range)
    requires RunsBelow(words, runs, After(runs)) && FirstRun(words, After(runs), r) && r.first < 64 * |words|
    ensures MaximalRun(words, r) && (runs != [] ==> After(runs) < r.first)
  {
    hide Has;
    if runs != [] {
      assert MaximalRun(words, runs[|runs| - 1]);
    }
  }

  // There is only one such list of runs.
  lemma FirstRunUnique(words: seq<u64>, start: nat, r: Range, s: Range)
    requires FirstRun(words, start, r) && FirstRun(words, start, s)
    ensures r == s
  {
    hide Has;
    assert r.first < 64 * |words| ==> Has(words, r.first);
    assert s.first < 64 * |words| ==> Has(words, s.first);
  }

  lemma {:induction false} RunsAreFirstRuns(words: seq<u64>, runs: seq<Range>, k: nat)
    requires RunsBelow(words, runs, 64 * |words|) && k < |runs|
    ensures FirstRun(words, After(runs[..k]), runs[k])
  {
    hide Has;
    var at := After(runs[..k]);
    assert MaximalRun(words, runs[k]);
    assert forall j :: 0 <= j < k ==> runs[j].last <= at;
    forall i | at <= i < runs[k].first
      ensures !Has(words, i)
    {
      forall j | 0 <= j < |runs|
        ensures !(runs[j].first <= i < runs[j].last)
      {
        assert j > k ==> runs[k].last < runs[j].first;
      }
    }
  }

  lemma {:induction false} RunsUnique(words: seq<u64>, runs: seq<Range>, others: seq<Range>, k: nat)
    requires RunsBelow(words, runs, 64 * |words|) && RunsBelow(words, others, 64 * |words|)
    requires k <= |runs| && k <= |others| && runs[..k] == others[..k]
    ensures runs == others
    decreases |runs| - k
  {
    hide Has, FirstRun;
    if k < |runs| && k < |others| {
      RunsAreFirstRuns(words, runs, k);
      RunsAreFirstRuns(words, others, k);
      FirstRunUnique(words, After(runs[..k]), runs[k], others[k]);
      assert runs[..k + 1] == runs[..k] + [runs[k]];
      assert others[..k + 1] == others[..k] + [others[k]];
      RunsUnique(words, runs, others, k + 1);
    } else if k == |runs| {
      NoMoreRuns(words, runs, others, k);
    } else {
      NoMoreRuns(words, others, runs, k);
    }
  }

  lemma StartsApart(words: seq<u64>, runs: seq<Range>, k: nat)
    requires RunsBelow(words, runs, 64 * |words|) && k < |runs|
    ensures runs[k].first < 64 * |words| && Has(words, runs[k].first)
    ensures forall j :: 0 <= j < k ==> runs[j].last < runs[k].first
  {
    hide Has;
    assert MaximalRun(words, runs[k]);
  }

  // A list that covers every set bit cannot be a proper prefix of another.
  lemma NoMoreRuns(words: seq<u64>, runs: seq<Range>, others: seq<Range>, k: nat)
    requires RunsBelow(words, runs, 64 * |words|) && RunsBelow(words, others, 64 * |words|)
    requires k == |runs| && k <= |others| && runs == others[..k]
    ensures |others| == k
  {
    hide Has;
    if k < |others| {
      StartsApart(words, others, k);
      assert false;
    }
  }

  class Iterator {
    const bits: BitArray
    var range: Range

    constructor (bits: BitArray, start: nat)
      ensures this.bits == bits && FirstRun(bits.data[..], start, range)
    {
      this.bits := bits;
      new;
      range := bits.FirstRangeFrom(start);
    }

    // operator++
    method Advance()
      modifies this
      ensures FirstRun(bits.data[..], old(range).last, range)
    {
      range := bits.FirstRangeFrom(range.last);
    }
  }

  // for (range : bits)
  method Ranges(bits: BitArray) returns (runs: seq<Range>)
    requires bits.data.Length > 0
    ensures RunsBelow(bits.data[..], runs, 64 * bits.data.Length)
  {
    hide Has, AllIn, NoneIn, RunsBelow;
    var words := bits.data[..];
    var it := new Iterator(bits, 0);
    var end := new Iterator(bits, 64 * bits.data.Length);
    runs := [];
    NoRunsYet(words);
    while it.range != end.range
      invariant RunsBelow(words, runs, After(runs)) && FirstRun(words, After(runs), it.range)
      invariant bits.data[..] == words && it.bits == bits && it != end
      invariant end.range == Range(64 * |words|, 64 * |words|)
      decreases 64 * bits.data.Length - it.range.first
    {
      NextRun(words, runs, it.range);
      runs := runs + [it.range];
      it.Advance();
    }
    NextRun(words, runs, it.range);
  }

  lemma NoRunsYet(words: seq<u64>)
    ensures RunsBelow(words, [], 0)
  {
  }

  /* ---- The steps of the scans ---- */

  // Nothing is set from start up to word w, and `word` is word w without the bits before start.
  ghost predicate FromStart(words: seq<u64>, start: nat, w: nat, word: u64) {
    && w < |words| && start < 64 * (w + 1)
    && NoneIn(words, start, 64 * w)
    && forall k: nat :: k < 64 ==> Bit(word, k) == (start <= 64 * w + k && Bit(words[w], k))
  }

  lemma MaskedStart(words: seq<u64>, start: nat)
    requires start < 64 * |words|
    ensures And(words[start / 64], StartMask(start % 64)) < 0x1_0000_0000_0000_0000
    ensures FromStart(words, start, start / 64, And(words[start / 64], StartMask(start % 64)))
  {
    hide Bit, And, StartMask;
    var w := start / 64;
    AndWord(words[w], StartMask(start % 64));
    forall k: nat | k < 64
      ensures Bit(And(words[w], StartMask(start % 64)), k) == (start <= 64 * w + k && Bit(words[w], k))
    {
      AndBit(words[w], StartMask(start % 64), k);
      StartMaskBit(start % 64, k);
    }
  }

  lemma NothingHere(words: seq<u64>, start: nat, w: nat)
    requires FromStart(words, start, w, 0)
    ensures NoneIn(words, start, 64 * (w + 1))
    ensures w + 1 < |words| ==> FromStart(words, start, w + 1, words[w + 1])
  {
    hide Bit;
    forall i | start <= i < 64 * (w + 1)
      ensures !Has(words, i)
    {
      if i >= 64 * w {
        ZeroBit(i % 64);
        assert i / 64 == w && i == 64 * w + i % 64;
        assert Bit(0, i % 64) == (start <= 64 * w + i % 64 && Bit(words[w], i % 64));
      }
    }
  }

  // No bit of a word is at 64 or above.
  lemma NoHighBit(v: u64, k: nat)
    requires k >= 64
    ensures !Bit(v, k)
  {
    Pow2Of64();
    ShrLess(v, 1, 64);
    ShrBit(v, 64, k - 64);
    ZeroBit(k - 64);
  }

  lemma FirstBit(words: seq<u64>, start: nat, w: nat, word: u64)
    requires FromStart(words, start, w, word) && word != 0
    ensures var bit := TrailingZeros(word);
      bit < 64 && start <= 64 * w + bit && NoneIn(words, start, 64 * w + bit) && Bit(words[w], bit)
  {
    hide Bit, TrailingZeros;
    var bit := TrailingZeros(word);
    TrailingZerosBits(word);
    if bit >= 64 {
      NoHighBit(word, bit);
    }
    forall i | start <= i < 64 * w + bit
      ensures !Has(words, i)
    {
      if i >= 64 * w {
        assert i / 64 == w && i == 64 * w + i % 64;
        assert Bit(word, i % 64) == (start <= 64 * w + i % 64 && Bit(words[w], i % 64));
      }
    }
  }

  lemma ShrWord(v: nat, n: nat)
    ensures Shr(v, n) <= v
    decreases n
  {
  }

  // The ones from a set bit upward inside word w.
  lemma RunInWord(words: seq<u64>, w: nat, bit: nat)
    requires w < |words| && bit < 64 && Bit(words[w], bit)
    ensures var ones := TrailingOnes(Shr(words[w], bit));
      && 0 < ones && bit + ones <= 64
      && AllIn(words, 64 * w + bit, 64 * w + bit + ones)
      && (bit + ones < 64 ==> !Has(words, 64 * w + bit + ones))
  {
    hide Bit, TrailingOnes, Shr;
    var ones := TrailingOnes(Shr(words[w], bit));
    TrailingOnesBits(Shr(words[w], bit));
    forall i: nat
      ensures Bit(Shr(words[w], bit), i) == Bit(words[w], bit + i)
    {
      ShrBit(words[w], bit, i);
    }
    assert Bit(Shr(words[w], bit), 0) == Bit(words[w], bit + 0);
    NoHighBit(words[w], bit + (64 - bit));
    assert !Bit(Shr(words[w], bit), 64 - bit);
    forall k: nat | bit <= k < bit + ones
      ensures Bit(words[w], k)
    {
      assert Bit(Shr(words[w], bit), k - bit) == Bit(words[w], bit + (k - bit));
    }
    WordRun(words, w, bit, bit + ones, true);
    if bit + ones < 64 {
      WordBit(words, w, bit + ones);
    }
  }

  lemma RunFromBottom(words: seq<u64>, w: nat)
    requires w < |words|
    ensures words[w] == ONES ==> AllIn(words, 64 * w, 64 * (w + 1))
    ensures words[w] != ONES ==> var ones := TrailingOnes(words[w]);
      ones < 64 && AllIn(words, 64 * w, 64 * w + ones) && !Has(words, 64 * w + ones)
  {
    hide Bit, TrailingOnes;
    OnesWord(words[w]);
    TrailingOnesBits(words[w]);
    var ones := TrailingOnes(words[w]);
    if words[w] == ONES {
      WordRun(words, w, 0, 64, true);
    } else {
      WordRun(words, w, 0, ones, true);
      WordBit(words, w, ones);
    }
  }

  // Nothing is set from the end of word w up to `end`, and `word` is word w without the bits from end on.
  ghost predicate ToEnd(words: seq<u64>, end: nat, w: nat, word: u64) {
    && w < |words| && 64 * w < end <= 64 * |words|
    && (64 * (w + 1) <= end ==> NoneIn(words, 64 * (w + 1), end))
    && forall k: nat :: k < 64 ==> Bit(word, k) == (64 * w + k < end && Bit(words[w], k))
  }

  lemma MaskedEnd(words: seq<u64>, end: nat)
    requires 0 < end <= 64 * |words|
    ensures And(words[(end - 1) / 64], EndMask((end - 1) % 64)) < 0x1_0000_0000_0000_0000
    ensures ToEnd(words, end, (end - 1) / 64, And(words[(end - 1) / 64], EndMask((end - 1) % 64)))
  {
    hide Bit, And, EndMask;
    var w := (end - 1) / 64;
    AndWord(words[w], EndMask((end - 1) % 64));
    forall k: nat | k < 64
      ensures Bit(And(words[w], EndMask((end - 1) % 64)), k) == (64 * w + k < end && Bit(words[w], k))
    {
      AndBit(words[w], EndMask((end - 1) % 64), k);
      EndMaskBit((end - 1) % 64, k);
    }
  }

  lemma NothingInEmpty(words: seq<u64>)
    ensures NoneIn(words, 0, 0)
  {
  }

  lemma NothingBelow(words: seq<u64>, end: nat, w: nat)
    requires ToEnd(words, end, w, 0)
    ensures NoneIn(words, 64 * w, end)
    ensures w > 0 ==> ToEnd(words, end, w - 1, words[w - 1])
  {
    hide Bit;
    forall i | 64 * w <= i < end
      ensures !Has(words, i)
    {
      if i < 64 * (w + 1) {
        ZeroBit(i % 64);
        assert i / 64 == w && i == 64 * w + i % 64;
        assert Bit(0, i % 64) == (64 * w + i % 64 < end && Bit(words[w], i % 64));
      }
    }
  }

  lemma LastBit(words: seq<u64>, end: nat, w: nat, word: u64)
    requires ToEnd(words, end, w, word) && word != 0
    ensures var last := 64 * (w + 1) - LeadingZeros(word, 64);
      LeadingZeros(word, 64) < 64 && last <= end && NoneIn(words, last, end)
  {
    hide Bit, LeadingZeros;
    var empty := LeadingZeros(word, 64);
    LeadingZerosBits(word, 64);
    if empty == 64 {
      ZeroWord(word);
    }
    assert Bit(word, 63 - empty) == (64 * w + (63 - empty) < end && Bit(words[w], 63 - empty));
    forall i | 64 * (w + 1) - empty <= i < end
      ensures !Has(words, i)
    {
      if i < 64 * (w + 1) {
        assert i / 64 == w && i == 64 * w + i % 64;
        assert Bit(word, i % 64) == (64 * w + i % 64 < end && Bit(words[w], i % 64));
      }
    }
  }

  // The ones downward from the highest set bit of `word` inside word w.
  lemma RunInWordDown(words: seq<u64>, end: nat, w: nat, word: u64)
    requires ToEnd(words, end, w, word) && word != 0
    requires LeadingZeros(word, 64) < 64
    ensures var empty := LeadingZeros(word, 64);
      var ones := LeadingOnes(Low(Shl(word, empty), 64), 64);
      var last := 64 * (w + 1) - empty;
      && 0 < ones && empty + ones <= 64
      && AllIn(words, last - ones, last)
      && (empty + ones < 64 ==> !Has(words, last - ones - 1))
  {
    hide Bit, LeadingZeros, LeadingOnes, Shl, Low;
    var empty := LeadingZeros(word, 64);
    var shifted := Low(Shl(word, empty), 64);
    var ones := LeadingOnes(shifted, 64);
    LeadingZerosBits(word, 64);
    LeadingOnesBits(shifted, 64);
    forall i: nat | i < 64
      ensures Bit(shifted, i) == (i >= empty && Bit(word, i - empty))
    {
      LowBit(Shl(word, empty), 64, i);
      ShlBit(word, empty, i);
    }
    assert Bit(shifted, 63);
    if empty > 0 {
      assert !Bit(shifted, empty - 1);
    }
    forall k: nat | 64 - empty - ones <= k < 64 - empty
      ensures Bit(words[w], k)
    {
      assert Bit(shifted, k + empty) == Bit(word, k + empty - empty);
    }
    WordRun(words, w, 64 - empty - ones, 64 - empty, true);
    if empty + ones < 64 {
      var k := 63 - empty - ones;
      assert Bit(shifted, k + empty) == Bit(word, k + empty - empty);
      assert Bit(word, 63 - empty);
      WordBit(words, w, k);
    }
  }

  lemma RunFromTop(words: seq<u64>, w: nat)
    requires w < |words|
    ensures words[w] == ONES ==> AllIn(words, 64 * w, 64 * (w + 1))
    ensures words[w] != ONES ==> var ones := LeadingOnes(words[w], 64);
      ones < 64 && AllIn(words, 64 * (w + 1) - ones, 64 * (w + 1)) && !Has(words, 64 * (w + 1) - ones - 1)
  {
    hide Bit, LeadingOnes;
    OnesWord(words[w]);
    LeadingOnesBits(words[w], 64);
    var ones := LeadingOnes(words[w], 64);
    if words[w] == ONES {
      WordRun(words, w, 0, 64, true);
    } else {
      WordRun(words, w, 64 - ones, 64, true);
      WordBit(words, w, 63 - ones);
    }
  }
}
