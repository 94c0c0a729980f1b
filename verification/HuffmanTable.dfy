/** stbi__zhuffman: the tables of the two-level Huffman decoder, and stbi__zbuild_huffman. */
module HuffmanTable {
  import opened Bits
  import opened Canonical
  import opened Options

  const FAST_BITS := 9
  const FAST_SIZE := 512
  const NSYMS := 288

  /* ---- What the tables mean ---- */

  // Symbol i has a short code, and j starts with it (least significant bit first).
  ghost predicate FastHit(lens: seq<nat>, i: nat, j: nat) {
    HasCode(lens, i) && lens[i] <= FAST_BITS && Low(j, lens[i]) == Reverse(Code(lens, i), lens[i])
  }

  // The fast table after the first n symbols: a slot holds the length and the symbol of the one
  // short code it starts with, or zero.
  ghost predicate FastTable(lens: seq<nat>, fast: seq<u16>, n: nat) {
    && |fast| == FAST_SIZE
    && (forall i: nat, j: nat :: i < n && j < FAST_SIZE && FastHit(lens, i, j) ==> fast[j] == lens[i] * 512 + i)
    && (forall j: nat :: j < FAST_SIZE && fast[j] != 0 ==> exists i: nat :: i < n && FastHit(lens, i, j))
  }

  // The first n symbols stand at their place in code order.
  ghost predicate SymbolTable(lens: seq<nat>, size: seq<u8>, value: seq<u16>, n: nat) {
    && |size| == |value| == NSYMS
    && (forall i: nat :: i < n && HasCode(lens, i) ==>
      var c := Position(lens, i);
      c < NSYMS && size[c] == lens[i] && value[c] == i)
  }

  /* ---- Short codes as prefixes of the stream ---- */

  lemma CodeFits(lens: seq<nat>, i: nat)
    requires ValidLens(lens) && Fits(lens) && HasCode(lens, i)
    ensures Code(lens, i) < Shl(1, lens[i])
  {
    CodeBelowEnd(lens, i);
  }

  // A slot is hit exactly by the symbols whose code the buffered bits start with.
  lemma HitIsMatch(lens: seq<nat>, input: seq<u8>, p: nat, i: nat)
    requires ValidLens(lens) && Fits(lens) && HasCode(lens, i) && lens[i] <= FAST_BITS
    ensures FastHit(lens, i, Field(input, p, FAST_BITS)) <==> Matches(lens, input, p, i)
  {
    var s := lens[i];
    var f := Field(input, p, s);
    FieldSplit(input, p, s, FAST_BITS - s);
    ReverseField(input, p, s);
    FieldBound(input, p, s);
    ReverseInvolution(f, s);
    CodeFits(lens, i);
    ReverseInvolution(Code(lens, i), s);
  }

  lemma HitUnique(lens: seq<nat>, i: nat, k: nat, j: nat)
    requires ValidLens(lens) && Fits(lens) && j < FAST_SIZE
    requires FastHit(lens, i, j) && FastHit(lens, k, j)
    ensures i == k
  {
    var input: seq<u8> := [j % 256, j / 256];
    SlotAsStream(input, j);
    HitIsMatch(lens, input, 0, i);
    HitIsMatch(lens, input, 0, k);
    MatchUnique(lens, input, 0, i, k);
  }

  // A slot number is what the decoder would see of a two-byte stream.
  lemma SlotAsStream(input: seq<u8>, j: nat)
    requires j < FAST_SIZE && input == [j % 256, j / 256]
    ensures Field(input, 0, FAST_BITS) == j
  {
    hide Field, Shl;
    FieldSplit(input, 0, 8, 1);
    FieldOfByte(input, 0);
    NinthBit(input);
    ShlBy8(j / 256);
  }

  lemma NinthBit(input: seq<u8>)
    requires |input| == 2 && input[1] < 2
    ensures Field(input, 8, 1) == input[1]
  {
    assert Field(input, 8, 1) == BitAt(input, 8) + 2 * Field(input, 9, 0);
    assert BitAt(input, 8) == Shr(ByteAt(input, 1), 0) % 2;
  }

  // The slots with given low bits: the first one, and the next.
  lemma FirstSlot(j: nat, s: nat)
    requires j < Shl(1, s)
    ensures Low(j, s) == j && forall i: nat :: i < j ==> Low(i, s) != j
  {
    hide Shl, Low;
    LowBound(j, s);
    forall i: nat | i < j
      ensures Low(i, s) != j
    {
      LowBound(i, s);
    }
  }

  lemma NextSlot(j: nat, s: nat)
    ensures Shl(1, s) > 0 && Low(j + Shl(1, s), s) == Low(j, s)
    ensures forall i: nat :: j < i < j + Shl(1, s) ==> Low(i, s) != Low(j, s)
  {
    hide Shl, Low;
    Pow2Monotone(s, s);
    LowAddPow2(j, s);
    forall i: nat | j < i < j + Shl(1, s)
      ensures Low(i, s) != Low(j, s)
    {
      if Low(i, s) == Low(j, s) {
        LowApart(j, i, s);
      }
    }
  }

  // If no short code matches, the first nine bits lie beyond every short code.
  lemma NoShortMatch(lens: seq<nat>, input: seq<u8>, p: nat)
    requires ValidLens(lens) && Fits(lens)
    requires forall i: nat :: HasCode(lens, i) && lens[i] <= FAST_BITS ==> !Matches(lens, input, p, i)
    ensures CodeBits(input, p, FAST_BITS) >= End(lens, FAST_BITS)
  {
    if CodeBits(input, p, FAST_BITS) < End(lens, FAST_BITS) {
      var i := Covered(lens, FAST_BITS, CodeBits(input, p, FAST_BITS));
      CodeBitsShr(input, p, lens[i], FAST_BITS - lens[i]);
      assert Matches(lens, input, p, i);
    }
  }

  // Beyond the last code of length l there is no match of length l or less.
  lemma NoMatchBeyond(lens: seq<nat>, input: seq<u8>, p: nat, l: nat, i: nat)
    requires ValidLens(lens) && Matches(lens, input, p, i) && lens[i] <= l
    ensures CodeBits(input, p, l) < End(lens, l)
  {
    CodeBelowEnd(lens, i);
    CodeBitsShr(input, p, lens[i], l - lens[i]);
    ShrLess(CodeBits(input, p, l), End(lens, lens[i]), l - lens[i]);
    EndShift(lens, lens[i], l);
  }

  // A value between the bounds of length l is the code of a symbol, found by its rank.
  lemma SymbolOfRank(lens: seq<nat>, input: seq<u8>, p: nat, l: nat) returns (i: nat)
    requires ValidLens(lens) && 1 <= l <= MAX_BITS
    requires First(lens, l) <= CodeBits(input, p, l) < End(lens, l)
    ensures Matches(lens, input, p, i) && lens[i] == l
    ensures Position(lens, i) == FirstSymbol(lens, l) + CodeBits(input, p, l) - First(lens, l)
  {
    i := Select(lens, l, CodeBits(input, p, l) - First(lens, l), |lens|);
  }

  lemma SlotSymbol(lens: seq<nat>, fast: seq<u16>, j: nat) returns (i: nat)
    requires |lens| <= NSYMS && FastTable(lens, fast, |lens|) && j < FAST_SIZE && fast[j] != 0
    ensures i < |lens| && FastHit(lens, i, j) && fast[j] % 512 == i && fast[j] / 512 == lens[i]
    ensures HasCode(lens, i) && lens[i] <= FAST_BITS
  {
    hide FastHit;
    i :| i < |lens| && FastHit(lens, i, j);
    HitHasCode(lens, i, j);
    SplitEntry(lens[i], i);
  }

  lemma HitHasCode(lens: seq<nat>, i: nat, j: nat)
    requires FastHit(lens, i, j)
    ensures HasCode(lens, i) && lens[i] <= FAST_BITS
  {
  }

  lemma SplitEntry(s: nat, i: nat)
    requires i < 512
    ensures (s * 512 + i) % 512 == i && (s * 512 + i) / 512 == s
  {
  }

  lemma EntrySymbol(lens: seq<nat>, size: seq<u8>, value: seq<u16>, i: nat)
    requires SymbolTable(lens, size, value, |lens|) && HasCode(lens, i)
    ensures Position(lens, i) < NSYMS && size[Position(lens, i)] == lens[i] && value[Position(lens, i)] == i
  {
  }

  // The first length s, above the fast ones, whose last code is not below the next s bits is the
  // length of the code there.
  lemma SlowSymbol(lens: seq<nat>, input: seq<u8>, p: nat, k: nat, s: nat) returns (i: nat)
    requires ValidLens(lens) && k == CodeBits(input, p, 16) && FAST_BITS < s <= MAX_BITS
    requires Shr(k, 16 - s) < End(lens, s)
    requires if s == FAST_BITS + 1 then CodeBits(input, p, FAST_BITS) >= End(lens, FAST_BITS)
      else Shr(k, 17 - s) >= End(lens, s - 1)
    ensures HasCode(lens, i) && lens[i] == s && DecodeSymbol(lens, input, p) == Some(Symbol(i, s))
    ensures Position(lens, i) == Shr(k, 16 - s) - First(lens, s) + FirstSymbol(lens, s)
  {
    CodeBitsShr(input, p, s, 16 - s);
    CodeBitsShr(input, p, s - 1, 17 - s);
    PastPrevious(lens, input, p, s);
    i := SymbolOfRank(lens, input, p, s);
    DecodeSymbolMatch(lens, input, p, i);
  }

  lemma PastPrevious(lens: seq<nat>, input: seq<u8>, p: nat, s: nat)
    requires s > 1 && CodeBits(input, p, s - 1) >= End(lens, s - 1)
    ensures CodeBits(input, p, s) >= First(lens, s)
  {
  }

  class ZHuffman {
    const fast: array<u16>
    const firstcode: array<u16>
    const maxcode: array<int>
    const firstsymbol: array<u16>
    const size: array<u8>
    const value: array<u16>

    ghost predicate Valid() {
      && fast.Length == FAST_SIZE && firstcode.Length == 16 && maxcode.Length == 17
      && firstsymbol.Length == 16 && size.Length == value.Length == NSYMS
      && fast != firstcode && fast != firstsymbol && fast != value
      && firstcode != firstsymbol && firstcode != value && firstsymbol != value
      && Outside(maxcode)
      && size as object != fast as object && size as object != firstcode as object
      && size as object != firstsymbol as object && size as object != value as object
    }

    ghost predicate Outside(o: object) {
      && o != fast as object && o != firstcode as object
      && o != firstsymbol as object && o != size as object && o != value as object
    }

    ghost function Repr(): set<object> {
      {fast as object, firstcode, maxcode, firstsymbol, size, value}
    }

    // The tables indexed by code length, for lengths below n.
    ghost predicate LengthTable(lens: seq<nat>, n: nat)
      requires Valid()
      reads firstcode, maxcode, firstsymbol
    {
      forall l: nat :: 1 <= l < n && l <= MAX_BITS ==>
        && firstcode[l] == First(lens, l)
        && maxcode[l] == Shl(End(lens, l), 16 - l)
        && firstsymbol[l] == FirstSymbol(lens, l)
    }

    ghost predicate FastReady(lens: seq<nat>, n: nat)
      reads fast
    {
      FastTable(lens, fast[..], n)
    }

    ghost predicate SymbolsReady(lens: seq<nat>, n: nat)
      reads size, value
    {
      SymbolTable(lens, size[..], value[..], n)
    }

    // The tables decode the codes given by `lens`.
    ghost predicate Built(lens: seq<nat>)
      reads Repr()
    {
      && Valid() && ValidLens(lens) && |lens| <= NSYMS && Fits(lens)
      && FastReady(lens, |lens|)
      && SymbolsReady(lens, |lens|)
      && LengthTable(lens, 16)
      && maxcode[16] == 0x1_0000
    }

    constructor ()
      ensures Valid() && fresh(Repr())
    {
      fast := new u16[FAST_SIZE];
      firstcode := new u16[16];
      maxcode := new int[17];
      firstsymbol := new u16[16];
      size := new u8[NSYMS];
      value := new u16[NSYMS];
    }

    // stbi__zbuild_huffman: accepts exactly the lengths whose codes fit.
    method Build(lens: seq<nat>) returns (ok: bool)
      requires Valid() && ValidLens(lens) && |lens| <= NSYMS
      modifies Repr()
      ensures ok <==> Fits(lens)
      ensures ok ==> Built(lens)
    {
      ClearFast();
      var sizes := CountSizes(lens);
      for i := 1 to 16
        invariant forall l: nat :: l < 16 ==> sizes[l] == Count(lens, l)
      {
        if sizes[i] > Shl(1, i) {
          assert Count(lens, i) <= End(lens, i);
          assert End(lens, i) > Shl(1, i);
          return false;
        }
      }
      var nextCode := new int[16];
      ok := AssignCodes(lens, sizes, nextCode);
      if !ok {
        return;
      }
      maxcode[16] := 0x1_0000;
      FillSymbols(lens, nextCode);
    }

    method ClearFast()
      requires Valid()
      modifies fast
      ensures forall j :: 0 <= j < FAST_SIZE ==> fast[j] == 0
    {
      for i := 0 to FAST_SIZE
        invariant forall j :: 0 <= j < i ==> fast[j] == 0
      {
        fast[i] := 0;
      }
    }

    static method CountSizes(lens: seq<nat>) returns (sizes: array<int>)
      requires ValidLens(lens)
      ensures fresh(sizes) && sizes.Length == 17
      ensures forall l: nat :: l < 16 ==> sizes[l] == Count(lens, l)
    {
      sizes := new int[17](_ => 0);
      for i := 0 to |lens|
        invariant forall l: nat :: l < 16 ==> sizes[l] == Rank(lens, l, i)
      {
        sizes[lens[i]] := sizes[lens[i]] + 1;
      }
      sizes[0] := 0;
    }

    // The loop over the code lengths, of section 3.2.2 of RFC 1951.
    method AssignCodes(lens: seq<nat>, sizes: array<int>, nextCode: array<int>) returns (ok: bool)
      requires Valid() && ValidLens(lens) && |lens| <= NSYMS
      requires sizes.Length == 17 && nextCode.Length == 16
      requires forall l: nat :: l < 16 ==> sizes[l] == Count(lens, l)
      requires Outside(nextCode) && nextCode != maxcode && nextCode != sizes && Outside(sizes) && sizes != maxcode
      modifies nextCode, firstcode, maxcode, firstsymbol
      ensures ok <==> Fits(lens)
      ensures ok ==> LengthTable(lens, 16)
      ensures ok ==> forall l: nat :: 1 <= l < 16 ==> nextCode[l] == First(lens, l)
    {
      hide Rank, Shl, Code, Position, FastTable, SymbolTable, Fits, FitsBelow, LengthTable, Count;
      NoLengthsYet(lens);
      var code, k := 0, 0;
      for i := 1 to 16
        invariant code == First(lens, i) && k == FirstSymbol(lens, i)
        invariant FitsBelow(lens, i)
        invariant forall l: nat :: 1 <= l < i ==> nextCode[l] == First(lens, l)
        invariant LengthTable(lens, i)
        invariant forall l: nat :: l < 16 ==> sizes[l] == Count(lens, l)
      {
        nextCode[i] := code;
        ok := EnterLength(lens, i, code, k, sizes[i]);
        if !ok {
          TooMany(lens, i);
          return;
        }
        code := 2 * (code + sizes[i]);
        k := k + sizes[i];
      }
      AllFit(lens);
      return true;
    }

    lemma NoLengthsYet(lens: seq<nat>)
      requires Valid()
      ensures FitsBelow(lens, 1) && LengthTable(lens, 1)
    {
    }

    static lemma TooMany(lens: seq<nat>, i: nat)
      requires 1 <= i <= MAX_BITS && End(lens, i) > Shl(1, i)
      ensures !Fits(lens)
    {
    }

    static lemma AllFit(lens: seq<nat>)
      requires FitsBelow(lens, 16)
      ensures Fits(lens)
    {
    }

    // The body of that loop, for length i.
    method EnterLength(lens: seq<nat>, i: nat, code: nat, k: nat, size: nat) returns (ok: bool)
      requires Valid() && |lens| <= NSYMS && 1 <= i < 16
      requires code == First(lens, i) && k == FirstSymbol(lens, i) && size == Count(lens, i)
      requires FitsBelow(lens, i) && LengthTable(lens, i)
      modifies firstcode, maxcode, firstsymbol
      ensures ok <==> End(lens, i) <= Shl(1, i)
      ensures ok ==> FitsBelow(lens, i + 1) && LengthTable(lens, i + 1)
    {
      hide Shl, First, End, Count, Rank, FirstSymbol, Fits, Code, ValidLens;
      RoomForCode(lens, i);
      firstcode[i] := code;
      firstsymbol[i] := k;
      ok := size == 0 || code + size - 1 < Shl(1, i);
      var limit := Shl(code + size, 16 - i);
      if ok {
        maxcode[i] := limit;
      }
    }

    static ghost predicate FitsBelow(lens: seq<nat>, i: nat) {
      forall l: nat :: 1 <= l < i ==> End(lens, l) <= Shl(1, l)
    }

    // The codes fit 16 bits, and so do the symbol counts.
    static lemma RoomForCode(lens: seq<nat>, i: nat)
      requires |lens| <= NSYMS && 1 <= i <= MAX_BITS
      requires FitsBelow(lens, i)
      ensures First(lens, i) <= Shl(1, i) < 0x1_0000
      ensures End(lens, i) == First(lens, i) + Count(lens, i)
      ensures Count(lens, i) == 0 ==> End(lens, i) <= Shl(1, i)
      ensures FirstSymbol(lens, i) <= NSYMS
    {
      Pow2Monotone(i, 15);
      assert Shl(1, 15) == 0x8000 by {
        ShlAdd(1, 8, 7);
        assert Shl(1, 8) == 0x100 && Shl(0x100, 7) == 0x8000;
      }
      FirstSymbolBound(lens, i);
    }

    // The loop over the symbols: each one enters the sorted tables, and the fast table if it is short.
    method FillSymbols(lens: seq<nat>, nextCode: array<int>)
      requires Valid() && ValidLens(lens) && |lens| <= NSYMS && Fits(lens)
      requires nextCode.Length == 16 && Outside(nextCode) && nextCode != maxcode
      requires LengthTable(lens, 16)
      requires forall l: nat :: 1 <= l < 16 ==> nextCode[l] == First(lens, l)
      requires forall j :: 0 <= j < FAST_SIZE ==> fast[j] == 0
      modifies nextCode, fast, size, value
      ensures FastReady(lens, |lens|)
      ensures SymbolsReady(lens, |lens|)
    {
      StartEmpty(lens);
      assert NextReady(lens, nextCode, 0);
      hide FastReady, SymbolsReady, NextReady, LengthTable, Fits;
      for i := 0 to |lens|
        invariant FastReady(lens, i) && SymbolsReady(lens, i) && NextReady(lens, nextCode, i)
      {
        EnterSymbol(lens, i, nextCode);
      }
    }

    // The code that the next symbol of each length gets.
    static ghost predicate NextReady(lens: seq<nat>, nextCode: array<int>, i: nat)
      requires i <= |lens|
      reads nextCode
    {
      nextCode.Length == 16 && forall l: nat :: 1 <= l < 16 ==> nextCode[l] == First(lens, l) + Rank(lens, l, i)
    }

    // The body of that loop, for symbol i.
    method EnterSymbol(lens: seq<nat>, i: nat, nextCode: array<int>)
      requires Valid() && ValidLens(lens) && |lens| <= NSYMS && Fits(lens) && i < |lens|
      requires Outside(nextCode) && nextCode != maxcode
      requires LengthTable(lens, 16)
      requires FastReady(lens, i) && SymbolsReady(lens, i) && NextReady(lens, nextCode, i)
      modifies nextCode, fast, size, value
      ensures FastReady(lens, i + 1) && SymbolsReady(lens, i + 1) && NextReady(lens, nextCode, i + 1)
    {
      hide FastReady, SymbolsReady, LengthTable, Fits, First, Count, FirstSymbol, Shl;
      if lens[i] != 0 {
        PlaceSymbol(lens, i, nextCode[lens[i]]);
        nextCode[lens[i]] := nextCode[lens[i]] + 1;
      } else {
        SkipSymbol(lens, i);
      }
    }

    lemma StartEmpty(lens: seq<nat>)
      requires Valid()
      requires forall j :: 0 <= j < FAST_SIZE ==> fast[j] == 0
      ensures FastReady(lens, 0) && SymbolsReady(lens, 0)
    {
    }

    // A symbol without a code leaves the tables complete.
    lemma SkipSymbol(lens: seq<nat>, i: nat)
      requires i < |lens| && lens[i] == 0 && FastReady(lens, i) && SymbolsReady(lens, i)
      ensures FastReady(lens, i + 1) && SymbolsReady(lens, i + 1)
    {
    }

    method PlaceSymbol(lens: seq<nat>, i: nat, code: nat)
      requires Valid() && ValidLens(lens) && |lens| <= NSYMS && Fits(lens)
      requires LengthTable(lens, 16)
      requires HasCode(lens, i) && code == Code(lens, i)
      requires FastReady(lens, i) && SymbolsReady(lens, i)
      modifies fast, size, value
      ensures FastReady(lens, i + 1)
      ensures SymbolsReady(lens, i + 1)
    {
      var s := lens[i];
      var c := code - firstcode[s] + firstsymbol[s];
      PositionBound(lens, i);
      assert c == Position(lens, i);
      var fastv := s * 512 + i;
      ghost var sizes0, values0 := size[..], value[..];
      size[c] := s;
      value[c] := i;
      SymbolTableStep(lens, sizes0, values0, size[..], value[..], i);
      if s <= FAST_BITS {
        CodeFits(lens, i);
        BitReverseCorrect(code, s);
        ReverseBound(code, s);
        ghost var fast0 := fast[..];
        FillFast(BitReverse(code, s), s, fastv);
        FastTableStep(lens, fast0, fast[..], i);
      }
    }

    static lemma SymbolTableStep(lens: seq<nat>, size0: seq<u8>, value0: seq<u16>, size1: seq<u8>, value1: seq<u16>,
        i: nat)
      requires |lens| <= NSYMS && HasCode(lens, i) && SymbolTable(lens, size0, value0, i)
      requires Position(lens, i) < NSYMS && lens[i] <= 15
      requires size1 == size0[Position(lens, i) := lens[i]] && value1 == value0[Position(lens, i) := i]
      ensures SymbolTable(lens, size1, value1, i + 1)
    {
      forall k: nat | k < i + 1 && HasCode(lens, k)
        ensures var c := Position(lens, k); c < NSYMS && size1[c] == lens[k] && value1[c] == k
      {
        if Position(lens, k) == Position(lens, i) {
          PositionInjective(lens, k, i);
        }
      }
    }

    static lemma FastTableStep(lens: seq<nat>, fast0: seq<u16>, fast1: seq<u16>, i: nat)
      requires ValidLens(lens) && |lens| <= NSYMS && Fits(lens) && HasCode(lens, i) && lens[i] <= FAST_BITS
      requires FastTable(lens, fast0, i) && |fast1| == FAST_SIZE
      requires forall j: nat :: j < FAST_SIZE ==>
        fast1[j] == if FastHit(lens, i, j) then lens[i] * 512 + i else fast0[j]
      ensures FastTable(lens, fast1, i + 1)
    {
      forall k: nat, j: nat | k < i + 1 && j < FAST_SIZE && FastHit(lens, k, j)
        ensures fast1[j] == lens[k] * 512 + k
      {
        if FastHit(lens, i, j) {
          HitUnique(lens, i, k, j);
        }
      }
    }

    // Writes every slot whose low s bits are j0.
    method FillFast(j0: nat, s: nat, fastv: u16)
      requires Valid() && 1 <= s <= FAST_BITS && j0 < Shl(1, s)
      modifies fast
      ensures forall j: nat :: j < FAST_SIZE ==> fast[j] == if Low(j, s) == j0 then fastv else old(fast[j])
    {
      hide Shl, Low;
      var j := j0;
      FirstSlot(j0, s);
      while j < FAST_SIZE
        invariant Low(j, s) == j0
        invariant forall i: nat :: i < FAST_SIZE ==>
          fast[i] == if i < j && Low(i, s) == j0 then fastv else old(fast[i])
      {
        fast[j] := fastv;
        NextSlot(j, s);
        j := j + Shl(1, s);
      }
    }

    /* ---- Looking a symbol up ---- */

    // What a nonzero slot of the fast table says.
    lemma FastFound(lens: seq<nat>, input: seq<u8>, p: nat, j: nat)
      requires Built(lens) && j == Field(input, p, FAST_BITS) && j < FAST_SIZE && fast[j] != 0
      ensures var i, s := fast[j] % 512, fast[j] / 512;
        && i < |lens| && lens[i] == s && 1 <= s <= FAST_BITS
        && DecodeSymbol(lens, input, p) == Some(Symbol(i, s))
    {
      hide FastTable, SymbolTable, LengthTable, SymbolsReady, Fits, Field, FastHit, DecodeSymbol, Matches;
      var i := SlotSymbol(lens, fast[..], j);
      HitIsMatch(lens, input, p, i);
      DecodeSymbolMatch(lens, input, p, i);
    }

    // A zero slot says that the code is longer than the fast table covers.
    lemma FastMissed(lens: seq<nat>, input: seq<u8>, p: nat, j: nat)
      requires Built(lens) && j == Field(input, p, FAST_BITS) && j < FAST_SIZE && fast[j] == 0
      ensures CodeBits(input, p, FAST_BITS) >= End(lens, FAST_BITS)
    {
      var slots := fast[..];
      assert slots[j] == fast[j];
      forall i: nat | HasCode(lens, i) && lens[i] <= FAST_BITS
        ensures !Matches(lens, input, p, i)
      {
        HitIsMatch(lens, input, p, i);
      }
      NoShortMatch(lens, input, p);
    }

    // The first length whose preshifted bound is above the next sixteen bits is the code's length.
    lemma SlowFound(lens: seq<nat>, input: seq<u8>, p: nat, k: nat, s: nat) returns (i: nat)
      requires Built(lens) && k == CodeBits(input, p, 16)
      requires FAST_BITS < s <= MAX_BITS && k < maxcode[s]
      requires CodeBits(input, p, FAST_BITS) >= End(lens, FAST_BITS)
      requires s > FAST_BITS + 1 ==> k >= maxcode[s - 1]
      ensures i < |lens| && lens[i] == s && DecodeSymbol(lens, input, p) == Some(Symbol(i, s))
      ensures var c := Shr(k, 16 - s) - firstcode[s] + firstsymbol[s];
        0 <= c < NSYMS && size[c] == s && value[c] == i
    {
      hide FastTable, SymbolTable, FastReady, Fits, Field, FastHit, DecodeSymbol, CodeBits, Shr, First, Count,
        FirstSymbol, Position;
      ShrLess(CodeBits(input, p, 16), End(lens, s), 16 - s);
      ShrLess(CodeBits(input, p, 16), End(lens, s - 1), 17 - s);
      i := SlowSymbol(lens, input, p, k, s);
      EntrySymbol(lens, size[..], value[..], i);
    }

    // If the bits are beyond every bound, no code matches.
    lemma NothingFound(lens: seq<nat>, input: seq<u8>, p: nat, k: nat)
      requires Built(lens) && k == CodeBits(input, p, 16) && k >= maxcode[MAX_BITS]
      ensures DecodeSymbol(lens, input, p) == None
    {
      CodeBitsShr(input, p, MAX_BITS, 1);
      ShrLess(k, End(lens, MAX_BITS), 1);
      DecodeSymbolExact(lens, input, p);
      if i: nat :| Matches(lens, input, p, i) {
        NoMatchBeyond(lens, input, p, MAX_BITS, i);
      }
    }
  }
}
