/** The compressed format of RFC 1951 from the writer's side: the bits of a stream, block by block, and what the two
    decoders make of them. */
module Encoding {
  import opened Bits
  import opened Canonical
  import opened Deflate
  import opened Options
  import Zlib

  /* ---- Bits in a stream: section 3.1.1 ---- */

  type bit = b: nat | b < 2

  // The stream has these bits from p on.
  ghost predicate At(input: seq<u8>, p: nat, bits: seq<bit>) {
    forall i :: 0 <= i < |bits| ==> BitAt(input, p + i) == bits[i]
  }

  lemma AtSplit(input: seq<u8>, p: nat, a: seq<bit>, b: seq<bit>)
    requires At(input, p, a + b)
    ensures At(input, p, a) && At(input, p + |a|, b)
  {
    hide BitAt;
    forall i | 0 <= i < |a|
      ensures BitAt(input, p + i) == a[i]
    {
      assert (a + b)[i] == a[i];
    }
    forall i | 0 <= i < |b|
      ensures BitAt(input, p + |a| + i) == b[i]
    {
      assert (a + b)[|a| + i] == b[i];
    }
  }

  // Numbers are packed least significant bit first, codes most significant bit first.
  function Number(v: nat, n: nat): (bits: seq<bit>)
    ensures |bits| == n
    decreases n
  {
    if n == 0 then [] else [v % 2] + Number(v / 2, n - 1)
  }

  function CodeWord(v: nat, n: nat): (bits: seq<bit>)
    ensures |bits| == n
    decreases n
  {
    if n == 0 then [] else CodeWord(v / 2, n - 1) + [v % 2]
  }

  lemma {:induction false} NumberRead(input: seq<u8>, p: nat, v: nat, n: nat)
    requires At(input, p, Number(v, n)) && v < Shl(1, n)
    ensures Field(input, p, n) == v
    decreases n
  {
    hide BitAt, At;
    if n > 0 {
      AtSplit(input, p, [v % 2], Number(v / 2, n - 1));
      NumberRead(input, p + 1, v / 2, n - 1);
      AtOne(input, p, v % 2);
    }
  }

  lemma AtOne(input: seq<u8>, p: nat, b: bit)
    requires At(input, p, [b])
    ensures BitAt(input, p) == b
  {
    hide BitAt;
    assert BitAt(input, p + 0) == [b][0];
  }

  lemma {:induction false} CodeWordRead(input: seq<u8>, p: nat, v: nat, n: nat)
    requires At(input, p, CodeWord(v, n)) && v < Shl(1, n)
    ensures CodeBits(input, p, n) == v
    decreases n
  {
    hide BitAt, At;
    if n > 0 {
      AtSplit(input, p, CodeWord(v / 2, n - 1), [v % 2]);
      CodeWordRead(input, p, v / 2, n - 1);
      AtOne(input, p + (n - 1), v % 2);
      assert p + n - 1 == p + (n - 1);
    }
  }

  // The codes that symbols are written with.
  predicate Usable(lens: seq<nat>) {
    ValidLens(lens) && Fits(lens)
  }

  function SymbolBits(lens: seq<nat>, i: nat): (bits: seq<bit>)
    requires HasCode(lens, i)
    ensures |bits| == lens[i]
  {
    CodeWord(Code(lens, i), lens[i])
  }

  lemma SymbolRead(lens: seq<nat>, input: seq<u8>, p: nat, i: nat)
    requires Usable(lens) && HasCode(lens, i) && At(input, p, SymbolBits(lens, i))
    ensures DecodeSymbol(lens, input, p) == Some(Symbol(i, lens[i]))
  {
    hide At, Code, End, First, CodeWord, CodeBits, DecodeSymbol, Shl;
    CodeBelowEnd(lens, i);
    CodeWordRead(input, p, Code(lens, i), lens[i]);
    DecodeSymbolMatch(lens, input, p, i);
  }

  /* ---- Section 3.2.5: lengths and distances ---- */

  // How often v is halved until it is below 2 * top.
  function Halvings(v: nat, top: nat): nat
    requires top > 0
    decreases v
  {
    if v < 2 * top then 0 else 1 + Halvings(v / 2, top)
  }

  lemma {:induction false} HalvingsIs(v: nat, top: nat)
    requires top > 0
    ensures var n := Halvings(v, top); Shr(v, n) < 2 * top && (n > 0 ==> top <= Shr(v, n))
    decreases v
  {
    if v >= 2 * top {
      HalvingsIs(v / 2, top);
      assert Halvings(v / 2, top) == 0 ==> Shr(v / 2, 0) == v / 2;
    }
  }

  lemma {:induction false} HalvingsBound(v: nat, top: nat, m: nat)
    requires top > 0 && v < Shl(2 * top, m)
    ensures Halvings(v, top) <= m
    decreases v
  {
    if v >= 2 * top {
      HalvingsBound(v / 2, top, m - 1);
    }
  }

  lemma {:induction false} Recompose(v: nat, n: nat)
    ensures v == Shl(Shr(v, n), n) + Low(v, n)
    decreases n
  {
    if n > 0 {
      Recompose(v / 2, n - 1);
    }
  }

  // The symbol, the number of extra bits and their value: lengths beyond the first eight fall into groups of four
  // symbols, each group with one extra bit more; distances beyond the first four into groups of two.
  function LengthWidth(len: nat): nat
    requires 3 <= len <= 258
  {
    if len == 258 then 0 else Halvings(len - 3, 4)
  }

  function LengthSymbol(len: nat): nat
    requires 3 <= len <= 258
  {
    if len == 258 then 28 else 4 * Halvings(len - 3, 4) + Shr(len - 3, Halvings(len - 3, 4))
  }

  function DistWidth(dist: nat): nat
    requires 1 <= dist <= 0x8000
  {
    Halvings(dist - 1, 2)
  }

  function DistSymbol(dist: nat): nat
    requires 1 <= dist <= 0x8000
  {
    2 * Halvings(dist - 1, 2) + Shr(dist - 1, Halvings(dist - 1, 2))
  }

  lemma {:induction false} LengthBaseIs(n: nat, t: nat)
    requires t < 8 && (n > 0 ==> t >= 4) && 4 * n + t < 28
    ensures LengthBase(4 * n + t) == 3 + Shl(t, n) && LengthExtra(4 * n + t) == n
    decreases n, t
  {
    hide Shl;
    assert Shl(t, 0) == t && Shl(1, 0) == 1 by {
      ShlNothing(t);
      ShlNothing(1);
    }
    if n == 0 {
      if t > 0 {
        LengthBaseIs(0, t - 1);
        ShlNothing(t - 1);
      }
    } else if t == 4 {
      LengthBaseIs(n - 1, 7);
      ShlNext(7, 1, n - 1);
      ShlTwice(4, n);
    } else {
      LengthBaseIs(n, t - 1);
      ShlNext(t - 1, 1, n);
    }
  }

  lemma ShlNothing(v: nat)
    ensures Shl(v, 0) == v
  {
  }

  lemma ShlNext(v: nat, w: nat, n: nat)
    ensures Shl(v, n) + Shl(w, n) == Shl(v + w, n)
  {
    ShlSum(v, w, n);
  }

  lemma ShlTwice(v: nat, n: nat)
    requires n > 0
    ensures Shl(v, n) == Shl(2 * v, n - 1)
  {
    ShlInner(v, n - 1);
  }

  lemma {:induction false} DistBaseIs(n: nat, t: nat)
    requires t < 4 && (n > 0 ==> t >= 2)
    ensures DistBase(2 * n + t) == 1 + Shl(t, n) && DistExtra(2 * n + t) == n
    decreases n, t
  {
    hide Shl;
    assert Shl(t, 0) == t && Shl(1, 0) == 1 by {
      ShlNothing(t);
      ShlNothing(1);
    }
    if n == 0 {
      if t > 0 {
        DistBaseIs(0, t - 1);
        ShlNothing(t - 1);
      }
    } else if t == 2 {
      DistBaseIs(n - 1, 3);
      ShlNext(3, 1, n - 1);
      ShlTwice(2, n);
    } else {
      DistBaseIs(n, t - 1);
      ShlNext(t - 1, 1, n);
    }
  }

  // Every length from 3 to 258 has a symbol, and the decoder's arithmetic gives the length back.
  lemma LengthCoded(len: nat)
    requires 3 <= len <= 258
    ensures var k, n := LengthSymbol(len), LengthWidth(len);
      && k < 29 && LengthExtra(k) == n <= 5
      && len >= LengthBase(k) && len - LengthBase(k) < Shl(1, n)
  {
    hide Halvings, Shr, Low, LengthBase, LengthExtra;
    if len == 258 {
      LongestIs();
    } else {
      var v := len - 3;
      var n := Halvings(v, 4);
      HalvingsIs(v, 4);
      assert Shl(8, 5) == 256 by {
        assert Shl(8, 4) == 128;
      }
      HalvingsBound(v, 4, 5);
      Recompose(v, n);
      LowBound(v, n);
      TopFits(v, n);
      LengthBaseIs(n, Shr(v, n));
    }
  }

  lemma LongestIs()
    ensures LengthBase(28) == 258 && LengthExtra(28) == 0 && Shl(1, 0) == 1
  {
  }

  // Below 255 the last group is complete but for its last symbol's last length.
  lemma TopFits(v: nat, n: nat)
    requires v < 255 && n <= 5 && Shr(v, n) < 8
    ensures 4 * n + Shr(v, n) < 28
  {
  }

  // The same for every distance from 1 to 32768.
  lemma DistCoded(dist: nat)
    requires 1 <= dist <= 0x8000
    ensures var k, n := DistSymbol(dist), DistWidth(dist);
      && k < 30 && DistExtra(k) == n <= 13
      && dist >= DistBase(k) && dist - DistBase(k) < Shl(1, n)
  {
    hide Halvings, Shr, Low, DistBase, DistExtra;
    var v := dist - 1;
    var n := Halvings(v, 2);
    HalvingsIs(v, 2);
    FarthestIs();
    HalvingsBound(v, 2, 13);
    Recompose(v, n);
    LowBound(v, n);
    DistBaseIs(n, Shr(v, n));
  }

  lemma FarthestIs()
    ensures Shl(4, 13) == 0x8000
  {
    hide Shl;
    ShlBy8(4);
    ShlAdd(4, 8, 5);
    ShlNumbers();
  }

  lemma ShlNumbers()
    ensures Shl(0x400, 5) == 0x8000
  {
    assert Shl(0x400, 4) == 0x4000;
  }

  /* ---- Section 3.2.3: the symbols of a compressed block ---- */

  // A byte itself, or a copy of `len` bytes from `dist` back.
  datatype Token = Literal(byte: u8) | Backward(len: nat, dist: nat)

  predicate Writable(lits: seq<nat>, dists: seq<nat>, tok: Token, size: nat) {
    match tok
    case Literal(b) => HasCode(lits, b)
    case Backward(len, dist) =>
      && 3 <= len <= 258 && 1 <= dist <= 0x8000 && dist <= size
      && HasCode(lits, 257 + LengthSymbol(len)) && HasCode(dists, DistSymbol(dist))
  }

  function TokenBits(lits: seq<nat>, dists: seq<nat>, tok: Token, size: nat): seq<bit>
    requires Writable(lits, dists, tok, size)
  {
    match tok
    case Literal(b) => SymbolBits(lits, b)
    case Backward(len, dist) =>
      LengthCoded(len);
      DistCoded(dist);
      SymbolBits(lits, 257 + LengthSymbol(len)) + Number(len - LengthBase(LengthSymbol(len)), LengthWidth(len))
      + SymbolBits(dists, DistSymbol(dist)) + Number(dist - DistBase(DistSymbol(dist)), DistWidth(dist))
  }

  function TokenText(out: seq<u8>, tok: Token): (text: seq<u8>)
    requires tok.Backward? ==> 1 <= tok.dist <= |out|
  {
    match tok
    case Literal(b) => out + [b]
    case Backward(len, dist) => Copy(out, dist, len)
  }

  lemma MatchRead(dists: seq<nat>, input: seq<u8>, p: nat, len: nat, dist: nat)
    requires Usable(dists) && 3 <= len <= 258 && 1 <= dist <= 0x8000 && HasCode(dists, DistSymbol(dist))
    requires LengthBase(LengthSymbol(len)) <= len && DistBase(DistSymbol(dist)) <= dist
    requires var e, f := LengthWidth(len), DistWidth(dist);
      && At(input, p, Number(len - LengthBase(LengthSymbol(len)), e))
      && At(input, p + e, SymbolBits(dists, DistSymbol(dist)))
      && At(input, p + e + dists[DistSymbol(dist)], Number(dist - DistBase(DistSymbol(dist)), f))
    ensures ReadMatch(dists, input, LengthSymbol(len), p)
      == Match(p + LengthWidth(len) + dists[DistSymbol(dist)] + DistWidth(dist), len, dist)
  {
    hide At, Usable, Field, DecodeSymbol, SymbolBits, LengthBase, DistBase, LengthExtra, DistExtra, LengthSymbol,
      LengthWidth, DistSymbol, DistWidth, Number;
    LengthCoded(len);
    DistCoded(dist);
    var e := LengthWidth(len);
    NumberRead(input, p, len - LengthBase(LengthSymbol(len)), e);
    SymbolRead(dists, input, p + e, DistSymbol(dist));
    NumberRead(input, p + e + dists[DistSymbol(dist)], dist - DistBase(DistSymbol(dist)), DistWidth(dist));
  }

  // The reference decoder takes a written symbol for what it is.
  lemma TokenRead(lits: seq<nat>, dists: seq<nat>, tok: Token, input: seq<u8>, p: nat, out: seq<u8>)
    requires Usable(lits) && Usable(dists) && Writable(lits, dists, tok, |out|)
    requires At(input, p, TokenBits(lits, dists, tok, |out|))
    ensures SymbolStep(lits, dists, input, State(p, out))
      == Continue(State(p + |TokenBits(lits, dists, tok, |out|)|, TokenText(out, tok)))
  {
    hide At, Usable, DecodeSymbol, ReadMatch, SymbolBits, LengthBase, DistBase, LengthSymbol, LengthWidth, DistSymbol,
      DistWidth, Number, Copy;
    match tok {
      case Literal(b) =>
        SymbolRead(lits, input, p, b);
      case Backward(len, dist) =>
        LengthCoded(len);
        DistCoded(dist);
        var a := SymbolBits(lits, 257 + LengthSymbol(len));
        var b := Number(len - LengthBase(LengthSymbol(len)), LengthWidth(len));
        var c := SymbolBits(dists, DistSymbol(dist));
        var d := Number(dist - DistBase(DistSymbol(dist)), DistWidth(dist));
        AtSplit(input, p, a + b + c, d);
        AtSplit(input, p, a + b, c);
        AtSplit(input, p, a, b);
        assert p + |a + b + c| == p + |a| + |b| + |c| && p + |a + b| == p + |a| + |b|;
        SymbolRead(lits, input, p, 257 + LengthSymbol(len));
        MatchRead(dists, input, p + |a|, len, dist);
    }
  }

  // The symbols of a block, each written after the output before it.
  predicate AllWritable(lits: seq<nat>, dists: seq<nat>, toks: seq<Token>, size: nat)
    decreases |toks|
  {
    if toks == [] then HasCode(lits, 256)
    else Writable(lits, dists, toks[0], size) && AllWritable(lits, dists, toks[1..], size + TokenSize(toks[0]))
  }

  function TokenSize(tok: Token): nat {
    if tok.Literal? then 1 else tok.len
  }

  function TokensBits(lits: seq<nat>, dists: seq<nat>, toks: seq<Token>, size: nat): seq<bit>
    requires AllWritable(lits, dists, toks, size)
    decreases |toks|
  {
    if toks == [] then SymbolBits(lits, 256)
    else TokenBits(lits, dists, toks[0], size) + TokensBits(lits, dists, toks[1..], size + TokenSize(toks[0]))
  }

  function TokensText(lits: seq<nat>, dists: seq<nat>, toks: seq<Token>, out: seq<u8>): seq<u8>
    requires AllWritable(lits, dists, toks, |out|)
    decreases |toks|
  {
    if toks == [] then out
    else
      TextSize(out, toks[0]);
      TokensText(lits, dists, toks[1..], TokenText(out, toks[0]))
  }

  lemma TextSize(out: seq<u8>, tok: Token)
    requires tok.Backward? ==> 1 <= tok.dist <= |out|
    ensures |TokenText(out, tok)| == |out| + TokenSize(tok)
  {
    hide Copy;
    if tok.Backward? {
      CopyPeriod(out, tok.dist, tok.len);
    }
  }

  lemma {:induction false} TokensRead(
      lits: seq<nat>, dists: seq<nat>, toks: seq<Token>, input: seq<u8>, p: nat, out: seq<u8>)
    requires Usable(lits) && Usable(dists) && AllWritable(lits, dists, toks, |out|)
    requires At(input, p, TokensBits(lits, dists, toks, |out|))
    ensures CompressedBlock(lits, dists, input, State(p, out))
      == Done(p + |TokensBits(lits, dists, toks, |out|)|, TokensText(lits, dists, toks, out))
    decreases |toks|
  {
    hide At, Usable, Limit, SymbolStep, SymbolBits, TokenBits, TokenText, Writable;
    LimitStep(SymbolStepper(lits, dists, input), State(p, out));
    if toks == [] {
      EndRead(lits, dists, input, p, out);
    } else {
      WritableDist(lits, dists, toks[0], |out|);
      TextSize(out, toks[0]);
      var a := TokenBits(lits, dists, toks[0], |out|);
      var b := TokensBits(lits, dists, toks[1..], |out| + TokenSize(toks[0]));
      AtSplit(input, p, a, b);
      TokenRead(lits, dists, toks[0], input, p, out);
      TokensRead(lits, dists, toks[1..], input, p + |a|, TokenText(out, toks[0]));
    }
  }

  lemma WritableDist(lits: seq<nat>, dists: seq<nat>, tok: Token, size: nat)
    requires Writable(lits, dists, tok, size)
    ensures tok.Backward? ==> 1 <= tok.dist <= size
  {
  }

  lemma EndRead(lits: seq<nat>, dists: seq<nat>, input: seq<u8>, p: nat, out: seq<u8>)
    requires Usable(lits) && HasCode(lits, 256) && At(input, p, SymbolBits(lits, 256))
    ensures SymbolStep(lits, dists, input, State(p, out)) == Stop(Done(p + lits[256], out))
  {
    hide At, Usable, DecodeSymbol, SymbolBits;
    SymbolRead(lits, input, p, 256);
  }

  /* ---- Section 3.2.6: the fixed codes ---- */

  // The codes as the section's table has them.
  lemma FixedCodesAre(lens: seq<nat>, i: nat)
    requires lens == FixedLits() && i < 288
    ensures Code(lens, i) == if i < 144 then 0x30 + i else if i < 256 then 0x190 + (i - 144)
      else if i < 280 then i - 256 else 0xC0 + (i - 280)
  {
    hide First, Rank, Count, End;
    FixedCounts(lens);
    FixedFirsts(lens);
    if i < 144 {
      RankRun(lens, 8, 0, i);
      RankStart(lens, 8);
    } else if i < 256 {
      RankOther(lens, 9, 0, 144);
      RankRun(lens, 9, 144, i);
      RankStart(lens, 9);
    } else if i < 280 {
      RankOther(lens, 7, 0, 256);
      RankRun(lens, 7, 256, i);
      RankStart(lens, 7);
    } else {
      RankRun(lens, 8, 0, 144);
      RankOther(lens, 8, 144, 280);
      RankRun(lens, 8, 280, i);
      RankStart(lens, 8);
    }
  }

  lemma RankStart(lens: seq<nat>, l: nat)
    ensures Rank(lens, l, 0) == 0
  {
  }

  lemma {:induction false} RankRun(lens: seq<nat>, l: nat, lo: nat, hi: nat)
    requires lo <= hi <= |lens| && forall i :: lo <= i < hi ==> lens[i] == l
    ensures Rank(lens, l, hi) == Rank(lens, l, lo) + (hi - lo)
    decreases hi
  {
    if lo < hi {
      RankRun(lens, l, lo, hi - 1);
    }
  }

  lemma {:induction false} RankOther(lens: seq<nat>, l: nat, lo: nat, hi: nat)
    requires lo <= hi <= |lens| && forall i :: lo <= i < hi ==> lens[i] != l
    ensures Rank(lens, l, hi) == Rank(lens, l, lo)
    decreases hi
  {
    if lo < hi {
      RankOther(lens, l, lo, hi - 1);
    }
  }

  lemma FixedCounts(lens: seq<nat>)
    requires lens == FixedLits()
    ensures forall l :: 1 <= l <= 6 ==> Count(lens, l) == 0
    ensures Count(lens, 7) == 24 && Count(lens, 8) == 152
  {
    hide Rank;
    forall l: nat | 1 <= l <= 6
      ensures Count(lens, l) == 0
    {
      RankOther(lens, l, 0, 288);
      RankStart(lens, l);
    }
    RankStart(lens, 7);
    RankOther(lens, 7, 0, 256);
    RankRun(lens, 7, 256, 280);
    RankOther(lens, 7, 280, 288);
    RankStart(lens, 8);
    RankRun(lens, 8, 0, 144);
    RankOther(lens, 8, 144, 280);
    RankRun(lens, 8, 280, 288);
  }

  lemma FixedFirsts(lens: seq<nat>)
    requires forall l :: 1 <= l <= 6 ==> Count(lens, l) == 0
    requires Count(lens, 7) == 24 && Count(lens, 8) == 152
    ensures First(lens, 7) == 0 && First(lens, 8) == 0x30 && First(lens, 9) == 0x190
  {
    hide Count, First, End;
    FirstNext(lens, 1);
    FirstNext(lens, 2);
    FirstNext(lens, 3);
    FirstNext(lens, 4);
    FirstNext(lens, 5);
    FirstNext(lens, 6);
    FirstNext(lens, 7);
    FirstNext(lens, 8);
  }

  lemma FirstNext(lens: seq<nat>, l: nat)
    requires l > 0
    ensures First(lens, 1) == 0 && First(lens, l + 1) == 2 * (First(lens, l) + Count(lens, l))
  {
    hide Count;
  }

  lemma FixedUsable()
    ensures Usable(FixedLits()) && Usable(FixedDists())
  {
    Zlib.FixedCodesFit();
  }

  /* ---- Section 3.2.7: the codes of a dynamic block ---- */

  // One code length, the last one again, or zeros.
  datatype Instruction = One(len: nat) | Again(times: nat) | Zeros(times: nat)

  function InstructionSymbol(x: Instruction): nat {
    match x
    case One(l) => l
    case Again(_) => 16
    case Zeros(n) => if n <= 10 then 17 else 18
  }

  predicate Applies(meta: seq<nat>, x: Instruction, lens: seq<nat>) {
    HasCode(meta, InstructionSymbol(x)) && match x
      case One(l) => l <= MAX_BITS
      case Again(n) => 3 <= n <= 6 && lens != []
      case Zeros(n) => 3 <= n <= 138
  }

  function InstructionBits(meta: seq<nat>, x: Instruction): seq<bit>
    requires Applies(meta, x, [0])
  {
    SymbolBits(meta, InstructionSymbol(x)) + match x
      case One(_) => []
      case Again(n) => Number(n - 3, 2)
      case Zeros(n) => if n <= 10 then Number(n - 3, 3) else Number(n - 11, 7)
  }

  function Applied(x: Instruction, lens: seq<nat>): (r: seq<nat>)
    requires x.Again? ==> lens != []
  {
    lens + match x
      case One(l) => [l]
      case Again(n) => seq(n, i => lens[|lens| - 1])
      case Zeros(n) => seq(n, i => 0)
  }

  lemma SmallPowers()
    ensures Shl(1, 2) == 4 && Shl(1, 3) == 8 && Shl(1, 4) == 16 && Shl(1, 5) == 32 && Shl(1, 7) == 128
  {
    assert Shl(1, 4) == 16;
  }

  lemma InstructionRead(meta: seq<nat>, x: Instruction, lens: seq<nat>, input: seq<u8>, p: nat)
    requires Usable(meta) && Applies(meta, x, lens) && Applies(meta, x, [0]) && At(input, p, InstructionBits(meta, x))
    ensures var c := InstructionSymbol(x);
      && DecodeSymbol(meta, input, p) == Some(Symbol(c, meta[c]))
      && var run := LensOf(input, p + meta[c], c, lens);
        && run.Some? && run.value.pos == p + |InstructionBits(meta, x)|
        && run.value.lens != [] && lens + run.value.lens == Applied(x, lens)
  {
    hide At, Usable, DecodeSymbol, SymbolBits, Number, Field, Shl;
    SmallPowers();
    var c := InstructionSymbol(x);
    var extra := InstructionBits(meta, x)[meta[c]..];
    assert InstructionBits(meta, x) == SymbolBits(meta, c) + extra;
    AtSplit(input, p, SymbolBits(meta, c), extra);
    SymbolRead(meta, input, p, c);
    match x {
      case One(l) =>
      case Again(n) =>
        assert extra == Number(n - 3, 2);
        NumberRead(input, p + meta[c], n - 3, 2);
      case Zeros(n) =>
        if n <= 10 {
          assert extra == Number(n - 3, 3);
          NumberRead(input, p + meta[c], n - 3, 3);
        } else {
          assert extra == Number(n - 11, 7);
          NumberRead(input, p + meta[c], n - 11, 7);
        }
    }
  }

  predicate AllApply(meta: seq<nat>, xs: seq<Instruction>, lens: seq<nat>)
    decreases |xs|
  {
    xs == [] || (Applies(meta, xs[0], lens) && AllApply(meta, xs[1..], Applied(xs[0], lens)))
  }

  function AllApplied(meta: seq<nat>, xs: seq<Instruction>, lens: seq<nat>): (r: seq<nat>)
    requires AllApply(meta, xs, lens)
    ensures |lens| <= |r|
    decreases |xs|
  {
    if xs == [] then lens else AllApplied(meta, xs[1..], Applied(xs[0], lens))
  }

  function InstructionsBits(meta: seq<nat>, xs: seq<Instruction>, lens: seq<nat>): seq<bit>
    requires AllApply(meta, xs, lens)
    decreases |xs|
  {
    if xs == [] then []
    else InstructionBits(meta, xs[0]) + InstructionsBits(meta, xs[1..], Applied(xs[0], lens))
  }

  lemma {:induction false} InstructionsRead(
      meta: seq<nat>, xs: seq<Instruction>, lens: seq<nat>, input: seq<u8>, p: nat, total: nat)
    requires Usable(meta) && AllApply(meta, xs, lens) && |AllApplied(meta, xs, lens)| == total
    requires At(input, p, InstructionsBits(meta, xs, lens))
    ensures ReadLens(meta, input, p, total, lens)
      == Some(Lens(p + |InstructionsBits(meta, xs, lens)|, AllApplied(meta, xs, lens)))
    decreases |xs|
  {
    hide At, Usable, DecodeSymbol, InstructionBits, InstructionSymbol, LensOf, Applies;
    if xs != [] {
      AppliesAnyway(meta, xs[0], lens);
      var a, next := InstructionBits(meta, xs[0]), Applied(xs[0], lens);
      var b := InstructionsBits(meta, xs[1..], next);
      AtSplit(input, p, a, b);
      InstructionRead(meta, xs[0], lens, input, p);
      var c := InstructionSymbol(xs[0]);
      ReadLensStep(meta, input, p, total, lens, Symbol(c, meta[c]));
      InstructionsRead(meta, xs[1..], next, input, p + |a|, total);
    }
  }

  lemma AppliesAnyway(meta: seq<nat>, x: Instruction, lens: seq<nat>)
    requires Applies(meta, x, lens)
    ensures Applies(meta, x, [0]) && HasCode(meta, InstructionSymbol(x)) && (x.Again? ==> lens != [])
  {
  }

  // The lengths of the code length code are written in this order.
  const ORDER: seq<nat> := [16, 17, 18, 0, 8, 7, 9, 6, 10, 5, 11, 4, 12, 3, 13, 2, 14, 1, 15]

  function MetaBits(meta: seq<nat>, n: nat): (bits: seq<bit>)
    requires |meta| == 19 && n <= 19
    ensures |bits| == 3 * n
  {
    if n == 0 then [] else MetaBits(meta, n - 1) + Number(meta[ORDER[n - 1]], 3)
  }

  lemma {:induction false} MetaFieldRead(meta: seq<nat>, n: nat, k: nat, input: seq<u8>, p: nat)
    requires |meta| == 19 && k < n <= 19 && At(input, p, MetaBits(meta, n))
    requires meta[ORDER[k]] < 8
    ensures Field(input, p + 3 * k, 3) == meta[ORDER[k]]
    decreases n
  {
    hide At, Field, Number, Shl;
    SmallPowers();
    AtSplit(input, p, MetaBits(meta, n - 1), Number(meta[ORDER[n - 1]], 3));
    if k == n - 1 {
      NumberRead(input, p + 3 * k, meta[ORDER[k]], 3);
    } else {
      MetaFieldRead(meta, n - 1, k, input, p);
    }
  }

  lemma OrderIs(sym: nat)
    requires sym < 19
    ensures |ORDER| == 19 && ORDER[SentAt(sym)] == sym
  {
  }

  lemma MetaRead(meta: seq<nat>, n: nat, input: seq<u8>, p: nat)
    requires |meta| == 19 && n <= 19 && At(input, p, MetaBits(meta, n))
    requires forall k :: 0 <= k < 19 ==> meta[k] < 8
    requires forall k :: n <= k < 19 ==> meta[ORDER[k]] == 0
    ensures MetaLens(input, p, n) == meta
  {
    hide At, Field, SentAt, MetaBits;
    forall sym: nat | sym < 19
      ensures MetaLens(input, p, n)[sym] == meta[sym]
    {
      OrderIs(sym);
      if SentAt(sym) < n {
        MetaFieldRead(meta, n, SentAt(sym), input, p);
      }
    }
  }

  // What a dynamic block says about its codes: how many lengths of the code length code it sends, those lengths, and
  // the instructions that give the others.
  datatype Header = Header(lits: seq<nat>, dists: seq<nat>, sent: nat, meta: seq<nat>, instructions: seq<Instruction>)

  predicate ValidHeader(h: Header) {
    && 257 <= |h.lits| <= 288 && 1 <= |h.dists| <= 32 && 4 <= h.sent <= 19 && |h.meta| == 19
    && Usable(h.lits) && Usable(h.dists) && Usable(h.meta)
    && (forall k :: 0 <= k < 19 ==> h.meta[k] < 8)
    && (forall k :: h.sent <= k < 19 ==> h.meta[ORDER[k]] == 0)
    && AllApply(h.meta, h.instructions, []) && AllApplied(h.meta, h.instructions, []) == h.lits + h.dists
  }

  function HeaderBits(h: Header): seq<bit>
    requires ValidHeader(h)
  {
    Number(|h.lits| - 257, 5) + Number(|h.dists| - 1, 5) + Number(h.sent - 4, 4)
    + MetaBits(h.meta, h.sent) + InstructionsBits(h.meta, h.instructions, [])
  }

  lemma HeaderRead(h: Header, input: seq<u8>, p: nat)
    requires ValidHeader(h) && At(input, p, HeaderBits(h))
    ensures ReadCodes(input, p) == Some(Codes(p + |HeaderBits(h)|, h.lits, h.dists))
  {
    hide At, Field, Number, Shl, MetaLens, MetaBits, ReadLens, InstructionsBits, AllApply, AllApplied, Fits, ValidLens;
    SmallPowers();
    var a, b, c := Number(|h.lits| - 257, 5), Number(|h.dists| - 1, 5), Number(h.sent - 4, 4);
    var d, e := MetaBits(h.meta, h.sent), InstructionsBits(h.meta, h.instructions, []);
    AtSplit(input, p, a + b + c + d, e);
    AtSplit(input, p, a + b + c, d);
    AtSplit(input, p, a + b, c);
    AtSplit(input, p, a, b);
    NumberRead(input, p, |h.lits| - 257, 5);
    NumberRead(input, p + 5, |h.dists| - 1, 5);
    NumberRead(input, p + 10, h.sent - 4, 4);
    MetaRead(h.meta, h.sent, input, p + 14);
    InstructionsRead(h.meta, h.instructions, [], input, p + 14 + 3 * h.sent, |h.lits| + |h.dists|);
    assert (h.lits + h.dists)[..|h.lits|] == h.lits && (h.lits + h.dists)[|h.lits|..] == h.dists;
  }

  /* ---- Section 3.2.4: stored blocks ---- */

  // How many bits are skipped up to the next byte boundary.
  function Skipped(p: nat): (n: nat)
    ensures n < 8
  {
    (8 - p % 8) % 8
  }

  function ByteBits(bytes: seq<u8>): (bits: seq<bit>)
    ensures |bits| == 8 * |bytes|
  {
    if bytes == [] then [] else Number(bytes[0], 8) + ByteBits(bytes[1..])
  }

  function StoredBits(bytes: seq<u8>, p: nat): seq<bit>
    requires |bytes| < 0x1_0000
  {
    Number(0, Skipped(p)) + Number(|bytes|, 16) + Number(0xFFFF - |bytes|, 16) + ByteBits(bytes)
  }

  lemma Boundary(p: nat)
    ensures p + Skipped(p) == 8 * ((p + 7) / 8)
  {
  }

  lemma {:induction false} BytesRead(bytes: seq<u8>, input: seq<u8>, i: nat)
    requires At(input, 8 * i, ByteBits(bytes))
    ensures Bytes(input, i, |bytes|) == bytes
    decreases |bytes|
  {
    hide At, Number, Field, Shl;
    if bytes != [] {
      AtSplit(input, 8 * i, Number(bytes[0], 8), ByteBits(bytes[1..]));
      assert Shl(1, 8) == 256 by {
        ShlBy8(1);
      }
      NumberRead(input, 8 * i, bytes[0], 8);
      FieldOfByte(input, i);
      assert 8 * i + 8 == 8 * (i + 1);
      BytesRead(bytes[1..], input, i + 1);
      assert Bytes(input, i, |bytes|) == [bytes[0]] + Bytes(input, i + 1, |bytes| - 1);
    }
  }

  lemma WordRead(v: nat, input: seq<u8>, i: nat)
    requires v < 0x1_0000 && At(input, 8 * i, Number(v, 16))
    ensures ByteAt(input, i) + 256 * ByteAt(input, i + 1) == v
  {
    hide At, Number, Field, Shl;
    Pow2Of16();
    NumberRead(input, 8 * i, v, 16);
    FieldSplit(input, 8 * i, 8, 8);
    assert 8 * i + 8 == 8 * (i + 1);
    FieldOfByte(input, i);
    FieldOfByte(input, i + 1);
    ShlBy8(ByteAt(input, i + 1));
  }

  lemma StoredRead(bytes: seq<u8>, input: seq<u8>, p: nat, out: seq<u8>)
    requires |bytes| < 0x1_0000 && At(input, p, StoredBits(bytes, p))
    ensures StoredBlock(input, p, out) == Done(p + |StoredBits(bytes, p)|, out + bytes)
  {
    hide At, Number, Bytes, ByteBits, ByteAt, Skipped;
    Boundary(p);
    var i := (p + 7) / 8;
    var a, b, c := Number(0, Skipped(p)), Number(|bytes|, 16), Number(0xFFFF - |bytes|, 16);
    AtSplit(input, p, a + b + c, ByteBits(bytes));
    AtSplit(input, p, a + b, c);
    AtSplit(input, p, a, b);
    assert p + |a| == 8 * i && p + |a + b| == 8 * (i + 2) && p + |a + b + c| == 8 * (i + 4);
    WordRead(|bytes|, input, i);
    WordRead(0xFFFF - |bytes|, input, i + 2);
    BytesRead(bytes, input, i + 4);
  }

  /* ---- Section 3.2.3: blocks and streams ---- */

  datatype Block = Stored(bytes: seq<u8>) | Fixed(toks: seq<Token>) | Dynamic(header: Header, toks: seq<Token>)

  predicate ValidBlock(b: Block, size: nat) {
    match b
    case Stored(bytes) => |bytes| < 0x1_0000
    case Fixed(toks) => AllWritable(FixedLits(), FixedDists(), toks, size)
    case Dynamic(h, toks) => ValidHeader(h) && AllWritable(h.lits, h.dists, toks, size)
  }

  function KindOf(b: Block): nat {
    if b.Stored? then 0 else if b.Fixed? then 1 else 2
  }

  // What follows the three header bits, at position p.
  function BodyBits(b: Block, p: nat, size: nat): seq<bit>
    requires ValidBlock(b, size)
  {
    match b
    case Stored(bytes) => StoredBits(bytes, p)
    case Fixed(toks) => TokensBits(FixedLits(), FixedDists(), toks, size)
    case Dynamic(h, toks) => HeaderBits(h) + TokensBits(h.lits, h.dists, toks, size)
  }

  function BlockBits(b: Block, final: bool, p: nat, size: nat): seq<bit>
    requires ValidBlock(b, size)
  {
    [if final then 1 else 0] + Number(KindOf(b), 2) + BodyBits(b, p + 3, size)
  }

  function BlockText(b: Block, out: seq<u8>): seq<u8>
    requires ValidBlock(b, |out|)
  {
    match b
    case Stored(bytes) => out + bytes
    case Fixed(toks) => TokensText(FixedLits(), FixedDists(), toks, out)
    case Dynamic(h, toks) => TokensText(h.lits, h.dists, toks, out)
  }

  lemma BodyRead(b: Block, input: seq<u8>, p: nat, out: seq<u8>)
    requires ValidBlock(b, |out|) && At(input, p, BodyBits(b, p, |out|))
    ensures BlockBody(input, KindOf(b), p, out) == Done(p + |BodyBits(b, p, |out|)|, BlockText(b, out))
  {
    hide At, StoredBlock, CompressedBlock, ReadCodes, FixedLits, FixedDists, AllWritable, TokensBits, TokensText,
      StoredBits, HeaderBits, Usable;
    match b {
      case Stored(bytes) =>
        StoredRead(bytes, input, p, out);
      case Fixed(toks) =>
        FixedUsable();
        TokensRead(FixedLits(), FixedDists(), toks, input, p, out);
      case Dynamic(h, toks) =>
        AtSplit(input, p, HeaderBits(h), TokensBits(h.lits, h.dists, toks, |out|));
        HeaderRead(h, input, p);
        TokensRead(h.lits, h.dists, toks, input, p + |HeaderBits(h)|, out);
    }
  }

  lemma BlockRead(b: Block, final: bool, input: seq<u8>, p: nat, out: seq<u8>)
    requires ValidBlock(b, |out|) && At(input, p, BlockBits(b, final, p, |out|))
    ensures (Field(input, p, 1) == 1) == final
    ensures BlockBody(input, Field(input, p + 1, 2), p + 3, out)
      == Done(p + |BlockBits(b, final, p, |out|)|, BlockText(b, out))
  {
    hide At, BodyBits, BlockText, BlockBody, ValidBlock, Number, Field, Shl;
    var f: seq<bit> := [if final then 1 else 0];
    AtSplit(input, p, f + Number(KindOf(b), 2), BodyBits(b, p + 3, |out|));
    AtSplit(input, p, f, Number(KindOf(b), 2));
    OneBit(input, p, if final then 1 else 0);
    SmallPowers();
    NumberRead(input, p + 1, KindOf(b), 2);
    BodyRead(b, input, p + 3, out);
  }

  lemma OneBit(input: seq<u8>, p: nat, v: bit)
    requires At(input, p, [v])
    ensures Field(input, p, 1) == v
  {
    hide At, BitAt;
    AtOne(input, p, v);
    assert Field(input, p + 1, 0) == 0;
  }

  // A stream of blocks, the last of them marked as final.
  predicate ValidStream(blocks: seq<Block>, out: seq<u8>)
    decreases |blocks|
  {
    blocks != [] && ValidBlock(blocks[0], |out|)
    && (|blocks| == 1 || ValidStream(blocks[1..], BlockText(blocks[0], out)))
  }

  function StreamBits(blocks: seq<Block>, p: nat, out: seq<u8>): seq<bit>
    requires ValidStream(blocks, out)
    decreases |blocks|
  {
    var first := BlockBits(blocks[0], |blocks| == 1, p, |out|);
    if |blocks| == 1 then first
    else first + StreamBits(blocks[1..], p + |first|, BlockText(blocks[0], out))
  }

  function StreamText(blocks: seq<Block>, out: seq<u8>): seq<u8>
    requires ValidStream(blocks, out)
    decreases |blocks|
  {
    if |blocks| == 1 then BlockText(blocks[0], out) else StreamText(blocks[1..], BlockText(blocks[0], out))
  }

  // The reference decoder inverts the writing of a stream, whatever its blocks are.
  lemma {:induction false} StreamRead(blocks: seq<Block>, input: seq<u8>, p: nat, out: seq<u8>)
    requires ValidStream(blocks, out) && At(input, p, StreamBits(blocks, p, out))
    ensures Inflate(input, p, out) == Done(p + |StreamBits(blocks, p, out)|, StreamText(blocks, out))
    decreases |blocks|
  {
    hide At, Inflate, BlockBody, BlockBits, BlockText, ValidBlock, Field;
    var first := BlockBits(blocks[0], |blocks| == 1, p, |out|);
    InflateStep(input, State(p, out));
    if |blocks| == 1 {
      BlockRead(blocks[0], true, input, p, out);
    } else {
      var next := BlockText(blocks[0], out);
      AtSplit(input, p, first, StreamBits(blocks[1..], p + |first|, next));
      BlockRead(blocks[0], false, input, p, out);
      StreamRead(blocks[1..], input, p + |first|, next);
    }
  }

  /* ---- Bits into bytes ---- */

  // The number that a few bits stand for, least significant bit first.
  function Value(bits: seq<bit>): nat {
    if bits == [] then 0 else bits[0] + 2 * Value(bits[1..])
  }

  lemma {:induction false} ValueBound(bits: seq<bit>)
    requires |bits| <= 8
    ensures Value(bits) < 0x100
    decreases |bits|
  {
    ValueBelow(bits);
    ShlBy8(1);
    Pow2Monotone(|bits|, 8);
  }

  lemma {:induction false} ValueBelow(bits: seq<bit>)
    ensures Value(bits) < Shl(1, |bits|)
    decreases |bits|
  {
    if bits != [] {
      ValueBelow(bits[1..]);
    }
  }

  lemma {:induction false} ValueBit(bits: seq<bit>, i: nat)
    requires i < |bits|
    ensures Shr(Value(bits), i) % 2 == bits[i]
    decreases i
  {
    if i > 0 {
      ValueBit(bits[1..], i - 1);
      assert Value(bits) / 2 == Value(bits[1..]);
    }
  }

  // Eight bits to the byte; the last byte is filled up with zeros.
  function Packed(bits: seq<bit>): (r: seq<u8>)
    ensures |bits| <= 8 * |r| < |bits| + 8
    decreases |bits|
  {
    if bits == [] then []
    else
      var n := if |bits| < 8 then |bits| else 8;
      ValueBound(bits[..n]);
      [Value(bits[..n])] + Packed(bits[n..])
  }

  lemma {:induction false} PackedAt(before: seq<u8>, bits: seq<bit>, after: seq<u8>)
    ensures At(before + Packed(bits) + after, 8 * |before|, bits)
    decreases |bits|
  {
    hide At, BitAt, Value, Packed;
    if bits == [] {
      NothingAt(before + Packed(bits) + after, 8 * |before|);
    } else {
      var n := if |bits| < 8 then |bits| else 8;
      var b := FirstByte(bits, n);
      var input := before + Packed(bits) + after;
      assert input == (before + [b]) + Packed(bits[n..]) + after;
      assert input[|before|] == b;
      PackedAt(before + [b], bits[n..], after);
      ByteHas(input, |before|, bits[..n]);
      JoinFirst(input, 8 * |before|, bits, n);
    }
  }

  lemma FirstByte(bits: seq<bit>, n: nat) returns (b: u8)
    requires bits != [] && n == if |bits| < 8 then |bits| else 8
    ensures b == Value(bits[..n]) && Packed(bits) == [b] + Packed(bits[n..])
  {
    hide Value;
    ValueBound(bits[..n]);
    b := Value(bits[..n]);
  }

  lemma JoinFirst(input: seq<u8>, p: nat, bits: seq<bit>, n: nat)
    requires n <= |bits| && At(input, p, bits[..n]) && (n == |bits| || n == 8)
    requires At(input, p + 8, bits[n..])
    ensures At(input, p, bits)
  {
    hide At;
    if n == |bits| {
      assert bits[..n] == bits;
    } else {
      assert bits == bits[..n] + bits[n..];
      AtJoin(input, p, bits[..n], bits[n..]);
    }
  }

  lemma NothingAt(input: seq<u8>, p: nat)
    ensures At(input, p, [])
  {
  }

  lemma AtJoin(input: seq<u8>, p: nat, a: seq<bit>, b: seq<bit>)
    requires At(input, p, a) && At(input, p + |a|, b)
    ensures At(input, p, a + b)
  {
    hide BitAt;
    forall i | 0 <= i < |a + b|
      ensures BitAt(input, p + i) == (a + b)[i]
    {
      if i >= |a| {
        assert BitAt(input, p + |a| + (i - |a|)) == b[i - |a|];
      }
    }
  }

  lemma ByteHas(input: seq<u8>, k: nat, bits: seq<bit>)
    requires k < |input| && |bits| <= 8 && input[k] == Value(bits)
    ensures At(input, 8 * k, bits)
  {
    hide Shr, Value;
    forall i | 0 <= i < |bits|
      ensures BitAt(input, 8 * k + i) == bits[i]
    {
      assert (8 * k + i) / 8 == k && (8 * k + i) % 8 == i;
      ValueBit(bits, i);
    }
  }

  /* ---- The round trip ---- */

  // A zlib stream: the two header bytes, the blocks, and what follows them.
  function ZlibStream(blocks: seq<Block>, trailer: seq<u8>): seq<u8>
    requires ValidStream(blocks, [])
  {
    [0x78, 0x01] + Packed(StreamBits(blocks, 16, [])) + trailer
  }

  lemma StreamNotEmpty(blocks: seq<Block>, p: nat, out: seq<u8>)
    requires ValidStream(blocks, out)
    ensures StreamBits(blocks, p, out) != []
  {
    hide BodyBits;
  }

  // A written stream is a good one, and the reference decoder gives its text.
  lemma Written(blocks: seq<Block>, trailer: seq<u8>)
    requires ValidStream(blocks, [])
    ensures var input, n := ZlibStream(blocks, trailer), |StreamBits(blocks, 16, [])|;
      && Zlib.GoodHeader(input) && Inflate(input, 16, []) == Done(16 + n, StreamText(blocks, []))
      && 16 + n + 8 * |trailer| <= 8 * |input|
  {
    hide At, Inflate, StreamBits, StreamText, ValidStream;
    var bits := StreamBits(blocks, 16, []);
    StreamNotEmpty(blocks, 16, []);
    PackedAt([0x78, 0x01], bits, trailer);
    StreamRead(blocks, ZlibStream(blocks, trailer), 16, []);
  }

  // Decoding a written stream gives its text back, whatever blocks and codes it was written with.
  method RoundTrip(blocks: seq<Block>, trailer: seq<u8>, initialSize: nat, canAlloc: nat -> bool, budget: nat)
    returns (text: Option<seq<u8>>)
    requires ValidStream(blocks, []) && |trailer| >= 2 && 0 < initialSize <= Zlib.UINT_MAX
    requires 2 * |StreamText(blocks, [])| <= Zlib.UINT_MAX && forall n: nat :: canAlloc(n)
    requires budget > 16 + |StreamBits(blocks, 16, [])|
    ensures text == Some(StreamText(blocks, []))
  {
    hide Inflate, StreamBits, StreamText, ValidStream, Zlib.GoodHeader, ZlibStream;
    Written(blocks, trailer);
    var failure;
    text, failure := Zlib.ZlibDecode(ZlibStream(blocks, trailer), initialSize, canAlloc, budget);
  }

  // Every text can be written.
  function InStored(text: seq<u8>): (blocks: seq<Block>)
    ensures blocks != []
    decreases |text|
  {
    if |text| < 0x1_0000 then [Stored(text)] else [Stored(text[..0xFFFF])] + InStored(text[0xFFFF..])
  }

  lemma {:induction false} EveryTextWritable(text: seq<u8>, out: seq<u8>)
    ensures ValidStream(InStored(text), out) && StreamText(InStored(text), out) == out + text
    decreases |text|
  {
    if |text| >= 0x1_0000 {
      var rest := InStored(text[0xFFFF..]);
      assert InStored(text)[1..] == rest;
      EveryTextWritable(text[0xFFFF..], out + text[..0xFFFF]);
      assert out + text[..0xFFFF] + text[0xFFFF..] == out + text;
    }
  }
}
