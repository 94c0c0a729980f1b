/** C shifts and masks, bit reversal, and the little-endian bit stream of a byte buffer.
    Shifts are defined one bit at a time, so that every proof about them is linear. */
module Bits {
  import Division

  type u8 = x: int | 0 <= x < 0x100
  type u16 = x: int | 0 <= x < 0x1_0000

  /* ---- Shifts and masks on natural numbers ---- */

  // v << n
  function Shl(v: nat, n: nat): nat {
    if n == 0 then v else 2 * Shl(v, n - 1)
  }

  // v >> n
  function Shr(v: nat, n: nat): nat
    decreases n
  {
    if n == 0 then v else Shr(v / 2, n - 1)
  }

  // v & ((1 << n) - 1)
  function Low(v: nat, n: nat): nat
    decreases n
  {
    if n == 0 then 0 else v % 2 + 2 * Low(v / 2, n - 1)
  }

  lemma {:induction false} ShlAdd(v: nat, m: nat, n: nat)
    ensures Shl(v, m + n) == Shl(Shl(v, m), n)
  {
    if n != 0 {
      ShlAdd(v, m, n - 1);
      assert m + n - 1 == m + (n - 1);
    }
  }

  lemma {:induction false} ShlMonotone(v: nat, w: nat, n: nat)
    ensures v <= w <==> Shl(v, n) <= Shl(w, n)
    ensures v < w <==> Shl(v, n) < Shl(w, n)
  {
    if n != 0 {
      ShlMonotone(v, w, n - 1);
    }
  }

  lemma {:induction false} ShlSum(v: nat, w: nat, n: nat)
    ensures Shl(v + w, n) == Shl(v, n) + Shl(w, n)
  {
    if n != 0 {
      ShlSum(v, w, n - 1);
    }
  }

  // The one-bit step of << taken at the other end.
  lemma {:induction false} ShlInner(v: nat, n: nat)
    ensures Shl(2 * v, n) == 2 * Shl(v, n)
  {
    if n != 0 {
      ShlInner(v, n - 1);
    }
  }

  lemma ShlBy8(v: nat)
    ensures Shl(v, 8) == 0x100 * v
  {
    assert Shl(v, 1) == 2 * v;
    assert Shl(v, 2) == 4 * v;
    assert Shl(v, 3) == 8 * v;
    assert Shl(v, 4) == 16 * v;
    assert Shl(v, 5) == 32 * v;
    assert Shl(v, 6) == 64 * v;
    assert Shl(v, 7) == 128 * v;
  }

  lemma {:induction false} Pow2Monotone(m: nat, n: nat)
    requires m <= n
    ensures 0 < Shl(1, m) <= Shl(1, n)
    decreases n
  {
    if m < n {
      Pow2Monotone(m, n - 1);
    } else if m != 0 {
      Pow2Monotone(m - 1, m - 1);
    }
  }

  // Comparing the top bits is comparing with the shifted bound.
  lemma {:induction false} ShrLess(k: nat, bound: nat, n: nat)
    ensures Shr(k, n) < bound <==> k < Shl(bound, n)
    decreases n
  {
    if n != 0 {
      ShrLess(k / 2, bound, n - 1);
    }
  }

  lemma {:induction false} ShrAdd(v: nat, m: nat, n: nat)
    ensures Shr(v, m + n) == Shr(Shr(v, m), n)
    decreases m
  {
    if m != 0 {
      ShrAdd(v / 2, m - 1, n);
    }
  }

  lemma {:induction false} LowBound(v: nat, n: nat)
    ensures Low(v, n) < Shl(1, n)
    ensures v < Shl(1, n) ==> Low(v, n) == v
    decreases n
  {
    if n != 0 {
      LowBound(v / 2, n - 1);
    }
  }

  lemma {:induction false} LowAddPow2(v: nat, n: nat)
    ensures Low(v + Shl(1, n), n) == Low(v, n)
    decreases n
  {
    if n != 0 {
      LowAddPow2(v / 2, n - 1);
      assert (v + Shl(1, n)) / 2 == v / 2 + Shl(1, n - 1);
    }
  }

  // Numbers that agree on their low n bits are at least 2^n apart.
  lemma {:induction false} LowApart(v: nat, w: nat, n: nat)
    requires v < w && Low(v, n) == Low(w, n)
    ensures v + Shl(1, n) <= w
    decreases n
  {
    if n != 0 {
      LowApart(v / 2, w / 2, n - 1);
    }
  }

  lemma {:induction false} LowLow(v: nat, m: nat, n: nat)
    requires n <= m
    ensures Low(Low(v, m), n) == Low(v, n)
    decreases n
  {
    if n != 0 {
      LowLow(v / 2, m - 1, n - 1);
      assert Low(v, m) / 2 == Low(v / 2, m - 1);
    }
  }

  /* ---- The bit stream: section 3.1.1 of RFC 1951 ---- */

  // Byte i of the input; past the end the decoder supplies zero bytes.
  function ByteAt(input: seq<u8>, i: nat): u8 {
    if i < |input| then input[i] else 0
  }

  // Bit p of the stream; each byte is packed starting with its least significant bit.
  function BitAt(input: seq<u8>, p: nat): (b: nat)
    ensures b < 2
  {
    Shr(ByteAt(input, p / 8), p % 8) % 2
  }

  // The n bits from p on, least significant first: how integer fields are packed.
  function Field(input: seq<u8>, p: nat, n: nat): nat
    decreases n
  {
    if n == 0 then 0 else BitAt(input, p) + 2 * Field(input, p + 1, n - 1)
  }

  // The n bits from p on, most significant first: how Huffman codes are packed.
  function CodeBits(input: seq<u8>, p: nat, n: nat): nat {
    if n == 0 then 0 else 2 * CodeBits(input, p, n - 1) + BitAt(input, p + n - 1)
  }

  lemma {:induction false} FieldBound(input: seq<u8>, p: nat, n: nat)
    ensures Field(input, p, n) < Shl(1, n)
    decreases n
  {
    if n != 0 {
      FieldBound(input, p + 1, n - 1);
    }
  }

  lemma {:induction false} CodeBitsBound(input: seq<u8>, p: nat, n: nat)
    ensures CodeBits(input, p, n) < Shl(1, n)
  {
    if n != 0 {
      CodeBitsBound(input, p, n - 1);
    }
  }

  // Appending n more bits puts them above the m bits already there, as stbi__fill_bits does;
  // shifting the m bits out or masking them off takes the two parts apart again.
  lemma {:induction false} FieldSplit(input: seq<u8>, p: nat, m: nat, n: nat)
    ensures Field(input, p, m + n) == Field(input, p, m) + Shl(Field(input, p + m, n), m)
    ensures Shr(Field(input, p, m + n), m) == Field(input, p + m, n)
    ensures Low(Field(input, p, m + n), m) == Field(input, p, m)
    decreases m
  {
    if m != 0 {
      FieldSplit(input, p + 1, m - 1, n);
      assert p + m == p + 1 + (m - 1) && m + n - 1 == m - 1 + n;
      assert Field(input, p, m + n) / 2 == Field(input, p + 1, m - 1 + n);
    }
  }

  // The first m of m + n code bits.
  lemma {:induction false} CodeBitsShr(input: seq<u8>, p: nat, m: nat, n: nat)
    ensures Shr(CodeBits(input, p, m + n), n) == CodeBits(input, p, m)
    decreases n
  {
    if n != 0 {
      assert m + n - 1 == m + (n - 1);
      assert CodeBits(input, p, m + n) / 2 == CodeBits(input, p, m + (n - 1));
      CodeBitsShr(input, p, m, n - 1);
    }
  }

  // The n bits of a byte from bit k on.
  lemma {:induction false} FieldInByte(input: seq<u8>, i: nat, k: nat, n: nat)
    requires k + n == 8
    ensures Field(input, 8 * i + k, n) == Shr(ByteAt(input, i), k)
    decreases n
  {
    var b := ByteAt(input, i);
    if n == 0 {
      ShrLess(b, 1, 8);
      assert Shl(1, 8) == 256;
    } else {
      FieldInByte(input, i, k + 1, n - 1);
      assert (8 * i + k) / 8 == i && (8 * i + k) % 8 == k;
      ShrAdd(b, k, 1);
      assert Shr(b, k + 1) == Shr(Shr(b, k), 1) == Shr(b, k) / 2;
    }
  }

  lemma FieldOfByte(input: seq<u8>, i: nat)
    ensures Field(input, 8 * i, 8) == ByteAt(input, i)
  {
    FieldInByte(input, i, 0, 8);
  }

  /* ---- Bit reversal ---- */

  // The low n bits of v in the opposite order.
  function Reverse(v: nat, n: nat): nat
    decreases n
  {
    if n == 0 then 0 else Shl(v % 2, n - 1) + Reverse(v / 2, n - 1)
  }

  lemma {:induction false} ReverseBound(v: nat, n: nat)
    ensures Reverse(v, n) < Shl(1, n)
    decreases n
  {
    if n != 0 {
      ReverseBound(v / 2, n - 1);
      ShlMonotone(v % 2, 1, n - 1);
    }
  }

  lemma {:induction false} ReverseLow(v: nat, n: nat)
    ensures Reverse(Low(v, n), n) == Reverse(v, n)
    decreases n
  {
    if n != 0 {
      ReverseLow(v / 2, n - 1);
      assert Low(v, n) / 2 == Low(v / 2, n - 1) && Low(v, n) % 2 == v % 2;
    }
  }

  // Reversal of a number whose bit n - 1 is b and whose lower bits are w.
  lemma {:induction false} ReverseTop(b: nat, w: nat, n: nat)
    requires n > 0 && b < 2 && w < Shl(1, n - 1)
    ensures Reverse(Shl(b, n - 1) + w, n) == 2 * Reverse(w, n - 1) + b
    decreases n
  {
    if n > 1 {
      var v := Shl(b, n - 1) + w;
      assert v / 2 == Shl(b, n - 2) + w / 2 && v % 2 == w % 2;
      ReverseTop(b, w / 2, n - 1);
    } else {
      assert Shl(1, 0) == 1;
      assert Reverse(b, 1) == Shl(b % 2, 0) + Reverse(b / 2, 0);
    }
  }

  lemma {:induction false} ReverseInvolution(v: nat, n: nat)
    requires v < Shl(1, n)
    ensures Reverse(Reverse(v, n), n) == v
    decreases n
  {
    if n != 0 {
      ReverseInvolution(v / 2, n - 1);
      ReverseBound(v / 2, n - 1);
      ReverseTop(v % 2, Reverse(v / 2, n - 1), n);
    }
  }

  // Reversing over more bits than v has shifts the reversal up.
  lemma {:induction false} ReverseWide(v: nat, n: nat, extra: nat)
    requires v < Shl(1, n)
    ensures Reverse(v, n + extra) == Shl(Reverse(v, n), extra)
    decreases n + extra
  {
    if n == 0 && extra != 0 {
      ReverseWide(0, 0, extra - 1);
      ShlZero(extra);
      ShlZero(extra - 1);
    } else if n != 0 {
      ReverseWide(v / 2, n - 1, extra);
      ShlAdd(v % 2, n - 1, extra);
      ShlSum(Shl(v % 2, n - 1), Reverse(v / 2, n - 1), extra);
    }
  }

  lemma {:induction false} ShlZero(n: nat)
    ensures Shl(0, n) == 0
  {
    if n != 0 {
      ShlZero(n - 1);
    }
  }

  lemma {:induction false} ShrShl(v: nat, n: nat)
    ensures Shr(Shl(v, n), n) == v
  {
    if n != 0 {
      ShrShl(v, n - 1);
    }
  }

  lemma {:induction false} CodeBitsFront(input: seq<u8>, p: nat, n: nat)
    requires n > 0
    ensures CodeBits(input, p, n) == Shl(BitAt(input, p), n - 1) + CodeBits(input, p + 1, n - 1)
  {
    if n > 1 {
      CodeBitsFront(input, p, n - 1);
    }
  }

  // A Huffman code read most significant bit first is the reversal of the buffered field.
  lemma {:induction false} ReverseField(input: seq<u8>, p: nat, n: nat)
    ensures Reverse(Field(input, p, n), n) == CodeBits(input, p, n)
    decreases n
  {
    hide BitAt;
    if n != 0 {
      ReverseField(input, p + 1, n - 1);
      CodeBitsFront(input, p, n);
      FieldFront(input, p, n);
    }
  }

  lemma FieldFront(input: seq<u8>, p: nat, n: nat)
    requires n > 0
    ensures Field(input, p, n) % 2 == BitAt(input, p) && Field(input, p, n) / 2 == Field(input, p + 1, n - 1)
  {
  }

  /* ---- Bitwise operators on natural numbers ---- */

  // Bit i of a number.
  predicate Bit(n: nat, i: nat) {
    Shr(n, i) % 2 == 1
  }

  // v & w
  function And(v: nat, w: nat): nat
    decreases v
  {
    if v == 0 then 0 else (if v % 2 == 1 && w % 2 == 1 then 1 else 0) + 2 * And(v / 2, w / 2)
  }

  // v | w
  function Or(v: nat, w: nat): nat
    decreases v
  {
    if v == 0 then w else (if v % 2 == 1 || w % 2 == 1 then 1 else 0) + 2 * Or(v / 2, w / 2)
  }

  lemma ZeroBit(i: nat)
    ensures !Bit(0, i)
  {
    ShrZero(i);
  }

  lemma {:induction false} ShrZero(i: nat)
    ensures Shr(0, i) == 0
  {
    if i != 0 {
      ShrZero(i - 1);
    }
  }

  lemma BitOfHalf(v: nat, i: nat)
    requires i > 0
    ensures Bit(v, i) == Bit(v / 2, i - 1)
  {
  }

  lemma {:induction false} AndBit(v: nat, w: nat, i: nat)
    ensures Bit(And(v, w), i) == (Bit(v, i) && Bit(w, i))
    decreases i
  {
    if v == 0 {
      ZeroBit(i);
    } else if i != 0 {
      BitOfHalf(And(v, w), i);
      BitOfHalf(v, i);
      BitOfHalf(w, i);
      AndBit(v / 2, w / 2, i - 1);
    }
  }

  lemma {:induction false} OrBit(v: nat, w: nat, i: nat)
    ensures Bit(Or(v, w), i) == (Bit(v, i) || Bit(w, i))
    decreases i
  {
    if v == 0 {
      ZeroBit(i);
    } else if i != 0 {
      BitOfHalf(Or(v, w), i);
      BitOfHalf(v, i);
      BitOfHalf(w, i);
      OrBit(v / 2, w / 2, i - 1);
    }
  }

  lemma {:induction false} SomeBit(w: nat) returns (i: nat)
    requires w > 0
    ensures Bit(w, i)
  {
    if w % 2 == 1 {
      i := 0;
    } else {
      i := SomeBit(w / 2);
      i := i + 1;
    }
  }

  // (v & w) == w: every bit of w is one of v.
  lemma AndIsAll(v: nat, w: nat)
    ensures And(v, w) == w <==> forall i: nat :: Bit(w, i) ==> Bit(v, i)
  {
    hide And, Bit;
    if And(v, w) == w {
      forall i: nat | Bit(w, i)
        ensures Bit(v, i)
      {
        AndBit(v, w, i);
      }
    } else if forall i: nat :: Bit(w, i) ==> Bit(v, i) {
      AndCovered(v, w);
    }
  }

  lemma {:induction false} AndCovered(v: nat, w: nat)
    requires forall i: nat :: Bit(w, i) ==> Bit(v, i)
    ensures And(v, w) == w
    decreases v
  {
    if v == 0 {
      if w > 0 {
        var i := SomeBit(w);
        ZeroBit(i);
      }
    } else {
      forall i: nat | Bit(w / 2, i)
        ensures Bit(v / 2, i)
      {
        BitOfHalf(w, i + 1);
        BitOfHalf(v, i + 1);
      }
      AndCovered(v / 2, w / 2);
      assert Bit(w, 0) ==> Bit(v, 0);
    }
  }

  // (v & w) != 0: they share a bit.
  lemma AndIsAny(v: nat, w: nat)
    ensures And(v, w) != 0 <==> exists i: nat :: Bit(w, i) && Bit(v, i)
  {
    hide And, Bit;
    if And(v, w) != 0 {
      var i := SomeBit(And(v, w));
      AndBit(v, w, i);
    } else if i: nat :| Bit(w, i) && Bit(v, i) {
      AndBit(v, w, i);
      ZeroBit(i);
    }
  }

  lemma ShrBit(v: nat, n: nat, i: nat)
    ensures Bit(Shr(v, n), i) == Bit(v, n + i)
  {
    ShrAdd(v, n, i);
  }

  lemma {:induction false} ShlBit(v: nat, n: nat, i: nat)
    ensures Bit(Shl(v, n), i) == (i >= n && Bit(v, i - n))
    decreases n
  {
    if n != 0 {
      if i != 0 {
        assert Shl(v, n) / 2 == Shl(v, n - 1);
        ShlBit(v, n - 1, i - 1);
      }
    }
  }

  lemma {:induction false} LowBit(v: nat, n: nat, i: nat)
    ensures Bit(Low(v, n), i) == (i < n && Bit(v, i))
    decreases n
  {
    if n == 0 {
      ZeroBit(i);
    } else if i != 0 {
      assert Low(v, n) / 2 == Low(v / 2, n - 1);
      LowBit(v / 2, n - 1, i - 1);
    }
  }

  // Numbers below 2^n with the same bits are equal.
  lemma {:induction false} SameBits(v: nat, w: nat, n: nat)
    requires v < Shl(1, n) && w < Shl(1, n)
    requires forall i: nat :: i < n ==> Bit(v, i) == Bit(w, i)
    ensures v == w
    decreases n
  {
    if n != 0 {
      forall i: nat | i < n - 1
        ensures Bit(v / 2, i) == Bit(w / 2, i)
      {
        assert Bit(v, i + 1) == Bit(w, i + 1);
      }
      SameBits(v / 2, w / 2, n - 1);
      assert Bit(v, 0) == Bit(w, 0);
    }
  }

  lemma {:induction false} PowerBit(k: nat, i: nat)
    ensures Bit(Shl(1, k), i) == (i == k)
    decreases k
  {
    ShlBit(1, k, i);
    if i > k {
      OneBit(i - k);
    }
  }

  lemma OneBit(i: nat)
    requires i > 0
    ensures !Bit(1, i)
  {
    BitOfHalf(1, i);
    ZeroBit(i - 1);
  }

  // (v & (1 << k)) != 0
  lemma TestBit(v: nat, k: nat)
    ensures And(v, Shl(1, k)) != 0 <==> Bit(v, k)
  {
    var w := And(v, Shl(1, k));
    AndBit(v, Shl(1, k), k);
    PowerBit(k, k);
    if w == 0 {
      ZeroBit(k);
    } else {
      var i := SomeBit(w);
      AndBit(v, Shl(1, k), i);
      PowerBit(k, i);
    }
  }

  // Shifting right divides.
  lemma {:induction false} ShrDivides(v: nat, n: nat)
    ensures Shl(1, n) > 0 && Shr(v, n) == v / Shl(1, n)
    decreases n
  {
    if n != 0 {
      ShrDivides(v / 2, n - 1);
      Division.HalfQuotient(v, Shl(1, n - 1));
    }
  }

  // Masking off all but the low bits takes the remainder.
  lemma {:induction false} LowDivides(v: nat, n: nat)
    ensures Shl(1, n) > 0 && Low(v, n) == v % Shl(1, n)
    decreases n
  {
    if n != 0 {
      LowDivides(v / 2, n - 1);
      Doubled(v, Shl(1, n - 1));
    }
  }

  lemma Doubled(v: nat, b: nat)
    requires b > 0
    ensures v % (2 * b) == v % 2 + 2 * (v / 2 % b)
  {
    var h := v / 2;
    assert h == h / b * b + h % b;
    assert h / b * (2 * b) == 2 * (h / b * b);
    Division.RemainderUnique(v, 2 * b, h / b, v % 2 + 2 * (h % b));
  }

  /* ---- stbi__bitreverse16: the mask-and-shift network ---- */

  // One stage: exchange the groups of bits selected by two masks, d places apart.
  function SwapStage(n: nat, high: nat, low: nat, d: nat): nat {
    Or(Shr(And(n, high), d), Shl(And(n, low), d))
  }

  function BitReverse16(n: nat): nat {
    var n1 := SwapStage(n, 0xAAAA, 0x5555, 1);
    var n2 := SwapStage(n1, 0xCCCC, 0x3333, 2);
    var n3 := SwapStage(n2, 0xF0F0, 0x0F0F, 4);
    SwapStage(n3, 0xFF00, 0x00FF, 8)
  }

  // stbi__bit_reverse
  function BitReverse(v: nat, bits: nat): nat
    requires bits <= 16
  {
    Shr(BitReverse16(v), 16 - bits)
  }

  // Place i lies in an odd group of d places (d is 1, 2, 4 or 8).
  predicate OddGroup(i: nat, d: nat) {
    GroupOf(i, d) % 2 == 1
  }

  function GroupOf(i: nat, d: nat): nat {
    if d == 1 then i else if d == 2 then i / 2 else if d == 4 then i / 4 else i / 8
  }

  // The n-bit mask whose bit k selects place i + k exactly when that lies in an odd (or even) group.
  function Pattern(i: nat, n: nat, d: nat, odd: bool): nat
    decreases n
  {
    if n == 0 then 0 else (if OddGroup(i, d) == odd then 1 else 0) + 2 * Pattern(i + 1, n - 1, d, odd)
  }

  lemma {:induction false} PatternBit(i: nat, n: nat, d: nat, odd: bool, k: nat)
    ensures Bit(Pattern(i, n, d, odd), k) == (k < n && OddGroup(i + k, d) == odd)
    decreases n
  {
    if n == 0 {
      ZeroBit(k);
    } else if k != 0 {
      assert Pattern(i, n, d, odd) / 2 == Pattern(i + 1, n - 1, d, odd);
      PatternBit(i + 1, n - 1, d, odd, k - 1);
      assert i + 1 + (k - 1) == i + k;
    }
  }

  // A mask selects the odd (or the even) groups among the low sixteen places.
  ghost predicate Selects(mask: nat, d: nat, odd: bool) {
    forall k: nat :: Bit(mask, k) == (k < 16 && OddGroup(k, d) == odd)
  }

  lemma PatternSelects(mask: nat, n: nat, d: nat, odd: bool)
    requires n == 16 && mask == Pattern(0, n, d, odd)
    ensures Selects(mask, d, odd)
  {
    forall k: nat
      ensures Bit(mask, k) == (k < 16 && OddGroup(k, d) == odd)
    {
      PatternBit(0, n, d, odd, k);
    }
  }

  lemma PatternValues1(odd: bool)
    ensures Pattern(0, 16, 1, odd) == if odd then 0xAAAA else 0x5555
  {
    assert Pattern(12, 4, 1, odd) == if odd then 0xA else 0x5;
    assert Pattern(8, 8, 1, odd) == if odd then 0xAA else 0x55;
    assert Pattern(4, 12, 1, odd) == if odd then 0xAAA else 0x555;
  }

  lemma PatternValues2(odd: bool)
    ensures Pattern(0, 16, 2, odd) == if odd then 0xCCCC else 0x3333
  {
    assert Pattern(12, 4, 2, odd) == if odd then 0xC else 0x3;
    assert Pattern(8, 8, 2, odd) == if odd then 0xCC else 0x33;
    assert Pattern(4, 12, 2, odd) == if odd then 0xCCC else 0x333;
  }

  lemma PatternValues4(odd: bool)
    ensures Pattern(0, 16, 4, odd) == if odd then 0xF0F0 else 0x0F0F
  {
    assert Pattern(12, 4, 4, odd) == if odd then 0xF else 0x0;
    assert Pattern(8, 8, 4, odd) == if odd then 0xF0 else 0x0F;
    assert Pattern(4, 12, 4, odd) == if odd then 0xF0F else 0x0F0;
  }

  lemma PatternValues8(odd: bool)
    ensures Pattern(0, 16, 8, odd) == if odd then 0xFF00 else 0x00FF
  {
    assert Pattern(12, 4, 8, odd) == if odd then 0xF else 0x0;
    assert Pattern(8, 8, 8, odd) == if odd then 0xFF else 0x00;
    assert Pattern(4, 12, 8, odd) == if odd then 0xFF0 else 0x00F;
  }

  lemma StageMasks(odd: bool)
    ensures Selects(if odd then 0xAAAA else 0x5555, 1, odd)
    ensures Selects(if odd then 0xCCCC else 0x3333, 2, odd)
    ensures Selects(if odd then 0xF0F0 else 0x0F0F, 4, odd)
    ensures Selects(if odd then 0xFF00 else 0x00FF, 8, odd)
  {
    hide Pattern, Selects;
    PatternValues1(odd);
    PatternValues2(odd);
    PatternValues4(odd);
    PatternValues8(odd);
    PatternSelects(if odd then 0xAAAA else 0x5555, 16, 1, odd);
    PatternSelects(if odd then 0xCCCC else 0x3333, 16, 2, odd);
    PatternSelects(if odd then 0xF0F0 else 0x0F0F, 16, 4, odd);
    PatternSelects(if odd then 0xFF00 else 0x00FF, 16, 8, odd);
  }

  // Where bit i of a stage's result comes from.
  function Partner(i: nat, d: nat): nat {
    if !OddGroup(i, d) then i + d else if i >= d then i - d else 0
  }

  lemma StageBit(n: nat, high: nat, low: nat, d: nat, i: nat)
    ensures Bit(SwapStage(n, high, low, d), i)
      == ((Bit(n, d + i) && Bit(high, d + i)) || (i >= d && Bit(n, i - d) && Bit(low, i - d)))
  {
    OrBit(Shr(And(n, high), d), Shl(And(n, low), d), i);
    ShrBit(And(n, high), d, i);
    AndBit(n, high, d + i);
    ShlBit(And(n, low), d, i);
    if i >= d {
      AndBit(n, low, i - d);
    }
  }

  lemma SwapStageBit(n: nat, high: nat, low: nat, d: nat, i: nat)
    requires d in {1, 2, 4, 8} && i < 16
    requires Selects(high, d, true) && Selects(low, d, false)
    ensures Partner(i, d) < 16
    ensures Bit(SwapStage(n, high, low, d), i) == Bit(n, Partner(i, d))
  {
    StageBit(n, high, low, d, i);
    PartnerGroup(i, d);
  }

  lemma PartnerGroup(i: nat, d: nat)
    requires d in {1, 2, 4, 8} && i < 16
    ensures OddGroup(i + d, d) == !OddGroup(i, d)
    ensures i >= d ==> OddGroup(i - d, d) == !OddGroup(i, d)
    ensures OddGroup(i, d) ==> i >= d
    ensures !OddGroup(i, d) ==> i + d < 16
  {
    NextGroup(i, d);
    if i >= d {
      NextGroup(i - d, d);
    }
  }

  lemma NextGroup(i: nat, d: nat)
    requires d in {1, 2, 4, 8}
    ensures OddGroup(i + d, d) == !OddGroup(i, d)
  {
    hide GroupOf;
    GroupStep(i, d);
    Flips(GroupOf(i, d));
  }

  lemma GroupStep(i: nat, d: nat)
    requires d in {1, 2, 4, 8}
    ensures GroupOf(i + d, d) == GroupOf(i, d) + 1
  {
    if d == 2 {
      Division.QuotientUnique(i + 2, 2, i / 2 + 1);
    } else if d == 4 {
      Division.QuotientUnique(i + 4, 4, i / 4 + 1);
    } else if d == 8 {
      Division.QuotientUnique(i + 8, 8, i / 8 + 1);
    }
  }

  lemma Flips(n: nat)
    ensures (n + 1) % 2 == 1 <==> n % 2 == 0
  {
  }

  lemma Pow2Of16()
    ensures Shl(1, 16) == 0x1_0000
  {
    ShlAdd(1, 8, 8);
    assert Shl(1, 8) == 0x100 && Shl(0x100, 8) == 0x1_0000;
  }

  lemma {:induction false} ReverseBit(n: nat, k: nat, i: nat)
    requires i < k
    ensures Bit(Reverse(n, k), i) == Bit(n, k - 1 - i)
    decreases k
  {
    ReverseBound(n / 2, k - 1);
    if i == k - 1 {
      TopBit(n % 2, Reverse(n / 2, k - 1), k - 1);
    } else {
      LowerBits(n % 2, Reverse(n / 2, k - 1), k - 1, i);
      ReverseBit(n / 2, k - 1, i);
    }
  }

  lemma {:induction false} TopBit(b: nat, w: nat, n: nat)
    requires b < 2 && w < Shl(1, n)
    ensures Bit(Shl(b, n) + w, n) == (b == 1)
    decreases n
  {
    if n != 0 {
      TopBit(b, w / 2, n - 1);
      assert (Shl(b, n) + w) / 2 == Shl(b, n - 1) + w / 2;
    }
  }

  lemma {:induction false} LowerBits(b: nat, w: nat, n: nat, i: nat)
    requires i < n
    ensures Bit(Shl(b, n) + w, i) == Bit(w, i)
    decreases n
  {
    if i != 0 {
      LowerBits(b, w / 2, n - 1, i - 1);
      assert (Shl(b, n) + w) / 2 == Shl(b, n - 1) + w / 2;
    }
  }

  lemma PartnerPath(i: nat)
    requires i < 16
    ensures Partner(Partner(Partner(Partner(i, 8), 4), 2), 1) == 15 - i
  {
  }

  // The four stages take bit i from place 15 - i.
  lemma BitReverse16Bit(n: nat, i: nat)
    requires i < 16
    ensures Bit(BitReverse16(n), i) == Bit(n, 15 - i)
  {
    var n1 := SwapStage(n, 0xAAAA, 0x5555, 1);
    var n2 := SwapStage(n1, 0xCCCC, 0x3333, 2);
    var n3 := SwapStage(n2, 0xF0F0, 0x0F0F, 4);
    StageMasks(true);
    StageMasks(false);
    PartnerPath(i);
    var i3 := Partner(i, 8);
    var i2 := Partner(i3, 4);
    var i1 := Partner(i2, 2);
    SwapStageBit(n3, 0xFF00, 0x00FF, 8, i);
    SwapStageBit(n2, 0xF0F0, 0x0F0F, 4, i3);
    SwapStageBit(n1, 0xCCCC, 0x3333, 2, i2);
    SwapStageBit(n, 0xAAAA, 0x5555, 1, i1);
  }

  lemma {:induction false} AndBound(v: nat, w: nat)
    ensures And(v, w) <= w && And(v, w) <= v
    decreases v
  {
    if v != 0 {
      AndBound(v / 2, w / 2);
    }
  }

  lemma {:induction false} OrBound(v: nat, w: nat, n: nat)
    requires v < Shl(1, n) && w < Shl(1, n)
    ensures Or(v, w) < Shl(1, n)
    decreases n
  {
    if v != 0 {
      OrBound(v / 2, w / 2, n - 1);
    }
  }

  // The network reverses the low sixteen bits of any integer.
  lemma BitReverse16Correct(n: nat)
    ensures BitReverse16(n) == Reverse(n, 16)
  {
    var n3 := SwapStage(SwapStage(SwapStage(n, 0xAAAA, 0x5555, 1), 0xCCCC, 0x3333, 2), 0xF0F0, 0x0F0F, 4);
    var high, low := And(n3, 0xFF00), And(n3, 0x00FF);
    AndBound(n3, 0xFF00);
    AndBound(n3, 0x00FF);
    Pow2Of16();
    ShrLess(high, 0x100, 8);
    assert Shl(0x100, 8) == 0x1_0000;
    ShlMonotone(low, 0x100, 8);
    OrBound(Shr(high, 8), Shl(low, 8), 16);
    ReverseBound(n, 16);
    forall i: nat | i < 16
      ensures Bit(BitReverse16(n), i) == Bit(Reverse(n, 16), i)
    {
      BitReverse16Bit(n, i);
      ReverseBit(n, 16, i);
    }
    SameBits(BitReverse16(n), Reverse(n, 16), 16);
  }

  // Reversing sixteen bits and shifting the excess away reverses a shorter number.
  lemma BitReverseCorrect(v: nat, bits: nat)
    requires bits <= 16 && v < Shl(1, bits)
    ensures BitReverse(v, bits) == Reverse(v, bits)
  {
    BitReverse16Correct(v);
    ReverseWide(v, bits, 16 - bits);
    ShrShl(Reverse(v, bits), 16 - bits);
  }

  // The sixteen buffered bits with the first one on top.
  lemma TopBits(input: seq<u8>, p: nat, n: nat)
    requires n >= 16
    ensures BitReverse(Field(input, p, n), 16) == CodeBits(input, p, 16)
  {
    hide Field, Reverse, CodeBits, Low, BitReverse16;
    var v := Field(input, p, n);
    BitReverse16Correct(v);
    ReverseLow(v, 16);
    FieldSplit(input, p, 16, n - 16);
    ReverseField(input, p, 16);
  }
}
