/** stbi__zbuf: the buffered bit reader, the growing output buffer and the zlib decoder. */
module Zlib {
  import opened Bits
  import opened Canonical
  import opened HuffmanTable
  import opened Deflate
  import opened Options

  const UINT_MAX := 0xFFFF_FFFF

  // Why decoding stopped: the stream is bad, too few bits are left, the output cannot grow, a stored block is longer
  // than the input, or the budget is spent. Endless is where the source goes on doubling a size of zero for ever.
  datatype Failure = Malformed | Starved | OutputLimit | Endless | StoredPastEnd | BudgetSpent

  class ZBuf {
    const input: seq<u8>
    const expandable: bool
    const capacity: nat              // the size of the caller's output buffer
    const canAlloc: nat -> bool      // whether realloc grants a block of that many bytes
    const zlength: ZHuffman
    const zdistance: ZHuffman
    var zpos: nat                    // zbuffer - start of input
    var numBits: nat
    var codeBuffer: nat
    ghost var padding: nat           // zero bytes taken past the end of the input
    var out: array<u8>
    var zout: nat                    // zout - zout_start

    // The caller's input and output buffers.
    constructor (input: seq<u8>, capacity: nat, expandable: bool, canAlloc: nat -> bool)
      requires capacity <= UINT_MAX
      ensures this.input == input && this.capacity == capacity
      ensures this.expandable == expandable && this.canAlloc == canAlloc
      ensures zpos == 0 && numBits == 0 && codeBuffer == 0 && padding == 0
      ensures Sound() && zout == 0 && out.Length == capacity
      ensures fresh(out) && fresh(zlength.Repr()) && fresh(zdistance.Repr())
    {
      this.input := input;
      this.capacity := capacity;
      this.expandable := expandable;
      this.canAlloc := canAlloc;
      zlength := new ZHuffman();
      zdistance := new ZHuffman();
      zpos, numBits, codeBuffer, padding := 0, 0, 0, 0;
      out := new u8[capacity];
      zout := 0;
    }

    // The two tables and the output buffer do not overlap.
    ghost predicate Sound()
      reads this`out, this`zout
    {
      && zlength.Valid() && zdistance.Valid()
      && zlength.Repr() !! zdistance.Repr()
      && out as object !in zlength.Repr() && out as object !in zdistance.Repr()
      && zout <= out.Length <= UINT_MAX && (out.Length == 0 <==> capacity == 0)
    }

    /* ---- The bit reader ---- */

    // The position of the next unread bit.
    ghost function Pos(): int
      reads this`zpos, this`padding, this`numBits
    {
      8 * (zpos + padding) - numBits
    }

    // The code buffer holds the next numBits bits of the zero-padded stream.
    ghost predicate Synced()
      reads this`zpos, this`padding, this`numBits, this`codeBuffer
    {
      && zpos <= |input| && (padding > 0 ==> zpos == |input|)
      && numBits <= 32 && Pos() >= 0
      && codeBuffer == Field(input, Pos(), numBits)
    }

    predicate Eof()
      reads this`zpos
    {
      zpos >= |input|
    }

    // stbi__zget8
    method Get8() returns (b: u8)
      requires zpos <= |input| && (padding > 0 ==> zpos == |input|)
      modifies this`zpos, this`padding
      ensures zpos <= |input| && (padding > 0 ==> zpos == |input|)
      ensures b == ByteAt(input, old(zpos + padding)) && zpos + padding == old(zpos + padding) + 1
      ensures old(zpos) < |input| ==> padding == old(padding)
    {
      if Eof() {
        b := 0;
        padding := padding + 1;
      } else {
        b := input[zpos];
        zpos := zpos + 1;
      }
    }

    // stbi__fill_bits. The buffer never holds a bit at numBits or above, so the guard with which the
    // source detects that never fires, and | amounts to +.
    method FillBits()
      requires Synced() && numBits <= 24
      modifies this`zpos, this`padding, this`numBits, this`codeBuffer
      ensures Synced() && Pos() == old(Pos()) && numBits > 24
    {
      while numBits <= 24
        invariant Synced() && Pos() == old(Pos())
        decreases 32 - numBits
      {
        FillByte();
      }
    }

    method FillByte()
      requires Synced() && numBits <= 24
      modifies this`zpos, this`padding, this`numBits, this`codeBuffer
      ensures Synced() && Pos() == old(Pos()) && numBits == old(numBits) + 8
    {
      hide Field, Shl, Shr, Low;
      FieldBound(input, Pos(), numBits);
      assert codeBuffer < Shl(1, numBits);
      FieldOfByte(input, zpos + padding);
      FieldSplit(input, Pos(), numBits, 8);
      var b := Get8();
      codeBuffer := codeBuffer + Shl(b, numBits);
      numBits := numBits + 8;
    }

    // codeBuffer >>= n; numBits -= n
    method Drop(n: nat)
      requires Synced() && n <= numBits
      modifies this`numBits, this`codeBuffer
      ensures Synced() && Pos() == old(Pos()) + n && numBits == old(numBits) - n
    {
      hide Field, Shl, Shr, Low;
      FieldSplit(input, Pos(), n, numBits - n);
      codeBuffer := Shr(codeBuffer, n);
      numBits := numBits - n;
    }

    // stbi__zreceive
    method Receive(n: nat) returns (k: nat)
      requires Synced() && n <= 16
      modifies this`zpos, this`padding, this`numBits, this`codeBuffer
      ensures Synced() && Pos() == old(Pos()) + n
      ensures k == Field(input, old(Pos()), n) && k < Shl(1, n)
      ensures n > 0 ==> numBits < 32
      ensures old(numBits) >= n ==> zpos == old(zpos) && padding == old(padding) && numBits == old(numBits) - n
    {
      hide Field, Shl, Shr, Low;
      if numBits < n {
        FillBits();
      }
      FieldSplit(input, Pos(), n, numBits - n);
      FieldBound(input, Pos(), n);
      k := Low(codeBuffer, n);
      Drop(n);
    }

    // The decoder refuses to start on a symbol with fewer than 16 bits left at the end of the input.
    predicate OutOfBits()
      reads this`zpos, this`numBits
    {
      numBits < 16 && Eof()
    }

    // stbi__zhuffman_decode: the symbol whose code comes next, or -1.
    method DecodeHuffman(z: ZHuffman, ghost lens: seq<nat>) returns (sym: int)
      requires Synced() && z.Built(lens)
      modifies this`zpos, this`padding, this`numBits, this`codeBuffer
      ensures Synced() && -1 <= sym < |lens|
      ensures sym >= 0 ==>
        DecodeSymbol(lens, input, old(Pos())) == Some(Symbol(sym, lens[sym])) && Pos() == old(Pos()) + lens[sym]
      ensures sym == -1 && !OutOfBits() ==> DecodeSymbol(lens, input, old(Pos())) == None
      ensures sym == -1 ==> Pos() == old(Pos())
    {
      hide Field, Shl, Shr, Low, DecodeSymbol, Fits, ZHuffman.FastReady, ZHuffman.SymbolsReady, ZHuffman.LengthTable;
      if numBits < 16 {
        if Eof() {
          return -1;
        }
        FillBits();
      }
      FieldSplit(input, Pos(), FAST_BITS, numBits - FAST_BITS);
      var j := Low(codeBuffer, FAST_BITS);
      SlotBound(codeBuffer);
      var b := z.fast[j];
      if b != 0 {
        sym := b % 512;
        z.FastFound(lens, input, Pos(), j);
        Drop(b / 512);
      } else {
        sym := DecodeSlow(z, lens);
      }
    }

    static lemma SlotBound(v: nat)
      ensures Low(v, FAST_BITS) < FAST_SIZE
    {
      LowBound(v, FAST_BITS);
      assert Shl(1, 9) == 512;
    }

    // stbi__zhuffman_decode_slowpath
    method DecodeSlow(z: ZHuffman, ghost lens: seq<nat>) returns (sym: int)
      requires Synced() && numBits >= 16 && z.Built(lens)
      requires Low(codeBuffer, FAST_BITS) < FAST_SIZE && z.fast[Low(codeBuffer, FAST_BITS)] == 0
      modifies this`numBits, this`codeBuffer
      ensures Synced() && -1 <= sym < |lens|
      ensures sym >= 0 ==>
        DecodeSymbol(lens, input, old(Pos())) == Some(Symbol(sym, lens[sym])) && Pos() == old(Pos()) + lens[sym]
      ensures sym == -1 ==> DecodeSymbol(lens, input, old(Pos())) == None && numBits == old(numBits)
    {
      hide Field, Shl, Shr, Low, DecodeSymbol, BitReverse, CodeBits, End, Fits, ZHuffman.FastReady,
        ZHuffman.SymbolsReady;
      ghost var p: nat := Pos();
      var k := BitReverse(codeBuffer, 16);
      TopBits(input, p, numBits);
      CodeBitsBound(input, p, 16);
      Pow2Of16();
      FieldSplit(input, p, FAST_BITS, numBits - FAST_BITS);
      z.FastMissed(lens, input, p, Low(codeBuffer, FAST_BITS));
      var s := SlowLength(z, lens, k);
      if s >= 16 {
        z.NothingFound(lens, input, p, k);
        return -1;
      }
      var b := Shr(k, 16 - s) - z.firstcode[s] + z.firstsymbol[s];
      ghost var i := z.SlowFound(lens, input, p, k, s);
      // so the source's checks of b and of size[b] never fail
      assert b < NSYMS && z.size[b] == s;
      Drop(s);
      sym := z.value[b];
    }

    // Its loop: the first length whose bound the code does not reach.
    method SlowLength(z: ZHuffman, ghost lens: seq<nat>, k: nat) returns (s: nat)
      requires z.Built(lens) && k < 0x1_0000
      ensures 10 <= s <= 16 && k < z.maxcode[s] && (s > 10 ==> k >= z.maxcode[s - 1])
    {
      hide Fits, ZHuffman.FastReady, ZHuffman.SymbolsReady;
      s := FAST_BITS + 1;
      while k >= z.maxcode[s]
        invariant 10 <= s <= 16
        invariant s > 10 ==> k >= z.maxcode[s - 1]
        decreases 16 - s
      {
        s := s + 1;
      }
    }

    // At the end of the input fewer than 16 bits are left.
    lemma Ending()
      requires Synced() && OutOfBits()
      ensures Pos() + 16 > 8 * |input|
    {
    }

    /* ---- What a failure means ---- */

    // Room for an output of n bytes never runs out.
    ghost predicate CanHold(n: nat) {
      expandable && 2 * n <= UINT_MAX && forall k: nat :: canAlloc(k)
    }

    // Stopping for reason f is no mistake on a stream whose reference decoding ends at bit `pos` with `size` bytes.
    ghost predicate Excused(f: Failure, pos: nat, size: nat, budget: nat) {
      match f
      case Malformed => false
      case Starved => pos + 16 > 8 * |input|
      case StoredPastEnd => pos > 8 * |input|
      case OutputLimit => !CanHold(size)
      case Endless => capacity == 0 && size > 0
      case BudgetSpent => pos >= budget
    }

    ghost predicate ExcusedBy(f: Failure, outcome: Outcome, budget: nat) {
      outcome.Done? ==> Excused(f, outcome.pos, |outcome.out|, budget)
    }

    // What excuses stopping early excuses it for whatever comes later.
    lemma ExcusedLater(f: Failure, pos: nat, out: seq<u8>, outcome: Outcome, budget: nat)
      requires f != BudgetSpent && Excused(f, pos, |out|, 0) && Forward(State(pos, out), Stop(outcome))
      ensures ExcusedBy(f, outcome, budget)
    {
    }

    /* ---- The output buffer ---- */

    ghost function Output(): (r: seq<u8>)
      requires zout <= out.Length
      reads this`out, this`zout, out
      ensures |r| == zout
    {
      out[..zout]
    }

    // stbi__zexpand: doubles the buffer until n more bytes fit. An expandable buffer of size zero never gets there.
    method Expand(n: nat) returns (failure: Option<Failure>)
      requires Sound()
      modifies this`out
      ensures Sound() && Output() == old(Output())
      ensures failure == None ==> zout + n <= out.Length
      ensures failure.Some? ==> failure.value in {OutputLimit, Endless} && Excused(failure.value, 0, zout + n, 0)
      ensures failure == Some(Endless) <==> expandable && capacity == 0 && 0 < zout + n <= UINT_MAX
      ensures out == old(out) || fresh(out)
    {
      if !expandable {
        return Some(OutputLimit);
      }
      var limit := out.Length;
      if UINT_MAX - zout < n {
        return Some(OutputLimit);
      }
      if limit == 0 && zout + n > 0 {
        return Some(Endless);
      }
      while zout + n > limit
        invariant out.Length <= limit <= UINT_MAX && (limit == 0 ==> zout + n == 0) && (limit == 0 <==> out.Length == 0)
        decreases zout + n - limit
      {
        if limit > UINT_MAX / 2 {
          return Some(OutputLimit);
        }
        limit := 2 * limit;
      }
      if !canAlloc(limit) {
        return Some(OutputLimit);
      }
      var q := new u8[limit];
      forall i | 0 <= i < out.Length {
        q[i] := out[i];
      }
      out := q;
      return None;
    }

    // *zout++ = v
    method Put(v: u8)
      requires Sound() && zout < out.Length
      modifies this`zout, out
      ensures Sound() && zout == old(zout) + 1 && Output() == old(Output()) + [v]
    {
      out[zout] := v;
      zout := zout + 1;
    }

    // Copies from `dist` back. Distance 0 only comes from an undefined symbol.
    method CopyMatch(dist: nat, len: nat)
      requires Sound() && dist <= zout && zout + len <= out.Length
      modifies this`zout, out
      ensures Sound() && zout == old(zout) + len
      ensures dist >= 1 ==> Output() == Copy(old(Output()), dist, len)
    {
      hide Copy;
      if dist == 1 {
        RepeatLast(len);
      } else {
        CopyBytes(dist, len);
      }
    }

    // The shortcut for a run of one byte.
    method RepeatLast(len: nat)
      requires Sound() && 1 <= zout && zout + len <= out.Length
      modifies this`zout, out
      ensures Sound() && zout == old(zout) + len
      ensures Output() == Copy(old(Output()), 1, len)
    {
      hide Copy;
      ghost var target := Copy(Output(), 1, len);
      var v := out[zout - 1];
      for i := 0 to len
        invariant Sound() && zout == old(zout) + i && out[zout - 1] == v
        invariant Copy(Output(), 1, len - i) == target
      {
        CopyStep(Output(), 1, len - i);
        Put(v);
      }
      CopyNothing(Output(), 1);
    }

    method CopyBytes(dist: nat, len: nat)
      requires Sound() && dist <= zout && zout + len <= out.Length
      modifies this`zout, out
      ensures Sound() && zout == old(zout) + len
      ensures dist >= 1 ==> Output() == Copy(old(Output()), dist, len)
    {
      hide Copy;
      ghost var start := Output();
      for i := 0 to len
        invariant Sound() && zout == old(zout) + i
        invariant dist >= 1 ==> Copy(Output(), dist, len - i) == Copy(start, dist, len)
      {
        if dist >= 1 {
          CopyStep(Output(), dist, len - i);
        }
        Put(out[zout - dist]);
      }
      if dist >= 1 {
        CopyNothing(Output(), dist);
      }
    }

    static lemma CopyNothing(out: seq<u8>, dist: nat)
      requires 1 <= dist <= |out|
      ensures Copy(out, dist, 0) == out
    {
    }

    /* ---- Compressed blocks ---- */

    ghost predicate Ready(lits: seq<nat>, dists: seq<nat>)
      reads zlength.Repr(), zdistance.Repr()
    {
      zlength.Built(lits) && zdistance.Built(dists) && |dists| <= 32
    }

    // An extra-bits field, read only when it has bits.
    method ReceiveExtra(n: nat) returns (k: nat)
      requires Synced() && n <= 16
      modifies this`zpos, this`padding, this`numBits, this`codeBuffer
      ensures Synced() && Pos() == old(Pos()) + n && k == Field(input, old(Pos()), n)
    {
      k := 0;
      if n != 0 {
        k := Receive(n);
      }
    }

    // The reading half of what stbi__parse_huffman_block does after length symbol 257 + k.
    method ReceiveMatch(k: nat, ghost dists: seq<nat>) returns (ok: bool, len: nat, dist: nat)
      requires Synced() && zdistance.Built(dists) && |dists| <= 32 && k < 31
      modifies this`zpos, this`padding, this`numBits, this`codeBuffer
      ensures Synced()
      ensures k < 29 && ok ==> var m := ReadMatch(dists, input, k, old(Pos()));
        m == UndefinedCode || m == Match(Pos(), len, dist)
      ensures k < 29 && !ok ==> var m := ReadMatch(dists, input, k, old(Pos()));
        if OutOfBits() then m.Match? ==> m.pos + 16 > 8 * |input| else m == NoCode
    {
      hide Field, ReadDist, Fits, LengthBase, LengthExtra, Shl, ZHuffman.FastReady, ZHuffman.SymbolsReady,
        ZHuffman.LengthTable;
      LengthTables(k);
      var extra := ReceiveExtra(LENGTH_EXTRA[k]);
      len := LENGTH_BASE[k] + extra;
      ok, dist := ReceiveDist(len, dists);
    }

    method ReceiveDist(ghost len: nat, ghost dists: seq<nat>) returns (ok: bool, dist: nat)
      requires Synced() && zdistance.Built(dists) && |dists| <= 32
      modifies this`zpos, this`padding, this`numBits, this`codeBuffer
      ensures Synced()
      ensures ok ==> var m := ReadDist(dists, input, len, old(Pos()));
        m == UndefinedCode || m == Match(Pos(), len, dist)
      ensures !ok ==> var m := ReadDist(dists, input, len, old(Pos()));
        if OutOfBits() then m.Match? ==> m.pos + 16 > 8 * |input| else m == NoCode
    {
      hide Field, DecodeSymbol, Fits, DistBase, DistExtra, Shl;
      hide ZHuffman.FastReady, ZHuffman.SymbolsReady, ZHuffman.LengthTable;
      dist := 0;
      var d := DecodeHuffman(zdistance, dists);
      if d < 0 {
        if OutOfBits() {
          Ending();
        }
        return false, dist;
      }
      DistTables(d);
      var extra := ReceiveExtra(DIST_EXTRA[d]);
      dist := DIST_BASE[d] + extra;
      ok := true;
    }

    // The writing half.
    method PutMatch(len: nat, dist: nat) returns (failure: Option<Failure>)
      requires Sound()
      modifies this`out, this`zout, out
      ensures Sound() && (out == old(out) || fresh(out))
      ensures failure == None ==> dist <= old(zout)
      ensures failure == None && dist >= 1 ==> Output() == Copy(old(Output()), dist, len)
      ensures failure == Some(Malformed) <==> dist > old(zout)
      ensures failure.Some? && failure.value != Malformed ==>
        failure.value in {OutputLimit, Endless} && Excused(failure.value, 0, old(zout) + len, 0)
    {
      if zout < dist {
        return Some(Malformed);
      }
      if zout + len > out.Length {
        failure := Expand(len);
        if failure.Some? {
          return;
        }
      }
      CopyMatch(dist, len);
      return None;
    }

    method DecodeMatch(k: nat, ghost dists: seq<nat>) returns (failure: Option<Failure>)
      requires Sound() && Synced() && zdistance.Built(dists) && |dists| <= 32 && k < 31
      modifies this, out
      ensures Sound() && Synced() && (out == old(out) || fresh(out))
      ensures failure != Some(BudgetSpent)
      ensures k < 29 ==> Follows(failure, MatchStep(ReadMatch(dists, input, k, old(Pos())), old(Output())))
    {
      hide Field, DecodeSymbol, ReadMatch, Copy, CanHold, ZHuffman.Built;
      ghost var pos, size := Pos(), zout;
      var ok, len, dist := ReceiveMatch(k, dists);
      if !ok {
        return Some(if OutOfBits() then Starved else Malformed);
      }
      failure := PutMatch(len, dist);
      if 1 <= dist <= size {
        CopyPeriod(old(Output()), dist, len);
      }
    }

    // One round of the loop of stbi__parse_huffman_block.
    method DecodeOne(ghost lits: seq<nat>, ghost dists: seq<nat>) returns (ended: bool, failure: Option<Failure>)
      requires Sound() && Synced() && Ready(lits, dists)
      modifies this, out
      ensures Sound() && Synced() && (out == old(out) || fresh(out))
      ensures failure != Some(BudgetSpent)
      ensures !ended ==> Follows(failure, SymbolStep(lits, dists, input, State(old(Pos()), old(Output()))))
      ensures ended ==> failure == None && Pos() >= 0
      ensures ended ==> SymbolStep(lits, dists, input, State(old(Pos()), old(Output()))) == Stop(Done(Pos(), Output()))
    {
      hide Field, DecodeSymbol, ReadMatch, MatchStep, CanHold, ZHuffman.FastReady, ZHuffman.SymbolsReady,
        ZHuffman.LengthTable, Fits;
      SymbolForward(lits, dists, input, State(Pos(), Output()));
      var z := DecodeHuffman(zlength, lits);
      if z < 256 {
        if z < 0 {
          if OutOfBits() {
            Ending();
          }
          return false, Some(if OutOfBits() then Starved else Malformed);
        }
        failure := PutLiteral(z);
        return false, failure;
      }
      if z == 256 {
        return true, None;
      }
      failure := DecodeMatch(z - 257, dists);
      return false, failure;
    }

    method PutLiteral(v: u8) returns (failure: Option<Failure>)
      requires Sound()
      modifies this`out, this`zout, out
      ensures Sound() && (out == old(out) || fresh(out))
      ensures failure == None ==> Output() == old(Output()) + [v]
      ensures failure.Some? ==>
        failure.value in {OutputLimit, Endless} && Excused(failure.value, 0, old(zout) + 1, 0)
    {
      if zout >= out.Length {
        failure := Expand(1);
        if failure.Some? {
          return;
        }
      }
      Put(v);
      return None;
    }

    // stbi__parse_huffman_block, given up after `budget` rounds.
    method ParseHuffmanBlock(budget: nat, ghost lits: seq<nat>, ghost dists: seq<nat>)
      returns (failure: Option<Failure>)
      requires Sound() && Synced() && Ready(lits, dists)
      modifies this, out
      ensures Sound() && Synced() && (out == old(out) || fresh(out))
      ensures Agrees(failure, CompressedBlock(lits, dists, input, State(old(Pos()), old(Output()))), budget)
      ensures failure == Some(BudgetSpent) && budget > UINT_MAX ==>
        CompressedBlock(lits, dists, input, State(old(Pos()), old(Output()))) == Undefined
    {
      hide Ready, CompressedBlock, Field, Excused;
      ghost var target := CompressedBlock(lits, dists, input, State(Pos(), Output()));
      for i := 0 to budget
        invariant Sound() && Synced() && (out == old(out) || fresh(out))
        invariant target == Undefined
          || (Pos() >= i && zout >= i && target == CompressedBlock(lits, dists, input, State(Pos(), Output())))
      {
        var stop;
        stop, failure := NextSymbol(budget, lits, dists);
        if stop {
          return;
        }
      }
      CompressedForward(lits, dists, input, State(Pos(), Output()));
      Spent(target, Pos(), Output(), budget);
      return Some(BudgetSpent);
    }

    // The loop body of stbi__parse_huffman_block against the reference decoder.
    method NextSymbol(ghost budget: nat, ghost lits: seq<nat>, ghost dists: seq<nat>)
      returns (stop: bool, failure: Option<Failure>)
      requires Sound() && Synced() && Ready(lits, dists)
      modifies this, out
      ensures Sound() && Synced() && (out == old(out) || fresh(out))
      ensures failure != Some(BudgetSpent)
      ensures stop ==> Agrees(failure, CompressedBlock(lits, dists, input, State(old(Pos()), old(Output()))), budget)
      ensures !stop ==> var target := CompressedBlock(lits, dists, input, State(old(Pos()), old(Output())));
        target == Undefined
        || (Pos() > old(Pos()) && zout > old(zout)
            && target == CompressedBlock(lits, dists, input, State(Pos(), Output())))
    {
      hide SymbolStep, Ready, Limit, Field, Excused;
      ghost var s := State(Pos(), Output());
      ghost var step := SymbolStep(lits, dists, input, s);
      LimitStep(SymbolStepper(lits, dists, input), s);
      SymbolForward(lits, dists, input, s);
      var ended;
      ended, failure := DecodeOne(lits, dists);
      stop := ended || failure.Some?;
      if step.Continue? && failure.Some? && step != Stop(Undefined) {
        CompressedForward(lits, dists, input, step.next);
        if failure != Some(Malformed) {
          ghost var outcome := CompressedBlock(lits, dists, input, step.next);
          ExcusedLater(failure.value, step.next.pos, step.next.out, outcome, budget);
        }
      }
      ExcusedAnyBudget(failure, step, budget);
    }

    // The budget matters only for stopping because of it.
    lemma ExcusedAnyBudget(failure: Option<Failure>, step: Step, budget: nat)
      ensures failure.Some? && failure.value != BudgetSpent && step.Stop? ==>
        ExcusedBy(failure.value, step.result, 0) ==> ExcusedBy(failure.value, step.result, budget)
    {
    }

    lemma ExcusedForward(f: Failure, pos: nat, out: seq<u8>, outcome: Outcome, budget: nat)
      requires Excused(f, pos, |out|, budget) && Forward(State(pos, out), Stop(outcome))
      ensures ExcusedBy(f, outcome, budget)
    {
    }

    // A decoder that has come as far as its budget is excused.
    lemma Spent(target: Outcome, pos: nat, out: seq<u8>, budget: nat)
      requires target == Undefined || (pos >= budget && Forward(State(pos, out), Stop(target)))
      ensures target == Undefined || ExcusedBy(BudgetSpent, target, budget)
    {
    }

    // How the state after a block relates to its reference outcome.
    ghost predicate Agrees(failure: Option<Failure>, outcome: Outcome, budget: nat)
      requires zout <= out.Length
      reads this, out
    {
      || outcome == Undefined
      || (failure == None && Pos() >= 0 && outcome == Done(Pos(), Output()))
      || (failure == Some(Malformed) && outcome == Corrupt)
      || (failure.Some? && failure.value != Malformed && ExcusedBy(failure.value, outcome, budget))
    }

    /* ---- Dynamic codes ---- */

    // Reads the lengths of the code length alphabet.
    method ReceiveMeta(hclen: nat) returns (meta: seq<nat>)
      requires Synced() && hclen <= 19
      modifies this`zpos, this`padding, this`numBits, this`codeBuffer
      ensures Synced() && Pos() == old(Pos()) + 3 * hclen
      ensures meta == MetaLens(input, old(Pos()), hclen) && |meta| == 19 && ValidLens(meta)
    {
      hide Field, SentAt;
      var sizes := new nat[19](_ => 0);
      ghost var p := Pos();
      for i := 0 to hclen
        invariant Synced() && Pos() == p + 3 * i
        invariant forall s: nat :: s < 19 ==>
          sizes[s] == if SentAt(s) < i then Field(input, p + 3 * SentAt(s), 3) else 0
        invariant ValidLens(sizes[..])
      {
        Dezigzag(i);
        ThreeBits(input, Pos());
        var s := Receive(3);
        sizes[DEZIGZAG[i]] := s;
      }
      meta := sizes[..];
    }

    static lemma ThreeBits(input: seq<u8>, p: nat)
      ensures Field(input, p, 3) < 8
    {
      FieldBound(input, p, 3);
      assert Shl(1, 3) == 8;
    }

    // memset(lencodes + n, v, count)
    static method Fill(lencodes: array<nat>, n: nat, count: nat, v: nat)
      requires n + count <= lencodes.Length
      modifies lencodes
      ensures lencodes[..n + count] == old(lencodes[..n]) + Repeat(v, count)
    {
      forall i | n <= i < n + count {
        lencodes[i] := v;
      }
    }

    // One round of the loop that reads code lengths: the first n of `total` are there already.
    method ReceiveLens(z: ZHuffman, ghost meta: seq<nat>, lencodes: array<nat>, n: nat, total: nat)
      returns (ok: bool, m: nat)
      requires Synced() && z.Built(meta) && |meta| == 19
      requires n < total <= lencodes.Length && lencodes as object !in z.Repr()
      requires ValidLens(lencodes[..n])
      modifies this`zpos, this`padding, this`numBits, this`codeBuffer, lencodes
      ensures Synced() && m <= lencodes.Length && z.Built(meta)
      ensures ok ==> n < m <= total && ValidLens(lencodes[..m])
      ensures ok ==>
        ReadLens(meta, input, old(Pos()), total, old(lencodes[..n]))
          == ReadLens(meta, input, Pos(), total, lencodes[..m])
      ensures !ok ==> var r := ReadLens(meta, input, old(Pos()), total, old(lencodes[..n]));
        if OutOfBits() then r.Some? ==> r.value.pos + 16 > 8 * |input| else r == None
    {
      hide Field, DecodeSymbol, ReadLens, Fits, ZHuffman.FastReady, ZHuffman.SymbolsReady, ZHuffman.LengthTable;
      ghost var lens, p := lencodes[..n], Pos();
      var c := DecodeHuffman(z, meta);
      if c < 0 {
        ReadLensNone(meta, input, p, total, lens);
        ReadLensForward(meta, input, p, total, lens);
        if OutOfBits() {
          Ending();
        }
        return false, n;
      }
      ReadLensStep(meta, input, p, total, lens, Symbol(c, meta[c]));
      ok, m := StoreLens(c, lencodes, n, total);
    }

    // A length itself, or a run of lengths, joins the first n.
    method StoreLens(c: nat, lencodes: array<nat>, n: nat, total: nat) returns (ok: bool, m: nat)
      requires Synced() && c < 19 && n < total <= lencodes.Length && ValidLens(lencodes[..n])
      modifies this`zpos, this`padding, this`numBits, this`codeBuffer, lencodes
      ensures Synced() && m <= lencodes.Length
      ensures !ok ==> var run := LensOf(input, old(Pos()), c, old(lencodes[..n]));
        run == None || n + |run.value.lens| > total
      ensures ok ==> n < m <= total && ValidLens(lencodes[..m])
      ensures ok ==> LensOf(input, old(Pos()), c, old(lencodes[..n])) == Some(Lens(Pos(), lencodes[n..m]))
      ensures ok ==> lencodes[..m] == old(lencodes[..n]) + lencodes[n..m]
    {
      hide Field;
      ghost var lens := lencodes[..n];
      if c < 16 {
        lencodes[n] := c;
        assert lencodes[..n + 1] == lens + [c];
        return true, n + 1;
      }
      var count, fill;
      ok, count, fill := ReceiveRun(c, lencodes, n);
      if !ok {
        return false, n;
      }
      if total - n < count {
        return false, n;
      }
      Fill(lencodes, n, count, fill);
      return true, n + count;
    }

    // A repeat instruction: code length symbol 16, 17 or 18.
    method ReceiveRun(c: nat, lencodes: array<nat>, n: nat) returns (ok: bool, count: nat, fill: nat)
      requires Synced() && 16 <= c <= 18 && n <= lencodes.Length && ValidLens(lencodes[..n])
      modifies this`zpos, this`padding, this`numBits, this`codeBuffer
      ensures Synced() && fill <= MAX_BITS
      ensures ok ==> count > 0 && LensOf(input, old(Pos()), c, lencodes[..n]) == Some(Lens(Pos(), Repeat(fill, count)))
      ensures !ok ==> LensOf(input, old(Pos()), c, lencodes[..n]) == None
    {
      hide Field;
      fill := 0;
      if c == 16 {
        count := Receive(2);
        count := count + 3;
        if n == 0 {
          return false, count, fill;
        }
        fill := lencodes[n - 1];
        assert fill == lencodes[..n][n - 1];
      } else if c == 17 {
        count := Receive(3);
        count := count + 3;
      } else {
        count := Receive(7);
        count := count + 11;
      }
      ok := true;
    }

    // stbi__compute_huffman_codes
    method ComputeHuffmanCodes() returns (failure: Option<Failure>, ghost lits: seq<nat>, ghost dists: seq<nat>)
      requires Sound() && Synced()
      modifies this`zpos, this`padding, this`numBits, this`codeBuffer, zlength.Repr(), zdistance.Repr()
      ensures Sound() && Synced() && Output() == old(Output())
      ensures failure == None ==> Ready(lits, dists) && ReadCodes(input, old(Pos())) == Some(Codes(Pos(), lits, dists))
      ensures failure == Some(Malformed) ==> ReadCodes(input, old(Pos())) == None
      ensures failure == Some(Starved) ==> var r := ReadCodes(input, old(Pos()));
        r.Some? ==> r.value.pos + 16 > 8 * |input|
      ensures failure.Some? ==> failure.value in {Malformed, Starved}
    {
      hide Field, ReadCodeLens, Fits, Ready;
      lits, dists := [], [];
      var hlit, lens;
      failure, hlit, lens := ReceiveHeader();
      if failure.Some? {
        return;
      }
      lits, dists := lens[..hlit], lens[hlit..];
      var ok := BuildBoth(lens[..hlit], lens[hlit..]);
      if !ok {
        failure := Some(Malformed);
      }
    }

    // Its reading half.
    method ReceiveHeader() returns (failure: Option<Failure>, hlit: nat, lens: seq<nat>)
      requires Synced()
      modifies this`zpos, this`padding, this`numBits, this`codeBuffer
      ensures Synced()
      ensures failure == None ==> hlit <= |lens| && hlit <= NSYMS && |lens| - hlit <= 32 && ValidLens(lens)
      ensures failure == None ==> ReadCodeLens(input, old(Pos())) == Some(CodeLens(Pos(), hlit, lens))
      ensures failure == Some(Malformed) ==> ReadCodeLens(input, old(Pos())) == None
      ensures failure == Some(Starved) ==> var r := ReadCodeLens(input, old(Pos()));
        r.Some? ==> r.value.pos + 16 > 8 * |input|
      ensures failure.Some? ==> failure.value in {Malformed, Starved}
    {
      hide Field, ReadLens, MetaLens, Fits;
      ghost var p := Pos();
      FiveBits(input, p);
      FiveBits(input, p + 5);
      FourBits(input, p + 10);
      hlit := Receive(5);
      hlit := hlit + 257;
      var hdist := Receive(5);
      hdist := hdist + 1;
      var hclen := Receive(4);
      hclen := hclen + 4;
      ghost var meta;
      failure, lens, meta := ReceiveCodeLens(hclen, hlit + hdist);
    }

    method BuildBoth(lits: seq<nat>, dists: seq<nat>) returns (ok: bool)
      requires Sound() && ValidLens(lits) && ValidLens(dists) && |lits| <= NSYMS && |dists| <= 32
      modifies zlength.Repr(), zdistance.Repr()
      ensures ok <==> Fits(lits) && Fits(dists)
      ensures ok ==> Ready(lits, dists)
      ensures Output() == old(Output())
    {
      hide Fits, ZHuffman.FastReady, ZHuffman.SymbolsReady, ZHuffman.LengthTable;
      ok := zlength.Build(lits);
      if ok {
        ok := zdistance.Build(dists);
      }
    }

    // The code length code, and the code lengths written in it.
    method ReceiveCodeLens(hclen: nat, total: nat)
      returns (failure: Option<Failure>, lens: seq<nat>, ghost meta: seq<nat>)
      requires Synced() && hclen <= 19 && total <= 455
      modifies this`zpos, this`padding, this`numBits, this`codeBuffer
      ensures Synced() && meta == MetaLens(input, old(Pos()), hclen)
      ensures failure == None ==> |lens| == total && ValidLens(lens)
      ensures failure == None ==>
        Fits(meta) && ReadLens(meta, input, old(Pos()) + 3 * hclen, total, []) == Some(Lens(Pos(), lens))
      ensures failure == Some(Malformed) ==>
        !Fits(meta) || ReadLens(meta, input, old(Pos()) + 3 * hclen, total, []) == None
      ensures failure == Some(Starved) ==> var r := ReadLens(meta, input, old(Pos()) + 3 * hclen, total, []);
        r.Some? ==> r.value.pos + 16 > 8 * |input|
      ensures failure.Some? ==> failure.value in {Malformed, Starved}
    {
      hide Field, ReadLens, MetaLens, Fits, ZHuffman.FastReady, ZHuffman.SymbolsReady, ZHuffman.LengthTable;
      var sizes := ReceiveMeta(hclen);
      meta := sizes;
      var z := new ZHuffman();
      var ok := z.Build(sizes);
      if !ok {
        return Some(Malformed), [], meta;
      }
      failure, lens := ReceiveAllLens(z, meta, total);
    }

    // The loop that reads `total` code lengths with the code length codes.
    method ReceiveAllLens(z: ZHuffman, ghost meta: seq<nat>, total: nat)
      returns (failure: Option<Failure>, lens: seq<nat>)
      requires Synced() && z.Built(meta) && |meta| == 19 && total <= 455
      modifies this`zpos, this`padding, this`numBits, this`codeBuffer
      ensures Synced()
      ensures failure == None ==> |lens| == total && ValidLens(lens)
      ensures failure == None ==> ReadLens(meta, input, old(Pos()), total, []) == Some(Lens(Pos(), lens))
      ensures failure == Some(Malformed) ==> ReadLens(meta, input, old(Pos()), total, []) == None
      ensures failure == Some(Starved) ==> var r := ReadLens(meta, input, old(Pos()), total, []);
        r.Some? ==> r.value.pos + 16 > 8 * |input|
      ensures failure.Some? ==> failure.value in {Malformed, Starved}
    {
      hide Field, DecodeSymbol, ReadLens, Fits, ZHuffman.FastReady, ZHuffman.SymbolsReady, ZHuffman.LengthTable;
      var lencodes := new nat[455];
      var n := 0;
      assert lencodes[..0] == [];
      while n < total
        invariant n <= total && Synced() && z.Built(meta) && ValidLens(lencodes[..n])
        invariant ReadLens(meta, input, Pos(), total, lencodes[..n]) == ReadLens(meta, input, old(Pos()), total, [])
        decreases total - n
      {
        var ok;
        ok, n := ReceiveLens(z, meta, lencodes, n, total);
        if !ok {
          return Some(if OutOfBits() then Starved else Malformed), [];
        }
      }
      ReadLensEnd(meta, input, Pos(), lencodes[..n]);
      return None, lencodes[..n];
    }

    static lemma FiveBits(input: seq<u8>, p: nat)
      ensures Field(input, p, 5) < 32
    {
      FieldBound(input, p, 5);
      assert Shl(1, 5) == 32;
    }

    static lemma FourBits(input: seq<u8>, p: nat)
      ensures Field(input, p, 4) < 16
    {
      FieldBound(input, p, 4);
      assert Shl(1, 4) == 16;
    }

    /* ---- Stored blocks ---- */

    // Discards the bits up to the next byte boundary and takes the four header bytes, first those
    // already in the code buffer.
    method StoredHeader() returns (header: array<u8>, ghost i: nat)
      requires Synced() && numBits < 32
      modifies this`zpos, this`padding, this`numBits, this`codeBuffer
      ensures Synced() && numBits == 0 && codeBuffer == 0
      ensures i == (old(Pos()) + 7) / 8 && zpos + padding == i + 4
      ensures fresh(header) && header.Length == 4
      ensures forall j: nat :: j < 4 ==> header[j] == ByteAt(input, i + j)
    {
      hide Field, Shl, Shr, Low;
      i := Align();
      header := new u8[4];
      var k := DrainBuffer(header, i);
      while k < 4
        invariant k <= 4 && zpos + padding == i + k && zpos <= |input| && (padding > 0 ==> zpos == |input|)
        invariant numBits == 0 && codeBuffer == 0
        invariant forall j: nat :: j < k ==> header[j] == ByteAt(input, i + j)
      {
        header[k] := Get8();
        k := k + 1;
      }
      EmptyField(input, Pos());
    }

    // Discards the bits up to the next byte boundary, which is byte i.
    method Align() returns (ghost i: nat)
      requires Synced() && numBits < 32
      modifies this`zpos, this`padding, this`numBits, this`codeBuffer
      ensures Synced() && numBits < 32 && numBits % 8 == 0
      ensures i == (old(Pos()) + 7) / 8 && Pos() == 8 * i
    {
      hide Field, Shl;
      ghost var bytes, bits := numBits / 8, numBits % 8;
      if numBits % 8 != 0 {
        var discard := Receive(numBits % 8);
      }
      assert numBits == 8 * bytes;
      i := zpos + padding - bytes;
    }

    // Moves the whole bytes left in the code buffer to the header.
    method DrainBuffer(header: array<u8>, ghost i: nat) returns (k: nat)
      requires Synced() && numBits < 32 && numBits % 8 == 0 && Pos() == 8 * i && header.Length == 4
      modifies this`numBits, this`codeBuffer, header
      ensures Synced() && numBits == 0 && codeBuffer == 0 && k <= 4 && Pos() == 8 * (i + k)
      ensures forall j: nat :: j < k ==> header[j] == ByteAt(input, i + j)
    {
      hide Field, Shl, Shr, Low;
      k := 0;
      ghost var left := numBits / 8;
      while numBits > 0
        invariant Synced() && numBits == 8 * left && Pos() == 8 * (i + k) && k + left <= 4
        invariant forall j: nat :: j < k ==> header[j] == ByteAt(input, i + j)
        decreases numBits
      {
        FieldOfByte(input, i + k);
        FieldSplit(input, Pos(), 8, numBits - 8);
        header[k] := Low(codeBuffer, 8);
        k := k + 1;
        Drop(8);
        left := left - 1;
      }
      EmptyField(input, Pos());
    }

    static lemma EmptyField(input: seq<u8>, p: nat)
      ensures Field(input, p, 0) == 0
    {
    }

    // stbi__parse_uncompressed_block
    method ParseUncompressedBlock() returns (failure: Option<Failure>)
      requires Sound() && Synced() && numBits < 32
      modifies this, out
      ensures Sound() && Synced() && (out == old(out) || fresh(out))
      ensures failure != Some(Starved) && failure != Some(BudgetSpent)
      ensures Agrees(failure, StoredBlock(input, old(Pos()), old(Output())), 0)
    {
      hide Field, Shl, CanHold, Bytes, StoredBlock, ByteAt;
      ghost var p, before := Pos(), Output();
      var header, i := StoredHeader();
      var len := header[1] as int * 256 + header[0] as int;
      var nlen := header[3] as int * 256 + header[2] as int;
      StoredIs(input, p, i, len, nlen, before);
      if nlen != 0xFFFF - len {
        return Some(Malformed);
      }
      if zpos + len > |input| {
        return Some(StoredPastEnd);
      }
      failure := PutStored(len);
    }

    static lemma StoredIs(input: seq<u8>, p: nat, i: nat, len: nat, nlen: nat, before: seq<u8>)
      requires i == (p + 7) / 8
      requires len == ByteAt(input, i + 1) * 256 + ByteAt(input, i)
      requires nlen == ByteAt(input, i + 3) * 256 + ByteAt(input, i + 2)
      ensures StoredBlock(input, p, before) ==
        if nlen != 0xFFFF - len then Corrupt else Done(8 * (i + 4 + len), before + Bytes(input, i + 4, len))
    {
      hide Bytes;
    }

    method PutStored(len: nat) returns (failure: Option<Failure>)
      requires Sound() && Synced() && numBits == 0 && codeBuffer == 0 && zpos + len <= |input|
      modifies this`zpos, this`zout, this`out, out
      ensures Sound() && Synced() && (out == old(out) || fresh(out))
      ensures failure == None ==>
        Output() == old(Output()) + Bytes(input, old(zpos + padding), len) && Pos() == old(Pos()) + 8 * len
      ensures failure.Some? ==>
        failure.value in {OutputLimit, Endless} && Excused(failure.value, 0, old(zout) + len, 0)
    {
      hide Field, Bytes, CanHold;
      if zout + len > out.Length {
        failure := Expand(len);
        if failure.Some? {
          return;
        }
      }
      CopyStored(len);
      EmptyField(input, Pos());
      return None;
    }

    // memcpy(zout, zbuffer, len)
    method CopyStored(len: nat)
      requires Sound() && zpos + len <= |input| && zout + len <= out.Length
      requires padding > 0 ==> zpos == |input|
      modifies this`zpos, this`zout, out
      ensures Sound() && zpos == old(zpos) + len
      ensures Output() == old(Output()) + Bytes(input, old(zpos + padding), len)
    {
      ghost var from := zpos + padding;
      var start := zout;
      forall k | start <= k < start + len {
        out[k] := input[zpos + k - start];
      }
      zpos := zpos + len;
      zout := zout + len;
      ghost var written := out[start..zout];
      forall j | 0 <= j < len
        ensures written[j] == Bytes(input, from, len)[j]
      {
        assert padding == 0;
        assert written[j] == out[start + j] == input[from + j];
        assert ByteAt(input, from + j) == input[from + j];
      }
      assert written == Bytes(input, from, len);
      assert out[..zout] == out[..start] + out[start..zout];
    }

    /* ---- The whole stream ---- */

    // One round of the loop of stbi__parse_zlib; `budget` bounds the symbols of a compressed block.
    method ParseBlock(budget: nat) returns (final: bool, failure: Option<Failure>)
      requires Sound() && Synced()
      modifies this, out, zlength.Repr(), zdistance.Repr()
      ensures Sound() && Synced() && (out == old(out) || fresh(out))
      ensures failure == None ==> final == (Field(input, old(Pos()), 1) == 1)
      ensures Agrees(failure,
        BlockBody(input, Field(input, old(Pos()) + 1, 2), old(Pos()) + 3, old(Output())), budget)
      ensures failure == Some(BudgetSpent) && budget > UINT_MAX ==>
        BlockBody(input, Field(input, old(Pos()) + 1, 2), old(Pos()) + 3, old(Output())) == Undefined
    {
      hide Field, Shl, StoredBlock, CompressedBlock, ReadCodes, Agrees, FixedLits, FixedDists;
      ghost var p, before := Pos() + 3, Output();
      var f := Receive(1);
      final := f == 1;
      var kind := Receive(2);
      if kind == 0 {
        failure := ParseUncompressedBlock();
        AgreesAnyway(failure, StoredBlock(input, p, before), budget);
      } else if kind == 1 {
        failure := ParseFixedBlock(budget);
      } else if kind == 2 {
        failure := ParseDynamicBlock(budget);
      } else {
        failure := Some(Malformed);
        AgreesCorrupt(budget);
      }
    }

    // The budget matters only for stopping because of it.
    lemma AgreesAnyway(failure: Option<Failure>, outcome: Outcome, budget: nat)
      requires zout <= out.Length && failure != Some(BudgetSpent) && Agrees(failure, outcome, 0)
      ensures Agrees(failure, outcome, budget)
    {
      hide CanHold;
    }

    lemma AgreesCorrupt(budget: nat)
      requires zout <= out.Length
      ensures Agrees(Some(Malformed), Corrupt, budget)
    {
    }

    // A block with the fixed codes.
    method ParseFixedBlock(budget: nat) returns (failure: Option<Failure>)
      requires Sound() && Synced()
      modifies this, out, zlength.Repr(), zdistance.Repr()
      ensures Sound() && Synced() && (out == old(out) || fresh(out))
      ensures Agrees(failure, BlockBody(input, 1, old(Pos()), old(Output())), budget)
      ensures failure == Some(BudgetSpent) && budget > UINT_MAX ==>
        BlockBody(input, 1, old(Pos()), old(Output())) == Undefined
    {
      hide Field, CompressedBlock, Ready, FixedLits, FixedDists, Fits, Excused;
      FixedCodesFit();
      DefaultTables();
      var ok := BuildBoth(DEFAULT_LENGTH, DEFAULT_DISTANCE);
      failure := ParseHuffmanBlock(budget, FixedLits(), FixedDists());
    }

    // A block that begins with its codes.
    method ParseDynamicBlock(budget: nat) returns (failure: Option<Failure>)
      requires Sound() && Synced()
      modifies this, out, zlength.Repr(), zdistance.Repr()
      ensures Sound() && Synced() && (out == old(out) || fresh(out))
      ensures Agrees(failure, BlockBody(input, 2, old(Pos()), old(Output())), budget)
      ensures failure == Some(BudgetSpent) && budget > UINT_MAX ==>
        BlockBody(input, 2, old(Pos()), old(Output())) == Undefined
    {
      hide Field, ReadCodes, CompressedBlock, Ready, CanHold;
      LateCodes(Pos(), Output());
      ghost var lits, dists;
      failure, lits, dists := ComputeHuffmanCodes();
      if failure == None {
        failure := ParseHuffmanBlock(budget, lits, dists);
      }
    }

    // A compressed block ends after its codes.
    lemma LateCodes(p: nat, out: seq<u8>)
      ensures var r, body := ReadCodes(input, p), BlockBody(input, 2, p, out);
        (r.Some? ==> r.value.pos + 16 > 8 * |input|) && body.Done? ==> body.pos + 16 > 8 * |input|
    {
      hide ReadCodes, CompressedBlock;
      var r := ReadCodes(input, p);
      if r.Some? {
        CompressedForward(r.value.lits, r.value.dists, input, State(r.value.pos, out));
      }
    }

    // stbi__parse_zlib after the header, given up after `budget` blocks.
    method ParseZlib(budget: nat) returns (failure: Option<Failure>)
      requires Sound() && zpos <= |input|
      requires padding > 0 ==> zpos == |input|
      modifies this, out, zlength.Repr(), zdistance.Repr()
      ensures Sound() && Synced() && (out == old(out) || fresh(out))
      ensures Agrees(failure, Inflate(input, 8 * old(zpos + padding), old(Output())), budget)
      ensures failure == Some(BudgetSpent) && budget > UINT_MAX && budget > 8 * |input| ==>
        Inflate(input, 8 * old(zpos + padding), old(Output())) == Undefined
    {
      hide Field, Inflate, Excused;
      numBits, codeBuffer := 0, 0;
      EmptyField(input, Pos());
      assert Pos() == 8 * old(zpos + padding);
      ghost var target := Inflate(input, Pos(), Output());
      for i := 0 to budget
        invariant Sound() && Synced() && (out == old(out) || fresh(out))
        invariant target == Undefined
          || (Pos() >= i && i <= 8 * |input| && target == Inflate(input, Pos(), Output()))
      {
        var stop;
        stop, failure := NextBlock(budget);
        if stop {
          return;
        }
      }
      InflateForward(input, Pos(), Output());
      Spent(target, Pos(), Output(), budget);
      return Some(BudgetSpent);
    }

    // The loop body of stbi__parse_zlib against the reference decoder.
    method NextBlock(budget: nat) returns (stop: bool, failure: Option<Failure>)
      requires Sound() && Synced()
      modifies this, out, zlength.Repr(), zdistance.Repr()
      ensures Sound() && Synced() && (out == old(out) || fresh(out))
      ensures stop ==> Agrees(failure, Inflate(input, old(Pos()), old(Output())), budget)
      ensures !stop ==> var target := Inflate(input, old(Pos()), old(Output()));
        target == Undefined
        || (Pos() > old(Pos()) && old(Pos()) < 8 * |input| && target == Inflate(input, Pos(), Output()))
      ensures failure == Some(BudgetSpent) && budget > UINT_MAX ==>
        Inflate(input, old(Pos()), old(Output())) == Undefined
    {
      hide Field, BlockBody, Inflate, Excused;
      ghost var p, before := Pos(), Output();
      ghost var body := BlockBody(input, Field(input, p + 1, 2), p + 3, before);
      InflateStep(input, State(p, before));
      BodyForward(input, Field(input, p + 1, 2), p + 3, before);
      if p >= 8 * |input| {
        NoBlock(input, p, before);
      }
      stop, failure := ParseBlock(budget);
      stop := stop || failure.Some?;
      if failure.Some? && failure != Some(Malformed) && body.Done? {
        InflateForward(input, body.pos, body.out);
        ExcusedForward(failure.value, body.pos, body.out, Inflate(input, body.pos, body.out), budget);
      }
    }

    // stbi__parse_zlib_header; the two bytes must not be the last ones.
    method ParseZlibHeader() returns (ok: bool)
      requires zpos == 0 && padding == 0
      modifies this`zpos, this`padding
      ensures ok <==> GoodHeader(input)
      ensures ok ==> zpos == 2 && padding == 0
    {
      hide Low, And;
      var b := Get8();
      var cmf: nat := b;
      var cm := Low(cmf, 4);
      b := Get8();
      var flg: nat := b;
      HeaderBits(cmf, flg);
      if Eof() {
        return false;
      }
      if (cmf * 256 + flg) % 31 != 0 {
        return false;
      }
      if And(flg, 32) != 0 {
        return false;
      }
      return cm == 8;
    }

    static lemma HeaderBits(cmf: nat, flg: nat)
      ensures Low(cmf, 4) == cmf % 16
      ensures And(flg, 32) == 0 <==> flg / 32 % 2 == 0
    {
      hide Low, And, Shr, Shl;
      Pow2Values();
      LowDivides(cmf, 4);
      TestBit(flg, 5);
      ShrDivides(flg, 5);
    }

    // How the state after a symbol relates to the reference step. After an undefined symbol
    // nothing is claimed.
    ghost predicate Follows(failure: Option<Failure>, step: Step)
      requires zout <= out.Length
      reads this, out
    {
      || step == Stop(Undefined)
      || (failure == None && Pos() >= 0 && step == Continue(State(Pos(), Output())))
      || (failure == Some(Malformed) && step == Stop(Corrupt))
      || (failure.Some? && failure.value != Malformed && failure.value != BudgetSpent
          && (step.Continue? ==> Excused(failure.value, step.next.pos, |step.next.out|, 0))
          && (step.Stop? ==> ExcusedBy(failure.value, step.result, 0)))
    }
  }

  const DEZIGZAG: seq<nat> := [16, 17, 18, 0, 8, 7, 9, 6, 10, 5, 11, 4, 12, 3, 13, 2, 14, 1, 15]

  // The source's table is the order of section 3.2.7.
  lemma Dezigzag(i: nat)
    requires i < 19
    ensures |DEZIGZAG| == 19 && DEZIGZAG[i] < 19 && forall s: nat :: s < 19 ==> (SentAt(s) == i <==> s == DEZIGZAG[i])
  {
  }

  // The static tables of the fixed codes.
  const DEFAULT_LENGTH: seq<nat> := Repeat(8, 144) + Repeat(9, 112) + Repeat(7, 24) + Repeat(8, 8)
  const DEFAULT_DISTANCE: seq<nat> := Repeat(5, 32)

  lemma DefaultTables()
    ensures DEFAULT_LENGTH == FixedLits() && DEFAULT_DISTANCE == FixedDists()
  {
  }

  lemma ReadLensNone(meta: seq<nat>, input: seq<u8>, p: nat, total: nat, lens: seq<nat>)
    requires |lens| < total
    ensures DecodeSymbol(meta, input, p) == None ==> ReadLens(meta, input, p, total, lens) == None
  {
  }

  lemma ReadLensEnd(meta: seq<nat>, input: seq<u8>, p: nat, lens: seq<nat>)
    ensures ReadLens(meta, input, p, |lens|, lens) == Some(Lens(p, lens))
  {
  }

  lemma FixedCodesFit()
    ensures ValidLens(FixedLits()) && Fits(FixedLits())
    ensures ValidLens(FixedDists()) && Fits(FixedDists())
  {
    hide Kraft, Shl, FixedLits, FixedDists, Fits, ValidLens;
    FixedLitsFit(FixedLits(), MAX_BITS);
    FixedDistsFit(FixedDists(), MAX_BITS);
    FitsIffKraft(FixedLits());
    FitsIffKraft(FixedDists());
  }

  // 152 codes of 8 bits, 112 of 9 and 24 of 7 use up the codewords exactly.
  lemma FixedLitsFit(lits: seq<nat>, m: nat)
    requires lits == FixedLits() && m == 15
    ensures ValidLens(lits) && Kraft(lits, m, |lits|) == Shl(1, m)
  {
    hide Kraft, Shl;
    KraftPowers(m);
    KraftRange(lits, m, 0, 144, 8, 128);
    KraftRange(lits, m, 144, 256, 9, 64);
    KraftRange(lits, m, 256, 280, 7, 256);
    KraftRange(lits, m, 280, 288, 8, 128);
    KraftStart(lits, m);
  }

  lemma FixedDistsFit(dists: seq<nat>, m: nat)
    requires dists == FixedDists() && m == 15
    ensures ValidLens(dists) && Kraft(dists, m, |dists|) == Shl(1, m)
  {
    hide Kraft, Shl;
    KraftPowers(m);
    KraftRange(dists, m, 0, 32, 5, 1024);
    KraftStart(dists, m);
  }

  lemma KraftStart(lens: seq<nat>, m: nat)
    ensures Kraft(lens, m, 0) == 0
  {
  }

  lemma KraftPowers(m: nat)
    requires m == 15
    ensures Shl(1, m - 5) == 1024 && Shl(1, m - 7) == 256 && Shl(1, m - 8) == 128 && Shl(1, m - 9) == 64
    ensures Shl(1, m) == 32768
  {
    Pow2Values();
    ShlAdd(1, 10, 5);
    assert Shl(1024, 5) == 32768;
  }

  // A run of symbols of length l takes a share of w codewords each.
  lemma {:induction false} KraftRange(lens: seq<nat>, m: nat, lo: nat, hi: nat, l: nat, w: nat)
    requires lo <= hi <= |lens| && 0 < l <= m && w == Shl(1, m - l)
    requires forall i :: lo <= i < hi ==> lens[i] == l
    ensures Kraft(lens, m, hi) == Kraft(lens, m, lo) + (hi - lo) * w
    decreases hi
  {
    hide Shl;
    if lo < hi {
      KraftRange(lens, m, lo, hi - 1, l, w);
      assert (hi - lo) * w == (hi - 1 - lo) * w + w;
    }
  }

  // The two header bytes of section 2.2 of RFC 1950 without a preset dictionary, and some data after them.
  predicate GoodHeader(input: seq<u8>) {
    && |input| > 2
    && (input[0] as int * 256 + input[1] as int) % 31 == 0
    && input[1] as int / 32 % 2 == 0
    && input[0] as int % 16 == 8
  }

  // stbi_zlib_decode_malloc_guesssize: whatever it returns is what the reference decoder produces
  // from the bytes after the header, unless the stream uses a symbol that RFC 1951 leaves undefined.
  // A stream that the reference decoder accepts is decoded if at least two bytes follow it (zlib appends four), its
  // output can be held and the budget covers its bits. Both loops end by themselves, that is within a budget that
  // depends on the sizes only, on every stream without undefined symbols.
  method ZlibDecode(input: seq<u8>, initialSize: nat, canAlloc: nat -> bool, budget: nat)
    returns (result: Option<seq<u8>>, failure: Option<Failure>)
    requires initialSize <= UINT_MAX
    ensures result.Some? ==> GoodHeader(input)
    ensures result.Some? ==> var r := Inflate(input, 16, []); r == Undefined || (r.Done? && r.out == result.value)
    ensures result.None? <==> failure.Some?
    ensures failure == Some(Malformed) ==>
      var r := Inflate(input, 16, []); !GoodHeader(input) || r == Undefined || r == Corrupt
    ensures var r := Inflate(input, 16, []);
      (GoodHeader(input) && r.Done? && r.pos + 16 <= 8 * |input| && r.pos < budget
       && 2 * |r.out| <= UINT_MAX && (initialSize > 0 || r.out == []) && forall n: nat :: canAlloc(n)) ==>
        result == Some(r.out)
    ensures failure == Some(BudgetSpent) && budget > UINT_MAX && budget > 8 * |input| ==>
      Inflate(input, 16, []) == Undefined
  {
    hide Inflate, And, Low;
    var z := new ZBuf(input, initialSize, true, canAlloc);
    var ok := z.ParseZlibHeader();
    if !ok {
      return None, Some(Malformed);
    }
    assert z.Output() == [];
    failure := z.ParseZlib(budget);
    if failure.Some? {
      return None, failure;
    }
    result := Some(z.out[..z.zout]);
  }

  /* ---- The static tables of lengths and distances ---- */

  const LENGTH_BASE: seq<nat> := [
    3, 4, 5, 6, 7, 8, 9, 10, 11, 13, 15, 17, 19, 23, 27, 31, 35, 43, 51, 59,
    67, 83, 99, 115, 131, 163, 195, 227, 258, 0, 0]
  const LENGTH_EXTRA: seq<nat> := [
    0, 0, 0, 0, 0, 0, 0, 0, 1, 1, 1, 1, 2, 2, 2, 2, 3, 3, 3, 3, 4, 4, 4, 4, 5, 5, 5, 5, 0, 0, 0]
  const DIST_BASE: seq<nat> := [
    1, 2, 3, 4, 5, 7, 9, 13, 17, 25, 33, 49, 65, 97, 129, 193, 257, 385, 513, 769,
    1025, 1537, 2049, 3073, 4097, 6145, 8193, 12289, 16385, 24577, 0, 0]
  const DIST_EXTRA: seq<nat> := [
    0, 0, 0, 0, 1, 1, 2, 2, 3, 3, 4, 4, 5, 5, 6, 6, 7, 7, 8, 8, 9, 9, 10, 10, 11, 11, 12, 12, 13, 13, 0, 0]

  lemma Pow2Values()
    ensures Shl(1, 0) == 1 && Shl(1, 1) == 2 && Shl(1, 2) == 4 && Shl(1, 3) == 8
    ensures Shl(1, 4) == 16 && Shl(1, 5) == 32 && Shl(1, 6) == 64 && Shl(1, 7) == 128
    ensures Shl(1, 8) == 256 && Shl(1, 9) == 512 && Shl(1, 10) == 1024 && Shl(1, 11) == 2048
    ensures Shl(1, 12) == 4096 && Shl(1, 13) == 8192
  {
    assert Shl(1, 4) == 16;
    assert Shl(1, 8) == 256;
  }

  // The source's tables are the ones of section 3.2.5; their last two entries are unused padding there.
  lemma LengthTables(k: nat)
    requires k < 31
    ensures |LENGTH_BASE| == |LENGTH_EXTRA| == 31 && LENGTH_EXTRA[k] <= 16
    ensures k < 29 ==> LENGTH_BASE[k] == LengthBase(k) && LENGTH_EXTRA[k] == LengthExtra(k)
  {
    hide LengthBase, LengthExtra;
    if k < 29 {
      LengthBases(k);
    }
    LengthExtras(k);
  }

  lemma {:induction false} LengthBases(k: nat)
    requires k < 29
    ensures LENGTH_BASE[k] == LengthBase(k)
  {
    hide Shl, LengthBase, LengthExtra;
    LengthBaseNext(if 0 < k < 28 then k - 1 else 0);
    if 0 < k < 28 {
      LengthBases(k - 1);
      LengthExtras(k - 1);
      LengthSpan(k - 1);
    }
  }

  // Each entry covers the lengths up to the next one.
  lemma LengthSpan(k: nat)
    requires k < 27
    ensures LENGTH_BASE[k + 1] == LENGTH_BASE[k] + Shl(1, LENGTH_EXTRA[k])
  {
    hide Shl;
    Pow2Values();
  }

  lemma LengthExtras(k: nat)
    requires k < 31
    ensures LENGTH_EXTRA[k] <= 16
    ensures k < 29 ==> LENGTH_EXTRA[k] == LengthExtra(k)
  {
  }

  lemma DistTables(k: nat)
    requires k < 32
    ensures |DIST_BASE| == |DIST_EXTRA| == 32 && DIST_EXTRA[k] <= 16
    ensures k < 30 ==> DIST_BASE[k] == DistBase(k) && DIST_EXTRA[k] == DistExtra(k)
  {
    hide DistBase, DistExtra;
    if k < 30 {
      DistBases(k);
    }
    DistExtras(k);
  }

  lemma {:induction false} DistBases(k: nat)
    requires k < 30
    ensures DIST_BASE[k] == DistBase(k)
  {
    hide Shl, DistBase, DistExtra;
    DistBaseNext(if k > 0 then k - 1 else 0);
    if k > 0 {
      DistBases(k - 1);
      DistExtras(k - 1);
      DistSpan(k - 1);
    }
  }

  lemma DistSpan(k: nat)
    requires k < 29
    ensures DIST_BASE[k + 1] == DIST_BASE[k] + Shl(1, DIST_EXTRA[k])
  {
    hide Shl;
    Pow2Values();
  }

  lemma DistExtras(k: nat)
    requires k < 32
    ensures DIST_EXTRA[k] <= 16
    ensures k < 30 ==> DIST_EXTRA[k] == DistExtra(k)
  {
  }
}
