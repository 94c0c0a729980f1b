/** A reference decoder for the compressed format of RFC 1951, written from its sections 3.2.3 to 3.2.7.
    It reads the input bit by bit and treats it as followed by zero bytes. */
module Deflate {
  import opened Bits
  import opened Canonical
  import opened Options

  // Undefined: the stream uses a length or distance symbol that section 3.2.5 does not define.
  datatype Outcome = Done(pos: nat, out: seq<u8>) | Corrupt | Undefined | Diverges
  datatype State = State(pos: nat, out: seq<u8>)
  datatype Step = Continue(next: State) | Stop(result: Outcome)

  /* ---- Iterating a step until it stops ---- */

  function Run(step: State -> Step, s: State, fuel: nat): Option<Outcome>
    decreases fuel
  {
    if fuel == 0 then None
    else match step(s)
      case Stop(r) => Some(r)
      case Continue(t) => Run(step, t, fuel - 1)
  }

  // The outcome of running to the end, however long that takes.
  ghost function Limit(step: State -> Step, s: State): Outcome {
    if exists fuel: nat :: Run(step, s, fuel).Some? then
      var fuel: nat :| Run(step, s, fuel).Some?;
      Run(step, s, fuel).value
    else Diverges
  }

  lemma {:induction false} RunDeterministic(step: State -> Step, s: State, f: nat, g: nat)
    requires Run(step, s, f).Some? && Run(step, s, g).Some?
    ensures Run(step, s, f) == Run(step, s, g)
    decreases f
  {
    if step(s).Continue? {
      RunDeterministic(step, step(s).next, f - 1, g - 1);
    }
  }

  // The limit takes one step, and then is the limit from there.
  lemma LimitStep(step: State -> Step, s: State)
    ensures Limit(step, s) == match step(s) case Stop(r) => r case Continue(t) => Limit(step, t)
  {
    match step(s) {
      case Stop(r) =>
        assert Run(step, s, 1) == Some(r);
        var f: nat :| Run(step, s, f).Some? && Limit(step, s) == Run(step, s, f).value;
        RunDeterministic(step, s, f, 1);
      case Continue(t) =>
        if exists f: nat :: Run(step, t, f).Some? {
          var g: nat :| Run(step, t, g).Some? && Limit(step, t) == Run(step, t, g).value;
          assert Run(step, s, g + 1) == Run(step, t, g);
          var f: nat :| Run(step, s, f).Some? && Limit(step, s) == Run(step, s, f).value;
          RunDeterministic(step, s, f, g + 1);
        } else {
          forall f: nat
            ensures Run(step, s, f).None?
          {
            if f != 0 {
              assert Run(step, s, f) == Run(step, t, f - 1);
            }
          }
        }
    }
  }

  // A step never moves back in the input and never takes output back.
  ghost predicate Forward(s: State, step: Step) {
    match step
    case Continue(t) => s.pos <= t.pos && |s.out| <= |t.out|
    case Stop(Done(pos, out)) => s.pos <= pos && |s.out| <= |out|
    case Stop(_) => true
  }

  lemma {:induction false} RunForward(step: State -> Step, s: State, fuel: nat)
    requires forall t: State :: Forward(t, step(t))
    ensures Run(step, s, fuel).Some? ==> Forward(s, Stop(Run(step, s, fuel).value))
    decreases fuel
  {
    assert Forward(s, step(s));
    if fuel > 0 && step(s).Continue? {
      RunForward(step, step(s).next, fuel - 1);
    }
  }

  lemma LimitForward(step: State -> Step, s: State)
    requires forall t: State :: Forward(t, step(t))
    ensures Forward(s, Stop(Limit(step, s)))
  {
    if exists fuel: nat :: Run(step, s, fuel).Some? {
      var fuel: nat :| Run(step, s, fuel).Some? && Limit(step, s) == Run(step, s, fuel).value;
      RunForward(step, s, fuel);
    }
  }

  /* ---- Section 3.2.5: lengths and distances ---- */

  // Length code 257 + k: the number of extra bits and the shortest length.
  function LengthExtra(k: nat): nat {
    if k < 8 || k == 28 then 0 else (k - 4) / 4
  }

  function LengthBase(k: nat): (base: nat)
    ensures base >= 3
  {
    if k == 0 then 3 else if k == 28 then 258 else LengthBase(k - 1) + Shl(1, LengthExtra(k - 1))
  }

  // Distance code k: the number of extra bits and the shortest distance.
  function DistExtra(k: nat): nat {
    if k < 4 then 0 else k / 2 - 1
  }

  function DistBase(k: nat): (d: nat)
    ensures d >= 1
  {
    if k == 0 then 1 else DistBase(k - 1) + Shl(1, DistExtra(k - 1))
  }

  lemma DistBaseNext(k: nat)
    ensures DistBase(0) == 1 && DistBase(k + 1) == DistBase(k) + Shl(1, DistExtra(k))
  {
  }

  lemma LengthBaseNext(k: nat)
    requires k < 27
    ensures LengthBase(0) == 3 && LengthBase(28) == 258
    ensures LengthBase(k + 1) == LengthBase(k) + Shl(1, LengthExtra(k))
  {
    hide Shl, LengthExtra;
  }

  // Copies `len` bytes from `dist` back, one at a time, so that the copy may overlap itself.
  function Copy(out: seq<u8>, dist: nat, len: nat): seq<u8>
    requires 1 <= dist <= |out|
    decreases len
  {
    if len == 0 then out else Copy(out + [out[|out| - dist]], dist, len - 1)
  }

  lemma CopyStep(out: seq<u8>, dist: nat, len: nat)
    requires 1 <= dist <= |out| && len > 0
    ensures Copy(out, dist, len) == Copy(out + [out[|out| - dist]], dist, len - 1)
  {
  }

  // A match as read from the stream, with the position after it.
  datatype Match = Match(pos: nat, len: nat, dist: nat) | NoCode | UndefinedCode

  // What follows length code 257 + k: its extra bits, a distance code and that code's extra bits.
  function ReadMatch(dists: seq<nat>, input: seq<u8>, k: nat, pos: nat): (m: Match)
    ensures m.Match? ==> m.dist >= 1
  {
    ReadDist(dists, input, LengthBase(k) + Field(input, pos, LengthExtra(k)), pos + LengthExtra(k))
  }

  function ReadDist(dists: seq<nat>, input: seq<u8>, len: nat, p: nat): (m: Match)
    ensures m.Match? ==> m.dist >= 1
  {
    match DecodeSymbol(dists, input, p)
    case None => NoCode
    case Some(d) =>
      if d.sym >= 30 then UndefinedCode
      else
        var q := p + d.bits;
        Match(q + DistExtra(d.sym), len, DistBase(d.sym) + Field(input, q, DistExtra(d.sym)))
  }

  function MatchStep(m: Match, out: seq<u8>): Step
    requires m.Match? ==> m.dist >= 1
  {
    match m
    case NoCode => Stop(Corrupt)
    case UndefinedCode => Stop(Undefined)
    case Match(p, len, dist) =>
      if dist > |out| then Stop(Corrupt)
      else Continue(State(p, Copy(out, dist, len)))
  }

  // One literal, end-of-block or match of a compressed block.
  function SymbolStep(lits: seq<nat>, dists: seq<nat>, input: seq<u8>, s: State): Step {
    match DecodeSymbol(lits, input, s.pos)
    case None => Stop(Corrupt)
    case Some(c) =>
      var p := s.pos + c.bits;
      if c.sym < 256 then Continue(State(p, s.out + [c.sym]))
      else if c.sym == 256 then Stop(Done(p, s.out))
      else if c.sym >= 286 then Stop(Undefined)
      else MatchStep(ReadMatch(dists, input, c.sym - 257, p), s.out)
  }

  function SymbolStepper(lits: seq<nat>, dists: seq<nat>, input: seq<u8>): State -> Step {
    (s: State) => SymbolStep(lits, dists, input, s)
  }

  ghost function CompressedBlock(lits: seq<nat>, dists: seq<nat>, input: seq<u8>, s: State): Outcome {
    Limit(SymbolStepper(lits, dists, input), s)
  }

  // A copy keeps the output and adds `len` bytes, each equal to the one `dist` before it, itself copied or not.
  lemma {:induction false} CopyPeriod(out: seq<u8>, dist: nat, len: nat)
    requires 1 <= dist <= |out|
    ensures var r := Copy(out, dist, len);
      |r| == |out| + len && r[..|out|] == out && forall i :: |out| <= i < |r| ==> r[i] == r[i - dist]
    decreases len
  {
    if len > 0 {
      var next := out + [out[|out| - dist]];
      CopyPeriod(next, dist, len - 1);
      var r := Copy(next, dist, len - 1);
      assert forall i :: 0 <= i < |next| ==> r[i] == r[..|next|][i];
    }
  }

  // A symbol takes at least one bit, and adds output unless it ends the block.
  lemma SymbolForward(lits: seq<nat>, dists: seq<nat>, input: seq<u8>, s: State)
    ensures var step := SymbolStep(lits, dists, input, s);
      Forward(s, step) && (step.Continue? ==> s.pos < step.next.pos && |s.out| < |step.next.out|)
  {
    hide DecodeSymbol, Field, Copy, LengthBase, DistBase, LengthExtra, DistExtra;
    var c := DecodeSymbol(lits, input, s.pos);
    if c.Some? && 257 <= c.value.sym < 286 {
      var m := ReadMatch(dists, input, c.value.sym - 257, s.pos + c.value.bits);
      if m.Match? && m.dist <= |s.out| {
        CopyPeriod(s.out, m.dist, m.len);
      }
    }
  }

  lemma CompressedForward(lits: seq<nat>, dists: seq<nat>, input: seq<u8>, s: State)
    ensures Forward(s, Stop(CompressedBlock(lits, dists, input, s)))
  {
    hide Limit, SymbolStep;
    forall t: State
      ensures Forward(t, SymbolStepper(lits, dists, input)(t))
    {
      SymbolForward(lits, dists, input, t);
    }
    LimitForward(SymbolStepper(lits, dists, input), s);
  }

  /* ---- Section 3.2.6: fixed codes ---- */

  function FixedLits(): (r: seq<nat>)
    ensures |r| == 288
  {
    seq(288, i => if i < 144 then 8 else if i < 256 then 9 else if i < 280 then 7 else 8)
  }

  function FixedDists(): (r: seq<nat>)
    ensures |r| == 32
  {
    seq(32, i => 5)
  }

  /* ---- Section 3.2.7: dynamic codes ---- */

  // Where the header has the length of a code length symbol: those of 16, 17, 18 and 0 come first, and then those of
  // 8, 7, 9, 6, 10 and so on, alternating outward.
  function SentAt(sym: nat): (k: nat)
    requires sym < 19
    ensures k < 19
  {
    if sym >= 16 then sym - 16 else if sym == 0 then 3 else if sym >= 8 then 4 + 2 * (sym - 8) else 5 + 2 * (7 - sym)
  }

  // The lengths of the code length alphabet: those not sent are zero.
  function MetaLens(input: seq<u8>, p: nat, sent: nat): (lens: seq<nat>)
    ensures |lens| == 19
  {
    seq<nat>(19, sym requires 0 <= sym < 19 => if SentAt(sym) < sent then Field(input, p + 3 * SentAt(sym), 3) else 0)
  }

  // Code lengths together with the position after them.
  datatype Lens = Lens(pos: nat, lens: seq<nat>)

  function Repeat(v: nat, n: nat): (r: seq<nat>)
    ensures |r| == n
  {
    seq(n, i => v)
  }

  // The run that code length symbol `sym` stands for, given the lengths so far.
  function LensOf(input: seq<u8>, p: nat, sym: nat, lens: seq<nat>): Option<Lens> {
    if sym < 16 then Some(Lens(p, [sym]))
    else if sym == 16 then
      if |lens| == 0 then None else Some(Lens(p + 2, Repeat(lens[|lens| - 1], Field(input, p, 2) + 3)))
    else if sym == 17 then Some(Lens(p + 3, Repeat(0, Field(input, p, 3) + 3)))
    else if sym == 18 then Some(Lens(p + 7, Repeat(0, Field(input, p, 7) + 11)))
    else None
  }

  // Reads code lengths until there are exactly `total`.
  function ReadLens(meta: seq<nat>, input: seq<u8>, p: nat, total: nat, lens: seq<nat>): (r: Option<Lens>)
    ensures r.Some? ==> |r.value.lens| == total
    decreases total - |lens|
  {
    if |lens| == total then Some(Lens(p, lens))
    else match DecodeSymbol(meta, input, p)
      case None => None
      case Some(c) =>
        match LensOf(input, p + c.bits, c.sym, lens)
        case None => None
        case Some(run) =>
          if |run.lens| == 0 || |lens| + |run.lens| > total then None
          else ReadLens(meta, input, run.pos, total, lens + run.lens)
  }

  // One run of code lengths is read and appended.
  lemma ReadLensStep(meta: seq<nat>, input: seq<u8>, p: nat, total: nat, lens: seq<nat>, c: Symbol)
    requires |lens| < total && DecodeSymbol(meta, input, p) == Some(c)
    ensures ReadLens(meta, input, p, total, lens) == match LensOf(input, p + c.bits, c.sym, lens)
      case None => None
      case Some(run) =>
        if |run.lens| == 0 || |lens| + |run.lens| > total then None
        else ReadLens(meta, input, run.pos, total, lens + run.lens)
  {
  }

  lemma {:induction false} ReadLensForward(meta: seq<nat>, input: seq<u8>, p: nat, total: nat, lens: seq<nat>)
    ensures var r := ReadLens(meta, input, p, total, lens); r.Some? ==> p <= r.value.pos
    decreases total - |lens|
  {
    hide DecodeSymbol, Field;
    var c := DecodeSymbol(meta, input, p);
    if |lens| != total && c.Some? {
      var run := LensOf(input, p + c.value.bits, c.value.sym, lens);
      if run.Some? && 0 < |run.value.lens| && |lens| + |run.value.lens| <= total {
        ReadLensForward(meta, input, run.value.pos, total, lens + run.value.lens);
      }
    }
  }

  datatype Codes = Codes(pos: nat, lits: seq<nat>, dists: seq<nat>)

  // The code lengths of a dynamic block, and how many of them are for the literal alphabet.
  datatype CodeLens = CodeLens(pos: nat, hlit: nat, lens: seq<nat>)

  function ReadCodeLens(input: seq<u8>, p: nat): (r: Option<CodeLens>)
    ensures r.Some? ==> r.value.hlit <= |r.value.lens|
  {
    var hlit := Field(input, p, 5) + 257;
    var hdist := Field(input, p + 5, 5) + 1;
    var hclen := Field(input, p + 10, 4) + 4;
    var meta := MetaLens(input, p + 14, hclen);
    if !Fits(meta) then None
    else match ReadLens(meta, input, p + 14 + 3 * hclen, hlit + hdist, [])
      case None => None
      case Some(r) => Some(CodeLens(r.pos, hlit, r.lens))
  }

  // The codes of a dynamic block; refused when some code has more symbols than it has room for.
  function ReadCodes(input: seq<u8>, p: nat): Option<Codes> {
    match ReadCodeLens(input, p)
    case None => None
    case Some(r) =>
      if Fits(r.lens[..r.hlit]) && Fits(r.lens[r.hlit..]) then
        Some(Codes(r.pos, r.lens[..r.hlit], r.lens[r.hlit..]))
      else None
  }

  /* ---- Section 3.2.4: stored blocks ---- */

  function Bytes(input: seq<u8>, i: nat, n: nat): (r: seq<u8>)
    ensures |r| == n
  {
    seq<u8>(n, k requires 0 <= k < n => ByteAt(input, i + k))
  }

  function StoredBlock(input: seq<u8>, p: nat, out: seq<u8>): Outcome {
    var i := (p + 7) / 8;
    var len := ByteAt(input, i) + 256 * ByteAt(input, i + 1);
    var nlen := ByteAt(input, i + 2) + 256 * ByteAt(input, i + 3);
    if len + nlen != 0xFFFF then Corrupt
    else Done(8 * (i + 4 + len), out + Bytes(input, i + 4, len))
  }

  /* ---- Section 3.2.3: blocks ---- */

  ghost function BlockBody(input: seq<u8>, kind: nat, p: nat, out: seq<u8>): Outcome {
    if kind == 0 then StoredBlock(input, p, out)
    else if kind == 1 then CompressedBlock(FixedLits(), FixedDists(), input, State(p, out))
    else if kind == 2 then
      match ReadCodes(input, p)
      case None => Corrupt
      case Some(c) => CompressedBlock(c.lits, c.dists, input, State(c.pos, out))
    else Corrupt
  }

  ghost function BlockStep(input: seq<u8>, s: State): Step {
    var final := Field(input, s.pos, 1);
    match BlockBody(input, Field(input, s.pos + 1, 2), s.pos + 3, s.out)
    case Done(p, out) => if final == 1 then Stop(Done(p, out)) else Continue(State(p, out))
    case bad => Stop(bad)
  }

  ghost function BlockStepper(input: seq<u8>): State -> Step {
    (s: State) => BlockStep(input, s)
  }

  // Decodes the stream that starts at bit p, appending to `out`.
  ghost function Inflate(input: seq<u8>, p: nat, out: seq<u8>): Outcome {
    Limit(BlockStepper(input), State(p, out))
  }

  // A block that is not final is followed by the rest of the stream.
  lemma InflateStep(input: seq<u8>, s: State)
    ensures var b := BlockBody(input, Field(input, s.pos + 1, 2), s.pos + 3, s.out);
      Inflate(input, s.pos, s.out)
      == if b.Done? && Field(input, s.pos, 1) != 1 then Inflate(input, b.pos, b.out) else b
  {
    hide BlockBody, Field, Limit;
    LimitStep(BlockStepper(input), s);
  }

  lemma CodesForward(input: seq<u8>, p: nat)
    ensures var r := ReadCodes(input, p); r.Some? ==> p <= r.value.pos
  {
    hide Field, Fits, MetaLens, ReadLens;
    var hlit, hdist, hclen := Field(input, p, 5) + 257, Field(input, p + 5, 5) + 1, Field(input, p + 10, 4) + 4;
    ReadLensForward(MetaLens(input, p + 14, hclen), input, p + 14 + 3 * hclen, hlit + hdist, []);
  }

  lemma BodyForward(input: seq<u8>, kind: nat, p: nat, out: seq<u8>)
    ensures Forward(State(p, out), Stop(BlockBody(input, kind, p, out)))
  {
    hide ReadCodes, CompressedBlock, FixedLits, FixedDists;
    if kind == 1 {
      CompressedForward(FixedLits(), FixedDists(), input, State(p, out));
    } else if kind == 2 {
      CodesForward(input, p);
      var c := ReadCodes(input, p);
      if c.Some? {
        CompressedForward(c.value.lits, c.value.dists, input, State(c.value.pos, out));
      }
    }
  }

  // A block takes at least its three header bits.
  lemma BlockForward(input: seq<u8>, s: State)
    ensures var step := BlockStep(input, s);
      Forward(s, step) && (step.Continue? ==> s.pos + 3 <= step.next.pos)
  {
    hide BlockBody, Field;
    BodyForward(input, Field(input, s.pos + 1, 2), s.pos + 3, s.out);
  }

  lemma InflateForward(input: seq<u8>, p: nat, out: seq<u8>)
    ensures Forward(State(p, out), Stop(Inflate(input, p, out)))
  {
    hide Limit, BlockStep;
    forall t: State
      ensures Forward(t, BlockStepper(input)(t))
    {
      BlockForward(input, t);
    }
    LimitForward(BlockStepper(input), State(p, out));
  }

  /* ---- Past the end of the input ---- */

  lemma {:induction false} NoField(input: seq<u8>, p: nat, n: nat)
    requires p >= 8 * |input|
    ensures Field(input, p, n) == 0
    decreases n
  {
    if n > 0 {
      NoField(input, p + 1, n - 1);
      assert (p / 8) >= |input|;
      ShrOfZero(p % 8);
    }
  }

  lemma {:induction false} ShrOfZero(n: nat)
    ensures Shr(0, n) == 0
    decreases n
  {
    if n > 0 {
      ShrOfZero(n - 1);
    }
  }

  // No block starts past the end of the input.
  lemma NoBlock(input: seq<u8>, p: nat, out: seq<u8>)
    requires p >= 8 * |input|
    ensures BlockBody(input, Field(input, p + 1, 2), p + 3, out) == Corrupt
  {
    hide Field;
    NoField(input, p + 1, 2);
  }
}
