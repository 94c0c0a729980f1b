/** Directory records: variable-length records packed into 512-byte blocks, and read out in whole blocks. */
module Dirents {
  import opened Bits
  import opened Division
  import opened BitArray
  import opened Options

  const DIR_BLOCK_SIZE := 512
  const NAME_MAX := 255

  // A whole number of blocks.
  predicate Whole(n: nat) {
    n % DIR_BLOCK_SIZE == 0
  }

  lemma OneBlockLess(n: nat)
    requires Whole(n) && n >= DIR_BLOCK_SIZE
    ensures Whole(n - DIR_BLOCK_SIZE)
  {
  }

  datatype Entry = Entry(isFile: bool, name: seq<u8>)

  /* ---- Alignment ---- */

  // value & ~(alignment - 1)
  function AlignDown(value: u64, alignment: u64): nat {
    if alignment != 0 then And(value, Not(alignment - 1)) else value
  }

  function AlignUp(value: nat, alignment: u64): nat
    requires value + alignment <= ONES
  {
    if alignment != 0 then And(value + alignment - 1, Not(alignment - 1)) else value
  }

  // For a power of two the mask clears the low bits.
  lemma MaskClears(v: u64, k: nat)
    requires k < 64
    ensures 1 <= Shl(1, k) <= ONES && And(v, Not(Shl(1, k) - 1)) == Shl(Shr(v, k), k)
  {
    Pow2Of64();
    ShlMonotone(1, 2, k);
    ShlInner(1, k);
    Pow2Monotone(k, 63);
    ShlInner(1, 63);
    var low := Shl(1, k) - 1;
    forall i: nat
      ensures Bit(And(v, Not(low)), i) == Bit(Shl(Shr(v, k), k), i)
    {
      AndBit(v, Not(low), i);
      ShlBit(Shr(v, k), k, i);
      if i < 64 {
        NotBit(low, i);
        OnesBit(k, i);
        if i >= k {
          ShrBit(v, k, i - k);
        }
      } else {
        NoHighBit(Not(low), i);
        ShrBit(v, k, i - k);
        NoHighBit(v, i);
      }
    }
    AndWord(v, Not(low));
    ShlShrBound(v, k);
    SameBits(And(v, Not(low)), Shl(Shr(v, k), k), 64);
  }

  lemma {:induction false} ShlShrBound(v: nat, k: nat)
    ensures Shl(Shr(v, k), k) <= v
    decreases k
  {
    if k > 0 {
      ShlShrBound(v / 2, k - 1);
    }
  }

  lemma AlignDownIs(v: u64)
    ensures AlignDown(v, 512) == v - v % 512
    ensures AlignDown(v, 4) == v - v % 4
  {
    hide And;
    MaskClears(v, 9);
    MaskClears(v, 2);
    ShrIs9(v);
    ShlIs9(v / 512);
    assert Shl(1, 9) == 512 by {
      ShlIs9(1);
    }
    ShlIs2(1);
    ShlIs2(v);
    ShlIs2(v / 4);
  }

  lemma ShrIs9(v: nat)
    ensures Shr(v, 9) == v / 512
  {
    hide Shl, Shr;
    ShrDivides(v, 9);
    ShlIs9(1);
  }

  lemma ShlIs2(v: nat)
    ensures Shl(v, 2) == 4 * v && Shr(v, 2) == v / 4
  {
    assert Shl(v, 1) == 2 * v;
    assert Shl(1, 2) == 4;
    ShrDivides(v, 2);
  }

  lemma ShlIs9(v: nat)
    ensures Shl(v, 9) == 512 * v
  {
    ShlBy8(v);
  }

  /* ---- One record ---- */

  function Zeros(n: nat): (z: seq<u8>)
    ensures |z| == n && forall i :: 0 <= i < n ==> z[i] == 0
  {
    seq(n, i => 0)
  }

  function Le16(v: nat): (b: seq<u8>)
    ensures |b| == 2
  {
    [v % 256, v / 256 % 256]
  }

  function Le32(v: nat): (b: seq<u8>)
    ensures |b| == 4
  {
    [v % 256, v / 256 % 256, v / 65536 % 256, v / 16777216 % 256]
  }

  function FromLe16(b: seq<u8>, at: nat): nat
    requires at + 2 <= |b|
  {
    b[at] as int + 256 * b[at + 1] as int
  }

  // File number, record length, type, name length, name, and zeros up to the record length.
  function Encode(e: Entry, len: nat, hash: seq<u8> -> nat): (b: seq<u8>)
    requires |e.name| <= NAME_MAX && 9 + |e.name| <= len
    ensures |b| == len
  {
    Le32(hash(e.name)) + Le16(len) + [if e.isFile then 8 else 4, |e.name|] + e.name + Zeros(len - 8 - |e.name|)
  }

  // What a reader makes of the bytes: the first record and its length.
  function ParseOne(b: seq<u8>, hash: seq<u8> -> nat): (r: Option<(Entry, nat)>)
    ensures r.Some? ==> 9 <= r.value.1 <= |b|
  {
    if |b| < 9 then None
    else
      var len, n := FromLe16(b, 4), b[7] as int;
      if 9 + n > len || len > |b| || b[8 + n] != 0 || (b[6] != 8 && b[6] != 4) then None
      else if b[..4] != Le32(hash(b[8..8 + n])) then None
      else Some((Entry(b[6] == 8, b[8..8 + n]), len))
  }

  // Walking from record to record by their lengths.
  function Parse(b: seq<u8>, hash: seq<u8> -> nat): Option<seq<Entry>>
    decreases |b|
  {
    if b == [] then Some([])
    else
      var first := ParseOne(b, hash);
      if first.None? then None else Join(Some([first.value.0]), Parse(b[first.value.1..], hash))
  }

  function Join<T>(x: Option<seq<T>>, y: Option<seq<T>>): Option<seq<T>> {
    if x.None? || y.None? then None else Some(x.value + y.value)
  }

  lemma JoinAssociative<T>(x: Option<seq<T>>, y: Option<seq<T>>, z: Option<seq<T>>)
    ensures Join(Join(x, y), z) == Join(x, Join(y, z))
    ensures Join(Some([]), x) == x == Join(x, Some([]))
  {
    if x.Some? && y.Some? && z.Some? {
      assert x.value + y.value + z.value == x.value + (y.value + z.value);
    }
    if x.Some? {
      assert [] + x.value == x.value == x.value + [];
    }
  }

  // The same walk, each block on its own.
  function ParseBlocks(b: seq<u8>, hash: seq<u8> -> nat): Option<seq<Entry>>
    decreases |b|
  {
    if |b| < DIR_BLOCK_SIZE then Parse(b, hash)
    else Join(Parse(b[..DIR_BLOCK_SIZE], hash), ParseBlocks(b[DIR_BLOCK_SIZE..], hash))
  }

  lemma ParseOneAppend(b: seq<u8>, c: seq<u8>, hash: seq<u8> -> nat)
    requires ParseOne(b, hash).Some?
    ensures ParseOne(b + c, hash) == ParseOne(b, hash)
  {
    var n := b[7] as int;
    assert (b + c)[8..8 + n] == b[8..8 + n];
    assert (b + c)[..4] == b[..4];
  }

  lemma {:induction false} ParseAppend(b: seq<u8>, c: seq<u8>, hash: seq<u8> -> nat)
    requires Parse(b, hash).Some?
    ensures Parse(b + c, hash) == Join(Parse(b, hash), Parse(c, hash))
    decreases |b|
  {
    hide ParseOne, Join;
    JoinAssociative(Parse(c, hash), None, None);
    if b == [] {
      assert b + c == c;
    } else {
      ParseOneAppend(b, c, hash);
      var (first, len) := ParseOne(b, hash).value;
      RestParses(b, hash);
      ParseAppend(b[len..], c, hash);
      JoinAssociative(Some([first]), Parse(b[len..], hash), Parse(c, hash));
      assert (b + c)[len..] == b[len..] + c;
    }
  }

  lemma RestParses(b: seq<u8>, hash: seq<u8> -> nat)
    requires b != [] && Parse(b, hash).Some?
    ensures ParseOne(b, hash).Some? && Parse(b[ParseOne(b, hash).value.1..], hash).Some?
  {
    hide ParseOne;
  }

  lemma ParseEncoded(e: Entry, len: nat, hash: seq<u8> -> nat)
    requires |e.name| <= NAME_MAX && 9 + |e.name| <= len < 0x1_0000
    ensures Parse(Encode(e, len, hash), hash) == Some([e])
  {
    var b := Encode(e, len, hash);
    assert b[..4] == Le32(hash(e.name));
    assert b[4..6] == Le16(len);
    assert b[4] == b[4..6][0] && b[5] == b[4..6][1];
    assert b[8..8 + |e.name|] == e.name;
    assert ParseOne(b, hash) == Some((e, len));
    assert b[len..] == [];
    JoinAssociative(Some([e]), None, None);
  }

  lemma EmptyParses(hash: seq<u8> -> nat)
    ensures Parse([], hash) == Some([]) == ParseBlocks([], hash)
  {
  }

  lemma {:induction false} BlocksAppend(b: seq<u8>, c: seq<u8>, hash: seq<u8> -> nat)
    requires Whole(|b|)
    ensures ParseBlocks(b + c, hash) == Join(ParseBlocks(b, hash), ParseBlocks(c, hash))
    decreases |b|
  {
    hide Parse, Join;
    JoinAssociative(ParseBlocks(c, hash), None, None);
    EmptyParses(hash);
    if b == [] {
      assert b + c == c;
    } else {
      var all := b + c;
      assert all[..DIR_BLOCK_SIZE] == b[..DIR_BLOCK_SIZE];
      assert all[DIR_BLOCK_SIZE..] == b[DIR_BLOCK_SIZE..] + c;
      BlocksAppend(b[DIR_BLOCK_SIZE..], c, hash);
      JoinAssociative(Parse(b[..DIR_BLOCK_SIZE], hash), ParseBlocks(b[DIR_BLOCK_SIZE..], hash), ParseBlocks(c, hash));
    }
  }

  // Blocks that parse one by one parse as a whole.
  lemma {:induction false} BlocksParse(b: seq<u8>, hash: seq<u8> -> nat)
    requires ParseBlocks(b, hash).Some?
    ensures Parse(b, hash) == ParseBlocks(b, hash)
    decreases |b|
  {
    if |b| >= DIR_BLOCK_SIZE {
      BlocksParse(b[DIR_BLOCK_SIZE..], hash);
      ParseAppend(b[..DIR_BLOCK_SIZE], b[DIR_BLOCK_SIZE..], hash);
      assert b == b[..DIR_BLOCK_SIZE] + b[DIR_BLOCK_SIZE..];
    }
  }

  /* ---- Packing ---- */

  // The bytes at an offset overwritten.
  function Write(b: seq<u8>, at: nat, data: seq<u8>): (r: seq<u8>)
    requires at + |data| <= |b|
    ensures |r| == |b|
    ensures forall i :: 0 <= i < |b| ==> r[i] == if at <= i < at + |data| then data[i - at] else b[i]
  {
    b[..at] + data + b[at + |data|..]
  }

  // *last_reclen += slack, on a uint16_t in memory
  function Lengthen(b: seq<u8>, at: nat, slack: nat): (r: seq<u8>)
    requires at + 2 <= |b|
    ensures |r| == |b|
  {
    Write(b, at, Le16((FromLe16(b, at) + slack) % 0x1_0000))
  }

  // The length of a record before padding it to the end of its block.
  function RecordLength(e: Entry): nat
    requires |e.name| <= NAME_MAX
  {
    AlignUp(8 + |e.name| + 1, 4)
  }

  lemma RecordLengthIs(e: Entry)
    requires |e.name| <= NAME_MAX
    ensures 9 + |e.name| <= RecordLength(e) <= 12 + |e.name| <= 267 && RecordLength(e) % 4 == 0
  {
    hide AlignDown, And;
    var v := 12 + |e.name|;
    AlignDownIs(v);
    AlignedUp(8 + |e.name| + 1);
    RemainderUnique(v - v % 4, 4, v / 4, 0);
  }

  lemma AlignedUp(v: nat)
    requires v + 4 <= ONES
    ensures AlignUp(v, 4) == AlignDown(v + 3, 4)
  {
    hide And, Not;
  }

  // Every entry done is in the bytes: `closed` of them in full blocks, the rest in the last block, whose
  // last record begins at `at` and ends at `offset`, followed by zeros.
  ghost predicate Packing(dirents: seq<u8>, offset: nat, at: nat, done: seq<Entry>, closed: nat, hash: seq<u8> -> nat) {
    var start := |dirents| - DIR_BLOCK_SIZE;
    && Whole(|dirents|) && 0 <= start <= at < offset <= |dirents|
    && closed < |done| && |done[|done| - 1].name| <= NAME_MAX && 9 + |done[|done| - 1].name| <= offset - at
    && ParseBlocks(dirents[..start], hash) == Some(done[..closed])
    && Parse(dirents[start..at], hash) == Some(done[closed..|done| - 1])
    && dirents[at..offset] == Encode(done[|done| - 1], offset - at, hash)
    && dirents[offset..] == Zeros(|dirents| - offset)
  }

  lemma ZerosSum(m: nat, n: nat)
    ensures Zeros(m) + Zeros(n) == Zeros(m + n)
  {
  }

  lemma WriteMiddle(h: seq<u8>, x: seq<u8>, y: seq<u8>, rest: seq<u8>)
    requires |x| == |y|
    ensures Write(h + x + rest, |h|, y) == h + y + rest
  {
  }

  lemma Le16Inverse(v: nat)
    requires v < 0x1_0000
    ensures |Le16(v)| == 2 && Le16(v)[0] as int + 256 * Le16(v)[1] as int == v
  {
  }

  lemma LengthenMiddle(h: seq<u8>, len: nat, slack: nat, rest: seq<u8>)
    requires |h| == 4 && len + slack < 0x1_0000
    ensures Lengthen(h + Le16(len) + rest, 4, slack) == h + Le16(len + slack) + rest
  {
    hide Write, Le16;
    var b := h + Le16(len) + rest;
    assert b[4] == Le16(len)[0] && b[5] == Le16(len)[1];
    Le16Inverse(len);
    WriteMiddle(h, Le16(len), Le16(len + slack), rest);
  }

  // What Write leaves.
  lemma WriteParts(b: seq<u8>, at: nat, data: seq<u8>)
    requires at + |data| <= |b|
    ensures var r := Write(b, at, data);
      r[..at] == b[..at] && r[at..at + |data|] == data && r[at + |data|..] == b[at + |data|..]
  {
  }

  // A record around its length field.
  lemma EncodeParts(e: Entry, len: nat, n: nat, hash: seq<u8> -> nat)
    requires |e.name| <= NAME_MAX && 9 + |e.name| <= len
    ensures Encode(e, len, hash) + Zeros(n) == Le32(hash(e.name)) + Le16(len)
      + ([if e.isFile then 8 else 4, |e.name|] + e.name + Zeros(len + n - 8 - |e.name|))
  {
    ZerosSum(len - 8 - |e.name|, n);
  }

  // Lengthening a record by the zeros after it makes it the longer record.
  lemma Lengthened(e: Entry, len: nat, n: nat, hash: seq<u8> -> nat)
    requires |e.name| <= NAME_MAX && 9 + |e.name| <= len && len + n < 0x1_0000
    ensures Lengthen(Encode(e, len, hash) + Zeros(n), 4, n) == Encode(e, len + n, hash)
  {
    hide Encode, Lengthen, Zeros, Le16, Le32;
    var rest := [if e.isFile then 8 else 4, |e.name|] + e.name + Zeros(len + n - 8 - |e.name|);
    EncodeParts(e, len, n, hash);
    EncodeParts(e, len + n, 0, hash);
    LengthenMiddle(Le32(hash(e.name)), len, n, rest);
    assert Encode(e, len + n, hash) + Zeros(0) == Encode(e, len + n, hash);
  }

  lemma WriteInTail(b: seq<u8>, at: nat, k: nat, data: seq<u8>)
    requires at + k + |data| <= |b|
    ensures Write(b, at + k, data) == b[..at] + Write(b[at..], k, data)
  {
  }

  lemma LengthenInTail(b: seq<u8>, at: nat, slack: nat)
    requires at + 6 <= |b|
    ensures Lengthen(b, at + 4, slack) == b[..at] + Lengthen(b[at..], 4, slack)
  {
    WriteInTail(b, at, 4, Le16((FromLe16(b, at + 4) + slack) % 0x1_0000));
  }

  // Padding the last record to the end of its block closes the block.
  lemma Closes(dirents: seq<u8>, offset: nat, at: nat, done: seq<Entry>, closed: nat, hash: seq<u8> -> nat)
    requires Packing(dirents, offset, at, done, closed, hash)
    ensures at + 6 <= |dirents| && offset <= |dirents| < offset + 0x1_0000 && Whole(|dirents|)
    ensures ParseBlocks(Lengthen(dirents, at + 4, |dirents| - offset), hash) == Some(done)
  {
    hide Whole, Parse, ParseBlocks, Encode, Lengthen;
    var start, n, e := |dirents| - DIR_BLOCK_SIZE, |dirents| - offset, done[|done| - 1];
    var b := Lengthen(dirents, at + 4, n);
    var record := Encode(e, offset - at + n, hash);
    LengthenInTail(dirents, at, n);
    assert dirents[at..] == dirents[at..offset] + dirents[offset..];
    Lengthened(e, offset - at, n, hash);
    assert b == dirents[..at] + record;
    ParseEncoded(e, offset - at + n, hash);
    var block := dirents[start..at] + record;
    ParseAppend(dirents[start..at], record, hash);
    assert done[closed..|done| - 1] + [e] == done[closed..];
    assert Parse(block, hash) == Some(done[closed..]);
    assert b == dirents[..start] + block;
    OneBlock(block, hash);
    OneBlockLess(|dirents|);
    BlocksAppend(dirents[..start], block, hash);
    assert done[..closed] + done[closed..] == done;
  }

  lemma OneBlock(b: seq<u8>, hash: seq<u8> -> nat)
    requires |b| == DIR_BLOCK_SIZE
    ensures ParseBlocks(b, hash) == Parse(b, hash)
  {
    hide Parse, Join;
    EmptyParses(hash);
    assert b[..DIR_BLOCK_SIZE] == b;
    JoinAssociative(Parse(b, hash), None, None);
  }

  // A record written where the last one ends.
  lemma Continues(dirents: seq<u8>, offset: nat, at: nat, done: seq<Entry>, closed: nat, e: Entry, hash: seq<u8> -> nat)
    requires Packing(dirents, offset, at, done, closed, hash)
    requires |e.name| <= NAME_MAX && offset + RecordLength(e) <= |dirents|
    ensures 9 + |e.name| <= RecordLength(e)
    ensures Packing(Write(dirents, offset, Encode(e, RecordLength(e), hash)),
              offset + RecordLength(e), offset, done + [e], closed, hash)
  {
    hide Whole, Parse, ParseBlocks, Encode, RecordLength;
    RecordLengthIs(e);
    var start, len, last, next := |dirents| - DIR_BLOCK_SIZE, RecordLength(e), done[|done| - 1], done + [e];
    var b := Write(dirents, offset, Encode(e, len, hash));
    assert b[..start] == dirents[..start];
    ParseEncoded(last, offset - at, hash);
    ParseAppend(dirents[start..at], dirents[at..offset], hash);
    assert b[start..offset] == dirents[start..at] + dirents[at..offset];
    assert next[..closed] == done[..closed];
    assert next[closed..|next| - 1] == done[closed..|done| - 1] + [last];
    assert b[offset..offset + len] == Encode(e, len, hash);
    assert b[offset + len..] == dirents[offset..][len..];
    ZerosTail(|dirents| - offset, len);
  }

  lemma ZerosTail(n: nat, k: nat)
    requires k <= n
    ensures Zeros(n)[k..] == Zeros(n - k)
  {
  }

  // A block that holds one record only.
  lemma PackedAlone(b: seq<u8>, at: nat, len: nat, done: seq<Entry>, e: Entry, hash: seq<u8> -> nat)
    requires Whole(at) && |b| == at + DIR_BLOCK_SIZE
    requires |e.name| <= NAME_MAX && 9 + |e.name| <= len <= DIR_BLOCK_SIZE
    requires ParseBlocks(b[..at], hash) == Some(done)
    requires b[at..at + len] == Encode(e, len, hash) && b[at + len..] == Zeros(DIR_BLOCK_SIZE - len)
    ensures Packing(b, at + len, at, done + [e], |done|, hash)
  {
    hide Parse, ParseBlocks, Encode, Zeros;
    var next := done + [e];
    EmptyParses(hash);
    assert b[at..at] == [] && next[..|done|] == done && next[|done|..|next| - 1] == [];
  }

  lemma Slices<T>(x: seq<T>, y: seq<T>, k: nat)
    requires k <= |y|
    ensures (x + y)[..|x|] == x && (x + y)[|x| + k..] == y[k..]
  {
  }

  // A record at the beginning of a new block.
  lemma Begins(dirents: seq<u8>, done: seq<Entry>, e: Entry, hash: seq<u8> -> nat)
    requires Whole(|dirents|) && ParseBlocks(dirents, hash) == Some(done)
    requires |e.name| <= NAME_MAX
    ensures 9 + |e.name| <= RecordLength(e) <= DIR_BLOCK_SIZE
    ensures Packing(Write(dirents + Zeros(DIR_BLOCK_SIZE), |dirents|, Encode(e, RecordLength(e), hash)),
              |dirents| + RecordLength(e), |dirents|, done + [e], |done|, hash)
  {
    hide Whole, Parse, ParseBlocks, Encode, RecordLength, Write, Zeros, Packing;
    RecordLengthIs(e);
    var len := RecordLength(e);
    var wide := dirents + Zeros(DIR_BLOCK_SIZE);
    WriteParts(wide, |dirents|, Encode(e, len, hash));
    Slices(dirents, Zeros(DIR_BLOCK_SIZE), len);
    ZerosTail(DIR_BLOCK_SIZE, len);
    PackedAlone(Write(wide, |dirents|, Encode(e, len, hash)), |dirents|, len, done, e, hash);
  }

  // One record, field by field.
  method WriteRecord(dirents: seq<u8>, offset: nat, e: Entry, reclen: nat, hash: seq<u8> -> nat) returns (r: seq<u8>)
    requires |e.name| <= NAME_MAX && 9 + |e.name| <= reclen < 0x1_0000 && offset + reclen <= |dirents|
    requires forall i :: offset <= i < offset + reclen ==> dirents[i] == 0
    ensures r == Write(dirents, offset, Encode(e, reclen, hash))
    ensures |r| == |dirents| && forall i :: 0 <= i < |r| && !(offset <= i < offset + reclen) ==> r[i] == dirents[i]
    ensures r[offset] as int + 0x100 * r[offset + 1] as int + 0x1_0000 * r[offset + 2] as int
      + 0x100_0000 * r[offset + 3] as int == hash(e.name) % 0x1_0000_0000
    ensures r[offset + 4] as int + 0x100 * r[offset + 5] as int == reclen
    ensures r[offset + 6] == (if e.isFile then 8 else 4) && r[offset + 7] == |e.name|
    ensures r[offset + 8..offset + 8 + |e.name|] == e.name && r[offset + 8 + |e.name|] == 0
  {
    hide Encode, Write, Le32, Le16;
    EncodeAt(e, reclen, hash);
    Le32Is(hash(e.name));
    Le16Is(reclen);
    r := Write(dirents, offset, Le32(hash(e.name)));
    r := Write(r, offset + 4, Le16(reclen));
    r := r[offset + 6 := if e.isFile then 8 else 4];
    r := r[offset + 7 := |e.name| % 256];
    r := Write(r, offset + 8, e.name + [0]);
    assert r == Write(dirents, offset, Encode(e, reclen, hash));
  }

  lemma Le16Is(v: nat)
    requires v < 0x1_0000
    ensures Le16(v)[0] as int + 0x100 * Le16(v)[1] as int == v
  {
  }

  lemma Le32Is(v: nat)
    ensures var b := Le32(v);
      b[0] as int + 0x100 * b[1] as int + 0x1_0000 * b[2] as int + 0x100_0000 * b[3] as int == v % 0x1_0000_0000
  {
    QuotientOfQuotient(v, 0x100, 0x100);
    QuotientOfQuotient(v, 0x1_0000, 0x100);
    var q := v / 0x100_0000;
    RemainderUnique(v, 0x1_0000_0000, q / 0x100, v % 0x100_0000 + 0x100_0000 * (q % 0x100));
  }

  lemma EncodeAt(e: Entry, len: nat, hash: seq<u8> -> nat)
    requires |e.name| <= NAME_MAX && 9 + |e.name| <= len
    ensures forall i :: 0 <= i < len ==> (Encode(e, len, hash)[i] ==
      if i < 4 then Le32(hash(e.name))[i]
      else if i < 6 then Le16(len)[i - 4]
      else if i == 6 then (if e.isFile then 8 else 4)
      else if i == 7 then |e.name|
      else if i < 8 + |e.name| then e.name[i - 8]
      else 0)
  {
    hide Le32, Le16;
  }

  lemma ZerosAfter(dirents: seq<u8>, offset: nat, at: nat, done: seq<Entry>, closed: nat, hash: seq<u8> -> nat)
    requires Packing(dirents, offset, at, done, closed, hash)
    ensures dirents != [] && offset <= |dirents| && at < offset
    ensures forall i :: offset <= i < |dirents| ==> dirents[i] == 0
  {
    hide Whole, Parse, ParseBlocks, Encode;
    forall i | offset <= i < |dirents|
      ensures dirents[i] == 0
    {
      assert dirents[i] == dirents[offset..][i - offset];
    }
  }

  // Where the records end: each one follows the one before as long as its block has room, and begins the next block
  // otherwise.
  function PackedEnd(entries: seq<Entry>): nat {
    if entries == [] then 0
    else
      var o, len := PackedEnd(entries[..|entries| - 1]), (|entries[|entries| - 1].name| + 12) / 4 * 4;
      (if o % DIR_BLOCK_SIZE + len <= DIR_BLOCK_SIZE then o else o - o % DIR_BLOCK_SIZE + DIR_BLOCK_SIZE) + len
  }

  lemma PackedNext(done: seq<Entry>, e: Entry, size: nat)
    requires |e.name| <= NAME_MAX && Whole(size) && PackedEnd(done) <= size < PackedEnd(done) + DIR_BLOCK_SIZE
    ensures var o, len := PackedEnd(done), RecordLength(e); var end := PackedEnd(done + [e]);
      && end == (if o + len > size then size else o) + len
      && end <= (if o + len > size then size + DIR_BLOCK_SIZE else size) < end + DIR_BLOCK_SIZE
  {
    hide RecordLength;
    RecordLengthIs(e);
    var o, len, end := PackedEnd(done), RecordLength(e), PackedEnd(done + [e]);
    assert (done + [e])[..|done|] == done;
    QuotientUnique(|e.name| + 12, 4, len / 4);
    var q := size / DIR_BLOCK_SIZE;
    if o == size {
      assert o % DIR_BLOCK_SIZE == 0;
    } else {
      RemainderUnique(o, DIR_BLOCK_SIZE, q - 1, o - (size - DIR_BLOCK_SIZE));
    }
  }

  // The packed directory; the source stops the program at a name longer than 255 bytes.
  method PackDirents(entries: seq<Entry>, hash: seq<u8> -> nat) returns (r: Option<seq<u8>>)
    ensures r.None? <==> exists i :: 0 <= i < |entries| && |entries[i].name| > NAME_MAX
    ensures r.Some? ==> Whole(|r.value|) && ParseBlocks(r.value, hash) == Some(entries)
    ensures r.Some? ==> PackedEnd(entries) <= |r.value| < PackedEnd(entries) + DIR_BLOCK_SIZE
  {
    hide Whole, Parse, ParseBlocks, Encode, Packing, PackedEnd, RecordLength, Lengthen, Write, Zeros;
    var dirents: seq<u8> := [];
    var offset: nat, lastReclen: nat := 0, 4;
    ghost var closed: nat := 0;
    Empty(hash);
    NothingPacked();
    for i := 0 to |entries|
      invariant i == 0 ==> dirents == [] && offset == 0
      invariant Whole(|dirents|) && offset == PackedEnd(entries[..i]) <= |dirents| < offset + DIR_BLOCK_SIZE
      invariant lastReclen >= 4 && (i > 0 ==> dirents != [])
      invariant i > 0 ==> Packing(dirents, offset, lastReclen - 4, entries[..i], closed, hash)
      invariant forall j :: 0 <= j < i ==> |entries[j].name| <= NAME_MAX
    {
      var e := entries[i];
      if |e.name| > NAME_MAX {
        return None;
      }
      var reclen := RecordLength(e);
      RecordLengthIs(e);
      assert entries[..i + 1] == entries[..i] + [e];
      PackedNext(entries[..i], e, |dirents|);
      WholeNext(|dirents|);
      if i > 0 {
        ZerosAfter(dirents, offset, lastReclen - 4, entries[..i], closed, hash);
      }
      if offset + reclen > |dirents| {
        if dirents != [] {
          Closes(dirents, offset, lastReclen - 4, entries[..i], closed, hash);
          dirents := Lengthen(dirents, lastReclen, |dirents| - offset);
        }
        Begins(dirents, entries[..i], e, hash);
        closed := i;
        offset := |dirents|;
        dirents := dirents + Zeros(DIR_BLOCK_SIZE);
      } else {
        Continues(dirents, offset, lastReclen - 4, entries[..i], closed, e, hash);
      }
      dirents := WriteRecord(dirents, offset, e, reclen, hash);
      lastReclen := offset + 4;
      offset := offset + reclen;
    }
    assert entries[..|entries|] == entries;
    if dirents != [] {
      Closes(dirents, offset, lastReclen - 4, entries, closed, hash);
      dirents := Lengthen(dirents, lastReclen, |dirents| - offset);
    }
    r := Some(dirents);
  }

  lemma NothingPacked()
    ensures PackedEnd([]) == 0
  {
  }

  lemma WholeNext(size: nat)
    requires Whole(size)
    ensures Whole(size + DIR_BLOCK_SIZE)
  {
  }

  lemma Empty(hash: seq<u8> -> nat)
    ensures Whole(0) && ParseBlocks([], hash) == Some([])
  {
  }

  /* ---- Reading ---- */

  // What a call returns: an error, or the position of the chunk and its bytes.
  datatype Reply = Einval | Chunk(base: nat, bytes: seq<u8>)

  class File {
    const directory: bool
    var dirents: seq<u8>
    var dentsOffset: nat

    constructor (dirents: seq<u8>)
      ensures directory && this.dirents == dirents && dentsOffset == 0
    {
      directory, this.dirents, dentsOffset := true, dirents, 0;
    }

    method ReadDirectory(count: nat) returns (bytes: seq<u8>)
      modifies this`dentsOffset
      ensures if old(dentsOffset) >= |dirents| then bytes == [] && dentsOffset == old(dentsOffset)
        else old(dentsOffset) <= dentsOffset <= |dirents| && bytes == dirents[old(dentsOffset)..dentsOffset]
      ensures old(dentsOffset) < |dirents| ==> dentsOffset == Smaller(old(dentsOffset) + count, |dirents|)
    {
      var remaining := if dentsOffset < |dirents| then |dirents| - dentsOffset else 0;
      var n := Smaller(count, remaining);
      bytes := [];
      if n != 0 {
        bytes := dirents[dentsOffset..dentsOffset + n];
        dentsOffset := dentsOffset + n;
      }
    }

    // KernelGetdirentries with a buffer: an int for the size of it.
    method Getdirentries(nbytes: int) returns (r: Reply)
      requires nbytes < 0x8000_0000
      modifies this`dentsOffset
      ensures if directory then (r, dentsOffset) == ReadStep(dirents, old(dentsOffset), nbytes)
        else r == Einval && dentsOffset == old(dentsOffset)
      ensures r == Einval <==>
        !directory || nbytes < DIR_BLOCK_SIZE || old(dentsOffset) > |dirents| || !Whole(old(dentsOffset))
      ensures r.Chunk? ==> |r.bytes| <= nbytes && |r.bytes| <= |dirents| - old(dentsOffset)
      ensures r.Chunk? ==> r.base == old(dentsOffset) && dentsOffset == old(dentsOffset) + |r.bytes|
      ensures r.Chunk? ==> r.bytes == dirents[old(dentsOffset)..dentsOffset]
      // as many whole blocks as the buffer has room for, unless the directory ends before
      ensures r.Chunk? ==> dentsOffset == |dirents| || (Whole(|r.bytes|) && nbytes < |r.bytes| + DIR_BLOCK_SIZE)
      ensures r.Chunk? && old(dentsOffset) < |dirents| ==> r.bytes != []
    {
      hide AlignDown;
      if !directory || nbytes < DIR_BLOCK_SIZE {
        return Einval;
      }
      if dentsOffset > |dirents| || dentsOffset % DIR_BLOCK_SIZE != 0 {
        return Einval;
      }
      AlignDownIs(nbytes);
      var base := dentsOffset;
      var bytes := ReadDirectory(AlignDown(nbytes, DIR_BLOCK_SIZE));
      r := Chunk(base, bytes);
    }
  }

  function Smaller(a: nat, b: nat): nat {
    if a < b then a else b
  }

  // A call with a whole block of room hands over as many whole blocks as fit, from a block boundary on.
  function ReadStep(dirents: seq<u8>, offset: nat, nbytes: int): (Reply, nat) {
    if nbytes < DIR_BLOCK_SIZE || offset > |dirents| || !Whole(offset) then (Einval, offset)
    else
      var next := Smaller(offset + (nbytes - nbytes % DIR_BLOCK_SIZE), |dirents|);
      (Chunk(offset, dirents[offset..next]), next)
  }

  // The chunks of a sequence of calls, and where they leave the file.
  function Chunks(dirents: seq<u8>, offset: nat, sizes: seq<int>): seq<Reply>
    decreases |sizes|
  {
    if sizes == [] then []
    else
      var (reply, next) := ReadStep(dirents, offset, sizes[0]);
      [reply] + Chunks(dirents, next, sizes[1..])
  }

  function End(dirents: seq<u8>, offset: nat, sizes: seq<int>): nat
    decreases |sizes|
  {
    if sizes == [] then offset else End(dirents, ReadStep(dirents, offset, sizes[0]).1, sizes[1..])
  }

  function Flatten(replies: seq<Reply>): seq<u8>
    requires forall r :: r in replies ==> r.Chunk?
  {
    if replies == [] then [] else replies[0].bytes + Flatten(replies[1..])
  }

  // The entries found by parsing every chunk on its own.
  function ParseChunks(replies: seq<Reply>, hash: seq<u8> -> nat): Option<seq<Entry>>
    requires forall r :: r in replies ==> r.Chunk?
  {
    if replies == [] then Some([]) else Join(Parse(replies[0].bytes, hash), ParseChunks(replies[1..], hash))
  }

  lemma StepIs(dirents: seq<u8>, offset: nat, nbytes: int)
    requires Whole(|dirents|) && Whole(offset) && offset <= |dirents| && nbytes >= DIR_BLOCK_SIZE
    ensures var (reply, next) := ReadStep(dirents, offset, nbytes);
      && reply.Chunk? && reply.base == offset && offset <= next <= |dirents| && Whole(next)
      && reply.bytes == dirents[offset..next]
      && next - offset <= nbytes
      && (next == |dirents| || (next >= offset + DIR_BLOCK_SIZE && nbytes < next - offset + DIR_BLOCK_SIZE))
  {
    var n := nbytes - nbytes % DIR_BLOCK_SIZE;
    assert Whole(offset + n);
  }

  // Nothing is lost or repeated: the chunks are the bytes passed over, in order, and every call gets on by a block or
  // reaches the end; the offset stays at a block boundary.
  lemma {:induction false} ChunksTile(dirents: seq<u8>, offset: nat, sizes: seq<int>)
    requires Whole(|dirents|) && Whole(offset) && offset <= |dirents|
    requires forall k :: 0 <= k < |sizes| ==> sizes[k] >= DIR_BLOCK_SIZE
    ensures var replies, end := Chunks(dirents, offset, sizes), End(dirents, offset, sizes);
      && (forall r :: r in replies ==> r.Chunk?)
      && offset <= end <= |dirents| && Whole(end) && Flatten(replies) == dirents[offset..end]
      && (end == |dirents| || end >= offset + DIR_BLOCK_SIZE * |sizes|)
    decreases |sizes|
  {
    hide ReadStep, Whole;
    if sizes != [] {
      StepIs(dirents, offset, sizes[0]);
      var (reply, next) := ReadStep(dirents, offset, sizes[0]);
      ChunksTile(dirents, next, sizes[1..]);
      var rest := Chunks(dirents, next, sizes[1..]);
      assert Chunks(dirents, offset, sizes)[1..] == rest;
      var end := End(dirents, next, sizes[1..]);
      assert dirents[offset..next] + dirents[next..end] == dirents[offset..End(dirents, offset, sizes)];
    }
  }

  // No chunk exceeds the room of its call, and none leaves room for another block before the end is reached.
  lemma {:induction false} ChunksFit(dirents: seq<u8>, offset: nat, sizes: seq<int>, k: nat)
    requires Whole(|dirents|) && Whole(offset) && offset <= |dirents|
    requires forall i :: 0 <= i < |sizes| ==> sizes[i] >= DIR_BLOCK_SIZE
    requires k < |sizes|
    ensures var replies := Chunks(dirents, offset, sizes);
      && |replies| == |sizes| && replies[k].Chunk? && |replies[k].bytes| <= sizes[k]
      && (replies[k].base + |replies[k].bytes| == |dirents| || sizes[k] < |replies[k].bytes| + DIR_BLOCK_SIZE)
    decreases |sizes|
  {
    hide ReadStep, Whole;
    var (reply, next) := ReadStep(dirents, offset, sizes[0]);
    var rest := sizes[1..];
    StepIs(dirents, offset, sizes[0]);
    ChunksLength(dirents, next, rest);
    if k > 0 {
      ChunksFit(dirents, next, rest, k - 1);
      assert Chunks(dirents, offset, sizes)[k] == Chunks(dirents, next, rest)[k - 1];
    }
  }

  lemma {:induction false} ChunksLength(dirents: seq<u8>, offset: nat, sizes: seq<int>)
    ensures |Chunks(dirents, offset, sizes)| == |sizes|
    decreases |sizes|
  {
    hide ReadStep;
    if sizes != [] {
      ChunksLength(dirents, ReadStep(dirents, offset, sizes[0]).1, sizes[1..]);
    }
  }

  // Each chunk parses on its own, and together they give the entries of the bytes passed over.
  lemma {:induction false} ChunksParse(dirents: seq<u8>, offset: nat, sizes: seq<int>, hash: seq<u8> -> nat)
    requires Whole(|dirents|) && Whole(offset) && offset <= |dirents|
    requires forall k :: 0 <= k < |sizes| ==> sizes[k] >= DIR_BLOCK_SIZE
    requires ParseBlocks(dirents[offset..], hash).Some?
    ensures var replies, end := Chunks(dirents, offset, sizes), End(dirents, offset, sizes);
      && (forall r :: r in replies ==> r.Chunk? && Parse(r.bytes, hash).Some?)
      && end <= |dirents| && ParseBlocks(dirents[end..], hash).Some?
      && ParseBlocks(dirents[offset..], hash) == Join(ParseChunks(replies, hash), ParseBlocks(dirents[end..], hash))
    decreases |sizes|
  {
    hide ReadStep, Whole, Parse, ParseBlocks, Join;
    if sizes == [] {
      JoinAssociative(ParseBlocks(dirents[offset..], hash), None, None);
    } else {
      StepIs(dirents, offset, sizes[0]);
      var (reply, next) := ReadStep(dirents, offset, sizes[0]);
      WholeDifference(offset, next);
      assert dirents[offset..] == reply.bytes + dirents[next..];
      SplitParse(reply.bytes, dirents[next..], hash);
      ChunksParse(dirents, next, sizes[1..], hash);
      var rest := Chunks(dirents, next, sizes[1..]);
      assert Chunks(dirents, offset, sizes) == [reply] + rest;
      assert ([reply] + rest)[1..] == rest;
      var left := dirents[End(dirents, offset, sizes)..];
      JoinAssociative(Parse(reply.bytes, hash), ParseChunks(rest, hash), ParseBlocks(left, hash));
    }
  }

  lemma WholeDifference(a: nat, b: nat)
    requires Whole(a) && Whole(b) && a <= b
    ensures Whole(b - a)
  {
  }

  // A block boundary splits what is parsed.
  lemma SplitParse(x: seq<u8>, y: seq<u8>, hash: seq<u8> -> nat)
    requires Whole(|x|) && ParseBlocks(x + y, hash).Some?
    ensures Parse(x, hash).Some? && ParseBlocks(y, hash).Some?
    ensures ParseBlocks(x + y, hash) == Join(Parse(x, hash), ParseBlocks(y, hash))
  {
    hide Whole, Parse, ParseBlocks;
    BlocksAppend(x, y, hash);
    BlocksParse(x, hash);
  }

  // Reading a packed directory from the start to the end gives its entries, in order, from chunks parsed one by one.
  lemma ReadBack(entries: seq<Entry>, dirents: seq<u8>, sizes: seq<int>, hash: seq<u8> -> nat)
    requires Whole(|dirents|) && ParseBlocks(dirents, hash) == Some(entries)
    requires forall k :: 0 <= k < |sizes| ==> sizes[k] >= DIR_BLOCK_SIZE
    requires DIR_BLOCK_SIZE * |sizes| >= |dirents|
    ensures var replies := Chunks(dirents, 0, sizes);
      && (forall r :: r in replies ==> r.Chunk? && Parse(r.bytes, hash).Some?)
      && Flatten(replies) == dirents && ParseChunks(replies, hash) == Some(entries)
  {
    hide Parse, ParseBlocks, Chunks, End;
    assert dirents[0..] == dirents;
    ChunksTile(dirents, 0, sizes);
    ChunksParse(dirents, 0, sizes, hash);
    assert dirents[|dirents|..] == [];
    EmptyParses(hash);
    JoinAssociative(ParseChunks(Chunks(dirents, 0, sizes), hash), None, None);
  }
}
