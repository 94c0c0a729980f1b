/** Interlaced PNG images: seven passes put together into one image. */
module Adam7 {
  import opened Division
  import opened Options

  // The first column and row of each pass, and the steps between its columns and rows.
  const XORIG: seq<nat> := [0, 4, 0, 2, 0, 1, 0]
  const YORIG: seq<nat> := [0, 0, 4, 0, 2, 0, 1]
  const XSPC: seq<nat> := [8, 8, 4, 4, 2, 2, 1]
  const YSPC: seq<nat> := [8, 8, 8, 4, 4, 2, 2]

  const STBI_MAX_DIMENSIONS := 0x100_0000

  // An unsigned 32-bit value.
  function Wrap(v: int): nat {
    v % 0x1_0000_0000
  }

  // (size - orig + spc - 1) / spc in unsigned arithmetic
  function PassSize(size: nat, orig: nat, spc: nat): int
    requires spc > 0
  {
    Wrap(size - orig + spc - 1) / spc
  }

  // How many of the columns orig, orig + spc, ... an image of that size has.
  function Columns(size: nat, orig: nat, spc: nat): int
    requires spc > 0
  {
    if size <= orig then 0 else (size - orig + spc - 1) / spc
  }

  // The unsigned arithmetic gives that number exactly for the sizes that leave room for the step.
  lemma PassSizeExact(size: nat, orig: nat, spc: nat)
    requires orig < spc <= 8 && size < 0x1_0000_0000
    ensures PassSize(size, orig, spc) == Columns(size, orig, spc) <==> size + spc - 1 - orig < 0x1_0000_0000
  {
    var v := size - orig + spc - 1;
    if v < 0x1_0000_0000 {
      assert Wrap(v) == v;
      if size <= orig {
        NoColumns(v, spc);
      }
    } else {
      assert Wrap(v) == v - 0x1_0000_0000;
      NoColumns(v - 0x1_0000_0000, spc);
      ManyColumns(v, spc);
    }
  }

  lemma NoColumns(v: nat, spc: nat)
    requires v < spc
    ensures v / spc == 0
  {
  }

  lemma ManyColumns(v: nat, spc: nat)
    requires 0 < spc <= v
    ensures v / spc >= 1
  {
  }

  // The pass of each pixel of an 8 by 8 tile, section 8.2 of the PNG specification.
  const PATTERN: seq<seq<nat>> := [
    [1, 6, 4, 6, 2, 6, 4, 6],
    [7, 7, 7, 7, 7, 7, 7, 7],
    [5, 6, 5, 6, 5, 6, 5, 6],
    [7, 7, 7, 7, 7, 7, 7, 7],
    [3, 6, 4, 6, 3, 6, 4, 6],
    [7, 7, 7, 7, 7, 7, 7, 7],
    [5, 6, 5, 6, 5, 6, 5, 6],
    [7, 7, 7, 7, 7, 7, 7, 7]]

  function PassOf(x: nat, y: nat): nat {
    PATTERN[y % 8][x % 8] - 1
  }

  // Column x is column i of pass p.
  predicate InColumn(p: nat, x: nat, i: nat)
    requires p < 7
  {
    x == i * XSPC[p] + XORIG[p]
  }

  predicate InRow(p: nat, y: nat, j: nat)
    requires p < 7
  {
    y == j * YSPC[p] + YORIG[p]
  }

  // A pixel of the image is a pixel of exactly the pass that the pattern names, and of that pass only once.
  lemma OnePass(p: nat, x: nat, y: nat, i: nat, j: nat)
    requires p < 7 && InColumn(p, x, i) && InRow(p, y, j)
    ensures PassOf(x, y) == p
    ensures i == (x - XORIG[p]) / XSPC[p] && j == (y - YORIG[p]) / YSPC[p]
  {
  }

  lemma PassExists(x: nat, y: nat)
    ensures var p := PassOf(x, y);
      && 0 <= p < 7 && x >= XORIG[p] && y >= YORIG[p]
      && InColumn(p, x, (x - XORIG[p]) / XSPC[p]) && InRow(p, y, (y - YORIG[p]) / YSPC[p])
  {
    hide PassOf;
    var p := PassOf(x, y);
    PassRemainders(x, y);
    LineFits(x, XORIG[p], XSPC[p]);
    LineFits(y, YORIG[p], YSPC[p]);
  }

  lemma LineFits(v: nat, orig: nat, spc: nat)
    requires 0 < spc && v % spc == orig
    ensures v >= orig && v == (v - orig) / spc * spc + orig
  {
    var q := v / spc;
    assert v == q * spc + orig;
    QuotientUnique(v - orig, spc, q);
    QuotientBelow(-1, v, spc);
    if q > 0 {
      MultipleAtLeast(q, spc);
    }
  }

  lemma PassRemainders(x: nat, y: nat)
    ensures var p := PassOf(x, y);
      0 <= p < 7 && x % XSPC[p] == XORIG[p] && y % YSPC[p] == YORIG[p]
  {
    PatternRule(y % 8, x % 8);
    Quarters(x);
    Quarters(y);
    Halves(x);
    Halves(y);
  }

  lemma Quarters(v: nat)
    ensures v % 8 % 4 == v % 4
  {
    var w, q, u := v % 8, v / 8, v % 8 / 4;
    assert v == 8 * q + w && w == 4 * u + w % 4;
    assert v == (2 * q + u) * 4 + w % 4;
    QuotientUnique(v, 4, 2 * q + u);
  }

  lemma Halves(v: nat)
    ensures v % 8 % 2 == v % 2
  {
    var w, q, u := v % 8, v / 8, v % 8 / 2;
    assert v == 8 * q + w && w == 2 * u + w % 2;
    assert v == (4 * q + u) * 2 + w % 2;
    QuotientUnique(v, 2, 4 * q + u);
  }

  lemma PatternRule(r: nat, c: nat)
    requires r < 8 && c < 8
    ensures PATTERN[r][c] ==
      if r % 2 == 1 then 7 else if c % 2 == 1 then 6 else if r % 4 == 2 then 5 else if c % 4 == 2 then 4
      else if r == 4 then 3 else if c == 4 then 2 else 1
  {
  }

  /* ---- Putting the passes together ---- */

  // The size of pass p of an image.
  function Width(p: nat, w: nat): int
    requires p < 7
  {
    Columns(w, XORIG[p], XSPC[p])
  }

  function Height(p: nat, h: nat): int
    requires p < 7
  {
    Columns(h, YORIG[p], YSPC[p])
  }

  // The lines of a pass are the lines of the image that its step reaches.
  lemma InsideIff(i: nat, size: nat, orig: nat, spc: nat)
    requires 0 < spc
    ensures i < Columns(size, orig, spc) <==> i * spc + orig < size
  {
    if size > orig {
      QuotientBelow(i, size - orig + spc - 1, spc);
    } else if i > 0 {
      MultipleAtLeast(i, spc);
    }
  }

  // Where a pixel is in its pass.
  function PassColumn(x: nat, p: nat): int
    requires p < 7
  {
    (x - XORIG[p]) / XSPC[p]
  }

  function PassRow(y: nat, p: nat): int
    requires p < 7
  {
    (y - YORIG[p]) / YSPC[p]
  }

  // A pixel of the image has its place inside the pass that the pattern names, and no other pixel has that place.
  lemma PlaceOf(x: nat, y: nat, w: nat, h: nat)
    requires x < w && y < h
    ensures var p := PassOf(x, y);
      && 0 <= p < 7 && 0 <= PassColumn(x, p) < Width(p, w) && 0 <= PassRow(y, p) < Height(p, h)
      && x == PassColumn(x, p) * XSPC[p] + XORIG[p] && y == PassRow(y, p) * YSPC[p] + YORIG[p]
  {
    hide PassOf, Columns;
    PassExists(x, y);
    var p := PassOf(x, y);
    InsideIff(PassColumn(x, p), w, XORIG[p], XSPC[p]);
    InsideIff(PassRow(y, p), h, YORIG[p], YSPC[p]);
  }

  // Every place of a pass is a pixel of the image.
  lemma PixelOf(p: nat, i: nat, j: nat, w: nat, h: nat)
    requires p < 7 && i < Width(p, w) && j < Height(p, h)
    ensures var x, y := i * XSPC[p] + XORIG[p], j * YSPC[p] + YORIG[p];
      0 <= x < w && 0 <= y < h && PassOf(x, y) == p && PassColumn(x, p) == i && PassRow(y, p) == j
  {
    hide PassOf, Columns;
    InsideIff(i, w, XORIG[p], XSPC[p]);
    InsideIff(j, h, YORIG[p], YSPC[p]);
    OnePass(p, i * XSPC[p] + XORIG[p], j * YSPC[p] + YORIG[p], i, j);
  }

  // The place of a pixel in a buffer of rows of w pixels.
  function At(w: int, x: int, y: int): int {
    y * w + x
  }

  lemma AtInside(w: nat, h: nat, x: nat, y: nat)
    requires x < w && y < h
    ensures 0 <= At(w, x, y) < w * h
  {
    assert (h - 1 - y) * w >= 0;
    assert (h - 1 - y) * w == w * h - w - y * w;
    assert y * w >= 0;
  }

  lemma AtApart(w: nat, x: nat, y: nat, u: nat, v: nat)
    requires x < w && u < w && At(w, x, y) == At(w, u, v)
    ensures x == u && y == v
  {
    QuotientUnique(At(w, x, y), w, y);
    QuotientUnique(At(w, u, v), w, v);
  }

  // The pixel (x, y) of the image `s` is the one that pass p holds for it.
  ghost predicate Copied<V>(s: seq<V>, img: seq<V>, p: nat, x: nat, y: nat, w: nat)
    requires p < 7
  {
    var k := At(Width(p, w), PassColumn(x, p), PassRow(y, p));
    0 <= k < |img| && 0 <= At(w, x, y) < |s| && s[At(w, x, y)] == img[k]
  }

  ghost predicate Kept<V>(before: seq<V>, after: seq<V>, x: nat, y: nat, w: nat) {
    0 <= At(w, x, y) < |after| == |before| && after[At(w, x, y)] == before[At(w, x, y)]
  }

  // The pixels of row j of pass p whose column is below i have been copied, and only those.
  ghost predicate RowCopied<V>(before: seq<V>, after: seq<V>, img: seq<V>, p: nat, j: nat, i: nat, w: nat, h: nat)
    requires p < 7
  {
    forall x: nat, y: nat :: x < w && y < h ==>
      if PassOf(x, y) == p && PassRow(y, p) == j && PassColumn(x, p) < i then Copied(after, img, p, x, y, w)
      else Kept(before, after, x, y, w)
  }

  // The pixels of pass p whose row is below j have been copied, and only those.
  ghost predicate PassCopied<V>(before: seq<V>, after: seq<V>, img: seq<V>, p: nat, j: nat, w: nat, h: nat)
    requires p < 7
  {
    forall x: nat, y: nat :: x < w && y < h ==>
      if PassOf(x, y) == p && PassRow(y, p) < j then Copied(after, img, p, x, y, w) else Kept(before, after, x, y, w)
  }

  // The pixels of the passes below p have been copied.
  ghost predicate AllCopied<V>(s: seq<V>, raw: seq<Option<seq<V>>>, p: nat, w: nat, h: nat) {
    forall x: nat, y: nat :: x < w && y < h && PassOf(x, y) < p ==>
      0 <= PassOf(x, y) < 7 && PassOf(x, y) < |raw| && raw[PassOf(x, y)].Some?
      && Copied(s, raw[PassOf(x, y)].value, PassOf(x, y), x, y, w)
  }

  // In a buffer of rows of w pixels: each pixel of row j of a pass of rows of v pixels is where the image has it, and
  // no other pixel has changed.
  ghost predicate RowPlaced<V>(before: seq<V>, after: seq<V>, img: seq<V>, p: nat, j: nat, v: nat, w: nat, h: nat)
    requires p < 7
  {
    |after| == |before| && forall x: nat, y: nat :: x < w && y < h ==> PixelPlaced(before, after, img, p, j, v, x, y, w)
  }

  ghost predicate PixelPlaced<V>(
      before: seq<V>, after: seq<V>, img: seq<V>, p: nat, j: nat, v: nat, x: nat, y: nat, w: nat)
    requires p < 7 && |after| == |before|
  {
    && 0 <= y * w + x < |after|
    && if PassOf(x, y) == p && PassRow(y, p) == j then
        0 <= j * v + PassColumn(x, p) < |img| && after[y * w + x] == img[j * v + PassColumn(x, p)]
      else after[y * w + x] == before[y * w + x]
  }

  lemma RowIsPlaced<V>(before: seq<V>, after: seq<V>, img: seq<V>, p: nat, j: nat, w: nat, h: nat)
    requires p < 7 && |after| == |before| && Width(p, w) >= 0
    requires RowCopied(before, after, img, p, j, Width(p, w), w, h)
    ensures RowPlaced(before, after, img, p, j, Width(p, w), w, h)
  {
    hide PassOf, PassRow, PassColumn, Width;
    forall x: nat, y: nat | x < w && y < h
      ensures PixelPlaced(before, after, img, p, j, Width(p, w), x, y, w)
    {
      PlaceOf(x, y, w, h);
    }
  }

  // Every pixel of the image is the one that its pass has in its place; rows follow each other in both.
  ghost predicate ImageHolds<V>(s: seq<V>, raw: seq<Option<seq<V>>>, w: nat, h: nat) {
    forall x: nat, y: nat :: x < w && y < h ==>
      var p := PassOf(x, y);
      && 0 <= p < 7 && p < |raw| && raw[p].Some? && 0 <= y * w + x < |s|
      && var k := PassRow(y, p) * Width(p, w) + PassColumn(x, p);
        0 <= k < |raw[p].value| && s[y * w + x] == raw[p].value[k]
  }

  lemma ImageIs<V>(s: seq<V>, raw: seq<Option<seq<V>>>, w: nat, h: nat)
    requires AllCopied(s, raw, 7, w, h)
    ensures ImageHolds(s, raw, w, h)
  {
    hide PassOf, PassRow, PassColumn, Width;
    forall x: nat, y: nat | x < w && y < h
      ensures 0 <= PassOf(x, y) < 7
    {
      PlaceOf(x, y, w, h);
    }
  }

  lemma NothingCopied<V>(s: seq<V>, img: seq<V>, p: nat, j: nat, w: nat, h: nat)
    requires p < 7 && |s| == w * h
    ensures RowCopied(s, s, img, p, j, 0, w, h) && PassCopied(s, s, img, p, 0, w, h)
  {
    hide PassOf, Width, Copied;
    forall x: nat, y: nat | x < w && y < h
      ensures Kept(s, s, x, y, w) && (PassOf(x, y) == p ==> PassColumn(x, p) >= 0 && PassRow(y, p) >= 0)
    {
      AtInside(w, h, x, y);
      PlaceOf(x, y, w, h);
    }
  }

  lemma PixelStep<V>(before: seq<V>, now: seq<V>, img: seq<V>, p: nat, j: nat, i: nat, w: nat, h: nat)
    requires p < 7 && |now| == w * h && i < Width(p, w) && j < Height(p, h) && |img| == Width(p, w) * Height(p, h)
    requires RowCopied(before, now, img, p, j, i, w, h)
    ensures var x, y, k := i * XSPC[p] + XORIG[p], j * YSPC[p] + YORIG[p], At(Width(p, w), i, j);
      && 0 <= x < w && 0 <= y < h && 0 <= k < |img| && 0 <= At(w, x, y) < |now|
      && RowCopied(before, now[At(w, x, y) := img[k]], img, p, j, i + 1, w, h)
  {
    hide PassOf, PassRow, PassColumn, Columns, At;
    var a, b, k := i * XSPC[p] + XORIG[p], j * YSPC[p] + YORIG[p], At(Width(p, w), i, j);
    PixelOf(p, i, j, w, h);
    AtInside(Width(p, w), Height(p, h), i, j);
    AtInside(w, h, a, b);
    var next := now[At(w, a, b) := img[k]];
    forall x: nat, y: nat | x < w && y < h
      ensures if PassOf(x, y) == p && PassRow(y, p) == j && PassColumn(x, p) < i + 1 then Copied(next, img, p, x, y, w)
        else Kept(before, next, x, y, w)
    {
      PlaceOf(x, y, w, h);
      if At(w, x, y) == At(w, a, b) {
        AtApart(w, x, y, a, b);
      }
    }
  }

  lemma RowStep<V>(before: seq<V>, now: seq<V>, next: seq<V>, img: seq<V>, p: nat, j: nat, w: nat, h: nat)
    requires p < 7 && PassCopied(before, now, img, p, j, w, h) && Width(p, w) >= 0
    requires RowCopied(now, next, img, p, j, Width(p, w), w, h)
    ensures PassCopied(before, next, img, p, j + 1, w, h)
  {
    hide PassOf, PassRow, PassColumn, Width, At;
    forall x: nat, y: nat | x < w && y < h
      ensures if PassOf(x, y) == p && PassRow(y, p) < j + 1 then Copied(next, img, p, x, y, w)
        else Kept(before, next, x, y, w)
    {
      PlaceOf(x, y, w, h);
    }
  }

  lemma PassStep<V>(now: seq<V>, next: seq<V>, raw: seq<Option<seq<V>>>, p: nat, w: nat, h: nat)
    requires p < 7 && |raw| == 7 && AllCopied(now, raw, p, w, h)
    requires if Width(p, w) > 0 && Height(p, h) > 0
      then raw[p].Some? && PassCopied(now, next, raw[p].value, p, Height(p, h), w, h) else now == next
    ensures AllCopied(next, raw, p + 1, w, h)
  {
    hide PassOf, PassRow, PassColumn, Width, Height, At;
    forall x: nat, y: nat | x < w && y < h && PassOf(x, y) < p + 1
      ensures 0 <= PassOf(x, y) < 7 && raw[PassOf(x, y)].Some?
        && Copied(next, raw[PassOf(x, y)].value, PassOf(x, y), x, y, w)
    {
      PlaceOf(x, y, w, h);
    }
  }

  // One row of a pass.
  method PlaceRow<V>(p: nat, j: nat, img: seq<V>, w: nat, h: nat, final: array<V>)
    requires p < 7 && final.Length == w * h && Width(p, w) >= 0 && j < Height(p, h)
    requires |img| == Width(p, w) * Height(p, h)
    modifies final
    ensures RowCopied(old(final[..]), final[..], img, p, j, Width(p, w), w, h)
    ensures RowPlaced(old(final[..]), final[..], img, p, j, Width(p, w), w, h)
  {
    hide RowCopied, RowPlaced, Columns;
    var x := Width(p, w);
    ghost var before := final[..];
    NothingCopied(before, img, p, j, w, h);
    for i := 0 to x
      invariant RowCopied(before, final[..], img, p, j, i, w, h)
    {
      PixelStep(before, final[..], img, p, j, i, w, h);
      var outY, outX := j * YSPC[p] + YORIG[p], i * XSPC[p] + XORIG[p];
      final[At(w, outX, outY)] := img[At(x, i, j)];
    }
    RowIsPlaced(before, final[..], img, p, j, w, h);
  }

  method PlacePass<V>(p: nat, img: seq<V>, w: nat, h: nat, final: array<V>)
    requires p < 7 && final.Length == w * h && Width(p, w) >= 0 && Height(p, h) >= 0
    requires |img| == Width(p, w) * Height(p, h)
    modifies final
    ensures PassCopied(old(final[..]), final[..], img, p, Height(p, h), w, h)
  {
    hide RowCopied, RowPlaced, PassCopied, Columns;
    var y := Height(p, h);
    ghost var before := final[..];
    NothingCopied(before, img, p, 0, w, h);
    for j := 0 to y
      invariant PassCopied(before, final[..], img, p, j, w, h)
    {
      ghost var now := final[..];
      PlaceRow(p, j, img, w, h, final);
      RowStep(before, now, final[..], img, p, j, w, h);
    }
  }

  // The interlaced image: `raw` holds the pixels that decoding a pass gives, or nothing where it fails.
  method Deinterlace<V>(raw: seq<Option<seq<V>>>, w: nat, h: nat, final: array<V>) returns (ok: bool)
    requires 0 < w <= STBI_MAX_DIMENSIONS && 0 < h <= STBI_MAX_DIMENSIONS && final.Length == w * h
    requires |raw| == 7 && forall p :: 0 <= p < 7 && raw[p].Some? ==> |raw[p].value| == Width(p, w) * Height(p, h)
    modifies final
    ensures ok <==> forall p :: 0 <= p < 7 && Width(p, w) > 0 && Height(p, h) > 0 ==> raw[p].Some?
    ensures ok ==> ImageHolds(final[..], raw, w, h)
  {
    hide PassOf, Columns, AllCopied, PassCopied, ImageHolds;
    NoPass(final[..], raw, w, h);
    for p := 0 to 7
      invariant AllCopied(final[..], raw, p, w, h)
      invariant forall q :: 0 <= q < p && Width(q, w) > 0 && Height(q, h) > 0 ==> raw[q].Some?
    {
      ghost var now := final[..];
      SizesFit(p, w, h);
      var x := PassSize(w, XORIG[p], XSPC[p]);
      var y := PassSize(h, YORIG[p], YSPC[p]);
      if x != 0 && y != 0 {
        if raw[p].None? {
          return false;
        }
        PlacePass(p, raw[p].value, w, h, final);
      }
      PassStep(now, final[..], raw, p, w, h);
    }
    ImageIs(final[..], raw, w, h);
    ok := true;
  }

  lemma NoPass<V>(s: seq<V>, raw: seq<Option<seq<V>>>, w: nat, h: nat)
    ensures AllCopied(s, raw, 0, w, h)
  {
    hide PassOf;
    forall x: nat, y: nat | x < w && y < h
      ensures PassOf(x, y) >= 0
    {
      PlaceOf(x, y, w, h);
    }
  }

  lemma SizesFit(p: nat, w: nat, h: nat)
    requires p < 7 && w <= STBI_MAX_DIMENSIONS && h <= STBI_MAX_DIMENSIONS
    ensures PassSize(w, XORIG[p], XSPC[p]) == Width(p, w) >= 0
    ensures PassSize(h, YORIG[p], YSPC[p]) == Height(p, h) >= 0
  {
    hide Columns;
    PassSizeExact(w, XORIG[p], XSPC[p]);
    PassSizeExact(h, YORIG[p], YSPC[p]);
    SizeNatural(w, XORIG[p], XSPC[p]);
    SizeNatural(h, YORIG[p], YSPC[p]);
  }

  lemma SizeNatural(size: nat, orig: nat, spc: nat)
    requires spc > 0
    ensures Columns(size, orig, spc) >= 0
  {
    if size > orig {
      QuotientBelow(-1, size - orig + spc - 1, spc);
    }
  }
}
