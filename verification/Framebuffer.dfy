/** The picture an RFB client draws on: rows of pixels, and the three ways of drawing. Drawing
    outside the picture has no effect, as on a canvas. */
module Framebuffer {
  import opened Numbers

  datatype Pixel = Pixel(red: byte, green: byte, blue: byte)

  datatype PixelFormat = TrueColour | Palette(colours: seq<Pixel>)

  /** Four bytes a pixel, blue first, or one byte that indexes the colour map. */
  type Format = f: PixelFormat | f.Palette? ==> |f.colours| == 256 witness TrueColour

  function Bpp(f: Format): nat {
    if f.TrueColour? then 4 else 1
  }

  function PixelAt(f: Format, data: seq<byte>, i: nat): Pixel
    requires i + Bpp(f) <= |data|
  {
    match f
    case TrueColour => Pixel(data[i + 2], data[i + 1], data[i])
    case Palette(colours) => colours[data[i]]
  }

  /** The colour whose bytes start at o: blue, green, red and one that is not used, or an index. */
  predicate IsColour(f: Format, p: Pixel, data: seq<byte>, o: int) {
    && 0 <= o && o + Bpp(f) <= |data|
    && match f
       case TrueColour => p.blue == data[o] && p.green == data[o + 1] && p.red == data[o + 2]
       case Palette(colours) => p == colours[data[o]]
  }

  lemma ColourIs(f: Format, p: Pixel, data: seq<byte>, i: nat)
    requires i + Bpp(f) <= |data|
    ensures IsColour(f, p, data, i) <==> p == PixelAt(f, data, i)
  {
  }

  type Row = seq<Pixel>
  type Picture = seq<Row>

  predicate InPicture(pic: Picture, px: int, py: int) {
    0 <= py < |pic| && 0 <= px < |pic[py]|
  }

  /* Filling a rectangle with one colour */

  function FillRow(row: Row, x: int, w: int, p: Pixel): (r: Row)
    ensures |r| == |row|
    ensures forall i :: 0 <= i < |row| ==> r[i] == if x <= i < x + w then p else row[i]
  {
    seq(|row|, i requires 0 <= i < |row| => if x <= i < x + w then p else row[i])
  }

  function Fill(pic: Picture, x: int, y: int, w: int, h: int, p: Pixel): (r: Picture)
    ensures |r| == |pic|
    ensures forall j :: 0 <= j < |pic| ==> r[j] == if y <= j < y + h then FillRow(pic[j], x, w, p) else pic[j]
  {
    seq(|pic|, j requires 0 <= j < |pic| => if y <= j < y + h then FillRow(pic[j], x, w, p) else pic[j])
  }

  /* Drawing an image, given as the bytes of its rows */

  lemma InRow(b: nat, w: nat, i: nat)
    requires i < w
    ensures 0 <= i * b && i * b + b <= w * b
  {
    assert w * b == i * b + (w - i) * b;
    assert (w - i) * b == b + (w - i - 1) * b;
  }

  /** Row k of an image whose rows have n bytes. */
  function Line(data: seq<byte>, n: nat, h: nat, k: nat): (r: seq<byte>)
    requires k < h && |data| == h * n
    ensures |r| == n
  {
    InRow(n, h, k);
    data[k * n..k * n + n]
  }

  function PixelOf(f: Format, line: seq<byte>, w: nat, i: nat): Pixel
    requires i < w && |line| == w * Bpp(f)
  {
    InRow(Bpp(f), w, i);
    PixelAt(f, line, i * Bpp(f))
  }

  function BlitRow(f: Format, row: Row, x: int, w: nat, line: seq<byte>): (r: Row)
    requires |line| == w * Bpp(f)
    ensures |r| == |row|
    ensures forall i :: 0 <= i < |row| ==> r[i] == if x <= i < x + w then PixelOf(f, line, w, i - x) else row[i]
  {
    seq(|row|, i requires 0 <= i < |row| => if x <= i < x + w then PixelOf(f, line, w, i - x) else row[i])
  }

  function Blit(f: Format, pic: Picture, x: int, y: int, w: nat, h: nat, data: seq<byte>): (r: Picture)
    requires |data| == h * (w * Bpp(f))
    ensures |r| == |pic|
    ensures forall j :: 0 <= j < |pic| ==>
      r[j] == if y <= j < y + h then BlitRow(f, pic[j], x, w, Line(data, w * Bpp(f), h, j - y)) else pic[j]
  {
    seq(|pic|, j requires 0 <= j < |pic| =>
      if y <= j < y + h then BlitRow(f, pic[j], x, w, Line(data, w * Bpp(f), h, j - y)) else pic[j])
  }

  /** Row k of h1 and then h2 rows. */
  lemma RowOfSum(n: nat, h1: nat, h2: nat, k: nat)
    requires k < h1 + h2
    ensures (h1 + h2) * n == h1 * n + h2 * n && 0 <= k * n && k * n + n <= (h1 + h2) * n
    ensures k < h1 ==> k * n + n <= h1 * n
    ensures k >= h1 ==> k * n == h1 * n + (k - h1) * n && 0 <= (k - h1) * n && (k - h1) * n + n <= h2 * n
  {
    InRow(n, h1 + h2, k);
    if k < h1 { InRow(n, h1, k); } else { InRow(n, h2, k - h1); }
  }

  lemma SliceOfSum(a: seq<byte>, b: seq<byte>, o: nat, n: nat)
    requires o + n <= |a| || |a| <= o <= o + n <= |a| + |b|
    ensures (a + b)[o..o + n] == if o + n <= |a| then a[o..o + n] else b[o - |a|..o - |a| + n]
  {
  }

  lemma LineIs(data: seq<byte>, n: nat, h: nat, k: nat, o: int)
    requires k < h && |data| == h * n && o == k * n
    ensures 0 <= o && o + n <= |data| && Line(data, n, h, k) == data[o..o + n]
  {
    InRow(n, h, k);
  }

  lemma LineOfSum(a: seq<byte>, b: seq<byte>, n: nat, h1: nat, h2: nat, k: nat)
    requires |a| == h1 * n && |b| == h2 * n && k < h1 + h2
    ensures |a + b| == (h1 + h2) * n
    ensures Line(a + b, n, h1 + h2, k) == if k < h1 then Line(a, n, h1, k) else Line(b, n, h2, k - h1)
  {
    hide *;
    RowOfSum(n, h1, h2, k);
    var o := k * n;
    LineIs(a + b, n, h1 + h2, k, o);
    SliceOfSum(a, b, o, n);
    if k < h1 { LineIs(a, n, h1, k, o); } else { LineIs(b, n, h2, k - h1, (k - h1) * n); }
    if k >= h1 && o + n <= |a| { assert n == 0; }
  }

  lemma BlitAt(f: Format, pic: Picture, x: int, y: int, w: nat, h: nat, data: seq<byte>, n: nat, j: nat)
    requires n == w * Bpp(f) && |data| == h * n && j < |pic|
    ensures |Blit(f, pic, x, y, w, h, data)| == |pic|
    ensures Blit(f, pic, x, y, w, h, data)[j]
         == if y <= j < y + h then BlitRow(f, pic[j], x, w, Line(data, n, h, j - y)) else pic[j]
  {
    hide Line, BlitRow, Bpp;
  }

  lemma BlitSplitAt(f: Format, pic: Picture, x: int, y: int, w: nat, h1: nat, h2: nat, a: seq<byte>, b: seq<byte>,
                    n: nat, j: nat)
    requires n == w * Bpp(f) && |a| == h1 * n && |b| == h2 * n && j < |pic|
    ensures |a + b| == (h1 + h2) * n
    ensures var l, mid := Blit(f, pic, x, y, w, h1 + h2, a + b), Blit(f, pic, x, y, w, h1, a);
            var r := Blit(f, mid, x, y + h1, w, h2, b);
            |l| == |r| == |pic| && l[j] == r[j]
  {
    hide *;
    SumOfRows(n, h1, h2);
    var mid := Blit(f, pic, x, y, w, h1, a);
    BlitAt(f, pic, x, y, w, h1 + h2, a + b, n, j);
    BlitAt(f, pic, x, y, w, h1, a, n, j);
    BlitAt(f, mid, x, y + h1, w, h2, b, n, j);
    if y <= j < y + h1 + h2 { LineOfSum(a, b, n, h1, h2, j - y); }
  }

  lemma SumOfRows(n: nat, h1: nat, h2: nat)
    ensures (h1 + h2) * n == h1 * n + h2 * n
  {
  }

  /** An image may be drawn in two bands, each from its own bytes. */
  lemma BlitSplit(f: Format, pic: Picture, x: int, y: int, w: nat, h1: nat, h2: nat, a: seq<byte>, b: seq<byte>)
    requires |a| == h1 * (w * Bpp(f)) && |b| == h2 * (w * Bpp(f))
    ensures |a + b| == (h1 + h2) * (w * Bpp(f))
    ensures Blit(f, pic, x, y, w, h1 + h2, a + b) == Blit(f, Blit(f, pic, x, y, w, h1, a), x, y + h1, w, h2, b)
  {
    hide *;
    SumOfRows(w * Bpp(f), h1, h2);
    var l := Blit(f, pic, x, y, w, h1 + h2, a + b);
    var r := Blit(f, Blit(f, pic, x, y, w, h1, a), x, y + h1, w, h2, b);
    forall j | 0 <= j < |pic| ensures l[j] == r[j] {
      BlitSplitAt(f, pic, x, y, w, h1, h2, a, b, w * Bpp(f), j);
    }
  }

  /* Copying a rectangle: the source is read before the copy is drawn */

  function CopyRow(pic: Picture, sx: int, sy: int, row: Row, x: int, w: int): (r: Row)
    ensures |r| == |row|
  {
    seq(|row|, i requires 0 <= i < |row| =>
      if x <= i < x + w && 0 <= sy < |pic| && 0 <= sx + i - x < |pic[sy]| then pic[sy][sx + i - x] else row[i])
  }

  function CopyArea(pic: Picture, sx: int, sy: int, x: int, y: int, w: int, h: int): (r: Picture)
    ensures |r| == |pic|
  {
    seq(|pic|, j requires 0 <= j < |pic| =>
      if y <= j < y + h then CopyRow(pic, sx, sy + j - y, pic[j], x, w) else pic[j])
  }

  /* Single pixels */

  /** Pixel i of row j of an image of w by h pixels of b bytes. */
  lemma InImage(b: nat, w: nat, h: nat, i: nat, j: nat)
    requires i < w && j < h
    ensures 0 <= (j * w + i) * b && (j * w + i) * b + b <= h * (w * b)
    ensures (j * w + i) * b == j * (w * b) + i * b
  {
    InRow(b, w, i);
    InRow(w * b, h, j);
    assert (j * w + i) * b == j * w * b + i * b;
    assert j * w * b == j * (w * b);
  }

  lemma LinePixel(f: Format, data: seq<byte>, w: nat, h: nat, i: nat, j: nat)
    requires i < w && j < h && |data| == h * (w * Bpp(f))
    ensures (j * w + i) * Bpp(f) + Bpp(f) <= |data|
    ensures PixelOf(f, Line(data, w * Bpp(f), h, j), w, i) == PixelAt(f, data, (j * w + i) * Bpp(f))
  {
    var b, n := Bpp(f), w * Bpp(f);
    hide Bpp;
    InImage(b, w, h, i, j);
    InRow(b, w, i);
    InRow(n, h, j);
    SlicePixel(f, data, j * n, n, i * b);
  }

  lemma SlicePixel(f: Format, data: seq<byte>, o: nat, n: nat, i: nat)
    requires o + n <= |data| && i + Bpp(f) <= n
    ensures PixelAt(f, data[o..o + n], i) == PixelAt(f, data, o + i)
  {
  }

  /** A drawn image shows its pixels in reading order, and nothing else changes. */
  lemma BlitPixels(f: Format, pic: Picture, x: int, y: int, w: nat, h: nat, data: seq<byte>, px: int, py: int)
    requires InPicture(pic, px, py) && |data| == h * (w * Bpp(f))
    ensures InPicture(Blit(f, pic, x, y, w, h, data), px, py)
    ensures var p := Blit(f, pic, x, y, w, h, data)[py][px];
            if x <= px < x + w && y <= py < y + h then IsColour(f, p, data, ((py - y) * w + (px - x)) * Bpp(f))
            else p == pic[py][px]
  {
    hide Line, PixelOf, Bpp, PixelAt, IsColour;
    if x <= px < x + w && y <= py < y + h {
      LinePixel(f, data, w, h, px - x, py - y);
      InImage(Bpp(f), w, h, px - x, py - y);
      ColourIs(f, Blit(f, pic, x, y, w, h, data)[py][px], data, ((py - y) * w + (px - x)) * Bpp(f));
    }
  }

  /** A copied rectangle shows what was at its source before, also where both overlap; what comes from
      outside the picture, and what is outside the rectangle, stays. */
  lemma CopyPixels(pic: Picture, sx: int, sy: int, x: int, y: int, w: int, h: int, px: int, py: int)
    requires InPicture(pic, px, py)
    ensures InPicture(CopyArea(pic, sx, sy, x, y, w, h), px, py)
    ensures var qx, qy := sx + (px - x), sy + (py - y);
            CopyArea(pic, sx, sy, x, y, w, h)[py][px]
              == if x <= px < x + w && y <= py < y + h && InPicture(pic, qx, qy) then pic[qy][qx] else pic[py][px]
  {
  }
}
