/** Conversion of a 24-bit colour image to black and white: every pixel gets a
 *  gray level, and the cutoff between black and white lies halfway between the
 *  darkest and the lightest gray level that occur in the image. */
module Binarizer {
  import opened Bytes
  import opened Arith

  /** The pixel bytes as the image lock hands them over: `height` scan lines
   *  of `stride` bytes each, three bytes per pixel at the start of a line. */
  datatype Image = Image(bitmap: seq<Byte>, stride: int, width: int, height: int)

  predicate Scanned(img: Image)
  {
    0 <= img.width && 0 <= img.height && 3 * img.width <= img.stride
    && |img.bitmap| == img.stride * img.height
  }

  /** What the image lock hands over: an image of some size whose scan
   *  lines, when the stride is not negative, hold its pixels. */
  predicate Locked(img: Image)
  {
    0 <= img.width && 0 <= img.height && (img.stride >= 0 ==> Scanned(img))
  }

  predicate InImage(img: Image, r: int, c: int)
  {
    0 <= r < img.height && 0 <= c < img.width
  }

  /** Weighted gray level of the three colour bytes of a pixel. */
  function PixelGray(b0: Byte, b1: Byte, b2: Byte): (g: int)
    ensures 0 <= g <= 255
  {
    (30 * b0 + 59 * b1 + 11 * b2) / 100
  }

  /** The three bytes of pixel (r, c) lie inside the bitmap. */
  lemma PixelInside(img: Image, r: int, c: int)
    requires Scanned(img) && InImage(img, r, c)
    ensures 0 <= r * img.stride && r * img.stride + 3 * c + 2 < |img.bitmap|
  {
    MulMonotone(0, r, img.stride);
    MulMonotone(r + 1, img.height, img.stride);
    MulSucc(r, img.stride);
  }

  /** Gray level of pixel (r, c). */
  function Gray(img: Image, r: int, c: int): (g: Byte)
    requires Scanned(img) && InImage(img, r, c)
  {
    PixelInside(img, r, c);
    var p := r * img.stride + 3 * c;
    PixelGray(img.bitmap[p], img.bitmap[p + 1], img.bitmap[p + 2])
  }

  /** Some pixel of the image has gray level k. */
  ghost predicate Present(img: Image, k: int)
    requires Scanned(img)
  {
    exists r, c :: InImage(img, r, c) && Gray(img, r, c) == k
  }

  /** The darkest gray level at or above k that occurs, or 256. */
  ghost function Lowest(img: Image, k: int): (lo: int)
    requires Scanned(img) && 0 <= k <= 256
    ensures k <= lo <= 256
    decreases 256 - k
  {
    if k == 256 then 256 else if Present(img, k) then k else Lowest(img, k + 1)
  }

  /** The lightest gray level at or below k that occurs, or -1. */
  ghost function Highest(img: Image, k: int): (hi: int)
    requires Scanned(img) && -1 <= k <= 255
    ensures -1 <= hi <= k
    decreases k + 1
  {
    if k == -1 then -1 else if Present(img, k) then k else Highest(img, k - 1)
  }

  /** Lowest(img, k) is the least level at or above k that occurs. */
  lemma {:induction false} LowestIsLeast(img: Image, k: int)
    requires Scanned(img) && 0 <= k <= 256
    ensures Lowest(img, k) < 256 ==> Present(img, Lowest(img, k))
    ensures forall r, c :: InImage(img, r, c) && k <= Gray(img, r, c) ==> Lowest(img, k) <= Gray(img, r, c)
    decreases 256 - k
  {
    if k < 256 && !Present(img, k) {
      LowestIsLeast(img, k + 1);
    }
  }

  /** Highest(img, k) is the greatest level at or below k that occurs. */
  lemma {:induction false} HighestIsGreatest(img: Image, k: int)
    requires Scanned(img) && -1 <= k <= 255
    ensures Highest(img, k) >= 0 ==> Present(img, Highest(img, k))
    ensures forall r, c :: InImage(img, r, c) && Gray(img, r, c) <= k ==> Gray(img, r, c) <= Highest(img, k)
    decreases k + 1
  {
    if k >= 0 && !Present(img, k) {
      HighestIsGreatest(img, k - 1);
    }
  }

  /** The image has at least two gray levels. */
  ghost function Spread(img: Image): int
    requires Scanned(img)
  {
    Highest(img, 255) + 1 - Lowest(img, 0)
  }

  /** The cutoff of the conversion: the middle of the darkest and the lightest
   *  level present, the lightest counted one above itself. */
  ghost function Cutoff(img: Image): int
    requires Scanned(img)
  {
    (Lowest(img, 0) + Highest(img, 255) + 1) / 2
  }

  /** The conversion fails exactly when no two pixels differ in gray level
   *  (this includes an image without pixels). */
  lemma FailsIffUniform(img: Image)
    requires Scanned(img)
    ensures Spread(img) < 2 <==>
      forall r1, c1, r2, c2 :: InImage(img, r1, c1) && InImage(img, r2, c2) ==> Gray(img, r1, c1) == Gray(img, r2, c2)
  {
    LowestIsLeast(img, 0);
    HighestIsGreatest(img, 255);
    if Spread(img) >= 2 {
      var lo, hi := Lowest(img, 0), Highest(img, 255);
      var r1, c1 :| InImage(img, r1, c1) && Gray(img, r1, c1) == lo;
      var r2, c2 :| InImage(img, r2, c2) && Gray(img, r2, c2) == hi;
    }
  }

  /** After a successful conversion the darkest pixels are black and the
   *  lightest pixels are white. */
  lemma ExtremesSeparate(img: Image, r: int, c: int)
    requires Scanned(img) && Spread(img) >= 2 && InImage(img, r, c)
    ensures Gray(img, r, c) == Lowest(img, 0) ==> Gray(img, r, c) < Cutoff(img)
    ensures Gray(img, r, c) == Highest(img, 255) ==> Gray(img, r, c) >= Cutoff(img)
    ensures Lowest(img, 0) <= Gray(img, r, c) <= Highest(img, 255)
  {
    LowestIsLeast(img, 0);
    HighestIsGreatest(img, 255);
  }

  /** Pixel p = (r, c) comes before (row, col) in scan order. */
  predicate Before(img: Image, p: (int, int), row: int, col: int)
  {
    InImage(img, p.0, p.1) && (p.0 < row || (p.0 == row && p.1 < col))
  }

  /** The histogram after the pixels before (row, col): every bin is a
   *  count, a nonzero bin has a witness pixel of that level, and every
   *  pixel scanned has its bin nonzero. */
  ghost predicate Counted(img: Image, levels: seq<int>, seen: seq<(int, int)>, row: int, col: int)
    requires Scanned(img)
  {
    |levels| == 256 && |seen| == 256
    && (forall k :: 0 <= k < 256 ==> levels[k] >= 0)
    && (forall k :: 0 <= k < 256 && levels[k] > 0 ==>
          Before(img, seen[k], row, col) && Gray(img, seen[k].0, seen[k].1) == k)
    && (forall r, c :: Before(img, (r, c), row, col) ==> levels[Gray(img, r, c)] > 0)
  }

  lemma CountedStep(img: Image, levels: seq<int>, seen: seq<(int, int)>, row: int, col: int)
    requires Scanned(img) && InImage(img, row, col) && Counted(img, levels, seen, row, col)
    ensures Counted(img, levels[Gray(img, row, col) := levels[Gray(img, row, col)] + 1],
                    seen[Gray(img, row, col) := (row, col)], row, col + 1)
  {
    var g := Gray(img, row, col);
    var levels', seen' := levels[g := levels[g] + 1], seen[g := (row, col)];
    forall r, c | Before(img, (r, c), row, col + 1)
      ensures levels'[Gray(img, r, c)] > 0
    {
      if !(r == row && c == col) {
        assert Before(img, (r, c), row, col);
      }
    }
    forall k | 0 <= k < 256 && levels'[k] > 0
      ensures Before(img, seen'[k], row, col + 1) && Gray(img, seen'[k].0, seen'[k].1) == k
    {
      if k != g {
        assert Before(img, seen[k], row, col);
      }
    }
  }

  lemma CountedRow(img: Image, levels: seq<int>, seen: seq<(int, int)>, row: int)
    requires Scanned(img) && 0 <= row < img.height && Counted(img, levels, seen, row, img.width)
    ensures Counted(img, levels, seen, row + 1, 0)
  {
    forall k | 0 <= k < 256 && levels[k] > 0
      ensures Before(img, seen[k], row + 1, 0)
    {
      assert Before(img, seen[k], row, img.width);
    }
    forall r, c | Before(img, (r, c), row + 1, 0)
      ensures levels[Gray(img, r, c)] > 0
    {
      assert Before(img, (r, c), row, img.width);
    }
  }

  lemma CountedAll(img: Image, levels: seq<int>, seen: seq<(int, int)>)
    requires Scanned(img) && Counted(img, levels, seen, img.height, 0)
    ensures forall k :: 0 <= k < 256 ==> (levels[k] != 0 <==> Present(img, k))
  {
    forall k | 0 <= k < 256
      ensures levels[k] != 0 <==> Present(img, k)
    {
      if levels[k] != 0 {
        assert InImage(img, seen[k].0, seen[k].1);
      }
      if Present(img, k) {
        var r, c :| InImage(img, r, c) && Gray(img, r, c) == k;
        assert Before(img, (r, c), img.height, 0);
      }
    }
  }

  /** The state of the gray conversion before pixel (row, col): the pixels
   *  before it are converted and counted. */
  ghost predicate Scanning(img: Image, grayImage: array2<Byte>, grayLevel: array<int>, seen: seq<(int, int)>, row: int, col: int)
    reads grayImage, grayLevel
  {
    Scanned(img) && grayImage.Length0 == img.height && grayImage.Length1 == img.width && grayLevel.Length == 256
    && (forall r, c :: Before(img, (r, c), row, col) ==> grayImage[r, c] == Gray(img, r, c))
    && Counted(img, grayLevel[..], seen, row, col)
  }

  /** Gray level of pixel (row, col) from the three bytes at bitmapPtr, stored
   *  and counted. */
  method ScanPixel(img: Image, grayImage: array2<Byte>, grayLevel: array<int>, ghost seen: seq<(int, int)>,
                   row: int, col: int, bitmapPtr: int) returns (ghost seen': seq<(int, int)>)
    requires Scanning(img, grayImage, grayLevel, seen, row, col) && InImage(img, row, col)
    requires bitmapPtr == row * img.stride + 3 * col
    modifies grayImage, grayLevel
    ensures Scanning(img, grayImage, grayLevel, seen', row, col + 1)
  {
    PixelInside(img, row, col);
    var level := PixelGray(img.bitmap[bitmapPtr], img.bitmap[bitmapPtr + 1], img.bitmap[bitmapPtr + 2]);
    assert level == Gray(img, row, col);
    CountedStep(img, grayLevel[..], seen, row, col);
    ghost var levels := grayLevel[..];
    grayLevel[level] := grayLevel[level] + 1;
    assert grayLevel[..] == levels[level := levels[level] + 1];
    label pre:
    grayImage[row, col] := level;
    forall r, c | Before(img, (r, c), row, col + 1)
      ensures grayImage[r, c] == Gray(img, r, c)
    {
      if r != row || c != col {
        assert Before(img, (r, c), row, col);
        assert grayImage[r, c] == old@pre(grayImage[r, c]);
      }
    }
    seen' := seen[level := (row, col)];
  }

  /** The end of a scan line is the start of the next. */
  lemma ScanningRow(img: Image, grayImage: array2<Byte>, grayLevel: array<int>, seen: seq<(int, int)>, row: int)
    requires Scanning(img, grayImage, grayLevel, seen, row, img.width) && 0 <= row < img.height
    ensures Scanning(img, grayImage, grayLevel, seen, row + 1, 0)
  {
    CountedRow(img, grayLevel[..], seen, row);
    forall r, c | Before(img, (r, c), row + 1, 0)
      ensures grayImage[r, c] == Gray(img, r, c)
    {
      assert Before(img, (r, c), row, img.width);
    }
  }

  /** The gray image and the histogram of gray levels. */
  method GrayLevels(img: Image) returns (grayImage: array2<Byte>, grayLevel: array<int>)
    requires Scanned(img)
    ensures fresh(grayImage) && fresh(grayLevel)
    ensures grayImage.Length0 == img.height && grayImage.Length1 == img.width && grayLevel.Length == 256
    ensures forall r, c :: InImage(img, r, c) ==> grayImage[r, c] == Gray(img, r, c)
    ensures forall k :: 0 <= k < 256 ==> (grayLevel[k] != 0 <==> Present(img, k))
  {
    grayImage := new Byte[img.height, img.width]((_, _) => 0);
    grayLevel := new int[256](_ => 0);
    ghost var seen: seq<(int, int)> := seq(256, _ => (0, 0));
    var delta := img.stride - 3 * img.width;
    var bitmapPtr := 0;
    var row := 0;
    while row < img.height
      invariant 0 <= row <= img.height && bitmapPtr == row * img.stride
      invariant Scanning(img, grayImage, grayLevel, seen, row, 0)
    {
      var col := 0;
      while col < img.width
        invariant 0 <= col <= img.width && bitmapPtr == row * img.stride + 3 * col
        invariant Scanning(img, grayImage, grayLevel, seen, row, col)
      {
        seen := ScanPixel(img, grayImage, grayLevel, seen, row, col, bitmapPtr);
        bitmapPtr := bitmapPtr + 3;
        col := col + 1;
      }
      ScanningRow(img, grayImage, grayLevel, seen, row);
      MulSucc(row, img.stride);
      bitmapPtr := bitmapPtr + delta;
      row := row + 1;
    }
    CountedAll(img, grayLevel[..], seen);
    forall r, c | InImage(img, r, c)
      ensures grayImage[r, c] == Gray(img, r, c)
    {
      assert Before(img, (r, c), img.height, 0);
    }
  }

  /** The two scans of the histogram: the first occupied level from below
   *  and one past the first occupied level from above. */
  method LevelRange(img: Image, grayLevel: array<int>) returns (levelStart: int, levelEnd: int)
    requires Scanned(img) && grayLevel.Length == 256
    requires forall k :: 0 <= k < 256 ==> (grayLevel[k] != 0 <==> Present(img, k))
    ensures levelStart == Lowest(img, 0)
    ensures levelEnd - levelStart < 2 <==> Spread(img) < 2
    ensures levelEnd - levelStart >= 2 ==> levelEnd == Highest(img, 255) + 1
  {
    levelStart := 0;
    while levelStart < 256 && grayLevel[levelStart] == 0
      invariant 0 <= levelStart <= 256 && Lowest(img, levelStart) == Lowest(img, 0)
    {
      levelStart := levelStart + 1;
    }
    levelEnd := 255;
    while levelEnd >= levelStart && grayLevel[levelEnd] == 0
      invariant levelStart - 1 <= levelEnd <= 255 && Highest(img, levelEnd) == Highest(img, 255)
    {
      levelEnd := levelEnd - 1;
    }
    LowestIsLeast(img, 0);
    HighestIsGreatest(img, 255);
    if levelStart < 256 {
      assert Present(img, levelStart);
      assert levelEnd >= levelStart;
    } else {
      HighestNone(img, 255);
    }
    levelEnd := levelEnd + 1;
  }

  /** With no level present from the bottom up, none is present from the top
   *  down either. */
  lemma {:induction false} HighestNone(img: Image, k: int)
    requires Scanned(img) && -1 <= k <= 255 && Lowest(img, 0) == 256
    ensures Highest(img, k) == -1
    decreases k + 1
  {
    LowestIsLeast(img, 0);
    if k >= 0 {
      HighestNone(img, k - 1);
    }
  }

  /** Black (true) for a pixel darker than the cutoff. */
  method Threshold(grayImage: array2<Byte>, cutoffLevel: int) returns (image: array2<bool>)
    ensures fresh(image) && image.Length0 == grayImage.Length0 && image.Length1 == grayImage.Length1
    ensures forall r, c :: 0 <= r < image.Length0 && 0 <= c < image.Length1 ==> image[r, c] == (grayImage[r, c] < cutoffLevel)
  {
    image := new bool[grayImage.Length0, grayImage.Length1];
    var row := 0;
    while row < grayImage.Length0
      invariant 0 <= row <= grayImage.Length0
      invariant forall r, c :: 0 <= r < row && 0 <= c < image.Length1 ==> image[r, c] == (grayImage[r, c] < cutoffLevel)
    {
      var col := 0;
      while col < grayImage.Length1
        invariant 0 <= col <= grayImage.Length1
        invariant forall r, c :: 0 <= r < image.Length0 && 0 <= c < image.Length1 && (r < row || (r == row && c < col)) ==>
          image[r, c] == (grayImage[r, c] < cutoffLevel)
      {
        image[row, col] := grayImage[row, col] < cutoffLevel;
        col := col + 1;
      }
      row := row + 1;
    }
  }

  /** The conversion of the locked pixel bytes to black and white: it fails on a negative stride and on an image with fewer than two gray
   *  levels; otherwise a pixel is black (true) exactly when its gray level
   *  lies below the cutoff halfway between the darkest and the lightest
   *  level present. */
  method ToBlackAndWhite(img: Image) returns (ok: bool, image: array2<bool>)
    requires Locked(img)
    ensures fresh(image)
    ensures ok <==> img.stride >= 0 && Spread(img) >= 2
    ensures ok ==> image.Length0 == img.height && image.Length1 == img.width
    ensures ok ==> forall r, c :: InImage(img, r, c) ==> image[r, c] == (Gray(img, r, c) < Cutoff(img))
  {
    image := new bool[0, 0];
    if img.stride < 0 {
      return false, image;
    }
    var grayImage, grayLevel := GrayLevels(img);

    // gray level cutoff between black and white
    var levelStart, levelEnd := LevelRange(img, grayLevel);
    if levelEnd - levelStart < 2 {
      return false, image;
    }
    var cutoffLevel := (levelStart + levelEnd) / 2;
    assert cutoffLevel == Cutoff(img);

    // boolean image, white false and black true
    image := Threshold(grayImage, cutoffLevel);
    ok := true;
  }
}
