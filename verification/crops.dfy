/**
 * Crop geometry of the test-time augmentation: the centre offset of
 * OpenCVCenterCrop.get_params, the window slicing of OpenCVCropBase.__call__
 * and the five windows of _five_crop.
 *
 * An image is a numpy array of shape (h, w, c); here a Raster whose rows are
 * sequences of opaque pixels (each pixel stands for its c channel values).
 */
module Crops {
  import opened Wrappers

  datatype Raster<P> = Raster(h: nat, w: nat, c: nat, rows: seq<seq<P>>)

  /** The rows and columns agree with the shape. */
  predicate WellFormed<P>(img: Raster<P>) {
    |img.rows| == img.h && forall r :: 0 <= r < |img.rows| ==> |img.rows[r]| == img.w
  }

  // ---------------------------------------------------------------------------
  // Python slicing

  /** Where a Python slice bound k lands in a sequence of length n (negative bounds count from the end). */
  function SliceBound(k: int, n: nat): (b: nat)
    ensures b <= n
    ensures 0 <= k <= n ==> b == k
  {
    if k < 0 then (if k + n < 0 then 0 else k + n)
    else if k > n then n
    else k
  }

  /** s[lo:hi] with Python's clamping of out-of-range bounds. */
  function PySlice<T>(s: seq<T>, lo: int, hi: int): (r: seq<T>)
    ensures |r| <= |s|
    ensures 0 <= lo <= hi <= |s| ==> r == s[lo..hi]
  {
    var a, b := SliceBound(lo, |s|), SliceBound(hi, |s|);
    if a <= b then s[a..b] else []
  }

  /** img[top:bottom, left:right]: numpy keeps the channels and slices both axes independently. */
  function Slice2D<P>(img: Raster<P>, top: int, bottom: int, left: int, right: int): (r: Raster<P>)
    requires WellFormed(img)
    ensures WellFormed(r) && r.c == img.c && r.h <= img.h && r.w <= img.w
  {
    var rows := PySlice(img.rows, top, bottom);
    var a, b := SliceBound(left, img.w), SliceBound(right, img.w);
    var w := if a <= b then b - a else 0;
    Raster(|rows|, w, img.c, seq(|rows|, k requires 0 <= k < |rows| => PySlice(rows[k], left, right)))
  }

  /** win is the size x size piece of img whose top-left pixel is (i, j), lying wholly inside img. */
  ghost predicate IsWindowAt<P>(img: Raster<P>, win: Raster<P>, i: int, j: int, size: nat)
    requires WellFormed(img)
  {
    WellFormed(win) && win.h == size && win.w == size && win.c == img.c &&
    0 <= i && i + size <= img.h && 0 <= j && j + size <= img.w &&
    forall a, b :: 0 <= a < size && 0 <= b < size ==> win.rows[a][b] == img.rows[i + a][j + b]
  }

  /** The slice img[i:i+size, j:j+size] taken by OpenCVCropBase.__call__ and by _five_crop. */
  function Window<P>(img: Raster<P>, i: int, j: int, size: nat): (r: Raster<P>)
    requires WellFormed(img)
    ensures WellFormed(r) && r.c == img.c
    ensures 0 <= i && i + size <= img.h && 0 <= j && j + size <= img.w ==> IsWindowAt(img, r, i, j, size)
  {
    SliceInsideIsWindow(img, i, j, size);
    Slice2D(img, i, i + size, j, j + size)
  }

  /** A slice whose bounds lie inside the image keeps each pixel at its offset. */
  lemma SliceInsideIsWindow<P>(img: Raster<P>, i: int, j: int, size: nat)
    requires WellFormed(img)
    ensures 0 <= i && i + size <= img.h && 0 <= j && j + size <= img.w ==>
      IsWindowAt(img, Slice2D(img, i, i + size, j, j + size), i, j, size)
  {
    var r := Slice2D(img, i, i + size, j, j + size);
    if 0 <= i && i + size <= img.h && 0 <= j && j + size <= img.w {
      assert r.h == size && r.w == size;
      forall a, b | 0 <= a < size && 0 <= b < size
        ensures r.rows[a][b] == img.rows[i + a][j + b]
      {
        assert r.rows[a] == img.rows[i + a][j..j + size];
      }
    }
  }

  // ---------------------------------------------------------------------------
  // OpenCVCenterCrop

  /**
   * Python 3's round(d / 2.) for an integer d: the nearest integer to d/2,
   * and on a tie (d odd) the even one of the two neighbours.
   */
  function RoundHalf(d: int): (r: int)
    ensures -1 <= 2 * r - d <= 1
    ensures 2 * r != d ==> r % 2 == 0
  {
    if d % 2 == 0 then d / 2
    else if (d / 2) % 2 == 0 then d / 2
    else d / 2 + 1
  }

  /** OpenCVCenterCrop.get_params: the top-left corner of the centred size x size window. */
  function CenterOffset<P>(img: Raster<P>, size: nat): (o: (int, int))
    ensures img.h == size && img.w == size ==> o == (0, 0)
    ensures -1 <= 2 * o.0 - (img.h - size) <= 1 && -1 <= 2 * o.1 - (img.w - size) <= 1
    ensures size <= img.h ==> 0 <= o.0 <= img.h - size
    ensures size <= img.w ==> 0 <= o.1 <= img.w - size
  {
    if img.h == size && img.w == size then (0, 0)
    else (RoundHalf(img.h - size), RoundHalf(img.w - size))
  }

  /** OpenCVCropBase.__call__ on an OpenCVCenterCrop: slice the window at get_params. */
  function CenterCrop<P>(img: Raster<P>, size: nat): (r: Raster<P>)
    requires WellFormed(img)
    ensures WellFormed(r) && r.c == img.c
    ensures size <= img.h && size <= img.w ==> IsWindowAt(img, r, CenterOffset(img, size).0, CenterOffset(img, size).1, size)
  {
    var o := CenterOffset(img, size);
    Window(img, o.0, o.1, size)
  }

  /** The short cut for an image of exactly the crop size agrees with the rounding formula. */
  lemma CenterOffsetShortCutAgrees<P>(img: Raster<P>, size: nat)
    ensures CenterOffset(img, size) == (RoundHalf(img.h - size), RoundHalf(img.w - size))
  {
    if img.h == size && img.w == size {
      assert RoundHalf(0) == 0;
    }
  }

  /** The margins before and after the centre window differ by at most one pixel, and a tie goes to the even offset: these two facts determine the offset. */
  lemma {:induction false} CenterOffsetUnique(d: int, r: int)
    requires -1 <= 2 * r - d <= 1
    requires 2 * r != d ==> r % 2 == 0
    ensures r == RoundHalf(d)
  {
    if 2 * r != d {
      assert r == d / 2 || r == d / 2 + 1;
    }
  }

  /** A 512 x 512 image cropped to 480 is centred at (16, 16); odd margins round half to even. */
  lemma CenterOffsetExamples<P>(img: Raster<P>)
    ensures img.h == 512 && img.w == 512 ==> CenterOffset(img, 480) == (16, 16)
    ensures img.h == 481 && img.w == 485 ==> CenterOffset(img, 480) == (0, 2)
    ensures img.h == 483 && img.w == 487 ==> CenterOffset(img, 480) == (2, 4)
  {
  }

  // ---------------------------------------------------------------------------
  // _five_crop

  datatype CropError =
    | ChannelOrder(c: nat)                     // the assertion c == 3 fails
    | CropTooLarge(size: nat, h: nat, w: nat)  // ValueError: requested crop size is bigger than input size

  /** _five_crop: top-left, top-right, bottom-left, bottom-right and centre windows, in that order. */
  function FiveCrop<P>(img: Raster<P>, size: nat): (r: Result<seq<Raster<P>>, CropError>)
    requires WellFormed(img)
    ensures r == Failure(ChannelOrder(img.c)) <==> img.c != 3
    ensures r == Failure(CropTooLarge(size, img.h, img.w)) <==> img.c == 3 && (size > img.w || size > img.h)
    ensures r.Success? <==> img.c == 3 && size <= img.w && size <= img.h
    ensures r.Success? ==> |r.value| == 5
  {
    var h, w, c := img.h, img.w, img.c;
    if c != 3 then Failure(ChannelOrder(c))
    else if size > w || size > h then Failure(CropTooLarge(size, h, w))
    else
      // img[0:size, 0:size], img[0:size, w-size:w], img[h-size:h, 0:size], img[h-size:h, w-size:w]
      var tl := Window(img, 0, 0, size);
      var tr := Window(img, 0, w - size, size);
      var bl := Window(img, h - size, 0, size);
      var br := Window(img, h - size, w - size, size);
      Success([tl, tr, bl, br, CenterCrop(img, size)])
  }

  /**
   * The five windows of _five_crop are size x size pieces lying inside the
   * image, at the four corners (0, 0), (0, w - size), (h - size, 0),
   * (h - size, w - size) and at the centre offset of get_params.
   */
  lemma FiveCropWindows<P>(img: Raster<P>, size: nat, crops: seq<Raster<P>>)
    requires WellFormed(img) && FiveCrop(img, size) == Success(crops)
    ensures |crops| == 5
    ensures IsWindowAt(img, crops[0], 0, 0, size)
    ensures IsWindowAt(img, crops[1], 0, img.w - size, size)
    ensures IsWindowAt(img, crops[2], img.h - size, 0, size)
    ensures IsWindowAt(img, crops[3], img.h - size, img.w - size, size)
    ensures IsWindowAt(img, crops[4], CenterOffset(img, size).0, CenterOffset(img, size).1, size)
  {
    var h, w := img.h, img.w;
    assert crops == [Window(img, 0, 0, size), Window(img, 0, w - size, size), Window(img, h - size, 0, size),
                     Window(img, h - size, w - size, size), CenterCrop(img, size)];
  }

  /**
   * When the crop is at least half of each side (480 of 512, say), the four
   * corner windows together cover every pixel of the image: pixel (a, b)
   * appears in the corner named by whether it is in the top or bottom band
   * and the left or right band. The corners are those of _five_crop, as
   * FiveCropWindows states.
   */
  lemma CornersCover<P>(img: Raster<P>, crops: seq<Raster<P>>, size: nat, a: nat, b: nat)
    requires WellFormed(img) && |crops| >= 4
    requires IsWindowAt(img, crops[0], 0, 0, size) && IsWindowAt(img, crops[1], 0, img.w - size, size)
    requires IsWindowAt(img, crops[2], img.h - size, 0, size) && IsWindowAt(img, crops[3], img.h - size, img.w - size, size)
    requires 2 * size >= img.h && 2 * size >= img.w
    requires a < img.h && b < img.w
    ensures var top, left := a < size, b < size;
      (top || a >= img.h - size) && (left || b >= img.w - size) &&
      (top && left ==> crops[0].rows[a][b] == img.rows[a][b]) &&
      (top && !left ==> crops[1].rows[a][b - (img.w - size)] == img.rows[a][b]) &&
      (!top && left ==> crops[2].rows[a - (img.h - size)][b] == img.rows[a][b]) &&
      (!top && !left ==> crops[3].rows[a - (img.h - size)][b - (img.w - size)] == img.rows[a][b])
  {
    var oh, ow := img.h - size, img.w - size;
    if a < size && b < size {
      WindowPixel(img, crops[0], 0, 0, size, a, b);
    } else if a < size {
      WindowPixel(img, crops[1], 0, ow, size, a, b - ow);
    } else if b < size {
      WindowPixel(img, crops[2], oh, 0, size, a - oh, b);
    } else {
      WindowPixel(img, crops[3], oh, ow, size, a - oh, b - ow);
    }
  }

  lemma WindowPixel<P>(img: Raster<P>, win: Raster<P>, i: int, j: int, size: nat, a: nat, b: nat)
    requires WellFormed(img) && IsWindowAt(img, win, i, j, size)
    requires a < size && b < size
    ensures 0 <= i + a < img.h && 0 <= j + b < img.w && win.rows[a][b] == img.rows[i + a][j + b]
  {
  }
}
