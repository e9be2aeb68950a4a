/** The region extractor: `crop_frame` slices a rectangle out of a frame with
    Python/NumPy basic slicing, which never fails but clamps at the bounds. */
module RegionCrop {

  /** A frame or a cropped image: rows of pixels, top row first. */
  type Image<P> = seq<seq<P>>

  /** A region of interest `(x, y, width, height)` in pixel coordinates. */
  datatype Rect = Rect(x: int, y: int, width: int, height: int)

  /** How a slice bound `i` is resolved against a length `n`: a negative
      bound counts from the end, and the result is clamped into `[0, n]`. */
  function SliceBound(i: int, n: nat): (k: nat)
    ensures k <= n
    ensures 0 <= i <= n ==> k == i
    ensures i > n ==> k == n
    ensures i < 0 && i + n >= 0 ==> k == i + n
    ensures i + n < 0 ==> k == 0
  {
    if i < 0 then (if i + n < 0 then 0 else i + n)
    else if i > n then n
    else i
  }

  /** `s[lo:hi]`: the contiguous run of `s` between the resolved bounds, empty
      when they cross. */
  function Slice<T>(s: seq<T>, lo: int, hi: int): (r: seq<T>)
    ensures |r| == if SliceBound(lo, |s|) < SliceBound(hi, |s|)
                   then SliceBound(hi, |s|) - SliceBound(lo, |s|) else 0
    ensures forall i :: 0 <= i < |r| ==> r[i] == s[SliceBound(lo, |s|) + i]
  {
    var a, b := SliceBound(lo, |s|), SliceBound(hi, |s|);
    if a < b then s[a..b] else []
  }

  /** `crop_frame(frame, x, y, width, height)`, i.e.
      `frame[y:y+height, x:x+width]`: rows first, then columns of each row. */
  function Crop<P>(frame: Image<P>, roi: Rect): (r: Image<P>)
    ensures |r| <= |frame|
  {
    var rows := Slice(frame, roi.y, roi.y + roi.height);
    seq(|rows|, i requires 0 <= i < |rows| => Slice(rows[i], roi.x, roi.x + roi.width))
  }

  /** Every row of the frame is `w` pixels wide. */
  ghost predicate IsRectangular<P>(frame: Image<P>, w: nat) {
    forall i :: 0 <= i < |frame| ==> |frame[i]| == w
  }

  /** How many of the `extent` positions starting at `start` exist in a
      dimension of size `n`. */
  function Clipped(start: nat, extent: nat, n: nat): nat {
    if start >= n then 0
    else if extent <= n - start then extent
    else n - start
  }

  /** A region with non-negative coordinates is truncated at the frame's edges,
      not rejected: the crop has the clipped number of rows and columns, and
      pixel `(i, j)` of the crop is pixel `(y + i, x + j)` of the frame. */
  lemma CropTruncates<P>(frame: Image<P>, w: nat, roi: Rect)
    requires IsRectangular(frame, w)
    requires roi.x >= 0 && roi.y >= 0 && roi.width >= 0 && roi.height >= 0
    ensures |Crop(frame, roi)| == Clipped(roi.y, roi.height, |frame|)
    ensures forall i :: 0 <= i < |Crop(frame, roi)| ==>
              |Crop(frame, roi)[i]| == Clipped(roi.x, roi.width, w)
    ensures forall i, j :: 0 <= i < |Crop(frame, roi)| && 0 <= j < |Crop(frame, roi)[i]| ==>
              Crop(frame, roi)[i][j] == frame[roi.y + i][roi.x + j]
  {
    var r := Crop(frame, roi);
    var rows := Slice(frame, roi.y, roi.y + roi.height);
    forall i | 0 <= i < |r|
      ensures |r[i]| == Clipped(roi.x, roi.width, w)
      ensures forall j :: 0 <= j < |r[i]| ==> r[i][j] == frame[roi.y + i][roi.x + j]
    {
      assert rows[i] == frame[roi.y + i];
      assert r[i] == Slice(rows[i], roi.x, roi.x + roi.width);
    }
  }

  /** A region inside an `H x W` frame yields exactly `height` rows of `width`
      pixels each, pixel `(i, j)` being frame pixel `(y + i, x + j)`. */
  lemma CropInside<P>(frame: Image<P>, w: nat, roi: Rect)
    requires IsRectangular(frame, w)
    requires 0 <= roi.x && 0 <= roi.width && roi.x + roi.width <= w
    requires 0 <= roi.y && 0 <= roi.height && roi.y + roi.height <= |frame|
    ensures |Crop(frame, roi)| == roi.height
    ensures forall i :: 0 <= i < roi.height ==> |Crop(frame, roi)[i]| == roi.width
    ensures forall i, j :: 0 <= i < roi.height && 0 <= j < roi.width ==>
              Crop(frame, roi)[i][j] == frame[roi.y + i][roi.x + j]
  {
    CropTruncates(frame, w, roi);
  }

  /** Negative bounds count from the end: `s[-2:100]` is the last two items. */
  lemma SliceFromEnd<T>(s: seq<T>)
    requires |s| >= 2
    ensures Slice(s, -2, |s| + 100) == s[|s| - 2..]
  {
  }
}
