/** The normalise-and-batch step of image preprocessing: every channel
    value of the decoded, resized RGB image is divided by 255 and the image
    becomes the only element of a batch. Decoding, the conversion to RGB
    and the resizing are done by the imaging library and are not modelled:
    the step starts from the grid of bytes they produce. */
module Preprocess {

  type Byte = x: int | 0 <= x < 256

  /** An image as a grid of rows of pixels, a pixel three bytes (R, G, B),
      every row as wide as the first. */
  predicate IsRgb(g: seq<seq<seq<Byte>>>)
  {
    forall i :: 0 <= i < |g| ==>
      |g[i]| == |g[0]| && forall j :: 0 <= j < |g[i]| ==> |g[i][j]| == 3
  }

  type RgbImage = g: seq<seq<seq<Byte>>> | IsRgb(g) witness []

  /** A batch of images of channel values. */
  type Tensor = seq<seq<seq<seq<real>>>>

  /** The tensor has shape (1, h, w, 3). */
  predicate HasShape(t: Tensor, h: nat, w: nat)
  {
    && |t| == 1 && |t[0]| == h
    && forall i :: 0 <= i < h ==>
         |t[0][i]| == w && forall j :: 0 <= j < w ==> |t[0][i][j]| == 3
  }

  function Width(img: RgbImage): nat
  {
    if img == [] then 0 else |img[0]|
  }

  /** `expand_dims(array(img) / 255.0, axis=0)` */
  function Normalize(img: RgbImage): (t: Tensor)
    ensures HasShape(t, |img|, Width(img))
    ensures forall i, j, k :: 0 <= i < |img| && 0 <= j < Width(img) && 0 <= k < 3 ==>
      t[0][i][j][k] == img[i][j][k] as real / 255.0
    ensures forall i, j, k :: 0 <= i < |img| && 0 <= j < Width(img) && 0 <= k < 3 ==>
      0.0 <= t[0][i][j][k] <= 1.0
  {
    [seq(|img|, i requires 0 <= i < |img| =>
       seq(|img[i]|, j requires 0 <= j < |img[i]| =>
         seq(3, k requires 0 <= k < 3 => img[i][j][k] as real / 255.0)))]
  }

  /** Scales channel values back to bytes; the inverse of `Normalize`. */
  function Denormalize(t: Tensor, h: nat, w: nat): seq<seq<seq<int>>>
    requires HasShape(t, h, w)
  {
    seq(h, i requires 0 <= i < h =>
      seq(w, j requires 0 <= j < w =>
        seq(3, k requires 0 <= k < 3 => (t[0][i][j][k] * 255.0).Floor)))
  }

  /** Normalising loses nothing: scaling back recovers every byte. */
  lemma NormalizeRoundTrip(img: RgbImage)
    ensures Denormalize(Normalize(img), |img|, Width(img)) == img
  {
    var t := Normalize(img);
    var d := Denormalize(t, |img|, Width(img));
    forall i | 0 <= i < |img|
      ensures d[i] == img[i]
    {
      forall j | 0 <= j < Width(img)
        ensures d[i][j] == img[i][j]
      {
        forall k | 0 <= k < 3
          ensures d[i][j][k] == img[i][j][k]
        {
          assert t[0][i][j][k] * 255.0 == img[i][j][k] as real;
        }
      }
    }
  }
}
