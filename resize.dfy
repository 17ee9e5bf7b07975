/** `resizeImage`: load a data URL and redraw it so that its longer side is
    clamped to a bound, the other side scaled in proportion and rounded. */
module Resize {
  import opened JsMath
  import opened Canvas

  /** The bound on each side a caller gets when it gives none. */
  const DefaultMaxSide: nat := 1024

  /** The quality `resizeImage` encodes at (0.9). */
  const ResizeQuality: nat := 90

  /** The message of the error a failed load rejects with. */
  const LoadFailure: string := "Failed to load image for resizing."

  /** The size `resizeImage` draws an image of natural size (w, h) at. A wide
      image longer than maxWidth gets width maxWidth and the height nearest to
      h * maxWidth / w; otherwise an image at least as tall as wide and taller than
      maxHeight gets height maxHeight and the width nearest to w * maxHeight / h;
      any other image keeps its size. No side ever grows. */
  function ResizedSize(w: nat, h: nat, maxWidth: nat, maxHeight: nat): (r: Size)
    ensures r.width <= w && r.height <= h
    ensures w > h && w > maxWidth ==>
      r.width == maxWidth && 2 * w * r.height <= 2 * (h * maxWidth) + w < 2 * w * r.height + 2 * w
    ensures !(w > h && w > maxWidth) && h >= w && h > maxHeight ==>
      r.height == maxHeight && 2 * h * r.width <= 2 * (w * maxHeight) + h < 2 * h * r.width + 2 * h
    ensures !(w > h && w > maxWidth) && !(h >= w && h > maxHeight) ==> r == Size(w, h)
  {
    if w > h && w > maxWidth then
      MulMonotone(maxWidth, w, h);
      RoundAtMost(h * maxWidth, w, h);
      Size(maxWidth, Round(h * maxWidth, w))
    else if h >= w && h > maxHeight then
      MulMonotone(maxHeight, h, w);
      RoundAtMost(w * maxHeight, h, w);
      Size(Round(w * maxHeight, h), maxHeight)
    else
      Size(w, h)
  }

  /** With a square bound m, the result fits the m by m box, and an image that
      did not fit has its longer side brought to exactly m. */
  lemma FitsSquareBox(w: nat, h: nat, m: nat)
    ensures ResizedSize(w, h, m, m).width <= m && ResizedSize(w, h, m, m).height <= m
    ensures w > m || h > m ==> ResizedSize(w, h, m, m).width == m || ResizedSize(w, h, m, m).height == m
  {
    if w > h && w > m {
      MulMonotone(h, w, m);
      RoundAtMost(h * m, w, m);
    } else if h >= w && h > m {
      MulMonotone(w, h, m);
      RoundAtMost(w * m, h, m);
    }
  }

  /** With a square bound, resizing a resized image changes nothing. */
  lemma ResizeIdempotentSquare(w: nat, h: nat, m: nat)
    ensures var r := ResizedSize(w, h, m, m); ResizedSize(r.width, r.height, m, m) == r
  {
    FitsSquareBox(w, h, m);
  }

  /** With unequal bounds only the bound of the longer side is applied: a wide
      image clamped to a width of 1024 keeps a height far above a height bound
      of 100. */
  lemma UnequalBoundsCanExceedHeight()
    ensures ResizedSize(2000, 1900, 1024, 100) == Size(1024, 973)
  {
  }

  /** A very thin image can have its short side rounded down to 0 pixels. */
  lemma ThinImageCollapses()
    ensures ResizedSize(10000, 1, DefaultMaxSide, DefaultMaxSide) == Size(1024, 0)
  {
  }

  /** `resizeImage(dataUrl, maxWidth, maxHeight)`: a failed load rejects with an
      error carrying the fixed message; a loaded image is encoded once, at the
      resized size and quality 0.9. */
  function ResizeImage(dataUrl: string, maxWidth: nat, maxHeight: nat, decode: Decoder, draw: Encoder): (r: Result<string>)
    ensures decode(dataUrl).None? ==> r == Rejected(ErrorMessage(LoadFailure))
    ensures decode(dataUrl).Some? ==>
      var natural := decode(dataUrl).value;
      var size := ResizedSize(natural.width, natural.height, maxWidth, maxHeight);
      && size.width <= natural.width && size.height <= natural.height
      && r == Ok(Render(draw, dataUrl, DrawCall(size, ResizeQuality)))
  {
    match decode(dataUrl)
    case None => Rejected(ErrorMessage(LoadFailure))
    case Some(natural) =>
      var size := ResizedSize(natural.width, natural.height, maxWidth, maxHeight);
      Ok(draw(dataUrl, size.width, size.height, ResizeQuality))
  }
}
