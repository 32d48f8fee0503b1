/** The size rule of `compressImage`: an image wider than the maximum is
    scaled down to the maximum width with its aspect ratio kept; a narrower
    one keeps its size. */
module Image {

  const MaxWidth: nat := 800

  /** The canvas width. */
  function TargetWidth(width: nat): (w: nat)
    ensures w <= MaxWidth && w <= width
    ensures w == width <==> width <= MaxWidth
    ensures width > MaxWidth ==> w == MaxWidth
  {
    if width > MaxWidth then MaxWidth else width
  }

  /** The canvas height, `img.height * (MaxWidth / img.width)` when the
      image is too wide, in exact arithmetic. */
  function TargetHeight(width: nat, height: real): (h: real)
    ensures width <= MaxWidth ==> h == height
  {
    if width > MaxWidth then height * (MaxWidth as real / width as real) else height
  }

  /** Scaling keeps the aspect ratio: the new height over the new width is
      the old height over the old width. */
  lemma AspectRatioKept(width: nat, height: real)
    requires width > 0
    ensures TargetHeight(width, height) * (width as real) == height * (TargetWidth(width) as real)
  {
    if width > MaxWidth {
      var w := width as real;
      calc {
        TargetHeight(width, height) * w;
        height * (800.0 / w) * w;
        height * ((800.0 / w) * w);
        height * 800.0;
      }
    }
  }
}
