/** An integer raster as the image-processing functions see it: a mode that is
    either single-channel 8-bit ("L") or three-channel 8-bit ("RGB"), a width,
    a height, and row-major rows of pixels, each pixel holding one sample per
    channel. */
module Raster {

  type Byte = x: int | 0 <= x < 256

  datatype Mode = L | RGB

  function Channels(m: Mode): nat
  {
    match m
    case L => 1
    case RGB => 3
  }

  /** One sample per channel of the image's mode. */
  type Pixel = seq<Byte>

  datatype Image = Image(mode: Mode, width: nat, height: nat, rows: seq<seq<Pixel>>)

  /** `height` rows of `width` pixels, each with as many samples as the mode has channels. */
  predicate WellFormed(img: Image)
  {
    && |img.rows| == img.height
    && (forall y :: 0 <= y < img.height ==> |img.rows[y]| == img.width)
    && (forall y, x :: 0 <= y < img.height && 0 <= x < img.width ==>
          |img.rows[y][x]| == Channels(img.mode))
  }

  type WfImage = img: Image | WellFormed(img) witness Image(L, 0, 0, [])

  /** The pixel in column x of row y. */
  function At(img: Image, x: nat, y: nat): (p: Pixel)
    requires WellFormed(img) && x < img.width && y < img.height
    ensures |p| == Channels(img.mode)
  {
    img.rows[y][x]
  }

  predicate SameShape(a: Image, b: Image)
  {
    a.mode == b.mode && a.width == b.width && a.height == b.height
  }

  /** Two well-formed images of one shape that agree on every pixel are equal. */
  lemma Extensionality(a: Image, b: Image)
    requires WellFormed(a) && WellFormed(b) && SameShape(a, b)
    requires forall x, y :: 0 <= x < a.width && 0 <= y < a.height ==> At(a, x, y) == At(b, x, y)
    ensures a == b
  {
    forall y | 0 <= y < a.height
      ensures a.rows[y] == b.rows[y]
    {
      assert forall x :: 0 <= x < a.width ==> a.rows[y][x] == At(a, x, y) == At(b, x, y) == b.rows[y][x];
    }
  }
}

/** The exact transforms of the image-processing core: rotation by a multiple
    of 90 degrees with the canvas expanded, horizontal and vertical flips, and
    colour inversion. Every transform builds a new image value and leaves its
    argument as it was. */
module ImageProcessing {
  import opened Raster

  /** Mirror each row: pixel (x, y) comes from (W-1-x, y). */
  function Mirror(img: Image): (r: Image)
    requires WellFormed(img)
    ensures WellFormed(r) && SameShape(r, img)
    ensures forall x, y :: 0 <= x < img.width && 0 <= y < img.height ==>
              At(r, x, y) == At(img, img.width - 1 - x, y)
  {
    Image(img.mode, img.width, img.height,
      seq(img.height, y requires 0 <= y < img.height =>
        seq(img.width, x requires 0 <= x < img.width => img.rows[y][img.width - 1 - x])))
  }

  /** Turn the image upside down: pixel (x, y) comes from (x, H-1-y). */
  function FlipVertical(img: Image): (r: Image)
    requires WellFormed(img)
    ensures WellFormed(r) && SameShape(r, img)
    ensures forall x, y :: 0 <= x < img.width && 0 <= y < img.height ==>
              At(r, x, y) == At(img, x, img.height - 1 - y)
  {
    Image(img.mode, img.width, img.height,
      seq(img.height, y requires 0 <= y < img.height =>
        seq(img.width, x requires 0 <= x < img.width => img.rows[img.height - 1 - y][x])))
  }

  /** A quarter turn counter-clockwise. The output is H wide and W high, and
      the input's top-right corner becomes the output's top-left corner. */
  function RotateLeft(img: Image): (r: Image)
    requires WellFormed(img)
    ensures WellFormed(r) && r.mode == img.mode
    ensures r.width == img.height && r.height == img.width
    ensures forall x, y :: 0 <= x < r.width && 0 <= y < r.height ==>
              At(r, x, y) == At(img, img.width - 1 - y, x)
  {
    Image(img.mode, img.height, img.width,
      seq(img.width, y requires 0 <= y < img.width =>
        seq(img.height, x requires 0 <= x < img.height => img.rows[x][img.width - 1 - y])))
  }

  /** A quarter turn clockwise. The output is H wide and W high, and the
      input's bottom-left corner becomes the output's top-left corner. */
  function RotateRight(img: Image): (r: Image)
    requires WellFormed(img)
    ensures WellFormed(r) && r.mode == img.mode
    ensures r.width == img.height && r.height == img.width
    ensures forall x, y :: 0 <= x < r.width && 0 <= y < r.height ==>
              At(r, x, y) == At(img, y, img.height - 1 - x)
  {
    Image(img.mode, img.height, img.width,
      seq(img.width, y requires 0 <= y < img.width =>
        seq(img.height, x requires 0 <= x < img.height => img.rows[img.height - 1 - x][y])))
  }

  /** A half turn: pixel (x, y) comes from (W-1-x, H-1-y). */
  function RotateHalf(img: Image): (r: Image)
    requires WellFormed(img)
    ensures WellFormed(r) && SameShape(r, img)
    ensures forall x, y :: 0 <= x < img.width && 0 <= y < img.height ==>
              At(r, x, y) == At(img, img.width - 1 - x, img.height - 1 - y)
  {
    Image(img.mode, img.width, img.height,
      seq(img.height, y requires 0 <= y < img.height =>
        seq(img.width, x requires 0 <= x < img.width =>
          img.rows[img.height - 1 - y][img.width - 1 - x])))
  }

  /** The counter-clockwise angle, in [0, 360), that the rotation library is
      handed: the caller's angle negated, reduced modulo 360 as the library
      does before it picks an exact transpose. */
  function LibraryAngle(angle: int): (a: int)
    ensures 0 <= a < 360
    ensures (a + angle) % 360 == 0
  {
    (-angle) % 360
  }

  /** x written as a multiple of 360 plus a remainder in [0, 360) has that remainder. */
  lemma ModUnique(x: int, c: int, d: int)
    requires x == 360 * c + d && 0 <= d < 360
    ensures x % 360 == d
  {
  }

  /** A right angle is a whole number of turns plus m quarter turns
      clockwise, m in 0..3. The library is handed 360 - 90m (0 when m is 0),
      and the negated angle is handed 90m. */
  function Quarters(angle: int): int
  {
    (angle / 90) % 4
  }

  lemma QuarterTurns(angle: int)
    requires angle % 90 == 0
    ensures var m := Quarters(angle);
      && LibraryAngle(angle) == (if m == 0 then 0 else 360 - 90 * m)
      && LibraryAngle(-angle) == 90 * m
      && (angle % 180 == 0 <==> m % 2 == 0)
  {
    var q := angle / 90;
    var m := q % 4;
    var t := q / 4;
    assert angle == 90 * q;
    assert q == 4 * t + m;
    assert angle == 360 * t + 90 * m;
    ModUnique(-angle, if m == 0 then -t else -t - 1, if m == 0 then 0 else 360 - 90 * m);
    ModUnique(angle, t, 90 * m);
    assert angle == 180 * (2 * t) + 90 * m;
    if m % 2 == 0 {
      assert angle == 180 * (2 * t + m / 2);
    } else {
      assert angle == 180 * (2 * t + m / 2) + 90;
    }
  }

  /** rotate_image: rotate by `angle` degrees CLOCKWISE (the angle is negated
      before the library's counter-clockwise rotation), with the canvas
      expanded. For right angles the library performs an exact transpose; the
      width and height swap exactly when the angle is an odd multiple of 90. */
  function RotateImage(img: Image, angle: int): (r: Image)
    requires WellFormed(img) && angle % 90 == 0
    ensures WellFormed(r) && r.mode == img.mode
    ensures angle % 180 == 0 ==> r.width == img.width && r.height == img.height
    ensures angle % 180 != 0 ==> r.width == img.height && r.height == img.width
  {
    var a := LibraryAngle(angle);
    QuarterTurns(angle);
    if a == 0 then img
    else if a == 90 then RotateLeft(img)
    else if a == 180 then RotateHalf(img)
    else RotateRight(img)
  }

  /** flip_image: a mirror when `horizontal`, otherwise an upside-down flip.
      The source's default `horizontal=True` is FlipImage(img, true). */
  function FlipImage(img: Image, horizontal: bool): (r: Image)
    requires WellFormed(img)
    ensures WellFormed(r) && SameShape(r, img)
    ensures horizontal ==> forall x, y :: 0 <= x < img.width && 0 <= y < img.height ==>
              At(r, x, y) == At(img, img.width - 1 - x, y)
    ensures !horizontal ==> forall x, y :: 0 <= x < img.width && 0 <= y < img.height ==>
              At(r, x, y) == At(img, x, img.height - 1 - y)
  {
    if horizontal then Mirror(img) else FlipVertical(img)
  }

  /** Conversion to RGB: a grey sample is copied into all three channels; an
      RGB image is returned as it is. */
  function ToRGB(img: Image): (r: Image)
    requires WellFormed(img)
    ensures WellFormed(r) && r.mode == RGB && r.width == img.width && r.height == img.height
    ensures forall x, y, c :: 0 <= x < img.width && 0 <= y < img.height && 0 <= c < 3 ==>
              At(r, x, y)[c] == At(img, x, y)[if img.mode == L then 0 else c]
  {
    match img.mode
    case RGB => img
    case L =>
      Image(RGB, img.width, img.height,
        seq(img.height, y requires 0 <= y < img.height =>
          seq(img.width, x requires 0 <= x < img.width =>
            var v := img.rows[y][x][0]; [v, v, v])))
  }

  /** The negative of one pixel: every sample v becomes 255 - v. */
  function InvertPixel(p: Pixel): (q: Pixel)
    ensures |q| == |p|
    ensures forall c :: 0 <= c < |p| ==> q[c] == 255 - p[c]
  {
    seq(|p|, c requires 0 <= c < |p| => 255 - p[c])
  }

  /** invert_image: convert to RGB, then replace every channel value v by 255 - v. */
  function InvertImage(img: Image): (r: Image)
    requires WellFormed(img)
    ensures WellFormed(r) && r.mode == RGB && r.width == img.width && r.height == img.height
    ensures forall x, y, c :: 0 <= x < img.width && 0 <= y < img.height && 0 <= c < 3 ==>
              At(r, x, y)[c] == 255 - At(img, x, y)[if img.mode == L then 0 else c]
  {
    var rgb := ToRGB(img);
    Image(RGB, rgb.width, rgb.height,
      seq(rgb.height, y requires 0 <= y < rgb.height =>
        seq(rgb.width, x requires 0 <= x < rgb.width => InvertPixel(rgb.rows[y][x]))))
  }

  // ----- Properties -----

  /** Flipping twice in the same direction gives back the original image. */
  lemma FlipTwice(img: Image, horizontal: bool)
    requires WellFormed(img)
    ensures FlipImage(FlipImage(img, horizontal), horizontal) == img
  {
    Extensionality(FlipImage(FlipImage(img, horizontal), horizontal), img);
  }

  /** A quarter turn one way undoes a quarter turn the other way. */
  lemma RotateLeftRight(img: Image)
    requires WellFormed(img)
    ensures RotateLeft(RotateRight(img)) == img
    ensures RotateRight(RotateLeft(img)) == img
  {
    Extensionality(RotateLeft(RotateRight(img)), img);
    Extensionality(RotateRight(RotateLeft(img)), img);
  }

  /** A half turn is its own inverse, and it is two quarter turns either way. */
  lemma RotateHalfFacts(img: Image)
    requires WellFormed(img)
    ensures RotateHalf(RotateHalf(img)) == img
    ensures RotateRight(RotateRight(img)) == RotateHalf(img)
    ensures RotateLeft(RotateLeft(img)) == RotateHalf(img)
  {
    Extensionality(RotateHalf(RotateHalf(img)), img);
    Extensionality(RotateRight(RotateRight(img)), RotateHalf(img));
    Extensionality(RotateLeft(RotateLeft(img)), RotateHalf(img));
  }

  /** rotate_image(img, 90) is a clockwise quarter turn: the output's pixel
      (x, y) is the input's pixel (y, H-1-x). */
  lemma RotateNinetyIsClockwise(img: Image)
    requires WellFormed(img)
    ensures RotateImage(img, 90) == RotateRight(img)
    ensures forall x, y :: 0 <= x < img.height && 0 <= y < img.width ==>
              At(RotateImage(img, 90), x, y) == At(img, y, img.height - 1 - x)
  {
    assert LibraryAngle(90) == 270;
  }

  /** Which library rotation rotate_image performs for a right angle, by the
      number of clockwise quarter turns. */
  lemma RotateForward(img: Image, angle: int)
    requires WellFormed(img) && angle % 90 == 0
    ensures Quarters(angle) == 0 ==> RotateImage(img, angle) == img
    ensures Quarters(angle) == 1 ==> RotateImage(img, angle) == RotateRight(img)
    ensures Quarters(angle) == 2 ==> RotateImage(img, angle) == RotateHalf(img)
    ensures Quarters(angle) == 3 ==> RotateImage(img, angle) == RotateLeft(img)
  {
    QuarterTurns(angle);
  }

  /** ... and for the negated angle, which turns the other way. */
  lemma RotateBackward(img: Image, angle: int)
    requires WellFormed(img) && angle % 90 == 0
    ensures (-angle) % 90 == 0
    ensures Quarters(angle) == 0 ==> RotateImage(img, -angle) == img
    ensures Quarters(angle) == 1 ==> RotateImage(img, -angle) == RotateLeft(img)
    ensures Quarters(angle) == 2 ==> RotateImage(img, -angle) == RotateHalf(img)
    ensures Quarters(angle) == 3 ==> RotateImage(img, -angle) == RotateRight(img)
  {
    QuarterTurns(angle);
    assert -angle == 90 * (-(angle / 90));
  }

  /** Rotating by any right angle and then by its negation restores the image;
      in particular rotating by 90 and then by -90. */
  lemma RotateInverse(img: Image, angle: int)
    requires WellFormed(img) && angle % 90 == 0
    ensures (-angle) % 90 == 0
    ensures RotateImage(RotateImage(img, angle), -angle) == img
  {
    RotateForward(img, angle);
    var r := RotateImage(img, angle);
    RotateBackward(r, angle);
    var m := Quarters(angle);
    if m == 1 || m == 3 {
      RotateLeftRight(img);
    } else if m == 2 {
      RotateHalfFacts(img);
    }
  }

  /** Two clockwise quarter turns make a half turn. */
  lemma RotateNinetyTwice(img: Image)
    requires WellFormed(img)
    ensures RotateImage(RotateImage(img, 90), 90) == RotateImage(img, 180)
  {
    assert LibraryAngle(90) == 270 && LibraryAngle(180) == 180;
    RotateHalfFacts(img);
  }

  /** Inverting an RGB image twice gives back the image. */
  lemma InvertTwiceRGB(img: Image)
    requires WellFormed(img) && img.mode == RGB
    ensures InvertImage(InvertImage(img)) == img
  {
    Extensionality(InvertImage(InvertImage(img)), img);
  }

  /** Inverting a grey image twice gives the grey image copied into three channels. */
  lemma InvertTwiceGrey(img: Image)
    requires WellFormed(img) && img.mode == L
    ensures InvertImage(InvertImage(img)) == ToRGB(img)
  {
    Extensionality(InvertImage(InvertImage(img)), ToRGB(img));
  }
}
