/** The edit history driven by the image transforms, as the application uses
    it: the current image carries every transformation applied since the
    last load or reset. */
module ViewerScenarios {
  import opened Wrappers
  import opened Raster
  import opened ImageProcessing
  import opened EditHistory

  function RotateBy(angle: int): WfImage -> WfImage
    requires angle % 90 == 0
  {
    (x: WfImage) => RotateImage(x, angle)
  }

  function Invert(): WfImage -> WfImage
  {
    (x: WfImage) => InvertImage(x)
  }

  /** Load, rotate by 90, reset: the current image is the loaded one again,
      with its original size. */
  method RotateThenReset(viewer: ImageViewer<WfImage>, img: WfImage)
    modifies viewer
    ensures viewer.Valid()
    ensures viewer.currentImage == Some(img) && viewer.originalImage == Some(img)
  {
    viewer.LoadImage(img);
    viewer.ApplyTransformation(RotateBy(90));
    assert viewer.currentImage.value.width == img.height;
    viewer.ResetImage();
  }

  /** Invert and then rotate: the rotation acts on the inverted image, and the
      original stays as loaded. */
  method InvertThenRotate(viewer: ImageViewer<WfImage>, img: WfImage)
    modifies viewer
    ensures viewer.Valid() && viewer.originalImage == Some(img)
    ensures viewer.currentImage.Some?
    ensures viewer.currentImage.value == RotateImage(InvertImage(img), 90)
  {
    viewer.LoadImage(img);
    viewer.ApplyTransformation(Invert());
    viewer.ApplyTransformation(RotateBy(90));
  }

  /** Rotating by 90 and then by -90 on the current image restores it. */
  method RotateBackAndForth(viewer: ImageViewer<WfImage>, img: WfImage)
    modifies viewer
    ensures viewer.Valid() && viewer.originalImage == Some(img)
    ensures viewer.currentImage == Some(img)
    ensures |viewer.edits| == 2
  {
    viewer.LoadImage(img);
    viewer.ApplyTransformation(RotateBy(90));
    viewer.ApplyTransformation(RotateBy(-90));
    RotateInverse(img, 90);
  }
}
