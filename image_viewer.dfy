/** The edit history of the image viewer: the image as loaded and the image
    as currently shown. Transformations always apply to the current image, so
    they accumulate; a reset goes back to the image as loaded. The image type
    is left abstract and a transformation is any function on it (extra
    arguments are bound inside the function). */
module EditHistory {
  import opened Wrappers

  /** The result of applying the edits in order, the first edit first. */
  function Replay<T>(edits: seq<T -> T>, img: T): T
    decreases |edits|
  {
    if edits == [] then img else Replay(edits[1..], edits[0](img))
  }

  /** One more edit acts on the result of the earlier ones, not on the original. */
  lemma {:induction false} ReplaySnoc<T>(edits: seq<T -> T>, f: T -> T, img: T)
    ensures Replay(edits + [f], img) == f(Replay(edits, img))
    decreases |edits|
  {
    if edits != [] {
      assert (edits + [f])[1..] == edits[1..] + [f];
      ReplaySnoc(edits[1..], f, edits[0](img));
    }
  }

  /** Applying f and then g yields g(f(img)). */
  lemma Cumulative<T>(f: T -> T, g: T -> T, img: T)
    ensures Replay([f, g], img) == g(f(img))
  {
    ReplaySnoc([f], g, img);
    assert Replay([f], img) == f(img);
  }

  class ImageViewer<T> {
    var originalImage: Option<T>
    var currentImage: Option<T>
    /** The transformations applied since the last load or reset, in order. */
    ghost var edits: seq<T -> T>

    /** There is a current image exactly when there is an original, and then
        the current image is the original with the edits replayed on it. */
    ghost predicate Valid()
      reads this
    {
      && (originalImage.None? <==> currentImage.None?)
      && (originalImage.None? ==> edits == [])
      && (originalImage.Some? ==> currentImage.value == Replay(edits, originalImage.value))
    }

    /** A fresh viewer holds no image. */
    constructor ()
      ensures Valid()
      ensures originalImage == None && currentImage == None && edits == []
    {
      originalImage := None;
      currentImage := None;
      edits := [];
    }

    /** load_image: the loaded image becomes both the original and the current image. */
    method LoadImage(img: T)
      modifies this
      ensures Valid()
      ensures originalImage == Some(img) && currentImage == Some(img) && edits == []
    {
      originalImage := Some(img);
      currentImage := Some(img);
      edits := [];
    }

    /** apply_transformation: replace the current image by f of it, leaving
        the original alone; without a current image nothing happens. */
    method ApplyTransformation(f: T -> T)
      requires Valid()
      modifies this
      ensures Valid()
      ensures originalImage == old(originalImage)
      ensures old(currentImage).None? ==> currentImage == None && edits == old(edits)
      ensures old(currentImage).Some? ==>
        currentImage == Some(f(old(currentImage).value)) && edits == old(edits) + [f]
    {
      if currentImage.None? {
        return;
      }
      currentImage := Some(f(currentImage.value));
      ReplaySnoc(edits, f, originalImage.value);
      edits := edits + [f];
    }

    /** reset_image: with an original, the current image becomes the original
        again, dropping every edit; without one nothing happens. */
    method ResetImage()
      requires Valid()
      modifies this
      ensures Valid()
      ensures originalImage == old(originalImage)
      ensures originalImage.Some? ==> currentImage == originalImage && edits == []
      ensures originalImage.None? ==> currentImage == None && edits == old(edits)
    {
      if originalImage.Some? {
        currentImage := originalImage;
        edits := [];
      }
    }

    /** get_current_image: the current image, which is the original with every
        edit since the last load or reset applied in order. */
    method GetCurrentImage() returns (img: Option<T>)
      requires Valid()
      ensures img == currentImage
      ensures img.Some? <==> originalImage.Some?
      ensures img.Some? ==> img.value == Replay(edits, originalImage.value)
    {
      img := currentImage;
    }

    /** has_image: an image is loaded exactly when there is an original, and
        then there is a current image too. */
    method HasImage() returns (b: bool)
      requires Valid()
      ensures b <==> originalImage.Some?
      ensures b <==> currentImage.Some?
    {
      b := originalImage.Some?;
    }
  }
}
