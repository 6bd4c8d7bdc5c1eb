# Gel_Boy image core, modelled in Dafny

Gel_Boy is a viewer for gel-electrophoresis images. This project models the three parts of it that carry real logic, apart from the Qt, PIL and matplotlib code around them.

- **Intensity-window controls** (`BrightnessContrast`, `AutoLevel`). The brightness/contrast widget holds four integer sliders: window minimum and maximum (0–255), and brightness and contrast in percent (0–200). It also holds an `_updating` flag that silences the window handlers while the widget moves its own sliders.
  - `QSlider.setValue` is modelled as Qt defines it. It clamps the value to the slider's range. When the value changes, it calls the connected handler synchronously. So the setter and handler methods are mutually recursive, as the re-entrant calls in the source are.
  - The signals the widget emits are recorded in a log field, in order.
  - The auto-level rule is a pure function. It takes the running count (`np.cumsum`) and does a left-side sorted search for 1% and 99% of the total.
- **Edit history** (`EditHistory`). `ImageViewer` keeps the image as loaded and the image as shown. `ImageViewer` is a class over an abstract image type, and a transformation is any function on that type. A ghost field records the edits applied since the last load or reset. The class invariant says the current image is the original with those edits replayed in order, so edits are cumulative.
- **Exact raster transforms** (`Raster`, `ImageProcessing`). An image is a mode (`L` or `RGB`), a width, a height and rows of pixels. Each pixel holds one byte per channel. The transforms are:
  - rotation by a multiple of 90° with the canvas expanded (PIL performs these as exact transposes);
  - horizontal and vertical flips;
  - inversion after conversion to RGB.
  They are pure functions on values, so no transform changes its argument.

`ViewerScenarios` drives the edit history with the raster transforms, as `tests/test_image_viewer.py` does.

In two places the program's own text disagrees with the code. The model follows the code in both:

- `gel_boy/gui/dialogs/rotate_dialog.py:54` and `:117-118` tell the user that positive angles rotate counter-clockwise. `rotate_image` (`gel_boy/core/image_processing.py:18`) negates its angle before PIL's counter-clockwise rotation, so `rotate_image(img, 90)` turns the image clockwise (`RotateNinetyIsClockwise`).
- `tests/test_cumulative_transformations.py:140-161` expects inversion to keep mode `L` (and `I`). `invert_image` (`gel_boy/core/image_processing.py:46`) converts to RGB first, so the result is always RGB. Inverting a greyscale image twice gives the grey image copied into three channels, not the original image (`InvertTwiceGrey`).

The comment at `gel_boy/gui/widgets/brightness_contrast_widget.py:255` calls the auto-level bounds the 1st and 99th percentile. The code reads them as the first bin whose running count reaches 1%, and the first that reaches 99%, of the total (`AutoLevels`).

## Model

| member | source | states |
|---|---|---|
| `ImageProcessing.Mirror` | gel_boy/core/image_processing.py:31-32 | a horizontal flip keeps mode and size, and pixel (x, y) comes from (W-1-x, y) |
| `ImageProcessing.FlipVertical` | gel_boy/core/image_processing.py:33-34 | a vertical flip keeps mode and size, and pixel (x, y) comes from (x, H-1-y) |
| `ImageProcessing.FlipImage` | gel_boy/core/image_processing.py:21-34 | `flip_image` keeps the dimensions in both directions, mirrors when `horizontal` and flips upside down otherwise |
| `ImageProcessing.FlipTwice` | gel_boy/core/image_processing.py:31-34 | flipping twice in the same direction gives back the image |
| `ImageProcessing.LibraryAngle` | gel_boy/core/image_processing.py:18 | the counter-clockwise angle given to PIL lies in [0, 360) and cancels the caller's angle modulo 360 |
| `ImageProcessing.RotateLeft` | gel_boy/core/image_processing.py:18 | PIL's exact counter-clockwise quarter turn: H wide and W high, and output (x, y) is input (W-1-y, x) |
| `ImageProcessing.RotateRight` | gel_boy/core/image_processing.py:18 | PIL's exact clockwise quarter turn: H wide and W high, and output (x, y) is input (y, H-1-x) |
| `ImageProcessing.RotateHalf` | gel_boy/core/image_processing.py:18 | the half turn keeps the size, and output (x, y) is input (W-1-x, H-1-y) |
| `ImageProcessing.QuarterTurns` | gel_boy/core/image_processing.py:18 | a right angle of m clockwise quarter turns is handed to the library as 360−90m (0 when m is 0); its negation as 90m; the size swaps exactly when m is odd |
| `ImageProcessing.RotateForward` | gel_boy/core/image_processing.py:18 | `rotate_image` by a right angle of m quarter turns is the identity, the clockwise quarter turn, the half turn or the counter-clockwise quarter turn for m = 0, 1, 2, 3 |
| `ImageProcessing.RotateBackward` | gel_boy/core/image_processing.py:18 | the negated angle is again a right angle, and `rotate_image` by it turns m quarter turns the other way |
| `ImageProcessing.RotateImage` | gel_boy/core/image_processing.py:8-18 | `rotate_image` keeps the mode; width and height swap for an odd multiple of 90° (90, −90, 270) and stay for an even one (180) |
| `ImageProcessing.RotateLeftRight` | gel_boy/core/image_processing.py:18 | a quarter turn each way cancels out, in either order |
| `ImageProcessing.RotateHalfFacts` | gel_boy/core/image_processing.py:18 | the half turn undoes itself and equals two quarter turns in either direction |
| `ImageProcessing.RotateNinetyIsClockwise` | gel_boy/core/image_processing.py:18 | because the angle is negated, `rotate_image(img, 90)` is the clockwise quarter turn |
| `ImageProcessing.RotateInverse` | gel_boy/core/image_processing.py:18 | rotating by any right angle and then by its negation (e.g. 90 then −90) returns the original pixels |
| `ImageProcessing.RotateNinetyTwice` | gel_boy/core/image_processing.py:18 | rotating by 90 twice equals rotating by 180 |
| `ImageProcessing.ToRGB` | gel_boy/core/image_processing.py:46 | conversion to RGB keeps the size and copies a grey sample into all three channels; RGB is unchanged |
| `ImageProcessing.InvertPixel` | gel_boy/core/image_processing.py:46 | every sample v of a pixel becomes 255 − v |
| `ImageProcessing.InvertImage` | gel_boy/core/image_processing.py:37-46 | `invert_image` always returns RGB of the input's size, and each channel is 255 minus the converted input's channel |
| `ImageProcessing.InvertTwiceRGB` | gel_boy/core/image_processing.py:46 | inverting an RGB image twice gives back the image |
| `ImageProcessing.InvertTwiceGrey` | gel_boy/core/image_processing.py:46 | inverting a greyscale image twice gives its RGB conversion, not the greyscale image |
| `AutoLevel.CumSum` | gel_boy/gui/widgets/brightness_contrast_widget.py:256 | the running count has one entry per bin, and entry i is the sum of bins 0..i |
| `AutoLevel.RunningSorted` | gel_boy/gui/widgets/brightness_contrast_widget.py:256-257 | the running count never decreases and its last entry is the total |
| `AutoLevel.SearchSortedLeft` | gel_boy/gui/widgets/brightness_contrast_widget.py:260-261 | left-side search: every entry before the result is below the threshold, and the entry at the result (if any) reaches it |
| `AutoLevel.SearchFindsFirstReaching` | gel_boy/gui/widgets/brightness_contrast_widget.py:256-261 | for a threshold no larger than the total, the search returns a valid bin index: the first whose running count reaches the threshold |
| `AutoLevel.FirstReachingMonotone` | gel_boy/gui/widgets/brightness_contrast_widget.py:260-261 | a lower threshold is reached at or before a higher one |
| `AutoLevel.AutoLevels` | gel_boy/gui/widgets/brightness_contrast_widget.py:253-261 | no window exactly when the total is 0; otherwise (lower, upper) are the first bins reaching total·0.01 and total·0.99, with lower ≤ upper < number of bins |
| `AutoLevel.ZeroSum` | gel_boy/gui/widgets/brightness_contrast_widget.py:259 | the total is zero exactly when every bin is empty |
| `AutoLevel.AllZeroHasNoWindow` | gel_boy/gui/widgets/brightness_contrast_widget.py:259 | an all-zero histogram yields no auto window, and a histogram with any pixel yields one |
| `AutoLevel.OneBinWindow` | gel_boy/gui/widgets/brightness_contrast_widget.py:260-266 | a histogram with all its mass in bin k yields the window (k, k), so lower can equal upper |
| `BrightnessContrast.Clamp` | gel_boy/gui/widgets/brightness_contrast_widget.py:87-90 | a slider's value stays in its range; in-range values are kept and out-of-range values go to the nearer end |
| `BrightnessContrast.Factor` | gel_boy/gui/widgets/brightness_contrast_widget.py:437-438 | a percentage slider's factor is its value divided by 100 |
| `BrightnessContrast.BrightnessContrastWidget.constructor` | gel_boy/gui/widgets/brightness_contrast_widget.py:87-163 | the widget starts at window (0, 255) with brightness and contrast 100, no histogram, and no signal emitted |
| `BrightnessContrast.BrightnessContrastWidget.SetMinSlider` | gel_boy/gui/widgets/brightness_contrast_widget.py:87-93 | setting the minimum slider clamps the value; a changed value reaches the handler, which accepts it below the maximum (emitting it) or pulls the slider back to max−1; min ≤ max is preserved |
| `BrightnessContrast.BrightnessContrastWidget.OnMinChanged` | gel_boy/gui/widgets/brightness_contrast_widget.py:189-208 | a no-op while `_updating`; a value ≥ max sets min to max−1 (clamped) and emits nothing; otherwise it emits `min_changed(value)` |
| `BrightnessContrast.BrightnessContrastWidget.SetMaxSlider` | gel_boy/gui/widgets/brightness_contrast_widget.py:107-113 | setting the maximum slider clamps the value; a changed value reaches the handler, which accepts it above the minimum (emitting it) or pushes the slider to min+1; min ≤ max is preserved |
| `BrightnessContrast.BrightnessContrastWidget.OnMaxChanged` | gel_boy/gui/widgets/brightness_contrast_widget.py:210-229 | a no-op while `_updating`; a value ≤ min sets max to min+1 (clamped) and emits nothing; otherwise it emits `max_changed(value)` |
| `BrightnessContrast.BrightnessContrastWidget.SetBrightnessSlider` | gel_boy/gui/widgets/brightness_contrast_widget.py:134-140 | the brightness slider clamps to [0, 200], and a changed value emits its factor whatever `_updating` is |
| `BrightnessContrast.BrightnessContrastWidget.OnBrightnessChanged` | gel_boy/gui/widgets/brightness_contrast_widget.py:231-239 | the handler emits value / 100 |
| `BrightnessContrast.BrightnessContrastWidget.SetContrastSlider` | gel_boy/gui/widgets/brightness_contrast_widget.py:154-160 | the contrast slider clamps to [0, 200], and a changed value emits its factor whatever `_updating` is |
| `BrightnessContrast.BrightnessContrastWidget.OnContrastChanged` | gel_boy/gui/widgets/brightness_contrast_widget.py:241-249 | the handler emits value / 100 |
| `BrightnessContrast.BrightnessContrastWidget.OnAutoClicked` | gel_boy/gui/widgets/brightness_contrast_widget.py:251-272 | with no histogram or a zero total, only `auto_clicked` is emitted and the window is kept; otherwise the sliders take the clamped auto bins (the guard is bypassed), then the unclamped bins are emitted, then `auto_clicked` |
| `BrightnessContrast.BrightnessContrastWidget.SetWindow` | gel_boy/gui/widgets/brightness_contrast_widget.py:262-270 | with the flag up both window sliders take the clamped bins and no window handler emits; the window stays ordered; then both requested bins are emitted unclamped |
| `BrightnessContrast.BrightnessContrastWidget.OnResetClicked` | gel_boy/gui/widgets/brightness_contrast_widget.py:274-284 | reset sets (min, max, brightness, contrast) to (0, 255, 100, 100); the window handlers stay silent, a moved brightness or contrast slider still emits 1.0, and then `reset_clicked` is emitted |
| `BrightnessContrast.BrightnessContrastWidget.UpdateHistogram` | gel_boy/gui/widgets/brightness_contrast_widget.py:286-303 | the cached counts become the new image's counts, or None with no image |
| `BrightnessContrast.BrightnessContrastWidget.GetValues` | gel_boy/gui/widgets/brightness_contrast_widget.py:428-439 | `get_values` returns the window with min ≤ max, and brightness and contrast as slider / 100, each in [0, 2] |
| `BrightnessContrast.ResetThenGetValues` | gel_boy/gui/widgets/brightness_contrast_widget.py:276-280 | after a reset, `get_values` reads (0, 255, 1.0, 1.0) |
| `BrightnessContrast.AutoOnOneBin` | gel_boy/gui/widgets/brightness_contrast_widget.py:263-266 | after auto on a one-bin histogram, min == max |
| `BrightnessContrast.AutoWithoutPixels` | gel_boy/gui/widgets/brightness_contrast_widget.py:253-272 | with no histogram or an all-zero one, auto keeps min and max and emits only `auto_clicked` |
| `EditHistory.ReplaySnoc` | gel_boy/gui/widgets/image_viewer.py:192 | one more edit acts on the result of the earlier edits |
| `EditHistory.Cumulative` | gel_boy/gui/widgets/image_viewer.py:192 | applying f and then g yields g(f(image)), not g(original) |
| `EditHistory.ImageViewer.constructor` | gel_boy/gui/widgets/image_viewer.py:42-43 | a fresh viewer has no original and no current image |
| `EditHistory.ImageViewer.LoadImage` | gel_boy/gui/widgets/image_viewer.py:50-57 | loading makes the image both the original and the current image, with no edits |
| `EditHistory.ImageViewer.ApplyTransformation` | gel_boy/gui/widgets/image_viewer.py:182-192 | with a current image, it becomes f(current) and the edit is recorded; the original never changes; with no current image nothing changes |
| `EditHistory.ImageViewer.ResetImage` | gel_boy/gui/widgets/image_viewer.py:195-199 | with an original, the current image becomes the original and every edit is dropped; otherwise nothing changes |
| `EditHistory.ImageViewer.GetCurrentImage` | gel_boy/gui/widgets/image_viewer.py:201-207 | the current image is present exactly when an original is, and it is the original with every edit since load or reset replayed in order |
| `EditHistory.ImageViewer.HasImage` | gel_boy/gui/widgets/image_viewer.py:209-215 | `has_image` holds exactly when an original is loaded, which is also exactly when there is a current image |
| `ViewerScenarios.RotateThenReset` | tests/test_image_viewer.py:65-78 | load, rotate by 90, reset: the current image is the loaded one again |
| `ViewerScenarios.InvertThenRotate` | gel_boy/gui/widgets/image_viewer.py:192 | after invert and then rotate, the current image is the rotation of the inverted image; the original is as loaded |
| `ViewerScenarios.RotateBackAndForth` | gel_boy/core/image_processing.py:18 | applying rotations by 90 and then −90 through the viewer restores the loaded image |

## Left out

- ImageProcessing.RotateImage: only multiples of 90° are modelled (`requires angle % 90 == 0`). No file of the application calls `rotate_image`. Its docstring lists 90, 180, 270 and −90 (`gel_boy/core/image_processing.py:13`), and the tests pass 90, 180 and −90 (`tests/test_new_image_processing.py:20-28`, `tests/test_image_viewer.py:74`). Any other angle goes through PIL's resampling affine transform, which is not part of this model.
- AutoLevel.AutoLevels: uses exact rational thresholds. Float rounding of `total * 0.01` and `total * 0.99` is not modelled. The search is modelled as a first-index scan; on the non-decreasing running count this gives the same index as numpy's binary search.
- AutoLevel.AutoLevels: requires at least one bin. On an empty counts array the source's `cumsum[-1]` raises IndexError. The source itself has no invariant that keeps the cached histogram non-empty. In the model, non-emptiness comes from `InRange` and the `requires` of `UpdateHistogram`. These stand in for `calculate_histogram`, which is not part of this model.
- BrightnessContrast.Factor: brightness and contrast factors are exact rationals (`value / 100` as a Dafny `real`), not binary floating point.
- `calculate_histogram`, `apply_lut_adjustments`, `apply_intensity_window`, `rotate_image_precise` and `get_bit_depth` are imported by the tests (and `calculate_histogram` by the widget, `gel_boy/gui/widgets/brightness_contrast_widget.py:299`) but are not defined in gel_boy/core/image_processing.py or gel_boy/io/image_loader.py. `UpdateHistogram` therefore takes the counts as a parameter.
- `flip_image`'s default `horizontal=True` (`gel_boy/core/image_processing.py:21`, called bare at `tests/test_new_image_processing.py:75`) is `FlipImage(img, true)`: Dafny functions here take both arguments explicitly.
- 16-bit (`I`) images and PIL's clipping when converting them are not modelled. The raster has only the `L` and `RGB` modes that the loader produces.
- `adjust_brightness` and `adjust_contrast` are not modelled: they use PIL's floating-point `ImageEnhance` blending. `apply_gaussian_blur` and `crop_image` have `pass` bodies.
- Display and Qt plumbing are left out: `update_display` (pixmap conversion), `fit_to_window`, zoom (`set_zoom`, `zoom_in`, `zoom_out`, wheel), mouse tracking and `zoom_level`.
- Also left out: the histogram drawing and markers (`_draw_histogram`, `_update_histogram_markers`, `_clear_histogram`), the slider labels' text, and `set_enabled`. These are drawing and widget state with no logic. Signals are recorded in a log, not delivered to connected slots.
- `reset_values` only calls `_on_reset_clicked`, so it has no separate model: see `OnResetClicked`.
- The re-entrant `valueChanged` calls are modelled as synchronous calls made only when the value changes, as Qt defines them. Qt itself is not part of this model.
- Images are values, so there is no aliasing. The `copy()` calls in `load_image` and `reset_image`, and "the transform does not modify its argument", hold by construction. `reset_image`'s truth test on the original image is modelled as "an original is present".
