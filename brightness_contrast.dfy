/** The control logic of the brightness/contrast widget: four integer sliders
    (window minimum and maximum, brightness and contrast in percent), a flag
    that suppresses the window handlers while the widget moves its own
    sliders, the cached histogram counts, and the log of signals emitted. */
module BrightnessContrast {
  import opened Wrappers
  import opened AutoLevel

  /** Upper ends of the slider ranges; every slider starts at 0. */
  const WindowTop: int := 255
  const PercentTop: int := 200

  /** The signals the widget emits, in the order it emits them. */
  datatype Signal =
    | MinChanged(min: int)
    | MaxChanged(max: int)
    | BrightnessChanged(brightness: real)
    | ContrastChanged(contrast: real)
    | AutoClicked
    | ResetClicked

  /** A slider keeps its value inside its range. */
  function Clamp(v: int, lo: int, hi: int): (r: int)
    requires lo <= hi
    ensures lo <= r <= hi
    ensures lo <= v <= hi ==> r == v
    ensures v < lo ==> r == lo
    ensures v > hi ==> r == hi
  {
    if v < lo then lo else if v > hi then hi else v
  }

  /** A slider's integer percentage as a factor. */
  function Factor(percent: int): (f: real)
    ensures f * 100.0 == percent as real
  {
    percent as real / 100.0
  }

  class BrightnessContrastWidget {
    var minSlider: int
    var maxSlider: int
    var brightnessSlider: int
    var contrastSlider: int
    var updating: bool
    var histogram: Option<seq<nat>>
    var emitted: seq<Signal>

    /** Every slider lies in its range, and a cached histogram has a bin. */
    ghost predicate InRange()
      reads this
    {
      && 0 <= minSlider <= WindowTop
      && 0 <= maxSlider <= WindowTop
      && 0 <= brightnessSlider <= PercentTop
      && 0 <= contrastSlider <= PercentTop
      && (histogram.Some? ==> |histogram.value| > 0)
    }

    /** Between events: the flag is down and the window is not inverted. */
    ghost predicate Valid()
      reads this
    {
      InRange() && !updating && minSlider <= maxSlider
    }

    /** The widget as built: window (0, 255), brightness and contrast 100%,
        no histogram, nothing emitted (the sliders get their initial values
        before the handlers are connected). */
    constructor ()
      ensures Valid()
      ensures minSlider == 0 && maxSlider == 255
      ensures brightnessSlider == 100 && contrastSlider == 100
      ensures histogram == None && emitted == []
    {
      minSlider, maxSlider := 0, 255;
      brightnessSlider, contrastSlider := 100, 100;
      updating := false;
      histogram := None;
      emitted := [];
    }

    /** setValue on the minimum slider: the value is clamped to the range and,
        if it differs from the slider's value, stored and handed to the
        minimum handler before setValue returns. */
    method SetMinSlider(v: int)
      requires InRange()
      modifies this
      ensures InRange() && updating == old(updating) && histogram == old(histogram)
      ensures maxSlider == old(maxSlider)
      ensures brightnessSlider == old(brightnessSlider) && contrastSlider == old(contrastSlider)
      ensures var c := Clamp(v, 0, WindowTop);
        if old(updating) || c == old(minSlider) then
          minSlider == c && emitted == old(emitted)
        else if c < old(maxSlider) then
          minSlider == c && emitted == old(emitted) + [MinChanged(c)]
        else
          minSlider == Clamp(old(maxSlider) - 1, 0, WindowTop) && emitted == old(emitted)
      ensures old(Valid()) ==> Valid()
      decreases if updating then 0 else 1, 1
    {
      var c := Clamp(v, 0, WindowTop);
      if c != minSlider {
        minSlider := c;
        OnMinChanged(c);
      }
    }

    /** _on_min_changed: a no-op while the flag is up; a value at or above
        the maximum is rejected by pulling the slider back to max-1 with the
        flag up, emitting nothing; any other value is emitted. */
    method OnMinChanged(value: int)
      requires InRange()
      modifies this
      ensures InRange() && updating == old(updating) && histogram == old(histogram)
      ensures maxSlider == old(maxSlider)
      ensures brightnessSlider == old(brightnessSlider) && contrastSlider == old(contrastSlider)
      ensures old(updating) ==> minSlider == old(minSlider) && emitted == old(emitted)
      ensures !old(updating) && value >= old(maxSlider) ==>
        minSlider == Clamp(old(maxSlider) - 1, 0, WindowTop) && emitted == old(emitted)
      ensures !old(updating) && value < old(maxSlider) ==>
        minSlider == old(minSlider) && emitted == old(emitted) + [MinChanged(value)]
      decreases if updating then 0 else 1, 0
    {
      if updating {
        return;
      }
      var maxVal := maxSlider;
      if value >= maxVal {
        updating := true;
        SetMinSlider(maxVal - 1);
        updating := false;
        return;
      }
      emitted := emitted + [MinChanged(value)];
    }

    /** setValue on the maximum slider, handing a changed value to the maximum handler. */
    method SetMaxSlider(v: int)
      requires InRange()
      modifies this
      ensures InRange() && updating == old(updating) && histogram == old(histogram)
      ensures minSlider == old(minSlider)
      ensures brightnessSlider == old(brightnessSlider) && contrastSlider == old(contrastSlider)
      ensures var c := Clamp(v, 0, WindowTop);
        if old(updating) || c == old(maxSlider) then
          maxSlider == c && emitted == old(emitted)
        else if c > old(minSlider) then
          maxSlider == c && emitted == old(emitted) + [MaxChanged(c)]
        else
          maxSlider == Clamp(old(minSlider) + 1, 0, WindowTop) && emitted == old(emitted)
      ensures old(Valid()) ==> Valid()
      decreases if updating then 0 else 1, 1
    {
      var c := Clamp(v, 0, WindowTop);
      if c != maxSlider {
        maxSlider := c;
        OnMaxChanged(c);
      }
    }

    /** _on_max_changed: a no-op while the flag is up; a value at or below
        the minimum is rejected by pushing the slider to min+1 with the flag
        up, emitting nothing; any other value is emitted. */
    method OnMaxChanged(value: int)
      requires InRange()
      modifies this
      ensures InRange() && updating == old(updating) && histogram == old(histogram)
      ensures minSlider == old(minSlider)
      ensures brightnessSlider == old(brightnessSlider) && contrastSlider == old(contrastSlider)
      ensures old(updating) ==> maxSlider == old(maxSlider) && emitted == old(emitted)
      ensures !old(updating) && value <= old(minSlider) ==>
        maxSlider == Clamp(old(minSlider) + 1, 0, WindowTop) && emitted == old(emitted)
      ensures !old(updating) && value > old(minSlider) ==>
        maxSlider == old(maxSlider) && emitted == old(emitted) + [MaxChanged(value)]
      decreases if updating then 0 else 1, 0
    {
      if updating {
        return;
      }
      var minVal := minSlider;
      if value <= minVal {
        updating := true;
        SetMaxSlider(minVal + 1);
        updating := false;
        return;
      }
      emitted := emitted + [MaxChanged(value)];
    }

    /** setValue on the brightness slider. Its handler does not look at the
        flag: every change emits the new factor. */
    method SetBrightnessSlider(v: int)
      requires InRange()
      modifies this
      ensures InRange() && updating == old(updating) && histogram == old(histogram)
      ensures minSlider == old(minSlider) && maxSlider == old(maxSlider)
      ensures contrastSlider == old(contrastSlider)
      ensures brightnessSlider == Clamp(v, 0, PercentTop)
      ensures emitted == old(emitted) +
        (if brightnessSlider != old(brightnessSlider) then [BrightnessChanged(Factor(brightnessSlider))] else [])
    {
      var c := Clamp(v, 0, PercentTop);
      if c != brightnessSlider {
        brightnessSlider := c;
        OnBrightnessChanged(c);
      }
    }

    /** _on_brightness_changed: emit the slider value divided by 100. */
    method OnBrightnessChanged(value: int)
      modifies this`emitted
      ensures emitted == old(emitted) + [BrightnessChanged(Factor(value))]
    {
      emitted := emitted + [BrightnessChanged(Factor(value))];
    }

    /** setValue on the contrast slider; like brightness, every change is emitted. */
    method SetContrastSlider(v: int)
      requires InRange()
      modifies this
      ensures InRange() && updating == old(updating) && histogram == old(histogram)
      ensures minSlider == old(minSlider) && maxSlider == old(maxSlider)
      ensures brightnessSlider == old(brightnessSlider)
      ensures contrastSlider == Clamp(v, 0, PercentTop)
      ensures emitted == old(emitted) +
        (if contrastSlider != old(contrastSlider) then [ContrastChanged(Factor(contrastSlider))] else [])
    {
      var c := Clamp(v, 0, PercentTop);
      if c != contrastSlider {
        contrastSlider := c;
        OnContrastChanged(c);
      }
    }

    /** _on_contrast_changed: emit the slider value divided by 100. */
    method OnContrastChanged(value: int)
      modifies this`emitted
      ensures emitted == old(emitted) + [ContrastChanged(Factor(value))]
    {
      emitted := emitted + [ContrastChanged(Factor(value))];
    }

    /** _on_auto_clicked: with a histogram holding pixels, both window sliders
        are set to the auto-level bins (clamped by the sliders) with the flag
        up, so the min < max guard does not run, and the unclamped bins are
        emitted; otherwise the window is left alone. auto_clicked is always emitted. */
    method OnAutoClicked()
      requires Valid()
      modifies this
      ensures Valid() && histogram == old(histogram)
      ensures brightnessSlider == old(brightnessSlider) && contrastSlider == old(contrastSlider)
      ensures var w := if old(histogram).Some? then AutoLevels(old(histogram).value) else None;
        if w.None? then
          && minSlider == old(minSlider) && maxSlider == old(maxSlider)
          && emitted == old(emitted) + [AutoClicked]
        else
          && minSlider == Clamp(w.value.0, 0, WindowTop)
          && maxSlider == Clamp(w.value.1, 0, WindowTop)
          && emitted == old(emitted) + [MinChanged(w.value.0), MaxChanged(w.value.1), AutoClicked]
    {
      if histogram.Some? {
        var w := AutoLevels(histogram.value);
        if w.Some? {
          SetWindow(w.value.0, w.value.1);
        }
      }
      emitted := emitted + [AutoClicked];
    }

    /** The window part of _on_auto_clicked: both sliders are set with the
        flag up, so neither window handler runs, and then the two requested
        bins are emitted as they were asked for. */
    method SetWindow(lo: int, hi: int)
      requires Valid() && lo <= hi
      modifies this
      ensures Valid() && histogram == old(histogram)
      ensures brightnessSlider == old(brightnessSlider) && contrastSlider == old(contrastSlider)
      ensures minSlider == Clamp(lo, 0, WindowTop) && maxSlider == Clamp(hi, 0, WindowTop)
      ensures emitted == old(emitted) + [MinChanged(lo), MaxChanged(hi)]
    {
      updating := true;
      SetMinSlider(lo);
      SetMaxSlider(hi);
      updating := false;
      emitted := emitted + [MinChanged(lo), MaxChanged(hi)];
    }

    /** _on_reset_clicked: with the flag up, the sliders go back to
        (0, 255, 100, 100). The window handlers stay silent; the brightness and
        contrast handlers still emit 1.0 for a slider that moved. Then
        reset_clicked is emitted. */
    method OnResetClicked()
      requires Valid()
      modifies this
      ensures Valid() && histogram == old(histogram)
      ensures minSlider == 0 && maxSlider == 255
      ensures brightnessSlider == 100 && contrastSlider == 100
      ensures emitted == old(emitted)
        + (if old(brightnessSlider) != 100 then [BrightnessChanged(1.0)] else [])
        + (if old(contrastSlider) != 100 then [ContrastChanged(1.0)] else [])
        + [ResetClicked]
    {
      updating := true;
      SetMinSlider(0);
      SetMaxSlider(255);
      SetBrightnessSlider(100);
      SetContrastSlider(100);
      updating := false;
      emitted := emitted + [ResetClicked];
    }

    /** update_histogram: cache the counts of a new image, or drop them when
        there is no image. The counts are computed outside this model. */
    method UpdateHistogram(counts: Option<seq<nat>>)
      requires Valid()
      requires counts.Some? ==> |counts.value| > 0
      modifies this`histogram
      ensures Valid() && histogram == counts
    {
      histogram := counts;
    }

    /** get_values: the window as set, and brightness and contrast as factors
        (percent / 100), each factor in [0, 2]. */
    method GetValues() returns (lo: int, hi: int, brightness: real, contrast: real)
      requires Valid()
      ensures lo == minSlider && hi == maxSlider && lo <= hi
      ensures brightness * 100.0 == brightnessSlider as real && 0.0 <= brightness <= 2.0
      ensures contrast * 100.0 == contrastSlider as real && 0.0 <= contrast <= 2.0
    {
      lo := minSlider;
      hi := maxSlider;
      brightness := Factor(brightnessSlider);
      contrast := Factor(contrastSlider);
    }
  }

  /** Reset followed by get_values reads back (0, 255, 1.0, 1.0). */
  method ResetThenGetValues(w: BrightnessContrastWidget)
    returns (lo: int, hi: int, brightness: real, contrast: real)
    requires w.Valid()
    modifies w
    ensures (lo, hi, brightness, contrast) == (0, 255, 1.0, 1.0)
  {
    w.OnResetClicked();
    lo, hi, brightness, contrast := w.GetValues();
  }

  /** A histogram with all its mass in one bin k drives both window sliders
      to k, so auto can leave the window with min == max. */
  method AutoOnOneBin(w: BrightnessContrastWidget, k: nat)
    requires w.Valid() && k <= WindowTop
    requires w.histogram.Some? && k < |w.histogram.value| && w.histogram.value[k] > 0
    requires forall i :: 0 <= i < |w.histogram.value| && i != k ==> w.histogram.value[i] == 0
    modifies w
    ensures w.minSlider == w.maxSlider == k
  {
    OneBinWindow(w.histogram.value, k);
    w.OnAutoClicked();
  }

  /** With no histogram, or one that holds no pixels, auto changes neither
      window slider and emits only auto_clicked. */
  method AutoWithoutPixels(w: BrightnessContrastWidget)
    requires w.Valid()
    requires w.histogram.Some? ==> forall i :: 0 <= i < |w.histogram.value| ==> w.histogram.value[i] == 0
    modifies w
    ensures w.minSlider == old(w.minSlider) && w.maxSlider == old(w.maxSlider)
    ensures w.emitted == old(w.emitted) + [AutoClicked]
  {
    if w.histogram.Some? {
      AllZeroHasNoWindow(w.histogram.value);
    }
    w.OnAutoClicked();
  }
}
