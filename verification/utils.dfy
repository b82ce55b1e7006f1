/** The sizing helpers of `src/utils.ts`: the EMU-to-point conversion, the
    bisection that picks the largest font size whose wrapped text fits a
    box, and the two passes over a text block's style runs that find its
    largest font size and rescale every run to a target size. */
module Utils {
  import opened Options
  import opened Slides
  import opened FontMetrics
  import TextMeasurement
  import JsStrings

  /** English Metric Units in one typographic point. */
  const EmuPerPoint: real := 12700.0

  /** The default size bounds of `estimateFontSize`. */
  const DefaultMaxSize: real := 48.0
  const DefaultMinSize: real := 8.0

  /** Points to their English Metric Units and back again is the identity. */
  function EmuToPoints(emu: real): (pt: real)
    ensures pt * EmuPerPoint == emu
    ensures emu >= 0.0 ==> 0.0 <= pt <= emu
  {
    emu / EmuPerPoint
  }

  // ---------------------------------------------------------------------
  // estimateFontSize

  /** Text at `size` wrapped to a box `widthPt` wide is no wider than the box
      and no taller than `heightPt`. */
  predicate Fits(text: string, size: real, widthPt: real, heightPt: real, m: Metrics)
    requires m.unitsPerEm != 0.0
  {
    var r := TextMeasurement.Measure(text, size, widthPt, m);
    r.width <= widthPt && r.height <= heightPt
  }

  /** `estimateFontSize`: bisects `[min, max]` while the interval is wider
      than half a point. A midpoint whose wrapped text fits becomes the new
      lower end and the best size so far; one that does not becomes the new
      upper end. The box is given in EMU; `m` is the font's metrics. The
      result is `min` or a size that fits, lies in `[min, max]` when the
      bounds are ordered, and is within half a point of `max` or of a size
      that does not fit. */
  method EstimateFontSize(text: string, boxWidth: real, boxHeight: real, max: real, min: real, m: Metrics)
    returns (best: real)
    requires m.unitsPerEm != 0.0
    ensures min <= max ==> min <= best <= max
    ensures min > max ==> best == min
    ensures best == min || Fits(text, best, EmuToPoints(boxWidth), EmuToPoints(boxHeight), m)
    ensures best >= max - 0.5
      || exists h :: best < h <= best + 0.5 && !Fits(text, h, EmuToPoints(boxWidth), EmuToPoints(boxHeight), m)
  {
    var widthPt := EmuToPoints(boxWidth);
    var heightPt := EmuToPoints(boxHeight);
    var low := min;
    var high := max;
    best := min;
    while high - low > 0.5
      invariant best == low
      invariant min <= max ==> min <= low <= high <= max
      invariant min > max ==> low == min && high == max
      invariant low == min || Fits(text, low, widthPt, heightPt, m)
      invariant high != max ==> low < high && !Fits(text, high, widthPt, heightPt, m)
      decreases (2.0 * (high - low)).Floor
    {
      var mid := (low + high) / 2.0;
      var r := TextMeasurement.MeasureWrappedText(text, mid, widthPt, m);
      HalvingShrinks(high - low);
      if r.width <= widthPt && r.height <= heightPt {
        best := mid;
        low := mid;
      } else {
        high := mid;
      }
    }
  }

  /** `estimateFontSize(text, box)` with the defaults the source gives its
      other parameters: bounds 8 and 48 points, and the metrics the registry
      answers for "Arial" (every later lookup of the name answers the same,
      by `RepeatedLookupsAgree`). */
  method EstimateFontSizeWithDefaults(text: string, boxWidth: real, boxHeight: real,
                                      env: Env, cache: map<string, Metrics>)
    returns (best: real)
    requires Preloaded(cache)
    requires Resolve(env, cache, ArialName).metrics.unitsPerEm != 0.0
    ensures DefaultMinSize <= best <= DefaultMaxSize
    ensures var m := Resolve(env, cache, ArialName).metrics;
      best == DefaultMinSize || Fits(text, best, EmuToPoints(boxWidth), EmuToPoints(boxHeight), m)
    ensures var m := Resolve(env, cache, ArialName).metrics;
      best >= DefaultMaxSize - 0.5
      || exists h :: best < h <= best + 0.5 && !Fits(text, h, EmuToPoints(boxWidth), EmuToPoints(boxHeight), m)
  {
    var m := Resolve(env, cache, ArialName).metrics;
    best := EstimateFontSize(text, boxWidth, boxHeight, DefaultMaxSize, DefaultMinSize, m);
  }

  /** Halving an interval wider than half a point lowers the loop's measure. */
  lemma HalvingShrinks(d: real)
    requires d > 0.5
    ensures (2.0 * (d / 2.0)).Floor < (2.0 * d).Floor
  {
    assert 2.0 * (d / 2.0) == d;
    if d < 1.0 {
      assert (2.0 * d).Floor >= 1;
      assert d.Floor == 0;
    } else {
      assert 2.0 * d >= d + 1.0;
      assert (d + 1.0).Floor == d.Floor + 1;
    }
  }

  // ---------------------------------------------------------------------
  // maxFontSize and applyFontSize

  /** The run sets a font size of exactly `x`. */
  predicate HasMagnitude(run: StyleDefinition, x: real) {
    run.fontSize.Some? && run.fontSize.value.magnitude == x
  }

  /** `maxFontSize`: the largest explicit font size among the runs, scanning
      them in order from `base`. It is at least `base` and at least every
      explicit size, and it is `base` or one of those sizes. */
  function MaxFontSize(runs: seq<StyleDefinition>, base: real): (r: real)
    ensures r >= base
    ensures forall i :: 0 <= i < |runs| && runs[i].fontSize.Some? ==> r >= runs[i].fontSize.value.magnitude
    ensures r == base || exists i :: 0 <= i < |runs| && HasMagnitude(runs[i], r)
  {
    if |runs| == 0 then base
    else
      var init := runs[..|runs| - 1];
      var run := runs[|runs| - 1];
      var m := MaxFontSize(init, base);
      assert forall i :: 0 <= i < |init| ==> init[i] == runs[i];
      if run.fontSize.Some? && run.fontSize.value.magnitude > m then run.fontSize.value.magnitude else m
  }

  /** The size a run is drawn at: its own, or `base` when it sets none. */
  function Magnitude(run: StyleDefinition, base: real): real {
    match run.fontSize
    case Some(fs) => fs.magnitude
    case None => base
  }

  /** Every run's size is at most the largest size. */
  lemma MagnitudeAtMostMax(runs: seq<StyleDefinition>, base: real, i: int)
    requires 0 <= i < |runs|
    ensures Magnitude(runs[i], base) <= MaxFontSize(runs, base)
  {
  }

  /** The factor every size is multiplied by: `target` over the current
      largest size, less the 20% the source takes off to match rendered
      sizes. */
  function Ratio(target: real, currentMax: real): real
    requires currentMax != 0.0
  {
    (target / currentMax) * 0.8
  }

  /** A run resized by `ratio` in points, with every other property kept. */
  function ScaleRun(run: StyleDefinition, base: real, ratio: real): StyleDefinition {
    run.(fontSize := Some(FontSize(Magnitude(run, base) * ratio, "PT")))
  }

  function ScaleRuns(runs: seq<StyleDefinition>, base: real, ratio: real): (out: seq<StyleDefinition>)
    ensures |out| == |runs|
    ensures forall i :: 0 <= i < |runs| ==> out[i] == ScaleRun(runs[i], base, ratio)
  {
    if |runs| == 0 then [] else [ScaleRun(runs[0], base, ratio)] + ScaleRuns(runs[1..], base, ratio)
  }

  /** `applyFontSize`: a new first run spans the whole text (its
      `rawText.length`, in UTF-16 code units) at `base` times the ratio, and
      every existing run follows, keeping its span and other properties,
      with its size (or `base`) times the ratio. The raw text is
      unchanged. */
  function ApplyFontSize(text: TextDefinition, target: real, base: real): (r: TextDefinition)
    requires MaxFontSize(text.textRuns, base) != 0.0
    ensures r.rawText == text.rawText
    ensures |r.textRuns| == |text.textRuns| + 1
    ensures var first := r.textRuns[0];
      && first.start == Some(0) && first.end == Some(JsStrings.Utf16Length(text.rawText)) && first.others == map[]
      && first.fontSize.Some? && first.fontSize.value.unit == "PT"
      && Resized(first, base, base, target, MaxFontSize(text.textRuns, base))
    ensures forall i :: 0 <= i < |text.textRuns| ==>
      var before := text.textRuns[i];
      var after := r.textRuns[i + 1];
      && after.start == before.start && after.end == before.end && after.others == before.others
      && after.fontSize.Some? && after.fontSize.value.unit == "PT"
      && Resized(after, base, Magnitude(before, base), target, MaxFontSize(text.textRuns, base))
  {
    var currentMax := MaxFontSize(text.textRuns, base);
    var ratio := Ratio(target, currentMax);
    var whole := StyleDefinition(Some(0), Some(JsStrings.Utf16Length(text.rawText)), None, map[]);
    var baseRun := ScaleRun(whole, base, ratio);
    var scaled := ScaleRuns(text.textRuns, base, ratio);
    ScaleRunResized(whole, base, target, currentMax);
    forall i | 0 <= i < |text.textRuns|
      ensures Resized(scaled[i], base, Magnitude(text.textRuns[i], base), target, currentMax)
    {
      ScaleRunResized(text.textRuns[i], base, target, currentMax);
    }
    text.(textRuns := [baseRun] + scaled)
  }

  /** The run is drawn at the size that stands to `0.8 * target` as `was`
      stands to `currentMax`. */
  predicate Resized(run: StyleDefinition, base: real, was: real, target: real, currentMax: real) {
    Magnitude(run, base) * currentMax == was * target * 0.8
  }

  lemma ScaleRunResized(run: StyleDefinition, base: real, target: real, currentMax: real)
    requires currentMax != 0.0
    ensures Resized(ScaleRun(run, base, Ratio(target, currentMax)), base, Magnitude(run, base), target, currentMax)
  {
    var x := Magnitude(run, base);
    var y := Magnitude(ScaleRun(run, base, Ratio(target, currentMax)), base);
    assert y == x * Ratio(target, currentMax);
    ScaledProportion(x, target, currentMax);
  }

  /** `x` times the ratio stands to `0.8 * target` as `x` to `currentMax`. */
  lemma ScaledProportion(x: real, target: real, currentMax: real)
    requires currentMax != 0.0
    ensures x * Ratio(target, currentMax) * currentMax == x * target * 0.8
  {
    var q := target / currentMax;
    assert q * currentMax == target;
    calc {
      x * Ratio(target, currentMax) * currentMax;
      x * (q * 0.8) * currentMax;
      { assert x * (q * 0.8) * currentMax == x * 0.8 * (q * currentMax); }
      x * 0.8 * (q * currentMax);
      x * target * 0.8;
    }
  }

  /** With a positive base and a non-negative target, every size in the
      result is set and at most `0.8 * target`, and some size equals it: the
      largest run lands on the target less 20%. */
  lemma LargestRunHitsTarget(text: TextDefinition, target: real, base: real)
    requires base > 0.0 && target >= 0.0
    ensures MaxFontSize(text.textRuns, base) != 0.0
    ensures var r := ApplyFontSize(text, target, base);
      && (forall i :: 0 <= i < |r.textRuns| ==> r.textRuns[i].fontSize.Some? && Magnitude(r.textRuns[i], base) <= 0.8 * target)
      && (exists i :: 0 <= i < |r.textRuns| && HasMagnitude(r.textRuns[i], 0.8 * target))
  {
    SizesAtMostTarget(text, target, base);
    SomeSizeIsTarget(text, target, base);
  }

  lemma SizesAtMostTarget(text: TextDefinition, target: real, base: real)
    requires base > 0.0 && target >= 0.0
    ensures MaxFontSize(text.textRuns, base) != 0.0
    ensures var r := ApplyFontSize(text, target, base);
      forall i :: 0 <= i < |r.textRuns| ==> r.textRuns[i].fontSize.Some? && Magnitude(r.textRuns[i], base) <= 0.8 * target
  {
    var runs := text.textRuns;
    var c := MaxFontSize(runs, base);
    var r := ApplyFontSize(text, target, base);
    forall i | 0 <= i < |r.textRuns|
      ensures r.textRuns[i].fontSize.Some? && Magnitude(r.textRuns[i], base) <= 0.8 * target
    {
      if i == 0 {
        assert Resized(r.textRuns[0], base, base, target, c);
        AtMostWhenSmaller(r.textRuns[0], base, base, target, c);
      } else {
        var x := Magnitude(runs[i - 1], base);
        MagnitudeAtMostMax(runs, base, i - 1);
        assert Resized(r.textRuns[i], base, x, target, c);
        AtMostWhenSmaller(r.textRuns[i], base, x, target, c);
      }
    }
  }

  lemma SomeSizeIsTarget(text: TextDefinition, target: real, base: real)
    requires base > 0.0
    ensures MaxFontSize(text.textRuns, base) != 0.0
    ensures var r := ApplyFontSize(text, target, base);
      exists i :: 0 <= i < |r.textRuns| && HasMagnitude(r.textRuns[i], 0.8 * target)
  {
    var runs := text.textRuns;
    var c := MaxFontSize(runs, base);
    var r := ApplyFontSize(text, target, base);
    if c == base {
      assert Resized(r.textRuns[0], base, c, target, c);
      EqualWhenLargest(r.textRuns[0], base, target, c);
      assert HasMagnitude(r.textRuns[0], 0.8 * target);
    } else {
      var i :| 0 <= i < |runs| && HasMagnitude(runs[i], c);
      assert Resized(r.textRuns[i + 1], base, c, target, c);
      EqualWhenLargest(r.textRuns[i + 1], base, target, c);
      assert HasMagnitude(r.textRuns[i + 1], 0.8 * target);
    }
  }

  lemma AtMostWhenSmaller(run: StyleDefinition, base: real, x: real, target: real, c: real)
    requires c > 0.0 && target >= 0.0 && x <= c
    requires Resized(run, base, x, target, c)
    ensures Magnitude(run, base) <= 0.8 * target
  {
    var y := Magnitude(run, base);
    MulMono(x, c, target * 0.8);
    assert y * c <= c * (0.8 * target);
    if y > 0.8 * target {
      MulStrict(0.8 * target, y, c);
    }
  }

  lemma EqualWhenLargest(run: StyleDefinition, base: real, target: real, c: real)
    requires c > 0.0
    requires Resized(run, base, c, target, c)
    ensures Magnitude(run, base) == 0.8 * target
  {
    var y := Magnitude(run, base);
    assert (y - 0.8 * target) * c == 0.0;
  }

  lemma MulStrict(a: real, b: real, k: real)
    requires a < b && k > 0.0
    ensures a * k < b * k
  {
    assert b * k - a * k == (b - a) * k;
  }

  lemma MulMono(a: real, b: real, k: real)
    requires a <= b && k >= 0.0
    ensures a * k <= b * k
  {
    assert b * k - a * k == (b - a) * k;
  }

  /** Applying twice is not applying once: each application prepends another
      whole-text run, so the runs of the two results differ in number. */
  lemma ApplyTwiceDiffersFromOnce(text: TextDefinition, s1: real, s2: real, base: real)
    requires base > 0.0
    ensures MaxFontSize(text.textRuns, base) != 0.0
    ensures MaxFontSize(ApplyFontSize(text, s1, base).textRuns, base) != 0.0
    ensures ApplyFontSize(ApplyFontSize(text, s1, base), s2, base) != ApplyFontSize(text, s2, base)
    ensures |ApplyFontSize(ApplyFontSize(text, s1, base), s2, base).textRuns| == |text.textRuns| + 2
  {
  }
}
