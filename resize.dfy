/** `resize_image`: one worker task. The image library is not modelled; each
    of its calls that the task makes is a field of `Codec`, and any of them may
    fail. The task picks a resize mode from its options (first match wins),
    computes the target size and reports what it did. */
module Resize {
  import opened PyRuntime

  /** The sizing options, as parsed from the command line. `percent` is a
      float, `width` and `height` are ints; each may be absent. */
  datatype Sizing = Sizing(
    width: Option<int>,
    height: Option<int>,
    percent: Option<real>,
    aspect: bool,
    exact: bool)

  /** One unit of work handed to a worker process. */
  datatype Task = Task(inputPath: string, outputPath: string, sizing: Sizing)

  /** The pixel size of an opened image. */
  datatype Size = Size(width: nat, height: nat)

  /** A requested target size; nothing stops a caller from asking for a
      negative or zero one, which the library's `resample` may reject. */
  datatype Dims = Dims(width: int, height: int)

  datatype Mode = Percent | Exact | WidthOnly | HeightOnly | Fit | Default

  /** The image library's operations, as seen by one task. */
  datatype Codec = Codec(
    open: string -> Option<Size>,             // open and convert to RGB; None when that raises
    resample: (Size, Dims) -> bool,           // LANCZOS resize to the given size succeeds
    thumbnail: (Size, Dims) -> Option<Size>,  // fit within the bounds in place; the size left, or None when it raises
    save: (string, Dims) -> bool)             // JPEG at quality 95 written to the path

  /** Why a task reports an error instead of a resized file. */
  datatype Failure =
    | CannotOpen          // the file cannot be opened or decoded
    | MissingDimension    // a None width or height reaches the library (a TypeError)
    | ZeroOriginalSize    // the aspect ratio divides by a zero side (a ZeroDivisionError)
    | ResampleFailed
    | ThumbnailFailed
    | SaveFailed

  /** What a task returns: the file's name and, for a success, the original
      size, the branch taken and the final size. */
  datatype Outcome =
    | Resized(name: string, original: Size, mode: Mode, final: Dims)
    | Failed(name: string, reason: Failure)

  /** What the chosen branch asks the library to do. */
  datatype Plan =
    | Scale(mode: Mode, target: Dims)   // img.resize to `target`
    | FitWithin(bounds: Dims)           // img.thumbnail within `bounds`
    | Raises(failure: Failure)          // the branch raises before calling the library

  /** The branch `resize_image` takes: percent, exact, width only, height
      only, fit, default, in that order, with Python truthiness. */
  function Branch(s: Sizing): Mode {
    if RealTruthy(s.percent) then Percent
    else if s.exact then Exact
    else if IntTruthy(s.width) && !IntTruthy(s.height) then WidthOnly
    else if IntTruthy(s.height) && !IntTruthy(s.width) then HeightOnly
    else if s.aspect then Fit
    else Default
  }

  /** What each branch requires of the options. */
  lemma BranchConditions(s: Sizing)
    ensures Branch(s) == Percent <==> RealTruthy(s.percent)
    ensures Branch(s) != Percent ==> (Branch(s) == Exact <==> s.exact)
    ensures Branch(s) == WidthOnly ==> IntTruthy(s.width) && !IntTruthy(s.height) && !s.exact
    ensures Branch(s) == HeightOnly ==> IntTruthy(s.height) && !IntTruthy(s.width) && !s.exact
    ensures Branch(s) == Fit ==> s.aspect && !s.exact && IntTruthy(s.width) == IntTruthy(s.height)
    ensures Branch(s) == Default ==> !s.aspect && !s.exact && IntTruthy(s.width) == IntTruthy(s.height)
  {
  }

  /** `(width, height)` handed to the library, or the TypeError a None raises. */
  function Requested(s: Sizing): Option<Dims> {
    if s.width.Some? && s.height.Some? then Some(Dims(s.width.value, s.height.value)) else None
  }

  /** `int(side * percent / 100)`. */
  function PercentOf(side: nat, pct: real): int {
    Trunc(Times(side, pct) / 100.0)
  }

  /** `int(side * (num / den))`, the other side of a single-side resize,
      computed exactly; `AspectSideIsFloatFormula` relates it to the
      float expression. */
  function AspectSide(side: int, num: nat, den: nat): int
    requires den > 0
  {
    TruncDiv(IntTimes(side, num), den)
  }

  /** The target computation of each branch. */
  function PlanFor(s: Sizing, original: Size): (p: Plan)
    ensures p.Scale? ==> p.mode == Branch(s) && p.mode != Fit
    ensures p.FitWithin? ==> Branch(s) == Fit && Requested(s) == Some(p.bounds)
    ensures p.Raises? ==> p.failure in {MissingDimension, ZeroOriginalSize}
    ensures p.Raises? && p.failure == MissingDimension ==> Branch(s) in {Exact, Fit, Default} && Requested(s).None?
    ensures p.Raises? && p.failure == ZeroOriginalSize ==>
              (Branch(s) == WidthOnly && original.width == 0) || (Branch(s) == HeightOnly && original.height == 0)
  {
    var w, h := original.width, original.height;
    match Branch(s)
    case Percent =>
      Scale(Percent, Dims(PercentOf(w, s.percent.value), PercentOf(h, s.percent.value)))
    case WidthOnly =>
      if w == 0 then Raises(ZeroOriginalSize)
      else
        Scale(WidthOnly, Dims(s.width.value, AspectSide(s.width.value, h, w)))
    case HeightOnly =>
      if h == 0 then Raises(ZeroOriginalSize)
      else
        Scale(HeightOnly, Dims(AspectSide(s.height.value, w, h), s.height.value))
    case Fit =>
      if Requested(s).None? then Raises(MissingDimension) else FitWithin(Requested(s).value)
    case Exact =>
      if Requested(s).None? then Raises(MissingDimension) else Scale(Exact, Requested(s).value)
    case Default =>
      if Requested(s).None? then Raises(MissingDimension) else Scale(Default, Requested(s).value)
  }

  /** What `resize_image` does once the image is open and the branch has
      computed its plan: resize or fit, save, report. */
  function Execute(name: string, original: Size, p: Plan, outputPath: string, codec: Codec): (r: Outcome)
    ensures r.name == name
    ensures p.Raises? ==> r == Failed(name, p.failure)
    ensures r.Failed? && !p.Raises? ==> r.reason in {ResampleFailed, ThumbnailFailed, SaveFailed}
    ensures r.Resized? ==> r.original == original && !p.Raises?
    ensures r.Resized? && p.Scale? ==> r.mode == p.mode && r.final == p.target
    ensures r.Resized? && p.FitWithin? ==>
              var fitted := codec.thumbnail(original, p.bounds);
              r.mode == Fit && fitted.Some? && r.final == Dims(fitted.value.width, fitted.value.height)
    ensures p.Scale? ==> (r.Resized? <==> codec.resample(original, p.target) && codec.save(outputPath, p.target))
    ensures p.FitWithin? ==>
              (r.Resized? <==>
                 var fitted := codec.thumbnail(original, p.bounds);
                 fitted.Some? && codec.save(outputPath, Dims(fitted.value.width, fitted.value.height)))
    ensures !p.Raises? && r.Failed? && r.reason == ResampleFailed ==> p.Scale? && !codec.resample(original, p.target)
    ensures !p.Raises? && r.Failed? && r.reason == ThumbnailFailed ==>
              p.FitWithin? && codec.thumbnail(original, p.bounds).None?
    ensures !p.Raises? && r.Failed? && r.reason == SaveFailed ==>
              (p.Scale? && codec.resample(original, p.target) && !codec.save(outputPath, p.target)) ||
              (p.FitWithin? && codec.thumbnail(original, p.bounds).Some? &&
               !codec.save(outputPath, Dims(codec.thumbnail(original, p.bounds).value.width,
                                            codec.thumbnail(original, p.bounds).value.height)))
  {
    match p
    case Raises(f) => Failed(name, f)
    case Scale(mode, target) =>
      if !codec.resample(original, target) then Failed(name, ResampleFailed)
      else if !codec.save(outputPath, target) then Failed(name, SaveFailed)
      else Resized(name, original, mode, target)
    case FitWithin(bounds) =>
      match codec.thumbnail(original, bounds)
      case None => Failed(name, ThumbnailFailed)
      case Some(fitted) =>
        var final := Dims(fitted.width, fitted.height);
        if !codec.save(outputPath, final) then Failed(name, SaveFailed)
        else Resized(name, original, Fit, final)
  }

  /** `resize_image(task)`: open, plan, resize or fit, save, report. Every
      error is caught and reported under the file's name. */
  function ResizeImage(t: Task, codec: Codec): (r: Outcome)
    ensures r.name == Basename(t.inputPath)
    ensures r.Resized? ==> codec.open(t.inputPath) == Some(r.original) && r.mode == Branch(t.sizing)
    ensures codec.open(t.inputPath).None? ==> r == Failed(r.name, CannotOpen)
    ensures r.Resized? && r.mode != Fit ==> PlanFor(t.sizing, r.original) == Scale(r.mode, r.final)
    ensures r.Resized? && r.mode == Fit ==>
              Requested(t.sizing).Some? &&
              var fitted := codec.thumbnail(r.original, Requested(t.sizing).value);
              fitted.Some? && r.final == Dims(fitted.value.width, fitted.value.height)
    ensures codec.open(t.inputPath).Some? ==>
              var p := PlanFor(t.sizing, codec.open(t.inputPath).value);
              (p.Raises? ==> r == Failed(r.name, p.failure)) &&
              (p.Scale? ==> (r.Resized? <==> codec.resample(codec.open(t.inputPath).value, p.target) &&
                                             codec.save(t.outputPath, p.target))) &&
              (p.FitWithin? ==>
                 (r.Resized? <==>
                    var fitted := codec.thumbnail(codec.open(t.inputPath).value, p.bounds);
                    fitted.Some? && codec.save(t.outputPath, Dims(fitted.value.width, fitted.value.height))))
  {
    var name := Basename(t.inputPath);
    match codec.open(t.inputPath)
    case None => Failed(name, CannotOpen)
    case Some(original) => Execute(name, original, PlanFor(t.sizing, original), t.outputPath, codec)
  }

  /** Two libraries answer alike every call that task `t` makes: opening
      its input, the one resize or thumbnail its plan asks for, and saving
      to its output path. What they do for other sizes, targets or paths is
      unconstrained. */
  ghost predicate AgreeOnOwnCalls(t: Task, codec1: Codec, codec2: Codec) {
    && codec1.open(t.inputPath) == codec2.open(t.inputPath)
    && (forall d :: codec1.save(t.outputPath, d) == codec2.save(t.outputPath, d))
    && (codec1.open(t.inputPath).Some? ==>
          var original := codec1.open(t.inputPath).value;
          var p := PlanFor(t.sizing, original);
          && (p.Scale? ==> codec1.resample(original, p.target) == codec2.resample(original, p.target))
          && (p.FitWithin? ==> codec1.thumbnail(original, p.bounds) == codec2.thumbnail(original, p.bounds)))
  }

  /** A task's outcome is fixed by what the library does with that task's own
      input and output paths: nothing else is consulted. */
  lemma OutcomeDependsOnOwnFile(t: Task, codec1: Codec, codec2: Codec)
    requires AgreeOnOwnCalls(t, codec1, codec2)
    ensures ResizeImage(t, codec1) == ResizeImage(t, codec2)
  {
    match codec1.open(t.inputPath)
    case None =>
    case Some(original) =>
      match PlanFor(t.sizing, original)
      case Raises(_) =>
      case Scale(_, target) =>
        assert codec1.resample(original, target) == codec2.resample(original, target);
        assert codec1.save(t.outputPath, target) == codec2.save(t.outputPath, target);
      case FitWithin(bounds) =>
        assert codec1.thumbnail(original, bounds) == codec2.thumbnail(original, bounds);
        match codec1.thumbnail(original, bounds)
        case None =>
        case Some(fitted) =>
          var final := Dims(fitted.width, fitted.height);
          assert codec1.save(t.outputPath, final) == codec2.save(t.outputPath, final);
  }

  /** A positive percentage decides the target on its own, whatever the
      width, height, exact and aspect options say: each side is the original
      side times the percentage over 100, rounded down. */
  lemma PercentTakesPrecedence(s: Sizing, original: Size)
    requires s.percent.Some? && s.percent.value > 0.0
    ensures Branch(s) == Percent
    ensures PlanFor(s, original) == Scale(Percent, Dims(
              (original.width as real * s.percent.value / 100.0).Floor,
              (original.height as real * s.percent.value / 100.0).Floor))
  {
    TimesIsProduct(original.width, s.percent.value);
    TimesIsProduct(original.height, s.percent.value);
  }

  /** A percent target never grows a side when the percentage is at most 100. */
  lemma PercentAtMostHundredShrinks(s: Sizing, original: Size)
    requires s.percent.Some? && 0.0 < s.percent.value <= 100.0
    ensures var p := PlanFor(s, original);
            p.Scale? && 0 <= p.target.width <= original.width && 0 <= p.target.height <= original.height
  {
    ScaledDown(original.width, s.percent.value);
    ScaledDown(original.height, s.percent.value);
  }

  lemma ScaledDown(side: nat, pct: real)
    requires 0.0 < pct <= 100.0
    ensures 0 <= PercentOf(side, pct) <= side
  {
    TimesIsProduct(side, pct);
    var x := side as real;
    assert 0.0 <= x * pct <= x * 100.0;
    var y := x * pct / 100.0;
    assert 0.0 <= y <= x;
  }

  /** With the exact flag (and no percentage) the target is the requested
      pair verbatim, whatever the original size. */
  lemma ExactTarget(s: Sizing, original: Size)
    requires !RealTruthy(s.percent) && s.exact
    requires s.width.Some? && s.height.Some?
    ensures PlanFor(s, original) == Scale(Exact, Dims(s.width.value, s.height.value))
  {
  }

  /** With both sides given and no flag, the fallback branch is an exact
      resize to the requested pair, whatever the original size. */
  lemma DefaultTarget(s: Sizing, original: Size)
    requires !RealTruthy(s.percent) && !s.exact && !s.aspect
    requires s.width.Some? && s.width.value > 0 && s.height.Some? && s.height.value > 0
    ensures PlanFor(s, original) == Scale(Default, Dims(s.width.value, s.height.value))
  {
  }

  /** The single-side target is `int(side * aspect_ratio)` with the aspect
      ratio `num / den` taken as an exact quotient. */
  lemma AspectSideIsFloatFormula(side: int, num: nat, den: nat)
    requires den > 0
    ensures AspectSide(side, num, den) == Trunc(side as real * (num as real / den as real))
  {
    IntTimesIsProduct(side, num);
    assert side as real * (num as real / den as real) == (side * num) as real / den as real;
    TruncDivIsTrunc(side * num, den);
  }

  /** Width only: the width is kept and the height is width * H / W rounded
      down, so the aspect ratio is kept to within one pixel. */
  lemma WidthOnlyTarget(s: Sizing, original: Size)
    requires !RealTruthy(s.percent) && !s.exact
    requires s.width.Some? && s.width.value > 0 && !IntTruthy(s.height)
    requires original.width > 0
    ensures var p := PlanFor(s, original);
            p == Scale(WidthOnly, Dims(s.width.value, s.width.value * original.height / original.width))
    ensures var p := PlanFor(s, original);
            p.target.height * original.width <= s.width.value * original.height < (p.target.height + 1) * original.width
  {
    IntTimesIsProduct(s.width.value, original.height);
    QuotIsDiv(s.width.value * original.height, original.width);
  }

  /** Height only: the height is kept and the width is height * W / H rounded
      down, so the aspect ratio is kept to within one pixel. */
  lemma HeightOnlyTarget(s: Sizing, original: Size)
    requires !RealTruthy(s.percent) && !s.exact
    requires s.height.Some? && s.height.value > 0 && !IntTruthy(s.width)
    requires original.height > 0
    ensures var p := PlanFor(s, original);
            p == Scale(HeightOnly, Dims(s.height.value * original.width / original.height, s.height.value))
    ensures var p := PlanFor(s, original);
            p.target.width * original.height <= s.height.value * original.width < (p.target.width + 1) * original.height
  {
    IntTimesIsProduct(s.height.value, original.width);
    QuotIsDiv(s.height.value * original.width, original.height);
  }

  /** In the fit branch the size reported is the one the library's thumbnail
      leaves, and the resample call is not made. */
  lemma FitReportsThumbnail(t: Task, codec: Codec, original: Size, fitted: Size)
    requires codec.open(t.inputPath) == Some(original)
    requires Branch(t.sizing) == Fit && Requested(t.sizing).Some?
    requires codec.thumbnail(original, Requested(t.sizing).value) == Some(fitted)
    requires codec.save(t.outputPath, Dims(fitted.width, fitted.height))
    ensures ResizeImage(t, codec) == Resized(Basename(t.inputPath), original, Fit, Dims(fitted.width, fitted.height))
  {
  }
}
