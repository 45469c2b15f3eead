/** The pre-flight checks of `main` and the mode banner it prints. Whether the
    input folder exists (`os.path.exists`) is an input. */
module Validation {
  import opened PyRuntime
  import opened Resize

  /** The rejections of `main`, one per check. */
  datatype ConfigError =
    | InputMissing
    | NonPositivePercent
    | NoSizingMethod
    | ExactWithAspect
    | FlagWithoutBothSides
    | NonPositiveWidth
    | NonPositiveHeight

  datatype Verdict = Accept | Reject(error: ConfigError)

  /** The position of each check in `main`. */
  function Rank(e: ConfigError): nat {
    match e
    case InputMissing => 0
    case NonPositivePercent => 1
    case NoSizingMethod => 2
    case ExactWithAspect => 3
    case FlagWithoutBothSides => 4
    case NonPositiveWidth => 5
    case NonPositiveHeight => 6
  }

  /** The condition under which each check rejects, taken on its own. */
  predicate Fires(e: ConfigError, inputExists: bool, s: Sizing) {
    match e
    case InputMissing => !inputExists
    case NonPositivePercent => s.percent.Some? && s.percent.value <= 0.0
    case NoSizingMethod => s.percent.None? && s.width.None? && s.height.None?
    case ExactWithAspect => s.exact && s.aspect
    case FlagWithoutBothSides => (s.exact || s.aspect) && (s.width.None? || s.height.None?)
    case NonPositiveWidth => s.width.Some? && s.width.value <= 0
    case NonPositiveHeight => s.height.Some? && s.height.value <= 0
  }

  /** The chain of early returns in `main`. The verdict is the first check,
      in `main`'s order, that rejects; the configuration is accepted exactly
      when none does. */
  function Validate(inputExists: bool, s: Sizing): (v: Verdict)
    ensures v == Accept ==> forall e :: !Fires(e, inputExists, s)
    ensures v.Reject? ==> Fires(v.error, inputExists, s)
    ensures v.Reject? ==> forall e :: Rank(e) < Rank(v.error) ==> !Fires(e, inputExists, s)
  {
    if !inputExists then Reject(InputMissing)
    else if s.percent.Some? && s.percent.value <= 0.0 then Reject(NonPositivePercent)
    else if s.percent.None? && s.width.None? && s.height.None? then Reject(NoSizingMethod)
    else if s.exact && s.aspect then Reject(ExactWithAspect)
    else if (s.exact || s.aspect) && (s.width.None? || s.height.None?) then Reject(FlagWithoutBothSides)
    else if s.width.Some? && s.width.value <= 0 then Reject(NonPositiveWidth)
    else if s.height.Some? && s.height.value <= 0 then Reject(NonPositiveHeight)
    else Accept
  }

  /** The line `main` prints for each rejection, after "Error: ". */
  function ErrorDetail(e: ConfigError, input: string): string {
    match e
    case InputMissing => "Input folder '" + input + "' does not exist"
    case NonPositivePercent => "Percentage must be greater than 0"
    case NoSizingMethod => "Must specify either --percent, --width, --height, or both --width and --height"
    case ExactWithAspect => "Cannot use both --exact and --aspect flags"
    case FlagWithoutBothSides => "--exact and --aspect flags require both --width and --height"
    case NonPositiveWidth => "Width must be greater than 0"
    case NonPositiveHeight => "Height must be greater than 0"
  }

  /** The whole error line. */
  function ErrorMessage(e: ConfigError, input: string): string {
    "Error: " + ErrorDetail(e, input)
  }

  /** The missing-folder message quotes the folder as given. */
  lemma MissingFolderNamed(input: string)
    ensures var r := ErrorMessage(InputMissing, input);
            |r| == |input| + 37 && r[21..21 + |input|] == input
  {
    var prefix := "Error: Input folder '";
    assert |prefix| == 21;
    assert ErrorMessage(InputMissing, input) == prefix + input + "' does not exist";
  }

  /** The configurations `main` accepts, spelled out as one condition. */
  lemma AcceptedConfiguration(inputExists: bool, s: Sizing)
    ensures Validate(inputExists, s) == Accept <==>
              && inputExists
              && (s.percent.Some? || s.width.Some? || s.height.Some?)
              && (s.percent.Some? ==> s.percent.value > 0.0)
              && (s.width.Some? ==> s.width.value > 0)
              && (s.height.Some? ==> s.height.value > 0)
              && !(s.exact && s.aspect)
              && ((s.exact || s.aspect) ==> s.width.Some? && s.height.Some?)
  {
    if Validate(inputExists, s) == Accept {
      assert !Fires(InputMissing, inputExists, s);
      assert !Fires(NonPositivePercent, inputExists, s);
      assert !Fires(NoSizingMethod, inputExists, s);
      assert !Fires(ExactWithAspect, inputExists, s);
      assert !Fires(FlagWithoutBothSides, inputExists, s);
      assert !Fires(NonPositiveWidth, inputExists, s);
      assert !Fires(NonPositiveHeight, inputExists, s);
    }
  }

  /** The mode `main` announces: the same tests as `resize_image`, but with
      the aspect flag tested before the single-side cases. */
  function Banner(s: Sizing): (m: Mode)
    ensures m == Percent <==> RealTruthy(s.percent)
    ensures m != Percent ==> (m == Exact <==> s.exact)
    ensures m == Fit <==> !RealTruthy(s.percent) && !s.exact && s.aspect
    ensures m == WidthOnly ==> IntTruthy(s.width) && !IntTruthy(s.height) && !s.aspect
    ensures m == HeightOnly ==> IntTruthy(s.height) && !IntTruthy(s.width) && !s.aspect
    ensures m == Default ==> !s.aspect && !s.exact && IntTruthy(s.width) == IntTruthy(s.height)
  {
    if RealTruthy(s.percent) then Percent
    else if s.exact then Exact
    else if s.aspect then Fit
    else if IntTruthy(s.width) && !IntTruthy(s.height) then WidthOnly
    else if IntTruthy(s.height) && !IntTruthy(s.width) then HeightOnly
    else Default
  }

  /** For every accepted configuration the banner names the branch that
      every task then takes, although the two test in different orders. */
  lemma BannerMatchesBranch(inputExists: bool, s: Sizing)
    requires Validate(inputExists, s) == Accept
    ensures Banner(s) == Branch(s)
  {
    AcceptedConfiguration(inputExists, s);
  }

  /** The two orders do differ on a configuration the checks reject: width
      only with the aspect flag. */
  lemma BannerDiffersWhenUnchecked()
    ensures var s := Sizing(Some(640), None, None, true, false);
            Validate(true, s) == Reject(FlagWithoutBothSides) && Banner(s) == Fit && Branch(s) == WidthOnly
  {
  }

  /** After the checks, a task that reaches the exact, fit or default branch
      has both sides, and both are positive; the width-only and height-only
      branches have their side, positive. */
  lemma AcceptedBranchesHaveSides(inputExists: bool, s: Sizing)
    requires Validate(inputExists, s) == Accept
    ensures Branch(s) in {Exact, Fit, Default} ==>
              Requested(s).Some? && Requested(s).value.width > 0 && Requested(s).value.height > 0
    ensures Branch(s) == WidthOnly ==> s.width.Some? && s.width.value > 0 && s.height.None?
    ensures Branch(s) == HeightOnly ==> s.height.Some? && s.height.value > 0 && s.width.None?
  {
    AcceptedConfiguration(inputExists, s);
  }

  /** After the checks, a task can only fail inside the image library: it
      never raises on a missing side or on a zero side of a non-empty image,
      and whatever it resizes is reported under the announced mode. */
  lemma AcceptedTaskFailsOnlyInLibrary(inputExists: bool, t: Task, codec: Codec)
    requires Validate(inputExists, t.sizing) == Accept
    ensures var r := ResizeImage(t, codec);
            r.Failed? ==> r.reason in {CannotOpen, ResampleFailed, ThumbnailFailed, SaveFailed} ||
                          (r.reason == ZeroOriginalSize && codec.open(t.inputPath).Some? &&
                           (codec.open(t.inputPath).value.width == 0 || codec.open(t.inputPath).value.height == 0))
    ensures var r := ResizeImage(t, codec);
            r.Resized? ==> r.mode == Banner(t.sizing)
  {
    AcceptedBranchesHaveSides(inputExists, t.sizing);
    BannerMatchesBranch(inputExists, t.sizing);
    match codec.open(t.inputPath)
    case None =>
    case Some(original) =>
      var p := PlanFor(t.sizing, original);
      assert ResizeImage(t, codec) == Execute(Basename(t.inputPath), original, p, t.outputPath, codec);
  }
}
