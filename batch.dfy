/** The flow of `main` once the command line is parsed: check the options,
    list the JPEG files, build one task per file and map `resize_image` over
    the tasks. The directory listing, whether the input folder exists and the
    image library are inputs; the worker pool is a plain map, since
    `pool.map` returns the results in task order. */
module Batch {
  import opened PyRuntime
  import opened ImageFiles
  import opened Resize
  import opened Validation

  /** The parsed command line, less the worker count. */
  datatype Config = Config(input: string, output: string, sizing: Sizing)

  /** How a run ends. */
  datatype Report =
    | Rejected(error: ConfigError, message: string)   // the `Error: ...` line, nothing processed
    | NoImages                                        // "No JPG images found in input folder"
    | Completed(mode: Mode, outcomes: seq<Outcome>)   // the banner's mode and one result per file

  /** One task per file, in file order, reading from the input folder and
      writing under the same name to the output folder, all with the same
      sizing options. */
  function BuildTasks(input: string, output: string, files: seq<string>, s: Sizing): (tasks: seq<Task>)
    ensures |tasks| == |files|
    ensures forall i :: 0 <= i < |files| ==>
              tasks[i].inputPath == Join(input, files[i]) && tasks[i].outputPath == Join(output, files[i])
  {
    seq(|files|, i requires 0 <= i < |files| => Task(Join(input, files[i]), Join(output, files[i]), s))
  }

  /** `f` applied to each element, in order. */
  function Map<A, B>(s: seq<A>, f: A -> B): (r: seq<B>)
    ensures |r| == |s|
  {
    seq(|s|, i requires 0 <= i < |s| => f(s[i]))
  }

  /** `resize_image` with the image library fixed, as the pool receives it. */
  function Resizer(codec: Codec): (f: Task -> Outcome)
    ensures forall t :: f(t) == ResizeImage(t, codec)
  {
    t => ResizeImage(t, codec)
  }

  /** The results `pool.map(resize_image, tasks)` returns: one per task, in
      task order. */
  function MapResize(tasks: seq<Task>, codec: Codec): (results: seq<Outcome>)
    ensures |results| == |tasks|
    ensures forall i :: 0 <= i < |tasks| ==> results[i] == ResizeImage(tasks[i], codec)
  {
    Map(tasks, Resizer(codec))
  }

  /** The outcomes of a run that gets as far as the pool. */
  function Outcomes(c: Config, listing: seq<string>, codec: Codec): seq<Outcome> {
    MapResize(BuildTasks(c.input, c.output, ImageNames(listing), c.sizing), codec)
  }

  /** `main` after argument parsing. */
  method Run(c: Config, inputExists: bool, listing: seq<string>, codec: Codec) returns (report: Report)
    ensures Validate(inputExists, c.sizing).Reject? ==>
              var e := Validate(inputExists, c.sizing).error;
              report == Rejected(e, ErrorMessage(e, c.input))
    ensures Validate(inputExists, c.sizing) == Accept && ImageNames(listing) == [] ==> report == NoImages
    ensures Validate(inputExists, c.sizing) == Accept && ImageNames(listing) != [] ==>
              report == Completed(Banner(c.sizing), Outcomes(c, listing, codec))
  {
    var verdict := Validate(inputExists, c.sizing);
    if verdict.Reject? {
      return Rejected(verdict.error, ErrorMessage(verdict.error, c.input));
    }
    var imageFiles := GetImageFiles(listing);
    if imageFiles == [] {
      return NoImages;
    }
    var tasks := BuildTasks(c.input, c.output, imageFiles, c.sizing);
    var results := MapResize(tasks, codec);
    report := Completed(Banner(c.sizing), results);
  }

  /** Each task names its file: the basename of both of its paths is the file
      name, and it carries the run's sizing options unchanged. */
  lemma TasksNameTheirFiles(input: string, output: string, files: seq<string>, s: Sizing)
    requires forall f :: f in files ==> '/' !in f
    ensures var tasks := BuildTasks(input, output, files, s);
            forall i :: 0 <= i < |files| ==>
              tasks[i].inputPath == Join(input, files[i]) && tasks[i].outputPath == Join(output, files[i]) &&
              Basename(tasks[i].inputPath) == files[i] && Basename(tasks[i].outputPath) == files[i] &&
              tasks[i].sizing == s
  {
    forall i | 0 <= i < |files|
      ensures Basename(Join(input, files[i])) == files[i] && Basename(Join(output, files[i])) == files[i]
    {
      BasenameOfJoin(input, files[i]);
      BasenameOfJoin(output, files[i]);
    }
  }

  /** Distinct file names give distinct output paths, so no two workers write
      the same file. */
  lemma OutputsDistinct(input: string, output: string, files: seq<string>, s: Sizing)
    requires forall f :: f in files ==> '/' !in f
    requires forall i, j :: 0 <= i < j < |files| ==> files[i] != files[j]
    ensures var tasks := BuildTasks(input, output, files, s);
            forall i, j :: 0 <= i < j < |tasks| ==> tasks[i].outputPath != tasks[j].outputPath
  {
    TasksNameTheirFiles(input, output, files, s);
  }

  /** The report has one outcome per kept file, in listing order, each under
      that file's name. */
  lemma OutcomesFollowListing(c: Config, listing: seq<string>, codec: Codec)
    requires forall f :: f in listing ==> '/' !in f
    ensures var files, results := ImageNames(listing), Outcomes(c, listing, codec);
            |results| == |files| && forall i :: 0 <= i < |results| ==> results[i].name == files[i]
  {
    var files := ImageNames(listing);
    forall f | f in files ensures '/' !in f {
      FilterMembers(listing, IsImageName, f);
    }
    TasksNameTheirFiles(c.input, c.output, files, c.sizing);
  }

  /** A file's outcome depends only on what the library does with that file:
      two libraries that agree on the calls its task makes give that file the
      same outcome, however they treat the other files (a neighbour whose
      open, resize, thumbnail or save fails changes nothing). */
  lemma FailureIsolation(c: Config, listing: seq<string>, codec1: Codec, codec2: Codec, i: nat)
    requires i < |ImageNames(listing)|
    requires AgreeOnOwnCalls(BuildTasks(c.input, c.output, ImageNames(listing), c.sizing)[i], codec1, codec2)
    ensures Outcomes(c, listing, codec1)[i] == Outcomes(c, listing, codec2)[i]
  {
    var t := BuildTasks(c.input, c.output, ImageNames(listing), c.sizing)[i];
    assert Outcomes(c, listing, codec1)[i] == ResizeImage(t, codec1);
    assert Outcomes(c, listing, codec2)[i] == ResizeImage(t, codec2);
    OutcomeDependsOnOwnFile(t, codec1, codec2);
  }

  /** In an accepted run, every file that is resized is resized in the mode the
      banner announced, and a file fails only inside the image library. */
  lemma AcceptedRunMatchesBanner(inputExists: bool, c: Config, listing: seq<string>, codec: Codec)
    requires Validate(inputExists, c.sizing) == Accept
    ensures forall r :: r in Outcomes(c, listing, codec) && r.Resized? ==> r.mode == Banner(c.sizing)
    ensures forall r :: r in Outcomes(c, listing, codec) && r.Failed? ==> r.reason != MissingDimension
  {
    var tasks := BuildTasks(c.input, c.output, ImageNames(listing), c.sizing);
    forall i | 0 <= i < |tasks|
      ensures var r := ResizeImage(tasks[i], codec);
              (r.Resized? ==> r.mode == Banner(c.sizing)) && (r.Failed? ==> r.reason != MissingDimension)
    {
      AcceptedTaskFailsOnlyInLibrary(inputExists, tasks[i], codec);
    }
  }

  /** Filtering three elements of which the middle one is refused. */
  lemma KeepFirstAndLast<T>(a: T, n: T, b: T, keep: T -> bool)
    requires keep(a) && !keep(n) && keep(b)
    ensures Filter([a, n, b], keep) == [a, b]
  {
    FilterSingleton(a, keep);
    FilterSingleton(n, keep);
    FilterSingleton(b, keep);
    FilterAppend([a], [n], keep);
    assert [a] + [n] == [a, n];
    FilterAppend([a, n], [b], keep);
    assert [a, n] + [b] == [a, n, b];
  }

  /** Of two image files around one that is not, the listing keeps the
      image files, in order. */
  lemma KeptAroundOther(a: string, n: string, b: string)
    requires IsImageName(a) && !IsImageName(n) && IsImageName(b)
    ensures ImageNames([a, n, b]) == [a, b]
  {
    KeepFirstAndLast(a, n, b, IsImageName);
  }

  /** A width-400 task on a file the library opens and saves without
      trouble reports the file's name and the computed height. */
  lemma WidthFourHundred(input: string, output: string, name: string, codec: Codec, s: Sizing, original: Size, height: int)
    requires s == Sizing(Some(400), None, None, false, false)
    requires '/' !in name
    requires codec.open(Join(input, name)) == Some(original) && original.width > 0
    requires forall z, d :: codec.resample(z, d)
    requires forall p, d :: codec.save(p, d)
    requires 400 * original.height / original.width == height
    ensures ResizeImage(Task(Join(input, name), Join(output, name), s), codec)
            == Resized(name, original, WidthOnly, Dims(400, height))
  {
    WidthOnlyTarget(s, original);
    BasenameOfJoin(input, name);
  }

  /** The two photos of `WidthScenario`, each resized on its own. */
  lemma WidthPair(input: string, output: string, a: string, b: string, codec: Codec, s: Sizing)
    requires s == Sizing(Some(400), None, None, false, false)
    requires '/' !in a && '/' !in b
    requires codec.open(Join(input, a)) == Some(Size(800, 600)) && codec.open(Join(input, b)) == Some(Size(1000, 500))
    requires forall z, d :: codec.resample(z, d)
    requires forall p, d :: codec.save(p, d)
    ensures ResizeImage(Task(Join(input, a), Join(output, a), s), codec)
            == Resized(a, Size(800, 600), WidthOnly, Dims(400, 300))
    ensures ResizeImage(Task(Join(input, b), Join(output, b), s), codec)
            == Resized(b, Size(1000, 500), WidthOnly, Dims(400, 200))
  {
    WidthFourHundred(input, output, a, codec, s, Size(800, 600), 300);
    WidthFourHundred(input, output, b, codec, s, Size(1000, 500), 200);
  }

  /** A listing of two image files around a non-image one yields one task
      per image file, in listing order. */
  lemma TwoOfThree(input: string, output: string, a: string, n: string, b: string, s: Sizing)
    requires IsImageName(a) && !IsImageName(n) && IsImageName(b)
    ensures BuildTasks(input, output, ImageNames([a, n, b]), s) ==
              [Task(Join(input, a), Join(output, a), s), Task(Join(input, b), Join(output, b), s)]
  {
    KeepFirstAndLast(a, n, b, IsImageName);
  }

  /** Mapping over a pair gives the pair of images. */
  lemma MapPair<A, B>(x: A, y: A, f: A -> B, fx: B, fy: B)
    requires f(x) == fx && f(y) == fy
    ensures Map([x, y], f) == [fx, fy]
  {
    var r := Map([x, y], f);
    assert r[0] == fx;
    assert r[1] == fy;
  }

  /** The pool's results for two files are those two files' outcomes, in
      file order. */
  lemma ResultsOfTwo(input: string, output: string, a: string, b: string, s: Sizing, codec: Codec, ra: Outcome, rb: Outcome)
    requires ResizeImage(Task(Join(input, a), Join(output, a), s), codec) == ra
    requires ResizeImage(Task(Join(input, b), Join(output, b), s), codec) == rb
    ensures MapResize(BuildTasks(input, output, [a, b], s), codec) == [ra, rb]
  {
    TasksOfTwo(input, output, a, b, s);
    MapPair(Task(Join(input, a), Join(output, a), s), Task(Join(input, b), Join(output, b), s), Resizer(codec), ra, rb);
  }

  /** Two files give two tasks, in file order. */
  lemma TasksOfTwo(input: string, output: string, a: string, b: string, s: Sizing)
    ensures BuildTasks(input, output, [a, b], s) ==
              [Task(Join(input, a), Join(output, a), s), Task(Join(input, b), Join(output, b), s)]
  {
    var tasks := BuildTasks(input, output, [a, b], s);
    assert tasks[0] == Task(Join(input, a), Join(output, a), s);
    assert tasks[1] == Task(Join(input, b), Join(output, b), s);
  }

  /** When the listing keeps exactly two files, the run's outcomes are
      those two files' outcomes, in listing order. */
  lemma OutcomesOfTwo(c: Config, listing: seq<string>, a: string, b: string, codec: Codec, ra: Outcome, rb: Outcome)
    requires ImageNames(listing) == [a, b]
    requires ResizeImage(Task(Join(c.input, a), Join(c.output, a), c.sizing), codec) == ra
    requires ResizeImage(Task(Join(c.input, b), Join(c.output, b), c.sizing), codec) == rb
    ensures Outcomes(c, listing, codec) == [ra, rb]
  {
    ResultsOfTwo(c.input, c.output, a, b, c.sizing, codec, ra, rb);
  }

  /** Two photos, 800x600 and 1000x500, with a file that is not a JPEG listed
      between them, resized to width 400: the other file is skipped and the
      photos come out at 400x300 and 400x200, in listing order. */
  lemma WidthScenario(input: string, output: string, a: string, n: string, b: string, codec: Codec, s: Sizing)
    requires s == Sizing(Some(400), None, None, false, false)
    requires IsImageName(a) && !IsImageName(n) && IsImageName(b) && '/' !in a && '/' !in b
    requires codec.open(Join(input, a)) == Some(Size(800, 600)) && codec.open(Join(input, b)) == Some(Size(1000, 500))
    requires forall z, d :: codec.resample(z, d)
    requires forall p, d :: codec.save(p, d)
    ensures Outcomes(Config(input, output, s), [a, n, b], codec) ==
              [Resized(a, Size(800, 600), WidthOnly, Dims(400, 300)),
               Resized(b, Size(1000, 500), WidthOnly, Dims(400, 200))]
  {
    KeptAroundOther(a, n, b);
    WidthPair(input, output, a, b, codec, s);
    OutcomesOfTwo(Config(input, output, s), [a, n, b], a, b, codec,
                  Resized(a, Size(800, 600), WidthOnly, Dims(400, 300)),
                  Resized(b, Size(1000, 500), WidthOnly, Dims(400, 200)));
  }
}
