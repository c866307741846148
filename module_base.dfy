/**
 * run() and execute() of the module-base variant of the fulltext-generation step:
 * list the job's source files, create the four output folders, then send each PDF to
 * the converter (full text, single pages, images, ALTO, cleanup of all images but the
 * first) and each EPUB to the configured command line.
 */
module ModuleBase {
  import opened Strings
  import opened JavaInt
  import opened Host
  import opened Effects

  const INPUT: string := "{input}"
  const OUTPUT: string := "{output}"

  /** The text, pdf and alto folders of the job, and `<images directory>/<title>_thumbs`. */
  function OutputFolders(job: Job): Folders {
    Folders(job.ocrTxtDirectory, job.ocrPdfDirectory, job.ocrAltoDirectory, Join(job.imagesDirectory, job.title + "_thumbs"))
  }

  // The PDF handler.

  /** One of the deletions (of images 1 .. imageCount - 1) throws. */
  predicate DeleteFails(c: PdfConversion, imageCount: nat) {
    c.deleteFailsAt.Some? && 1 <= c.deleteFailsAt.value < imageCount
  }

  /** The conversion gets as far as the counter update: every call before it returns. */
  predicate ReachesCleanup(c: PdfConversion) {
    c.fullText && c.singlePagePdfs.Some? && c.imageFiles.Some? && !AltoFails(c, |c.singlePagePdfs.value|)
  }

  /** The bound of the cleanup loop: all images, or up to and including the one whose deletion throws. */
  function DeleteCount(c: PdfConversion, imageCount: nat): (r: nat)
    ensures r <= imageCount
  {
    if DeleteFails(c, imageCount) then c.deleteFailsAt.value + 1 else imageCount
  }

  /** The deletions of images 1 .. n - 1 of the cleanup loop. */
  function Deletions(images: seq<Path>, n: nat): seq<Event>
    requires n <= |images|
  {
    if n <= 1 then [] else Deletions(images, n - 1) + [Delete(images[n - 1])]
  }

  /** The three converter calls before the ALTO loop, up to the first that throws. */
  function PdfPrelude(source: Path, f: Folders, start: int, c: PdfConversion): (r: Stage)
    ensures r.ok <==> c.fullText && c.singlePagePdfs.Some? && c.imageFiles.Some?
  {
    var fullText := FullText(source, f.text, ENCODING, start);
    var split := Split(source, f.pdf, 1);
    var images := Images(source, f.images, start, DPI, IMAGE_FORMAT, RASTER_BACKEND);
    if !c.fullText then Stage([fullText], false)
    else if c.singlePagePdfs.None? then Stage([fullText, split], false)
    else Stage([fullText, split, images], c.imageFiles.Some?)
  }

  /** The calls the PDF handler makes for one source, starting at page `start`, up to the first that throws. */
  function PdfSteps(source: Path, f: Folders, start: int, c: PdfConversion): FileRun {
    var prelude := PdfPrelude(source, f, start, c);
    if !prelude.ok then FileRun(prelude.events, false, start)
    else
      var pdfs := c.singlePagePdfs.value;
      var images := c.imageFiles.value;
      var paired := prelude.events + AltoCalls(pdfs, images, f.alto, AltoCount(c, |pdfs|));
      if AltoFails(c, |pdfs|) then FileRun(paired, false, start)
      else
        FileRun(paired + Deletions(images, DeleteCount(c, |images|)), !DeleteFails(c, |images|),
                Wrap(start + Max(|pdfs|, |images|)))
  }

  // The EPUB handler.

  /** One token of the command template, with the placeholders filled in. */
  function Substitute(token: string, input: Path, output: Path): string {
    if token == INPUT then input else if token == OUTPUT then output else token
  }

  /** The argument list built from the command template, token by token. */
  function EpubArgs(template: seq<string>, input: Path, output: Path): seq<string> {
    if template == [] then []
    else EpubArgs(template[..|template| - 1], input, output) + [Substitute(template[|template| - 1], input, output)]
  }

  /** The text file an EPUB is converted into: its name with ".epub" replaced by ".txt", under the text folder. */
  function EpubDestination(textFolder: Path, name: string): Path {
    Join(textFolder, ReplaceAll(name, ".epub", ".txt"))
  }

  /** How launching the command ends for run(). */
  datatype EpubExit = Completed | Logged | Escaped

  /** `start` or `waitFor` either returns or throws an exception the handler catches and logs. */
  function LaunchCaught(launch: Launch): EpubExit {
    if launch == Exited then Completed else Logged
  }

  /**
   * The launch as written: `ProcessBuilder.start()` rejects an empty command with an
   * IndexOutOfBoundsException, which `catch (IOException | InterruptedException)` does not
   * catch, so it leaves run() and execute().
   */
  function LaunchAsWritten(args: seq<string>, launch: Launch): EpubExit {
    if args == [] then Escaped else LaunchCaught(launch)
  }

  /** The launch as intended: an empty command is logged like every other launch failure. */
  function LaunchOutcome(args: seq<string>, launch: Launch): (r: EpubExit)
    ensures r != Escaped
    ensures args != [] ==> r == LaunchAsWritten(args, launch)
    ensures r == Completed <==> args != [] && launch == Exited
  {
    if args == [] then Logged else LaunchCaught(launch)
  }

  // run().

  /** The handling of one listed file, given the counter before it. */
  function FileStep(job: Job, call: seq<string>, e: Entry, counter: int): FileRun {
    var source := SourcePath(job, e.name);
    var f := OutputFolders(job);
    match Dispatch(e.name)
    case Pdf => PdfSteps(source, f, counter, e.conversion)
    case Epub =>
      var args := EpubArgs(call, source, EpubDestination(f.text, e.name));
      FileRun([Exec(args)], LaunchOutcome(args, e.launch) != Escaped, counter)
    case Other => FileRun([], true, counter)
  }

  /** The body of run()'s loop, with the job and the command template fixed. */
  function Handle(job: Job, call: seq<string>): Handler {
    (e, counter) => FileStep(job, call, e, counter)
  }

  /** What run() returns and does, with the template `call` and the host's answers `env`. */
  function RunSpec(job: Job, call: seq<string>, env: Environment): RunResult {
    match env.listing
    case ListingFailed => RunResult(Error, [], 1)
    case NoListing => RunResult(Finish, [], 1)
    case Listed(entries) => if entries == [] then RunResult(Finish, [], 1) else ListedRun(job, call, entries, env.dirs)
  }

  /** run() after a non-empty listing: the folder setup, then the loop over the files. */
  function ListedRun(job: Job, call: seq<string>, entries: seq<Entry>, dirs: Directories): RunResult {
    var setup := Setup(OutputFolders(job), dirs);
    if !setup.ok then RunResult(Error, setup.events, 1)
    else
      var progress := Loop(Handle(job, call), entries, |entries|);
      RunResult(if progress.failed then Error else Finish, setup.events + progress.events, progress.counter)
  }

  /** The step. `counter` is run()'s page counter and `trace` the calls run() has made, oldest first. */
  class FulltextGenerationStepPlugin {
    const epubCall: seq<string>
    var counter: int
    var trace: seq<Event>

    /** The step after initialize(): the EPUB command template is read from the configuration. */
    constructor (epubCall: seq<string>)
      ensures this.epubCall == epubCall && trace == [] && counter == 1
    {
      this.epubCall := epubCall;
      counter := 1;
      trace := [];
    }

    /** Creates the folder if the storage does not have it. */
    method CreateIfAbsent(path: Path, state: DirState) returns (ok: bool)
      modifies this`trace
      ensures ok == EnsureDirectory(path, state).ok
      ensures trace == old(trace) + EnsureDirectory(path, state).events
    {
      ok := true;
      if state != Present {
        trace := trace + [CreateDir(path)];
        ok := state == Creatable;
      }
    }

    /** The PDF branch of the loop. */
    method ConvertPdf(source: Path, f: Folders, c: PdfConversion) returns (ok: bool)
      modifies this
      ensures ok == PdfSteps(source, f, old(counter), c).ok
      ensures trace == old(trace) + PdfSteps(source, f, old(counter), c).events
      ensures counter == PdfSteps(source, f, old(counter), c).counter
    {
      var start := counter;
      var fullText := FullText(source, f.text, ENCODING, start);
      trace := trace + [fullText];
      if !c.fullText {
        return false;
      }
      var split := Split(source, f.pdf, 1);
      trace := trace + [split];
      if c.singlePagePdfs.None? {
        assert trace == old(trace) + [fullText, split];
        return false;
      }
      var singlePagePdfs := c.singlePagePdfs.value;
      var images := Images(source, f.images, start, DPI, IMAGE_FORMAT, RASTER_BACKEND);
      trace := trace + [images];
      assert trace == old(trace) + [fullText, split, images];
      if c.imageFiles.None? {
        return false;
      }
      var imageFiles := c.imageFiles.value;
      ok := WriteAltoFiles(singlePagePdfs, imageFiles, f.alto, c);
      if !ok {
        return;
      }
      counter := Wrap(counter + Max(|singlePagePdfs|, |imageFiles|));
      ok := DeleteExtraImages(imageFiles, c);
    }

    /** The ALTO loop: PDF i is paired with image i, if there is one. */
    method WriteAltoFiles(pdfs: seq<Path>, images: seq<Path>, folder: Path, c: PdfConversion) returns (ok: bool)
      modifies this`trace
      ensures ok == !AltoFails(c, |pdfs|)
      ensures trace == old(trace) + AltoCalls(pdfs, images, folder, AltoCount(c, |pdfs|))
    {
      var i: nat := 0;
      while i < |pdfs|
        invariant i <= |pdfs|
        invariant c.altoFailsAt.Some? ==> c.altoFailsAt.value >= i
        invariant trace == old(trace) + AltoCalls(pdfs, images, folder, i)
      {
        var imageFile := if i < |images| then Some(images[i]) else None;
        trace := trace + [Alto(pdfs[i], folder, imageFile)];
        if c.altoFailsAt == Some(i) {
          return false;
        }
        i := i + 1;
      }
      return true;
    }

    /** The cleanup: every image but the first is deleted. */
    method DeleteExtraImages(images: seq<Path>, c: PdfConversion) returns (ok: bool)
      modifies this`trace
      ensures ok == !DeleteFails(c, |images|)
      ensures trace == old(trace) + Deletions(images, DeleteCount(c, |images|))
    {
      if |images| > 1 {
        var j: nat := 1;
        while j < |images|
          invariant 1 <= j <= |images|
          invariant c.deleteFailsAt.Some? && 1 <= c.deleteFailsAt.value ==> c.deleteFailsAt.value >= j
          invariant trace == old(trace) + Deletions(images, j)
        {
          trace := trace + [Delete(images[j])];
          if c.deleteFailsAt == Some(j) {
            return false;
          }
          j := j + 1;
        }
      }
      return true;
    }

    /** The argument list for the EPUB command: the template with `{input}` and `{output}` filled in. */
    method BuildParams(source: Path, destination: Path) returns (params: seq<string>)
      ensures params == EpubArgs(epubCall, source, destination)
    {
      params := [];
      var i := 0;
      while i < |epubCall|
        invariant 0 <= i <= |epubCall|
        invariant params == EpubArgs(epubCall[..i], source, destination)
      {
        var param := epubCall[i];
        assert epubCall[..i + 1][..i] == epubCall[..i];
        if param == INPUT {
          params := params + [source];
        } else if param == OUTPUT {
          params := params + [destination];
        } else {
          params := params + [param];
        }
        i := i + 1;
      }
      assert epubCall[..i] == epubCall;
    }

    /** The EPUB branch of the loop; whatever the launch does, run() goes on. */
    method ConvertEpub(source: Path, name: string, textFolder: Path, launch: Launch) returns (exit: EpubExit)
      modifies this`trace
      ensures trace == old(trace) + [Exec(EpubArgs(epubCall, source, EpubDestination(textFolder, name)))]
      ensures exit == LaunchOutcome(EpubArgs(epubCall, source, EpubDestination(textFolder, name)), launch)
    {
      var destination := Join(textFolder, ReplaceAll(name, ".epub", ".txt"));
      var params := BuildParams(source, destination);
      trace := trace + [Exec(params)];
      exit := LaunchOutcome(params, launch);
    }

    /** The four folder checks, stopping at the first creation that throws. */
    method CreateFolders(folders: Folders, dirs: Directories) returns (ok: bool)
      modifies this`trace
      ensures ok == Setup(folders, dirs).ok
      ensures trace == old(trace) + Setup(folders, dirs).events
    {
      ok := CreateIfAbsent(folders.text, dirs.text);
      if !ok {
        return;
      }
      ok := CreateIfAbsent(folders.pdf, dirs.pdf);
      if !ok {
        return;
      }
      ok := CreateIfAbsent(folders.alto, dirs.alto);
      if !ok {
        return;
      }
      ok := CreateIfAbsent(folders.images, dirs.images);
    }

    /** The body of the loop over the listing: dispatch one file by its lower-cased name. */
    method HandleFile(job: Job, folders: Folders, source: Entry) returns (ok: bool)
      requires folders == OutputFolders(job)
      modifies this
      ensures ok == FileStep(job, epubCall, source, old(counter)).ok
      ensures trace == old(trace) + FileStep(job, epubCall, source, old(counter)).events
      ensures counter == FileStep(job, epubCall, source, old(counter)).counter
    {
      var kind := Dispatch(source.name);
      if kind == Pdf {
        ok := ConvertPdf(SourcePath(job, source.name), folders, source.conversion);
      } else if kind == Epub {
        var exit := ConvertEpub(SourcePath(job, source.name), source.name, folders.text, source.launch);
        ok := true;
      } else {
        ok := true;
      }
    }

    method Run(job: Job, env: Environment) returns (status: PluginReturnValue)
      modifies this
      ensures status == RunSpec(job, epubCall, env).status
      ensures trace == old(trace) + RunSpec(job, epubCall, env).events
      ensures counter == RunSpec(job, epubCall, env).counter
    {
      counter := 1;
      match env.listing
      case ListingFailed =>
        status := Error;
      case NoListing =>
        status := Finish;
      case Listed(originalFiles) =>
        if originalFiles == [] {
          status := Finish;
        } else {
          status := RunListed(job, originalFiles, env.dirs);
        }
    }

    /** The folder setup and the loop, once the listing has files. */
    method RunListed(job: Job, files: seq<Entry>, dirs: Directories) returns (status: PluginReturnValue)
      requires counter == 1
      modifies this
      ensures status == ListedRun(job, epubCall, files, dirs).status
      ensures trace == old(trace) + ListedRun(job, epubCall, files, dirs).events
      ensures counter == ListedRun(job, epubCall, files, dirs).counter
    {
      var folders := OutputFolders(job);
      var ok := CreateFolders(folders, dirs);
      if ok {
        ok := HandleFiles(job, folders, files);
      }
      status := if ok then Finish else Error;
    }

    /**
     * The loop over the listing, from counter 1. The source returns ERROR from inside the
     * loop at the first file that fails; here the loop stops there and reports it.
     */
    method HandleFiles(job: Job, folders: Folders, files: seq<Entry>) returns (ok: bool)
      requires folders == OutputFolders(job) && counter == 1
      modifies this
      ensures ok == !Loop(Handle(job, epubCall), files, |files|).failed
      ensures trace == old(trace) + Loop(Handle(job, epubCall), files, |files|).events
      ensures counter == Loop(Handle(job, epubCall), files, |files|).counter
    {
      var i := 0;
      ok := true;
      while i < |files| && ok
        invariant 0 <= i <= |files|
        invariant ok == !Loop(Handle(job, epubCall), files, i).failed
        invariant trace == old(trace) + Loop(Handle(job, epubCall), files, i).events
        invariant counter == Loop(Handle(job, epubCall), files, i).counter
      {
        ghost var before := Loop(Handle(job, epubCall), files, i);
        ghost var step := FileStep(job, epubCall, files[i], before.counter);
        assert Loop(Handle(job, epubCall), files, i + 1) == Progress(before.events + step.events, step.counter, !step.ok);
        ok := HandleFile(job, folders, files[i]);
        AppendAssociative(old(trace), before.events, step.events);
        i := i + 1;
      }
      if !ok {
        LoopFailureIsFinal(Handle(job, epubCall), files, i, |files|);
      }
    }

    /** execute(): true unless run() returns ERROR. */
    method Execute(job: Job, env: Environment) returns (success: bool)
      modifies this
      ensures success <==> RunSpec(job, epubCall, env).status != Error
      ensures trace == old(trace) + RunSpec(job, epubCall, env).events
    {
      var ret := Run(job, env);
      success := ret != Error;
    }
  }

  // Properties of run().

  /** A listing failure is an error with no effect; a missing or empty listing finishes with no effect. */
  lemma EarlyExits(job: Job, call: seq<string>, env: Environment)
    ensures env.listing.ListingFailed? ==> RunSpec(job, call, env).status == Error && RunSpec(job, call, env).events == []
    ensures env.listing.NoListing? || env.listing == Listed([]) ==>
      RunSpec(job, call, env).status == Finish && RunSpec(job, call, env).events == []
  {
  }

  /**
   * With a non-empty listing, the absent folders among text, pdf, alto and
   * `<images directory>/<title>_thumbs` are created, in that order, before any file is handled.
   */
  lemma RunCreatesMissingFolders(job: Job, call: seq<string>, env: Environment)
    requires env.listing.Listed? && env.listing.entries != []
    requires Uncreatable !in [env.dirs.text, env.dirs.pdf, env.dirs.alto, env.dirs.images]
    ensures var setup := Setup(OutputFolders(job), env.dirs);
      RunSpec(job, call, env).events == setup.events + Loop(Handle(job, call), env.listing.entries, |env.listing.entries|).events &&
      Created(setup.events) ==
        Needed(job.ocrTxtDirectory, env.dirs.text) + Needed(job.ocrPdfDirectory, env.dirs.pdf) +
        Needed(job.ocrAltoDirectory, env.dirs.alto) + Needed(Join(job.imagesDirectory, job.title + "_thumbs"), env.dirs.images)
  {
    SetupCreatesOnlyMissing(OutputFolders(job), env.dirs);
  }

  /**
   * run() returns ERROR exactly when the listing fails, or the listing has files and a folder
   * cannot be created or a file fails; otherwise FINISH.
   */
  lemma RunFailsIff(job: Job, call: seq<string>, env: Environment)
    ensures RunSpec(job, call, env).status == Error <==>
      env.listing.ListingFailed? ||
      (env.listing.Listed? && env.listing.entries != [] &&
       (!Setup(OutputFolders(job), env.dirs).ok || Loop(Handle(job, call), env.listing.entries, |env.listing.entries|).failed))
  {
  }

  /** A folder that cannot be created ends the run with ERROR before any source file is touched. */
  lemma FolderFailureStopsRun(job: Job, call: seq<string>, env: Environment)
    requires env.listing.Listed? && env.listing.entries != []
    requires Uncreatable in [env.dirs.text, env.dirs.pdf, env.dirs.alto, env.dirs.images]
    ensures RunSpec(job, call, env).status == Error
    ensures forall e | e in RunSpec(job, call, env).events :: e.CreateDir?
  {
    SetupCreatesOnlyMissing(OutputFolders(job), env.dirs);
  }

  /** Full text is written first from page `start`, then the single pages (numbered from 1), then the images from `start`. */
  lemma PdfCallOrder(source: Path, f: Folders, start: int, c: PdfConversion)
    ensures var r := PdfSteps(source, f, start, c);
      |r.events| >= 1 && r.events[0] == FullText(source, f.text, ENCODING, start) &&
      (c.fullText ==> |r.events| >= 2 && r.events[1] == Split(source, f.pdf, 1)) &&
      (c.fullText && c.singlePagePdfs.Some? ==>
        |r.events| >= 3 && r.events[2] == Images(source, f.images, start, DPI, IMAGE_FORMAT, RASTER_BACKEND))
  {
  }

  /** The PDF handler succeeds exactly when none of its calls throws. */
  lemma PdfSucceedsIffNothingThrows(source: Path, f: Folders, start: int, c: PdfConversion)
    ensures PdfSteps(source, f, start, c).ok <==> ReachesCleanup(c) && !DeleteFails(c, |c.imageFiles.value|)
  {
  }

  /** The counter grows by the larger of the two file counts once every ALTO call has returned, and not otherwise. */
  lemma PdfCounter(source: Path, f: Folders, start: int, c: PdfConversion)
    ensures PdfSteps(source, f, start, c).counter == if ReachesCleanup(c) then Wrap(start + Pages(c)) else start
  {
  }

  /** The cleanup loop deletes images 1 .. n - 1, in order, and issues no ALTO call. */
  lemma {:induction false} DeletionsAt(images: seq<Path>, n: nat)
    requires n <= |images|
    ensures Deleted(Deletions(images, n)) == if n <= 1 then [] else images[1..n]
    ensures Altos(Deletions(images, n)) == []
  {
    if n > 1 {
      var prev := Deletions(images, n - 1);
      DeletionsAt(images, n - 1);
      DeletedAppend(prev, [Delete(images[n - 1])]);
      AltosAppend(prev, [Delete(images[n - 1])]);
      assert n - 1 > 1 ==> images[1..n - 1] + [images[n - 1]] == images[1..n];
    }
  }

  /** The calls before the ALTO loop neither pair nor delete anything. */
  lemma PreludeHasNoAltoOrDelete(source: Path, f: Folders, start: int, c: PdfConversion)
    ensures Altos(PdfPrelude(source, f, start, c).events) == []
    ensures Deleted(PdfPrelude(source, f, start, c).events) == []
  {
    NoAltoOrDelete(PdfPrelude(source, f, start, c).events);
  }

  /** What the cleanup loop runs after the ALTO loop: nothing if an ALTO call threw. */
  function CleanupEvents(c: PdfConversion, pdfs: seq<Path>, images: seq<Path>): seq<Event> {
    if AltoFails(c, |pdfs|) then [] else Deletions(images, DeleteCount(c, |images|))
  }

  /** Once both file lists exist, the handler's trace is the prelude, the ALTO calls, then the cleanup. */
  lemma PdfStepsShape(source: Path, f: Folders, start: int, c: PdfConversion)
    requires c.fullText && c.singlePagePdfs.Some? && c.imageFiles.Some?
    ensures var pdfs := c.singlePagePdfs.value;
      var images := c.imageFiles.value;
      PdfSteps(source, f, start, c).events ==
        PdfPrelude(source, f, start, c).events + AltoCalls(pdfs, images, f.alto, AltoCount(c, |pdfs|)) +
        CleanupEvents(c, pdfs, images)
  {
    var pdfs := c.singlePagePdfs.value;
    var paired := PdfPrelude(source, f, start, c).events + AltoCalls(pdfs, c.imageFiles.value, f.alto, AltoCount(c, |pdfs|));
    assert paired + [] == paired;
  }

  /** The cleanup neither pairs anything nor deletes image 0, and deletes images 1 .. n - 1 in order. */
  lemma CleanupEventsAt(c: PdfConversion, pdfs: seq<Path>, images: seq<Path>)
    ensures Altos(CleanupEvents(c, pdfs, images)) == []
    ensures var n := DeleteCount(c, |images|);
      Deleted(CleanupEvents(c, pdfs, images)) == if AltoFails(c, |pdfs|) || n <= 1 then [] else images[1..n]
  {
    if !AltoFails(c, |pdfs|) {
      DeletionsAt(images, DeleteCount(c, |images|));
    }
  }

  /** Once both file lists exist, the ALTO calls of the handler are exactly those of the pairing loop. */
  lemma PdfAltos(source: Path, f: Folders, start: int, c: PdfConversion)
    requires c.fullText && c.singlePagePdfs.Some? && c.imageFiles.Some?
    ensures var pdfs := c.singlePagePdfs.value;
      Altos(PdfSteps(source, f, start, c).events) == AltoCalls(pdfs, c.imageFiles.value, f.alto, AltoCount(c, |pdfs|))
  {
    var pdfs := c.singlePagePdfs.value;
    var images := c.imageFiles.value;
    var prelude := PdfPrelude(source, f, start, c).events;
    var calls := AltoCalls(pdfs, images, f.alto, AltoCount(c, |pdfs|));
    var cleanup := CleanupEvents(c, pdfs, images);
    PdfStepsShape(source, f, start, c);
    PreludeHasNoAltoOrDelete(source, f, start, c);
    AltoCallsOnly(pdfs, images, f.alto, AltoCount(c, |pdfs|));
    CleanupEventsAt(c, pdfs, images);
    AltosAppend(prelude, calls);
    AltosAppend(prelude + calls, cleanup);
  }

  /** Once both file lists exist, the deletions of the handler are exactly those of the cleanup. */
  lemma PdfDeletions(source: Path, f: Folders, start: int, c: PdfConversion)
    requires c.fullText && c.singlePagePdfs.Some? && c.imageFiles.Some?
    ensures Deleted(PdfSteps(source, f, start, c).events) == Deleted(CleanupEvents(c, c.singlePagePdfs.value, c.imageFiles.value))
  {
    var pdfs := c.singlePagePdfs.value;
    var images := c.imageFiles.value;
    var prelude := PdfPrelude(source, f, start, c).events;
    var calls := AltoCalls(pdfs, images, f.alto, AltoCount(c, |pdfs|));
    var cleanup := CleanupEvents(c, pdfs, images);
    PdfStepsShape(source, f, start, c);
    PreludeHasNoAltoOrDelete(source, f, start, c);
    AltoCallsOnly(pdfs, images, f.alto, AltoCount(c, |pdfs|));
    DeletedAppend(prelude, calls);
    DeletedAppend(prelude + calls, cleanup);
  }

  /**
   * ALTO pairing: once both lists exist, the handler makes one ALTO call per single-page PDF,
   * in order (up to the one that throws), and call i pairs PDF i with image i if there is one.
   */
  lemma PdfAltoPairing(source: Path, f: Folders, start: int, c: PdfConversion)
    requires c.fullText && c.singlePagePdfs.Some? && c.imageFiles.Some?
    ensures var r := PdfSteps(source, f, start, c);
      var pdfs := c.singlePagePdfs.value;
      var images := c.imageFiles.value;
      var n := AltoCount(c, |pdfs|);
      |Altos(r.events)| == n && (r.ok ==> n == |pdfs|) &&
      forall i | 0 <= i < n :: Altos(r.events)[i] == Alto(pdfs[i], f.alto, if i < |images| then Some(images[i]) else None)
  {
    PdfAltos(source, f, start, c);
    AltoCallsAt(c.singlePagePdfs.value, c.imageFiles.value, f.alto, AltoCount(c, |c.singlePagePdfs.value|));
  }

  /**
   * Cleanup: a PDF handled to the end has deleted exactly images 1 .. |images| - 1, in order
   * (nothing when there is at most one image); nothing is deleted before every ALTO call has
   * returned, and image 0 is never deleted.
   */
  lemma PdfCleanup(source: Path, f: Folders, start: int, c: PdfConversion)
    requires c.imageFiles.Some?
    ensures var r := PdfSteps(source, f, start, c);
      var images := c.imageFiles.value;
      (r.ok ==> Deleted(r.events) == if |images| <= 1 then [] else images[1..]) &&
      (!ReachesCleanup(c) ==> Deleted(r.events) == []) &&
      (|images| > 0 && images[0] !in images[1..] ==> images[0] !in Deleted(r.events))
  {
    var images := c.imageFiles.value;
    PreludeHasNoAltoOrDelete(source, f, start, c);
    if c.fullText && c.singlePagePdfs.Some? {
      PdfDeletions(source, f, start, c);
      CleanupEventsAt(c, c.singlePagePdfs.value, images);
      var n := DeleteCount(c, |images|);
      if n > 1 {
        assert forall x | x in images[1..n] :: x in images[1..];
      }
    }
  }

  /** A file handled without failure advances the counter by its pages if it is a PDF, and leaves it alone otherwise. */
  lemma FileStepCounter(job: Job, call: seq<string>, e: Entry, counter: int)
    ensures var step := FileStep(job, call, e, counter);
      step.ok ==> step.counter == if Dispatch(e.name) == Pdf then Wrap(counter + Pages(e.conversion)) else counter
  {
    if Dispatch(e.name) == Pdf {
      PdfCounter(SourcePath(job, e.name), OutputFolders(job), counter, e.conversion);
      PdfSucceedsIffNothingThrows(SourcePath(job, e.name), OutputFolders(job), counter, e.conversion);
    }
  }

  /** The loop body advances the counter as LoopCounter requires: by a PDF's pages, and not for any other file. */
  lemma HandleAdvancesByPages(job: Job, call: seq<string>)
    ensures forall e, counter :: Handle(job, call)(e, counter).ok ==>
      Handle(job, call)(e, counter).counter == if Dispatch(e.name) == Pdf then Wrap(counter + Pages(e.conversion)) else counter
  {
    forall e, counter
      ensures Handle(job, call)(e, counter).ok ==>
        Handle(job, call)(e, counter).counter == if Dispatch(e.name) == Pdf then Wrap(counter + Pages(e.conversion)) else counter
    {
      FileStepCounter(job, call, e, counter);
    }
  }

  /** After the first `n` files without failure, the counter is 1 plus the pages of the PDFs among them (as a Java int). */
  lemma CounterTracksPages(job: Job, call: seq<string>, entries: seq<Entry>, n: nat)
    requires n <= |entries| && !Loop(Handle(job, call), entries, n).failed
    ensures Loop(Handle(job, call), entries, n).counter == Wrap(1 + PagesOf(entries, n))
  {
    HandleAdvancesByPages(job, call);
    LoopCounter(Handle(job, call), entries, n);
  }

  /** Without overflow, the counter never decreases from one file to a later one. */
  lemma CounterNeverDecreases(job: Job, call: seq<string>, entries: seq<Entry>, j: nat, k: nat)
    requires j <= k <= |entries| && !Loop(Handle(job, call), entries, k).failed
    requires 1 + PagesOf(entries, |entries|) <= MAX
    ensures Loop(Handle(job, call), entries, j).counter <= Loop(Handle(job, call), entries, k).counter
  {
    HandleAdvancesByPages(job, call);
    LoopCounterNeverDecreases(Handle(job, call), entries, j, k);
  }

  /**
   * The k-th listed file, if a PDF reached without failure, has its full text and its images
   * numbered from 1 plus the pages of the PDFs before it.
   */
  lemma PdfStartIndex(job: Job, call: seq<string>, entries: seq<Entry>, k: nat)
    requires k < |entries| && Dispatch(entries[k].name) == Pdf
    requires !Loop(Handle(job, call), entries, k).failed
    ensures var before := Loop(Handle(job, call), entries, k).events;
      var after := Loop(Handle(job, call), entries, k + 1).events;
      var source := SourcePath(job, entries[k].name);
      var start := Wrap(1 + PagesOf(entries, k));
      var c := entries[k].conversion;
      |after| > |before| && after[|before|] == FullText(source, OutputFolders(job).text, ENCODING, start) &&
      (c.fullText && c.singlePagePdfs.Some? ==>
        |after| > |before| + 2 && after[|before| + 2] == Images(source, OutputFolders(job).images, start, DPI, IMAGE_FORMAT, RASTER_BACKEND))
  {
    CounterTracksPages(job, call, entries, k);
    var start := Loop(Handle(job, call), entries, k).counter;
    PdfCallOrder(SourcePath(job, entries[k].name), OutputFolders(job), start, entries[k].conversion);
  }

  /** A PDF that fails ends the run with ERROR: nothing listed after it is handled. */
  lemma PdfFailureIsFatal(job: Job, call: seq<string>, env: Environment, k: nat)
    requires env.listing.Listed? && k < |env.listing.entries|
    requires Setup(OutputFolders(job), env.dirs).ok
    requires !Loop(Handle(job, call), env.listing.entries, k).failed
    requires Dispatch(env.listing.entries[k].name) == Pdf
    requires !PdfSteps(SourcePath(job, env.listing.entries[k].name), OutputFolders(job),
                       Loop(Handle(job, call), env.listing.entries, k).counter, env.listing.entries[k].conversion).ok
    ensures RunSpec(job, call, env).status == Error
    ensures RunSpec(job, call, env).events ==
      Setup(OutputFolders(job), env.dirs).events + Loop(Handle(job, call), env.listing.entries, k + 1).events
  {
    LoopFailureIsFinal(Handle(job, call), env.listing.entries, k + 1, |env.listing.entries|);
  }

  /** An EPUB never stops the run, whatever its launch does: the command is issued and the loop goes on. */
  lemma EpubFailureIsSwallowed(job: Job, call: seq<string>, entries: seq<Entry>, k: nat)
    requires k < |entries| && Dispatch(entries[k].name) == Epub
    requires !Loop(Handle(job, call), entries, k).failed
    ensures var before := Loop(Handle(job, call), entries, k);
      var after := Loop(Handle(job, call), entries, k + 1);
      var source := SourcePath(job, entries[k].name);
      !after.failed && after.counter == before.counter &&
      after.events == before.events + [Exec(EpubArgs(call, source, EpubDestination(OutputFolders(job).text, entries[k].name)))]
  {
  }

  /** A file that is neither a PDF nor an EPUB has no effect and leaves the counter alone. */
  lemma OtherFilesAreSkipped(job: Job, call: seq<string>, entries: seq<Entry>, k: nat)
    requires k < |entries| && Dispatch(entries[k].name) == Other
    ensures Loop(Handle(job, call), entries, k + 1) == Loop(Handle(job, call), entries, k)
  {
    var before := Loop(Handle(job, call), entries, k);
    assert before.events + [] == before.events;
  }

  // Properties of the EPUB command.

  /**
   * The argument list has the template's length; `{input}` becomes the source, `{output}`
   * the destination, and every other token is copied in place.
   */
  lemma {:induction false} EpubArgsAt(template: seq<string>, input: Path, output: Path)
    ensures |EpubArgs(template, input, output)| == |template|
    ensures forall i | 0 <= i < |template| && template[i] == INPUT :: EpubArgs(template, input, output)[i] == input
    ensures forall i | 0 <= i < |template| && template[i] == OUTPUT :: EpubArgs(template, input, output)[i] == output
    ensures forall i | 0 <= i < |template| && template[i] != INPUT && template[i] != OUTPUT ::
      EpubArgs(template, input, output)[i] == template[i]
  {
    if template != [] {
      EpubArgsAt(template[..|template| - 1], input, output);
    }
  }

  /** A name ending in ".epub" is converted into the same base name with ".txt". */
  lemma EpubDestinationOfEpubName(textFolder: Path, base: string)
    requires !Contains(base, ".epub")
    ensures EpubDestination(textFolder, base + ".epub") == Join(textFolder, base + ".txt")
  {
    ReplaceEpubSuffix(base);
    ReplaceAllWithoutMatch(base, ".epub", ".txt");
  }

  /**
   * The replacement is case-sensitive while the dispatch is not: "X.EPUB" goes to the EPUB
   * handler but its destination keeps the name "X.EPUB".
   */
  lemma UpperCaseEpubKeepsName(textFolder: Path, base: string)
    requires !Contains(base, ".epub")
    ensures Dispatch(base + ".EPUB") == Epub
    ensures EpubDestination(textFolder, base + ".EPUB") == Join(textFolder, base + ".EPUB")
  {
    DispatchBySuffix(base);
    var s := base + ".EPUB";
    forall i: nat
      ensures !OccursAt(s, ".epub", i)
    {
      if i + 5 <= |s| {
        if i + 5 <= |base| {
          assert s[i..i + 5] == base[i..i + 5];
          assert !OccursAt(base, ".epub", i);
        } else {
          assert s[i + 4] in ".EPUB";
          assert s[i..i + 5][4] == s[i + 4];
        }
      }
    }
    assert !Contains(s, ".epub");
    ReplaceAllWithoutMatch(s, ".epub", ".txt");
  }

  /** "vol.1.EPUB" keeps its name: a dot in the base makes no difference. */
  lemma UpperCaseEpubExample(textFolder: Path)
    ensures EpubDestination(textFolder, "vol.1.EPUB") == Join(textFolder, "vol.1.EPUB")
  {
    var base := "vol.1";
    forall i: nat
      ensures !OccursAt(base, ".epub", i)
    {
    }
    UpperCaseEpubKeepsName(textFolder, base);
    assert base + ".EPUB" == "vol.1.EPUB";
  }

  /** The command ["convert", "{input}", "{output}"] on "<base>.epub" runs convert on the source into "<text folder>/<base>.txt". */
  lemma EpubCommandExample(job: Job, base: string)
    requires !Contains(base, ".epub")
    ensures var source := SourcePath(job, base + ".epub");
      EpubArgs(["convert", INPUT, OUTPUT], source, EpubDestination(OutputFolders(job).text, base + ".epub"))
        == ["convert", source, Join(job.ocrTxtDirectory, base + ".txt")]
  {
    var source := SourcePath(job, base + ".epub");
    var destination := EpubDestination(OutputFolders(job).text, base + ".epub");
    EpubDestinationOfEpubName(OutputFolders(job).text, base);
    EpubArgsAt(["convert", INPUT, OUTPUT], source, destination);
  }

  /** As written, the launch escapes run() exactly when the configured template is empty. */
  lemma EmptyTemplateEscapes(template: seq<string>, input: Path, output: Path, launch: Launch)
    ensures LaunchAsWritten(EpubArgs(template, input, output), launch) == Escaped <==> template == []
  {
    EpubArgsAt(template, input, output);
  }
}
