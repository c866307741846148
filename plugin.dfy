/**
 * run() and execute() of the plugin variant of the fulltext-generation step: list the
 * job's source files, create the four output folders, then send each PDF to the
 * converter (full text, images, single pages, ALTO). An EPUB is recognised but left
 * alone, and nothing is ever deleted.
 */
module Plugin {
  import opened Strings
  import opened JavaInt
  import opened Host
  import opened Effects

  /** The text, pdf and alto folders of the job, and `<thumbs directory>/<title>_media`. */
  function OutputFolders(job: Job): Folders {
    Folders(job.ocrTxtDirectory, job.ocrPdfDirectory, job.ocrAltoDirectory, Join(job.thumbsDirectory, job.title + "_media"))
  }

  // The PDF handler.

  /** The three converter calls before the ALTO loop, in this variant's order, up to the first that throws. */
  function PdfPrelude(source: Path, f: Folders, start: int, c: PdfConversion): (r: Stage)
    ensures r.ok <==> c.fullText && c.imageFiles.Some? && c.singlePagePdfs.Some?
  {
    var fullText := FullText(source, f.text, ENCODING, start);
    var images := Images(source, f.images, start, DPI, IMAGE_FORMAT, RASTER_BACKEND);
    var split := Split(source, f.pdf, 1);
    if !c.fullText then Stage([fullText], false)
    else if c.imageFiles.None? then Stage([fullText, images], false)
    else Stage([fullText, images, split], c.singlePagePdfs.Some?)
  }

  /** The calls the PDF handler makes for one source, starting at page `start`, up to the first that throws. */
  function PdfSteps(source: Path, f: Folders, start: int, c: PdfConversion): FileRun {
    var prelude := PdfPrelude(source, f, start, c);
    if !prelude.ok then FileRun(prelude.events, false, start)
    else
      var pdfs := c.singlePagePdfs.value;
      var images := c.imageFiles.value;
      var paired := prelude.events + AltoCalls(pdfs, images, f.alto, AltoCount(c, |pdfs|));
      if AltoFails(c, |pdfs|) then FileRun(paired, false, start)
      else FileRun(paired, true, Wrap(start + Max(|pdfs|, |images|)))
  }

  // run().

  /** The handling of one listed file, given the counter before it: the EPUB branch is empty. */
  function FileStep(job: Job, e: Entry, counter: int): FileRun {
    match Dispatch(e.name)
    case Pdf => PdfSteps(SourcePath(job, e.name), OutputFolders(job), counter, e.conversion)
    case Epub | Other => FileRun([], true, counter)
  }

  /** The body of run()'s loop, with the job fixed. */
  function Handle(job: Job): Handler {
    (e, counter) => FileStep(job, e, counter)
  }

  /** What run() returns and does, with the host's answers `env`. */
  function RunSpec(job: Job, env: Environment): RunResult {
    match env.listing
    case ListingFailed => RunResult(Error, [], 1)
    case NoListing => RunResult(Finish, [], 1)
    case Listed(entries) => if entries == [] then RunResult(Finish, [], 1) else ListedRun(job, entries, env.dirs)
  }

  /** run() after a non-empty listing: the folder setup, then the loop over the files. */
  function ListedRun(job: Job, entries: seq<Entry>, dirs: Directories): RunResult {
    var setup := Setup(OutputFolders(job), dirs);
    if !setup.ok then RunResult(Error, setup.events, 1)
    else
      var progress := Loop(Handle(job), entries, |entries|);
      RunResult(if progress.failed then Error else Finish, setup.events + progress.events, progress.counter)
  }

  /** The step. `counter` is run()'s page counter and `trace` the calls run() has made, oldest first. */
  class FulltextGenerationStepPlugin {
    var counter: int
    var trace: seq<Event>

    constructor ()
      ensures trace == [] && counter == 1
    {
      counter := 1;
      trace := [];
    }

    /** Creates the folder if the storage does not have it. */
    method CreateIfAbsent(path: Path, state: DirState) returns (ok: bool)
      modifies this`trace
      ensures ok == EnsureDirectory(path, state).ok
      ensures trace == old(trace) + EnsureDirectory(path, state).events
    {
      ok := true;
      if state != Present {
        trace := trace + [CreateDir(path)];
        ok := state == Creatable;
      }
    }

    /** The four folder checks, stopping at the first creation that throws. */
    method CreateFolders(folders: Folders, dirs: Directories) returns (ok: bool)
      modifies this`trace
      ensures ok == Setup(folders, dirs).ok
      ensures trace == old(trace) + Setup(folders, dirs).events
    {
      ok := CreateIfAbsent(folders.text, dirs.text);
      if !ok {
        return;
      }
      ok := CreateIfAbsent(folders.pdf, dirs.pdf);
      if !ok {
        return;
      }
      ok := CreateIfAbsent(folders.alto, dirs.alto);
      if !ok {
        return;
      }
      ok := CreateIfAbsent(folders.images, dirs.images);
    }

    /** The PDF branch of the loop. */
    method ConvertPdf(source: Path, f: Folders, c: PdfConversion) returns (ok: bool)
      modifies this
      ensures ok == PdfSteps(source, f, old(counter), c).ok
      ensures trace == old(trace) + PdfSteps(source, f, old(counter), c).events
      ensures counter == PdfSteps(source, f, old(counter), c).counter
    {
      var start := counter;
      var fullText := FullText(source, f.text, ENCODING, start);
      trace := trace + [fullText];
      if !c.fullText {
        return false;
      }
      var images := Images(source, f.images, start, DPI, IMAGE_FORMAT, RASTER_BACKEND);
      trace := trace + [images];
      if c.imageFiles.None? {
        assert trace == old(trace) + [fullText, images];
        return false;
      }
      var imageFiles := c.imageFiles.value;
      var split := Split(source, f.pdf, 1);
      trace := trace + [split];
      assert trace == old(trace) + [fullText, images, split];
      if c.singlePagePdfs.None? {
        return false;
      }
      var singlePagePdfs := c.singlePagePdfs.value;
      ok := WriteAltoFiles(singlePagePdfs, imageFiles, f.alto, c);
      if !ok {
        return;
      }
      counter := Wrap(counter + Max(|singlePagePdfs|, |imageFiles|));
    }

    /** The ALTO loop: PDF i is paired with image i, if there is one. */
    method WriteAltoFiles(pdfs: seq<Path>, images: seq<Path>, folder: Path, c: PdfConversion) returns (ok: bool)
      modifies this`trace
      ensures ok == !AltoFails(c, |pdfs|)
      ensures trace == old(trace) + AltoCalls(pdfs, images, folder, AltoCount(c, |pdfs|))
    {
      var i: nat := 0;
      while i < |pdfs|
        invariant i <= |pdfs|
        invariant c.altoFailsAt.Some? ==> c.altoFailsAt.value >= i
        invariant trace == old(trace) + AltoCalls(pdfs, images, folder, i)
      {
        var imageFile := if i < |images| then Some(images[i]) else None;
        trace := trace + [Alto(pdfs[i], folder, imageFile)];
        if c.altoFailsAt == Some(i) {
          return false;
        }
        i := i + 1;
      }
      return true;
    }

    /** The body of the loop over the listing: a PDF is converted, anything else is passed over. */
    method HandleFile(job: Job, folders: Folders, source: Entry) returns (ok: bool)
      requires folders == OutputFolders(job)
      modifies this
      ensures ok == FileStep(job, source, old(counter)).ok
      ensures trace == old(trace) + FileStep(job, source, old(counter)).events
      ensures counter == FileStep(job, source, old(counter)).counter
    {
      if Dispatch(source.name) == Pdf {
        ok := ConvertPdf(SourcePath(job, source.name), folders, source.conversion);
      } else {
        ok := true;
      }
    }

    method Run(job: Job, env: Environment) returns (status: PluginReturnValue)
      modifies this
      ensures status == RunSpec(job, env).status
      ensures trace == old(trace) + RunSpec(job, env).events
      ensures counter == RunSpec(job, env).counter
    {
      counter := 1;
      match env.listing
      case ListingFailed =>
        status := Error;
      case NoListing =>
        status := Finish;
      case Listed(originalFiles) =>
        if originalFiles == [] {
          status := Finish;
        } else {
          status := RunListed(job, originalFiles, env.dirs);
        }
    }

    /** The folder setup and the loop, once the listing has files. */
    method RunListed(job: Job, files: seq<Entry>, dirs: Directories) returns (status: PluginReturnValue)
      requires counter == 1
      modifies this
      ensures status == ListedRun(job, files, dirs).status
      ensures trace == old(trace) + ListedRun(job, files, dirs).events
      ensures counter == ListedRun(job, files, dirs).counter
    {
      var folders := OutputFolders(job);
      var ok := CreateFolders(folders, dirs);
      if ok {
        ok := HandleFiles(job, folders, files);
      }
      status := if ok then Finish else Error;
    }

    /**
     * The loop over the listing, from counter 1. The source returns ERROR from inside the
     * loop at the first PDF that fails; here the loop stops there and reports it.
     */
    method HandleFiles(job: Job, folders: Folders, files: seq<Entry>) returns (ok: bool)
      requires folders == OutputFolders(job) && counter == 1
      modifies this
      ensures ok == !Loop(Handle(job), files, |files|).failed
      ensures trace == old(trace) + Loop(Handle(job), files, |files|).events
      ensures counter == Loop(Handle(job), files, |files|).counter
    {
      var i := 0;
      ok := true;
      while i < |files| && ok
        invariant 0 <= i <= |files|
        invariant ok == !Loop(Handle(job), files, i).failed
        invariant trace == old(trace) + Loop(Handle(job), files, i).events
        invariant counter == Loop(Handle(job), files, i).counter
      {
        ghost var before := Loop(Handle(job), files, i);
        ghost var step := FileStep(job, files[i], before.counter);
        assert Loop(Handle(job), files, i + 1) == Progress(before.events + step.events, step.counter, !step.ok);
        ok := HandleFile(job, folders, files[i]);
        AppendAssociative(old(trace), before.events, step.events);
        i := i + 1;
      }
      if !ok {
        LoopFailureIsFinal(Handle(job), files, i, |files|);
      }
    }

    /** execute(): true unless run() returns ERROR. */
    method Execute(job: Job, env: Environment) returns (success: bool)
      modifies this
      ensures success <==> RunSpec(job, env).status != Error
      ensures trace == old(trace) + RunSpec(job, env).events
    {
      var ret := Run(job, env);
      success := ret != Error;
    }
  }

  // Properties of run().

  /** A listing failure is an error with no effect; a missing or empty listing finishes with no effect. */
  lemma EarlyExits(job: Job, env: Environment)
    ensures env.listing.ListingFailed? ==> RunSpec(job, env).status == Error && RunSpec(job, env).events == []
    ensures env.listing.NoListing? || env.listing == Listed([]) ==>
      RunSpec(job, env).status == Finish && RunSpec(job, env).events == []
  {
  }

  /**
   * With a non-empty listing, the absent folders among text, pdf, alto and
   * `<thumbs directory>/<title>_media` are created, in that order, before any file is handled.
   */
  lemma RunCreatesMissingFolders(job: Job, env: Environment)
    requires env.listing.Listed? && env.listing.entries != []
    requires Uncreatable !in [env.dirs.text, env.dirs.pdf, env.dirs.alto, env.dirs.images]
    ensures var setup := Setup(OutputFolders(job), env.dirs);
      RunSpec(job, env).events == setup.events + Loop(Handle(job), env.listing.entries, |env.listing.entries|).events &&
      Created(setup.events) ==
        Needed(job.ocrTxtDirectory, env.dirs.text) + Needed(job.ocrPdfDirectory, env.dirs.pdf) +
        Needed(job.ocrAltoDirectory, env.dirs.alto) + Needed(Join(job.thumbsDirectory, job.title + "_media"), env.dirs.images)
  {
    SetupCreatesOnlyMissing(OutputFolders(job), env.dirs);
  }

  /**
   * run() returns ERROR exactly when the listing fails, or the listing has files and a folder
   * cannot be created or a file fails; otherwise FINISH.
   */
  lemma RunFailsIff(job: Job, env: Environment)
    ensures RunSpec(job, env).status == Error <==>
      env.listing.ListingFailed? ||
      (env.listing.Listed? && env.listing.entries != [] &&
       (!Setup(OutputFolders(job), env.dirs).ok || Loop(Handle(job), env.listing.entries, |env.listing.entries|).failed))
  {
  }

  /** A folder that cannot be created ends the run with ERROR before any source file is touched. */
  lemma FolderFailureStopsRun(job: Job, env: Environment)
    requires env.listing.Listed? && env.listing.entries != []
    requires Uncreatable in [env.dirs.text, env.dirs.pdf, env.dirs.alto, env.dirs.images]
    ensures RunSpec(job, env).status == Error
    ensures forall e | e in RunSpec(job, env).events :: e.CreateDir?
  {
    SetupCreatesOnlyMissing(OutputFolders(job), env.dirs);
  }

  /** Full text is written first from page `start`, then the images from `start`, then the single pages (numbered from 1). */
  lemma PdfCallOrder(source: Path, f: Folders, start: int, c: PdfConversion)
    ensures var r := PdfSteps(source, f, start, c);
      |r.events| >= 1 && r.events[0] == FullText(source, f.text, ENCODING, start) &&
      (c.fullText ==> |r.events| >= 2 && r.events[1] == Images(source, f.images, start, DPI, IMAGE_FORMAT, RASTER_BACKEND)) &&
      (c.fullText && c.imageFiles.Some? ==> |r.events| >= 3 && r.events[2] == Split(source, f.pdf, 1))
  {
  }

  /** The PDF handler succeeds exactly when none of its calls throws. */
  lemma PdfSucceedsIffNothingThrows(source: Path, f: Folders, start: int, c: PdfConversion)
    ensures PdfSteps(source, f, start, c).ok <==>
      c.fullText && c.imageFiles.Some? && c.singlePagePdfs.Some? && !AltoFails(c, |c.singlePagePdfs.value|)
  {
  }

  /** The counter grows by the larger of the two file counts when the handler succeeds, and not otherwise. */
  lemma PdfCounter(source: Path, f: Folders, start: int, c: PdfConversion)
    ensures var r := PdfSteps(source, f, start, c);
      r.counter == if r.ok then Wrap(start + Pages(c)) else start
  {
  }

  /** The calls before the ALTO loop neither pair nor delete anything. */
  lemma PreludeHasNoAltoOrDelete(source: Path, f: Folders, start: int, c: PdfConversion)
    ensures Altos(PdfPrelude(source, f, start, c).events) == []
    ensures Deleted(PdfPrelude(source, f, start, c).events) == []
  {
    NoAltoOrDelete(PdfPrelude(source, f, start, c).events);
  }

  /** Once both file lists exist, the ALTO calls of the handler are exactly those of the pairing loop, and nothing is deleted. */
  lemma PdfAltos(source: Path, f: Folders, start: int, c: PdfConversion)
    requires c.fullText && c.singlePagePdfs.Some? && c.imageFiles.Some?
    ensures var pdfs := c.singlePagePdfs.value;
      Altos(PdfSteps(source, f, start, c).events) == AltoCalls(pdfs, c.imageFiles.value, f.alto, AltoCount(c, |pdfs|))
  {
    var pdfs := c.singlePagePdfs.value;
    var images := c.imageFiles.value;
    var prelude := PdfPrelude(source, f, start, c).events;
    var calls := AltoCalls(pdfs, images, f.alto, AltoCount(c, |pdfs|));
    PreludeHasNoAltoOrDelete(source, f, start, c);
    AltoCallsOnly(pdfs, images, f.alto, AltoCount(c, |pdfs|));
    AltosAppend(prelude, calls);
  }

  /**
   * ALTO pairing: once both lists exist, the handler makes one ALTO call per single-page PDF,
   * in order (up to the one that throws), and call i pairs PDF i with image i if there is one.
   */
  lemma PdfAltoPairing(source: Path, f: Folders, start: int, c: PdfConversion)
    requires c.fullText && c.singlePagePdfs.Some? && c.imageFiles.Some?
    ensures var r := PdfSteps(source, f, start, c);
      var pdfs := c.singlePagePdfs.value;
      var images := c.imageFiles.value;
      var n := AltoCount(c, |pdfs|);
      |Altos(r.events)| == n && (r.ok ==> n == |pdfs|) &&
      forall i | 0 <= i < n :: Altos(r.events)[i] == Alto(pdfs[i], f.alto, if i < |images| then Some(images[i]) else None)
  {
    PdfAltos(source, f, start, c);
    AltoCallsAt(c.singlePagePdfs.value, c.imageFiles.value, f.alto, AltoCount(c, |c.singlePagePdfs.value|));
  }

  /** The PDF handler never deletes a file, whatever its calls do. */
  lemma PdfDeletesNothing(source: Path, f: Folders, start: int, c: PdfConversion)
    ensures Deleted(PdfSteps(source, f, start, c).events) == []
  {
    var prelude := PdfPrelude(source, f, start, c).events;
    PreludeHasNoAltoOrDelete(source, f, start, c);
    if c.fullText && c.singlePagePdfs.Some? && c.imageFiles.Some? {
      var pdfs := c.singlePagePdfs.value;
      var calls := AltoCalls(pdfs, c.imageFiles.value, f.alto, AltoCount(c, |pdfs|));
      AltoCallsOnly(pdfs, c.imageFiles.value, f.alto, AltoCount(c, |pdfs|));
      DeletedAppend(prelude, calls);
    }
  }

  /** No file of the listing, whatever it is, leads to a deletion. */
  lemma {:induction false} LoopDeletesNothing(job: Job, entries: seq<Entry>, n: nat)
    requires n <= |entries|
    ensures Deleted(Loop(Handle(job), entries, n).events) == []
    decreases n
  {
    if n > 0 {
      var before := Loop(Handle(job), entries, n - 1);
      LoopDeletesNothing(job, entries, n - 1);
      if !before.failed {
        var e := entries[n - 1];
        var step := FileStep(job, e, before.counter);
        if Dispatch(e.name) == Pdf {
          PdfDeletesNothing(SourcePath(job, e.name), OutputFolders(job), before.counter, e.conversion);
        }
        DeletedAppend(before.events, step.events);
      }
    }
  }

  /** run() deletes nothing: the generated images are all kept. */
  lemma RunDeletesNothing(job: Job, env: Environment)
    ensures Deleted(RunSpec(job, env).events) == []
  {
    if env.listing.Listed? && env.listing.entries != [] {
      var entries := env.listing.entries;
      var setup := Setup(OutputFolders(job), env.dirs);
      SetupCreatesOnlyMissing(OutputFolders(job), env.dirs);
      NoAltoOrDelete(setup.events);
      LoopDeletesNothing(job, entries, |entries|);
      DeletedAppend(setup.events, Loop(Handle(job), entries, |entries|).events);
    }
  }

  /** A file handled without failure advances the counter by its pages if it is a PDF, and leaves it alone otherwise. */
  lemma FileStepCounter(job: Job, e: Entry, counter: int)
    ensures var step := FileStep(job, e, counter);
      step.ok ==> step.counter == if Dispatch(e.name) == Pdf then Wrap(counter + Pages(e.conversion)) else counter
  {
    if Dispatch(e.name) == Pdf {
      PdfCounter(SourcePath(job, e.name), OutputFolders(job), counter, e.conversion);
      PdfSucceedsIffNothingThrows(SourcePath(job, e.name), OutputFolders(job), counter, e.conversion);
    }
  }

  /** The loop body advances the counter as LoopCounter requires: by a PDF's pages, and not for any other file. */
  lemma HandleAdvancesByPages(job: Job)
    ensures forall e, counter :: Handle(job)(e, counter).ok ==>
      Handle(job)(e, counter).counter == if Dispatch(e.name) == Pdf then Wrap(counter + Pages(e.conversion)) else counter
  {
    forall e, counter
      ensures Handle(job)(e, counter).ok ==>
        Handle(job)(e, counter).counter == if Dispatch(e.name) == Pdf then Wrap(counter + Pages(e.conversion)) else counter
    {
      FileStepCounter(job, e, counter);
    }
  }

  /** After the first `n` files without failure, the counter is 1 plus the pages of the PDFs among them (as a Java int). */
  lemma CounterTracksPages(job: Job, entries: seq<Entry>, n: nat)
    requires n <= |entries| && !Loop(Handle(job), entries, n).failed
    ensures Loop(Handle(job), entries, n).counter == Wrap(1 + PagesOf(entries, n))
  {
    HandleAdvancesByPages(job);
    LoopCounter(Handle(job), entries, n);
  }

  /** Without overflow, the counter never decreases from one file to a later one. */
  lemma CounterNeverDecreases(job: Job, entries: seq<Entry>, j: nat, k: nat)
    requires j <= k <= |entries| && !Loop(Handle(job), entries, k).failed
    requires 1 + PagesOf(entries, |entries|) <= MAX
    ensures Loop(Handle(job), entries, j).counter <= Loop(Handle(job), entries, k).counter
  {
    HandleAdvancesByPages(job);
    LoopCounterNeverDecreases(Handle(job), entries, j, k);
  }

  /**
   * The k-th listed file, if a PDF reached without failure, has its full text and its images
   * numbered from 1 plus the pages of the PDFs before it.
   */
  lemma PdfStartIndex(job: Job, entries: seq<Entry>, k: nat)
    requires k < |entries| && Dispatch(entries[k].name) == Pdf
    requires !Loop(Handle(job), entries, k).failed
    ensures var before := Loop(Handle(job), entries, k).events;
      var after := Loop(Handle(job), entries, k + 1).events;
      var source := SourcePath(job, entries[k].name);
      var start := Wrap(1 + PagesOf(entries, k));
      var c := entries[k].conversion;
      |after| > |before| && after[|before|] == FullText(source, OutputFolders(job).text, ENCODING, start) &&
      (c.fullText ==>
        |after| > |before| + 1 && after[|before| + 1] == Images(source, OutputFolders(job).images, start, DPI, IMAGE_FORMAT, RASTER_BACKEND))
  {
    CounterTracksPages(job, entries, k);
    var start := Loop(Handle(job), entries, k).counter;
    PdfCallOrder(SourcePath(job, entries[k].name), OutputFolders(job), start, entries[k].conversion);
  }

  /** A PDF that fails ends the run with ERROR: nothing listed after it is handled. */
  lemma PdfFailureIsFatal(job: Job, env: Environment, k: nat)
    requires env.listing.Listed? && k < |env.listing.entries|
    requires Setup(OutputFolders(job), env.dirs).ok
    requires !Loop(Handle(job), env.listing.entries, k).failed
    requires Dispatch(env.listing.entries[k].name) == Pdf
    requires !PdfSteps(SourcePath(job, env.listing.entries[k].name), OutputFolders(job),
                       Loop(Handle(job), env.listing.entries, k).counter, env.listing.entries[k].conversion).ok
    ensures RunSpec(job, env).status == Error
    ensures RunSpec(job, env).events ==
      Setup(OutputFolders(job), env.dirs).events + Loop(Handle(job), env.listing.entries, k + 1).events
  {
    LoopFailureIsFinal(Handle(job), env.listing.entries, k + 1, |env.listing.entries|);
  }

  /** An EPUB, like any file that is not a PDF, has no effect and leaves the counter alone. */
  lemma NonPdfFilesAreSkipped(job: Job, entries: seq<Entry>, k: nat)
    requires k < |entries| && Dispatch(entries[k].name) != Pdf
    ensures Loop(Handle(job), entries, k + 1) == Loop(Handle(job), entries, k)
  {
    var before := Loop(Handle(job), entries, k);
    assert before.events + [] == before.events;
  }
}
