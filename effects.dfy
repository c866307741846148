/**
 * The effects run() has on its surroundings, recorded as a trace, and the parts of
 * run() both variants share: the output-directory setup, the ALTO loop and the loop over the listing.
 */
module Effects {
  import opened Strings
  import opened JavaInt
  import opened Host

  // The arguments both variants pass to the converter.
  const ENCODING: string := "utf-8"
  const DPI: int := 300
  const IMAGE_FORMAT: string := "tif"
  const RASTER_BACKEND: string := "ghostscript"

  /** The path of a listed source file: its name under the job's source folder. */
  function SourcePath(job: Job, name: string): Path {
    Join(job.imagesTifDirectory, name)
  }

  /** One call on the storage, the PDF converter or the process launcher, with its arguments. */
  datatype Event =
    | CreateDir(path: Path)
    | FullText(source: Path, folder: Path, encoding: string, start: int)
    | Split(source: Path, folder: Path, first: int)
    | Images(source: Path, folder: Path, start: int, dpi: int, format: string, backend: string)
    | Alto(pdf: Path, folder: Path, image: Option<Path>)
    | Delete(file: Path)
    | Exec(args: seq<string>)

  /** The events of a stretch of run() and whether it ended normally. */
  datatype Stage = Stage(events: seq<Event>, ok: bool)

  /** The events of handling one source file, whether it ended normally, and the counter afterwards. */
  datatype FileRun = FileRun(events: seq<Event>, ok: bool, counter: int)

  /** The state after a prefix of the listing: the events so far, the counter, and whether a file failed. */
  datatype Progress = Progress(events: seq<Event>, counter: int, failed: bool)

  /** What run() returns, everything it did, and the final counter value. */
  datatype RunResult = RunResult(status: PluginReturnValue, events: seq<Event>, counter: int)

  /** Running `b` after `a`, unless `a` already failed. */
  function Then(a: Stage, b: Stage): Stage {
    if a.ok then Stage(a.events + b.events, b.ok) else a
  }

  /** `if (!isFileExists(folder)) createDirectories(folder)`. */
  function EnsureDirectory(path: Path, state: DirState): Stage {
    match state
    case Present => Stage([], true)
    case Creatable => Stage([CreateDir(path)], true)
    case Uncreatable => Stage([CreateDir(path)], false)
  }

  /** The four checks of the directory setup, in source order, stopping at the first failure. */
  function Setup(f: Folders, d: Directories): Stage {
    Then(Then(Then(EnsureDirectory(f.text, d.text), EnsureDirectory(f.pdf, d.pdf)),
              EnsureDirectory(f.alto, d.alto)),
         EnsureDirectory(f.images, d.images))
  }

  /** The image paired with the i-th single-page PDF, if there is one. */
  function PairedImage(images: seq<Path>, i: nat): Option<Path> {
    if i < |images| then Some(images[i]) else None
  }

  /** One of the ALTO calls throws. */
  predicate AltoFails(c: PdfConversion, pdfCount: nat) {
    c.altoFailsAt.Some? && c.altoFailsAt.value < pdfCount
  }

  /** The number of ALTO calls made: all of them, or up to and including the one that throws. */
  function AltoCount(c: PdfConversion, pdfCount: nat): (r: nat)
    ensures r <= pdfCount
  {
    if AltoFails(c, pdfCount) then c.altoFailsAt.value + 1 else pdfCount
  }

  /** The first `n` ALTO calls of the pairing loop. */
  function AltoCalls(pdfs: seq<Path>, images: seq<Path>, folder: Path, n: nat): seq<Event>
    requires n <= |pdfs|
  {
    if n == 0 then [] else AltoCalls(pdfs, images, folder, n - 1) + [Alto(pdfs[n - 1], folder, PairedImage(images, n - 1))]
  }

  /** What handling one listed file does, given the counter before it. */
  type Handler = (Entry, int) -> FileRun

  /**
   * The loop over the listing after its first `n` files: the counter starts at 1, each file
   * goes to `handle` with the current counter, and the first failure ends the loop.
   */
  function Loop(handle: Handler, entries: seq<Entry>, n: nat): Progress
    requires n <= |entries|
  {
    if n == 0 then Progress([], 1, false)
    else
      var before := Loop(handle, entries, n - 1);
      if before.failed then before
      else
        var step := handle(entries[n - 1], before.counter);
        Progress(before.events + step.events, step.counter, !step.ok)
  }

  /** Regrouping a trace: what the loop appends after a prefix. */
  lemma AppendAssociative(a: seq<Event>, b: seq<Event>, c: seq<Event>)
    ensures a + (b + c) == (a + b) + c
  {
  }

  /** Once a file has failed, the files after it change nothing. */
  lemma {:induction false} LoopFailureIsFinal(handle: Handler, entries: seq<Entry>, k: nat, n: nat)
    requires k <= n <= |entries| && Loop(handle, entries, k).failed
    ensures Loop(handle, entries, n) == Loop(handle, entries, k)
    decreases n
  {
    if k < n {
      LoopFailureIsFinal(handle, entries, k, n - 1);
    }
  }

  /**
   * With a handler that, when it succeeds, advances the counter by the pages of a PDF and
   * leaves it alone for any other file, the counter after `n` files without failure is
   * 1 plus the pages of the PDFs among them, as a Java int.
   */
  lemma {:induction false} LoopCounter(handle: Handler, entries: seq<Entry>, n: nat)
    requires forall e, c :: handle(e, c).ok ==>
      handle(e, c).counter == if Dispatch(e.name) == Pdf then Wrap(c + Pages(e.conversion)) else c
    requires n <= |entries| && !Loop(handle, entries, n).failed
    ensures Loop(handle, entries, n).counter == Wrap(1 + PagesOf(entries, n))
    decreases n
  {
    if n > 0 {
      var last := entries[n - 1];
      LoopCounter(handle, entries, n - 1);
      if Dispatch(last.name) == Pdf {
        WrapAbsorbs(1 + PagesOf(entries, n - 1), Pages(last.conversion));
      }
    }
  }

  /** Without overflow, the counter never decreases along the listing. */
  lemma LoopCounterNeverDecreases(handle: Handler, entries: seq<Entry>, j: nat, k: nat)
    requires forall e, c :: handle(e, c).ok ==>
      handle(e, c).counter == if Dispatch(e.name) == Pdf then Wrap(c + Pages(e.conversion)) else c
    requires j <= k <= |entries| && !Loop(handle, entries, k).failed
    requires 1 + PagesOf(entries, |entries|) <= MAX
    ensures Loop(handle, entries, j).counter <= Loop(handle, entries, k).counter
  {
    if Loop(handle, entries, j).failed {
      LoopFailureIsFinal(handle, entries, j, k);
    }
    LoopCounter(handle, entries, j);
    LoopCounter(handle, entries, k);
    PagesOfMonotone(entries, j, k);
    PagesOfMonotone(entries, k, |entries|);
    assert Wrap(1 + PagesOf(entries, j)) == 1 + PagesOf(entries, j) by {
      assert InRange(1 + PagesOf(entries, j));
    }
    assert Wrap(1 + PagesOf(entries, k)) == 1 + PagesOf(entries, k) by {
      assert InRange(1 + PagesOf(entries, k));
    }
  }

  // Projections of a trace.

  /** The directories created, in order. */
  function Created(events: seq<Event>): seq<Path> {
    if events == [] then []
    else (if events[0].CreateDir? then [events[0].path] else []) + Created(events[1..])
  }

  /** The ALTO calls, in order. */
  function Altos(events: seq<Event>): seq<Event> {
    if events == [] then []
    else (if events[0].Alto? then [events[0]] else []) + Altos(events[1..])
  }

  /** The files deleted, in order. */
  function Deleted(events: seq<Event>): seq<Path> {
    if events == [] then []
    else (if events[0].Delete? then [events[0].file] else []) + Deleted(events[1..])
  }

  lemma {:induction false} CreatedAppend(a: seq<Event>, b: seq<Event>)
    ensures Created(a + b) == Created(a) + Created(b)
  {
    if a == [] {
      assert a + b == b;
    } else {
      assert (a + b)[0] == a[0] && (a + b)[1..] == a[1..] + b;
      CreatedAppend(a[1..], b);
    }
  }

  lemma {:induction false} AltosAppend(a: seq<Event>, b: seq<Event>)
    ensures Altos(a + b) == Altos(a) + Altos(b)
  {
    if a == [] {
      assert a + b == b;
    } else {
      assert (a + b)[0] == a[0] && (a + b)[1..] == a[1..] + b;
      AltosAppend(a[1..], b);
    }
  }

  lemma {:induction false} DeletedAppend(a: seq<Event>, b: seq<Event>)
    ensures Deleted(a + b) == Deleted(a) + Deleted(b)
  {
    if a == [] {
      assert a + b == b;
    } else {
      assert (a + b)[0] == a[0] && (a + b)[1..] == a[1..] + b;
      DeletedAppend(a[1..], b);
    }
  }

  /** A trace without ALTO calls or deletions projects to nothing. */
  lemma {:induction false} NoAltoOrDelete(events: seq<Event>)
    requires forall e | e in events :: !e.Alto? && !e.Delete?
    ensures Altos(events) == [] && Deleted(events) == []
  {
    if events != [] {
      assert events[0] in events;
      assert forall e | e in events[1..] :: e in events;
      NoAltoOrDelete(events[1..]);
    }
  }

  /**
   * The directory setup succeeds exactly when no folder is uncreatable; it only creates
   * folders, and when it succeeds it has created exactly the absent ones, in source order.
   */
  lemma SetupCreatesOnlyMissing(f: Folders, d: Directories)
    ensures Setup(f, d).ok <==> Uncreatable !in [d.text, d.pdf, d.alto, d.images]
    ensures forall e | e in Setup(f, d).events :: e.CreateDir?
    ensures Setup(f, d).ok ==>
      Created(Setup(f, d).events) == Needed(f.text, d.text) + Needed(f.pdf, d.pdf) + Needed(f.alto, d.alto) + Needed(f.images, d.images)
  {
    var s1 := EnsureDirectory(f.text, d.text);
    var s2 := Then(s1, EnsureDirectory(f.pdf, d.pdf));
    var s3 := Then(s2, EnsureDirectory(f.alto, d.alto));
    ThenCreates(Stage([], true), f.text, d.text);
    assert Then(Stage([], true), s1) == s1;
    ThenCreates(s1, f.pdf, d.pdf);
    ThenCreates(s2, f.alto, d.alto);
    ThenCreates(s3, f.images, d.images);
  }

  /** The directory one check creates: the folder if the storage does not have it. */
  function Needed(path: Path, state: DirState): seq<Path> {
    if state == Present then [] else [path]
  }

  /** One more directory check after a stage adds at most that directory. */
  lemma ThenCreates(a: Stage, path: Path, state: DirState)
    requires forall e | e in a.events :: e.CreateDir?
    ensures Then(a, EnsureDirectory(path, state)).ok == (a.ok && state != Uncreatable)
    ensures forall e | e in Then(a, EnsureDirectory(path, state)).events :: e.CreateDir?
    ensures a.ok ==> Created(Then(a, EnsureDirectory(path, state)).events) == Created(a.events) + Needed(path, state)
  {
    var events := EnsureDirectory(path, state).events;
    CreatedAppend(a.events, events);
    if events != [] {
      assert events[1..] == [];
    }
  }

  /** The ALTO loop issues one call per single-page PDF, in order, pairing it with the image at the same position. */
  lemma {:induction false} AltoCallsAt(pdfs: seq<Path>, images: seq<Path>, folder: Path, n: nat)
    requires n <= |pdfs|
    ensures |AltoCalls(pdfs, images, folder, n)| == n
    ensures forall i | 0 <= i < n ::
      AltoCalls(pdfs, images, folder, n)[i] == Alto(pdfs[i], folder, if i < |images| then Some(images[i]) else None)
  {
    if n > 0 {
      AltoCallsAt(pdfs, images, folder, n - 1);
    }
  }

  /** A trace of ALTO calls only is its own ALTO projection and deletes nothing. */
  lemma {:induction false} OnlyAltos(events: seq<Event>)
    requires forall e | e in events :: e.Alto?
    ensures Altos(events) == events && Deleted(events) == []
  {
    if events != [] {
      assert events[0] in events;
      assert forall e | e in events[1..] :: e in events;
      OnlyAltos(events[1..]);
      assert events == [events[0]] + events[1..];
    }
  }

  /** Every event of the ALTO loop is an ALTO call. */
  lemma {:induction false} AltoCallsAreAltos(pdfs: seq<Path>, images: seq<Path>, folder: Path, n: nat)
    requires n <= |pdfs|
    ensures forall e | e in AltoCalls(pdfs, images, folder, n) :: e.Alto?
  {
    if n > 0 {
      AltoCallsAreAltos(pdfs, images, folder, n - 1);
    }
  }

  /** The ALTO loop makes ALTO calls only, and deletes nothing. */
  lemma AltoCallsOnly(pdfs: seq<Path>, images: seq<Path>, folder: Path, n: nat)
    requires n <= |pdfs|
    ensures Altos(AltoCalls(pdfs, images, folder, n)) == AltoCalls(pdfs, images, folder, n)
    ensures Deleted(AltoCalls(pdfs, images, folder, n)) == []
  {
    AltoCallsAreAltos(pdfs, images, folder, n);
    OnlyAltos(AltoCalls(pdfs, images, folder, n));
  }
}
