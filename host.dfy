/**
 * What the step sees of its host: the job's directory accessors, the outcomes of the
 * storage, converter and process calls (supplied per source file as oracles), the
 * dispatch of a source file by its extension, and the step's return value.
 */
module Host {
  import opened Strings

  datatype Option<T> = None | Some(value: T)

  type Path = string

  /** The accessors of the job (`Process`) the step reads; all are given strings. */
  datatype Job = Job(
    imagesTifDirectory: Path,   // getImagesTifDirectory(false): the source folder
    ocrTxtDirectory: Path,      // getOcrTxtDirectory()
    ocrPdfDirectory: Path,      // getOcrPdfDirectory()
    ocrAltoDirectory: Path,     // getOcrAltoDirectory()
    imagesDirectory: Path,      // getImagesDirectory()
    thumbsDirectory: Path,      // getThumbsDirectory()
    title: string)              // getTitel()

  /** The four output folders of one run. */
  datatype Folders = Folders(text: Path, pdf: Path, alto: Path, images: Path)

  /** What the storage reports for one output folder: it exists, or creating it succeeds or throws. */
  datatype DirState = Present | Creatable | Uncreatable

  datatype Directories = Directories(text: DirState, pdf: DirState, alto: DirState, images: DirState)

  /**
   * What the PDF converter and the storage do with one source PDF: whether
   * `writeFullText` returns, the files `writeSinglePagePdfs` and `writeImages` return
   * (None: the call throws), the index of the `writeAltoFile` call that throws and the
   * index of the image whose `deleteFile` throws, if any.
   */
  datatype PdfConversion = PdfConversion(
    fullText: bool,
    singlePagePdfs: Option<seq<Path>>,
    imageFiles: Option<seq<Path>>,
    altoFailsAt: Option<nat>,
    deleteFailsAt: Option<nat>)

  /** What launching the EPUB command yields: the process is started and waited for, or `start` or `waitFor` throws. */
  datatype Launch = Exited | StartFailed | Interrupted

  /** One entry of the source listing, with the outcomes the external calls give for it. */
  datatype Entry = Entry(name: string, conversion: PdfConversion, launch: Launch)

  /** `StorageProvider.listFiles`: it throws, returns null, or returns the files in order. */
  datatype Listing = ListingFailed | NoListing | Listed(entries: seq<Entry>)

  datatype Environment = Environment(listing: Listing, dirs: Directories)

  /** `PluginReturnValue` as far as run() returns it. */
  datatype PluginReturnValue = Finish | Error

  datatype Kind = Pdf | Epub | Other

  /** The handler a source file goes to, by the end of the lower-cased file name. */
  function Dispatch(name: string): Kind {
    if LowerEndsWith(name, ".pdf") then Pdf
    else if LowerEndsWith(name, ".epub") then Epub
    else Other
  }

  function Max(a: nat, b: nat): nat {
    if a < b then b else a
  }

  /** The number of page positions a converted PDF takes: the larger of its two file lists. */
  function Pages(c: PdfConversion): nat {
    if c.singlePagePdfs.Some? && c.imageFiles.Some? then Max(|c.singlePagePdfs.value|, |c.imageFiles.value|) else 0
  }

  /** The page positions the first `n` listed files take, in listing order (only PDFs take any). */
  function PagesOf(entries: seq<Entry>, n: nat): nat
    requires n <= |entries|
  {
    if n == 0 then 0
    else PagesOf(entries, n - 1) + (if Dispatch(entries[n - 1].name) == Pdf then Pages(entries[n - 1].conversion) else 0)
  }

  /** The dispatch is `toLowerCase().endsWith(".pdf")`, then `.endsWith(".epub")`, as in the loop of run(). */
  lemma DispatchByLowerCaseName(name: string)
    ensures Dispatch(name) ==
      if EndsWith(Lower(name), ".pdf") then Pdf else if EndsWith(Lower(name), ".epub") then Epub else Other
  {
    LowerEndsWithIsEndsWithLower(name, ".pdf");
    LowerEndsWithIsEndsWithLower(name, ".epub");
  }

  /** Dispatch does not depend on the case of the name. */
  lemma DispatchIgnoresCase(name: string)
    ensures Dispatch(Lower(name)) == Dispatch(name)
  {
    DispatchByLowerCaseName(name);
    DispatchByLowerCaseName(Lower(name));
    LowerIdempotent(name);
  }

  /** A name whose last characters lower-case to `target` ends with `target` once lower-cased. */
  lemma LowerEndsWithAppend(base: string, suffix: string, target: string)
    requires Lower(suffix) == target
    ensures LowerEndsWith(base + suffix, target)
  {
    LowerAppend(base, suffix);
    var l := Lower(base + suffix);
    assert l[|l| - |target|..] == target;
    LowerEndsWithIsEndsWithLower(base + suffix, target);
  }

  /** A name ending in ".pdf" in any mix of case goes to the PDF handler, ".epub" to the EPUB handler. */
  lemma DispatchBySuffix(base: string)
    ensures Dispatch(base + ".pdf") == Pdf && Dispatch(base + ".PDF") == Pdf && Dispatch(base + ".Pdf") == Pdf
    ensures Dispatch(base + ".epub") == Epub && Dispatch(base + ".EPUB") == Epub
  {
    assert Lower(".pdf") == ".pdf" && Lower(".PDF") == ".pdf" && Lower(".Pdf") == ".pdf";
    assert Lower(".epub") == ".epub" && Lower(".EPUB") == ".epub";
    LowerEndsWithAppend(base, ".pdf", ".pdf");
    LowerEndsWithAppend(base, ".PDF", ".pdf");
    LowerEndsWithAppend(base, ".Pdf", ".pdf");
    LowerEndsWithAppend(base, ".epub", ".epub");
    LowerEndsWithAppend(base, ".EPUB", ".epub");
    assert (base + ".epub")[|base| + 4] == 'b' && (base + ".EPUB")[|base| + 4] == 'B';
  }

  /** The page positions of a shorter prefix of the listing never exceed those of a longer one. */
  lemma {:induction false} PagesOfMonotone(entries: seq<Entry>, j: nat, k: nat)
    requires j <= k <= |entries|
    ensures PagesOf(entries, j) <= PagesOf(entries, k)
    decreases k
  {
    if j < k {
      PagesOfMonotone(entries, j, k - 1);
    }
  }
}
