# Fulltext generation step, modelled in Dafny

This project models `run()` and `execute()` of the Goobi workflow step that generates full
text, single-page PDFs, ALTO files and page images from a job's source files. The step exists
in two variants, one per source file:

- `module-base/.../FulltextGenerationStepPlugin.java` (module `ModuleBase`): the PDFs are split,
  rendered to images under `<images directory>/<title>_thumbs`, paired page by page into ALTO
  files, and all images but the first are deleted; an EPUB is handed to a configured command
  line whose `{input}` and `{output}` tokens are filled in.
- `plugin/.../FulltextGenerationStepPlugin.java` (module `Plugin`): the images are rendered
  before the split, into `<thumbs directory>/<title>_media`; nothing is deleted and an EPUB is
  left alone.

## How the model is built

- `Strings` holds the Java string work on file names: ASCII `toLowerCase`, `endsWith`,
  `String.replace` and the `Paths.get` join. `JavaInt` holds the 32-bit wrap-around of the
  `MutableInt` page counter. `Host` holds what the step sees of its host: the job's directory
  accessors, the dispatch by lower-cased suffix, and the outcomes of the external calls.
- The external calls are oracles given per listed file (`Entry`): whether `writeFullText`
  returns, which file lists `writeSinglePagePdfs` and `writeImages` return (or that they throw),
  the index of the ALTO call and of the deletion that throw, and how the EPUB process launch
  ends. `Environment` gives the listing (throws, null, or files) and the state of each folder.
- `Effects` records every call the step makes, including the one that throws, as an event of
  a trace. It defines what both variants share: the folder setup, the ALTO loop and the loop
  over the listing (`Loop`, for any loop body), with its lemmas proved once.
- Each variant has pure functions stating what one PDF (`PdfSteps`), one file (`FileStep`)
  and the whole run (`RunSpec`) do. It also has a class `FulltextGenerationStepPlugin` with the
  page counter and the trace as fields. The class's methods follow the source's statements and
  loops, and each method's `ensures` ties its new state to those functions. The properties are
  lemmas about the functions.
- An early `return ERROR` from inside the loop is modelled as the loop stopping at that file
  and `run()` then returning ERROR. `Effects.LoopFailureIsFinal` shows that the later files
  change nothing.

The code does some things a reader might not expect. The model follows the code in each:

- Output folders are created only when the listing has files (module-base line 144, plugin
  line 137). An empty source folder creates no folder.
- `writeSinglePagePdfs` always receives 1 as its first page (module-base line 178, plugin line
  173), not the counter.
- In the plugin variant, `_media` is placed under the thumbs directory (line 146), not the
  images directory. Its EPUB branch is empty (lines 189-191), so no command is run.
- The dispatch ignores case, but the ".epub" to ".txt" replacement does not. `X.EPUB` is
  handed to the command with its own name as destination (`ModuleBase.UpperCaseEpubKeepsName`).
- The cleanup does not always leave exactly one image per PDF. An ALTO call that throws skips
  the cleanup entirely. A deletion that throws stops it part-way. Exactly one image remains
  only when no call throws, including no deletion, and the image paths are distinct.
- One exception to following the code: when the configured EPUB command is empty, the model
  uses the corrected launch from "## Findings", not the code as written.

## Model

| member | source | states |
|---|---|---|
| Strings.LowerEndsWithIsEndsWithLower | module-base/src/main/java/de/intranda/goobi/plugins/FulltextGenerationStepPlugin.java:175 | the backward, character-by-character suffix test used by the dispatch holds exactly when the lower-cased name ends with the suffix |
| Strings.ReplaceAllWithoutMatch | module-base/src/main/java/de/intranda/goobi/plugins/FulltextGenerationStepPlugin.java:207 | `String.replace` leaves a name in which ".epub" does not occur unchanged |
| Strings.ReplaceEpubSuffix | module-base/src/main/java/de/intranda/goobi/plugins/FulltextGenerationStepPlugin.java:207 | replacing ".epub" in `base + ".epub"` replaces the base on its own and turns the final extension into ".txt" |
| JavaInt.Wrap | module-base/src/main/java/de/intranda/goobi/plugins/FulltextGenerationStepPlugin.java:190 | the value stored by `counter.add` is a 32-bit int, and equals the exact sum when the sum fits |
| JavaInt.WrapAbsorbs | module-base/src/main/java/de/intranda/goobi/plugins/FulltextGenerationStepPlugin.java:190 | wrapping after every addition gives the same counter as wrapping the total once |
| Host.DispatchByLowerCaseName | module-base/src/main/java/de/intranda/goobi/plugins/FulltextGenerationStepPlugin.java:175-205 | a file goes to the PDF handler iff its lower-cased name ends with ".pdf", otherwise to the EPUB handler iff it ends with ".epub", otherwise nowhere |
| Host.DispatchIgnoresCase | module-base/src/main/java/de/intranda/goobi/plugins/FulltextGenerationStepPlugin.java:175 | the handler chosen for a name does not depend on its case |
| Host.DispatchBySuffix | module-base/src/main/java/de/intranda/goobi/plugins/FulltextGenerationStepPlugin.java:175-205 | names ending in ".pdf", ".PDF", ".Pdf" go to the PDF handler and ".epub", ".EPUB" to the EPUB handler, whatever precedes the suffix |
| Host.PagesOfMonotone | module-base/src/main/java/de/intranda/goobi/plugins/FulltextGenerationStepPlugin.java:190 | the page positions taken by a prefix of the listing never exceed those of a longer prefix |
| Effects.SetupCreatesOnlyMissing | module-base/src/main/java/de/intranda/goobi/plugins/FulltextGenerationStepPlugin.java:154-170 | the folder setup succeeds iff no folder is uncreatable, only creates folders, and on success has created exactly the absent ones among text, pdf, alto, images, in that order |
| Effects.ThenCreates | module-base/src/main/java/de/intranda/goobi/plugins/FulltextGenerationStepPlugin.java:154-165 | one more `isFileExists`/`createDirectories` check adds at most its own folder, and fails iff the creation throws |
| Effects.LoopFailureIsFinal | module-base/src/main/java/de/intranda/goobi/plugins/FulltextGenerationStepPlugin.java:199-202 | once a file has failed (run() has returned ERROR), later files add no event and change nothing |
| Effects.LoopCounter | module-base/src/main/java/de/intranda/goobi/plugins/FulltextGenerationStepPlugin.java:172-190 | for a loop body that advances the counter by a PDF's pages and leaves it alone otherwise, the counter after n files is 1 plus the pages of the PDFs among them, as a Java int |
| Effects.LoopCounterNeverDecreases | module-base/src/main/java/de/intranda/goobi/plugins/FulltextGenerationStepPlugin.java:134-190 | without overflow, the counter after a shorter prefix of the listing is at most the counter after a longer one |
| Effects.AltoCallsAt | module-base/src/main/java/de/intranda/goobi/plugins/FulltextGenerationStepPlugin.java:182-189 | the ALTO loop makes one call per single-page PDF; call i pairs PDF i with image i when i < |images|, and with no image otherwise |
| Effects.AltoCallsOnly | module-base/src/main/java/de/intranda/goobi/plugins/FulltextGenerationStepPlugin.java:182-189 | the ALTO loop issues ALTO calls only and deletes nothing |
| Effects.OnlyAltos | module-base/src/main/java/de/intranda/goobi/plugins/FulltextGenerationStepPlugin.java:182-189 | a trace made only of ALTO calls projects to itself and deletes nothing |
| ModuleBase.PdfPrelude | module-base/src/main/java/de/intranda/goobi/plugins/FulltextGenerationStepPlugin.java:177-181 | the full-text, split and image calls all return iff the converter yields text, single pages and images |
| ModuleBase.LaunchOutcome | module-base/src/main/java/de/intranda/goobi/plugins/FulltextGenerationStepPlugin.java:219-230 | the corrected launch never lets an exception escape run(), and completes iff the command is non-empty and the process exits |
| ModuleBase.FulltextGenerationStepPlugin.constructor | module-base/src/main/java/de/intranda/goobi/plugins/FulltextGenerationStepPlugin.java:78-86 | the step holds the configured EPUB command template, has made no call yet, and its counter starts at 1 |
| ModuleBase.FulltextGenerationStepPlugin.CreateIfAbsent | module-base/src/main/java/de/intranda/goobi/plugins/FulltextGenerationStepPlugin.java:154-156 | a folder is created only when absent; the check fails iff its creation throws |
| ModuleBase.FulltextGenerationStepPlugin.CreateFolders | module-base/src/main/java/de/intranda/goobi/plugins/FulltextGenerationStepPlugin.java:150-170 | the four checks run in order and stop at the first failure, as Setup states |
| ModuleBase.FulltextGenerationStepPlugin.ConvertPdf | module-base/src/main/java/de/intranda/goobi/plugins/FulltextGenerationStepPlugin.java:175-202 | the PDF branch makes exactly the calls of PdfSteps, in order, up to the first that throws, and leaves the counter PdfSteps gives |
| ModuleBase.FulltextGenerationStepPlugin.WriteAltoFiles | module-base/src/main/java/de/intranda/goobi/plugins/FulltextGenerationStepPlugin.java:182-189 | the ALTO loop issues the calls AltoCalls lists, stopping after the one that throws, and succeeds iff none throws |
| ModuleBase.FulltextGenerationStepPlugin.DeleteExtraImages | module-base/src/main/java/de/intranda/goobi/plugins/FulltextGenerationStepPlugin.java:193-197 | the cleanup deletes images 1 .. n - 1 in order, stopping after the deletion that throws, and succeeds iff none throws |
| ModuleBase.FulltextGenerationStepPlugin.BuildParams | module-base/src/main/java/de/intranda/goobi/plugins/FulltextGenerationStepPlugin.java:209-218 | the argument list built token by token equals EpubArgs of the template |
| ModuleBase.FulltextGenerationStepPlugin.ConvertEpub | module-base/src/main/java/de/intranda/goobi/plugins/FulltextGenerationStepPlugin.java:205-231 | an EPUB issues one command with the filled-in template and destination, and never stops the run |
| ModuleBase.FulltextGenerationStepPlugin.HandleFile | module-base/src/main/java/de/intranda/goobi/plugins/FulltextGenerationStepPlugin.java:172-233 | one iteration of the loop does what FileStep states for the file and the current counter |
| ModuleBase.FulltextGenerationStepPlugin.Run | module-base/src/main/java/de/intranda/goobi/plugins/FulltextGenerationStepPlugin.java:131-238 | run() returns the status, makes the calls and leaves the counter that RunSpec states |
| ModuleBase.FulltextGenerationStepPlugin.RunListed | module-base/src/main/java/de/intranda/goobi/plugins/FulltextGenerationStepPlugin.java:144-236 | with a non-empty listing, the folder setup and then the loop run as ListedRun states |
| ModuleBase.FulltextGenerationStepPlugin.HandleFiles | module-base/src/main/java/de/intranda/goobi/plugins/FulltextGenerationStepPlugin.java:172-233 | the loop over the listing, from counter 1, stops at the first failing file and otherwise handles every file, as Loop states |
| ModuleBase.FulltextGenerationStepPlugin.Execute | module-base/src/main/java/de/intranda/goobi/plugins/FulltextGenerationStepPlugin.java:125-128 | execute() is true iff run() does not return ERROR, and makes the same calls |
| ModuleBase.EarlyExits | module-base/src/main/java/de/intranda/goobi/plugins/FulltextGenerationStepPlugin.java:136-144 | a listing failure returns ERROR and a null or empty listing FINISH, both without any call |
| ModuleBase.RunCreatesMissingFolders | module-base/src/main/java/de/intranda/goobi/plugins/FulltextGenerationStepPlugin.java:150-165 | with a non-empty listing and creatable folders, exactly the absent folders among text, pdf, alto and `<images>/<title>_thumbs` are created, in that order, before any file is handled |
| ModuleBase.RunFailsIff | module-base/src/main/java/de/intranda/goobi/plugins/FulltextGenerationStepPlugin.java:131-238 | run() returns ERROR iff the listing fails, or the listing has files and a folder cannot be created or a file fails |
| ModuleBase.FolderFailureStopsRun | module-base/src/main/java/de/intranda/goobi/plugins/FulltextGenerationStepPlugin.java:167-170 | a folder that cannot be created returns ERROR and no call but folder creation has been made |
| ModuleBase.PdfCallOrder | module-base/src/main/java/de/intranda/goobi/plugins/FulltextGenerationStepPlugin.java:177-181 | a PDF gets its full text from the current counter first, then the split from page 1, then the images from the current counter |
| ModuleBase.PdfSucceedsIffNothingThrows | module-base/src/main/java/de/intranda/goobi/plugins/FulltextGenerationStepPlugin.java:176-202 | the PDF handler succeeds iff no converter call, ALTO call or deletion throws |
| ModuleBase.PdfCounter | module-base/src/main/java/de/intranda/goobi/plugins/FulltextGenerationStepPlugin.java:190 | the counter grows by max(single pages, images) once every ALTO call has returned, and is unchanged otherwise |
| ModuleBase.DeletionsAt | module-base/src/main/java/de/intranda/goobi/plugins/FulltextGenerationStepPlugin.java:193-197 | the cleanup loop deletes images 1 .. n - 1, in index order, and makes no ALTO call |
| ModuleBase.PreludeHasNoAltoOrDelete | module-base/src/main/java/de/intranda/goobi/plugins/FulltextGenerationStepPlugin.java:177-181 | the calls before the ALTO loop make no ALTO call and delete nothing |
| ModuleBase.PdfStepsShape | module-base/src/main/java/de/intranda/goobi/plugins/FulltextGenerationStepPlugin.java:176-197 | once both file lists exist, the PDF handler's calls are the three converter calls, then the ALTO calls, then the cleanup |
| ModuleBase.CleanupEventsAt | module-base/src/main/java/de/intranda/goobi/plugins/FulltextGenerationStepPlugin.java:193-197 | the cleanup makes no ALTO call, and deletes images 1 .. n - 1 in order unless an ALTO call threw |
| ModuleBase.PdfAltos | module-base/src/main/java/de/intranda/goobi/plugins/FulltextGenerationStepPlugin.java:182-189 | the ALTO calls of the PDF handler are exactly those of the pairing loop |
| ModuleBase.PdfDeletions | module-base/src/main/java/de/intranda/goobi/plugins/FulltextGenerationStepPlugin.java:193-197 | the deletions of the PDF handler are exactly those of the cleanup loop |
| ModuleBase.PdfAltoPairing | module-base/src/main/java/de/intranda/goobi/plugins/FulltextGenerationStepPlugin.java:182-189 | one ALTO call per single-page PDF, in order, up to the one that throws (all of them on success); call i pairs PDF i with image i if there is one |
| ModuleBase.PdfCleanup | module-base/src/main/java/de/intranda/goobi/plugins/FulltextGenerationStepPlugin.java:193-197 | a PDF handled to the end has deleted exactly images[1..] in order (nothing with at most one image); nothing is deleted before all ALTO calls returned; image 0 is never deleted |
| ModuleBase.FileStepCounter | module-base/src/main/java/de/intranda/goobi/plugins/FulltextGenerationStepPlugin.java:175-231 | a file handled without failure advances the counter by its pages if it is a PDF and leaves it unchanged otherwise |
| ModuleBase.HandleAdvancesByPages | module-base/src/main/java/de/intranda/goobi/plugins/FulltextGenerationStepPlugin.java:172-231 | the loop body meets LoopCounter's hypothesis for every file and counter |
| ModuleBase.CounterTracksPages | module-base/src/main/java/de/intranda/goobi/plugins/FulltextGenerationStepPlugin.java:134-190 | after n files without failure the counter is 1 plus the summed maxima of the earlier PDFs, as a Java int |
| ModuleBase.CounterNeverDecreases | module-base/src/main/java/de/intranda/goobi/plugins/FulltextGenerationStepPlugin.java:134-190 | without overflow, the counter never decreases along the listing |
| ModuleBase.PdfStartIndex | module-base/src/main/java/de/intranda/goobi/plugins/FulltextGenerationStepPlugin.java:177-181 | the k-th file, a PDF, gets full text and images numbered from 1 plus the summed maxima of the PDFs before it |
| ModuleBase.PdfFailureIsFatal | module-base/src/main/java/de/intranda/goobi/plugins/FulltextGenerationStepPlugin.java:199-202 | a failing PDF returns ERROR and no later file is handled |
| ModuleBase.EpubFailureIsSwallowed | module-base/src/main/java/de/intranda/goobi/plugins/FulltextGenerationStepPlugin.java:228-230 | an EPUB never fails the loop, whatever its launch does; it issues its command and leaves the counter unchanged |
| ModuleBase.OtherFilesAreSkipped | module-base/src/main/java/de/intranda/goobi/plugins/FulltextGenerationStepPlugin.java:172-233 | a file that is neither PDF nor EPUB makes no call and leaves the counter unchanged |
| ModuleBase.EpubArgsAt | module-base/src/main/java/de/intranda/goobi/plugins/FulltextGenerationStepPlugin.java:209-218 | the argument list has the template's length; `{input}` becomes the source, `{output}` the destination, every other token is copied in place |
| ModuleBase.EpubDestinationOfEpubName | module-base/src/main/java/de/intranda/goobi/plugins/FulltextGenerationStepPlugin.java:207 | `<base>.epub` is converted into `<text folder>/<base>.txt` when the base has no other ".epub" |
| ModuleBase.UpperCaseEpubKeepsName | module-base/src/main/java/de/intranda/goobi/plugins/FulltextGenerationStepPlugin.java:205-207 | for any base without ".epub" in it, `<base>.EPUB` goes to the EPUB handler but its destination keeps the name `<base>.EPUB`, as the replacement is case-sensitive |
| ModuleBase.UpperCaseEpubExample | module-base/src/main/java/de/intranda/goobi/plugins/FulltextGenerationStepPlugin.java:207 | "vol.1.EPUB" keeps its name as destination: a dot in the base makes no difference |
| ModuleBase.EpubCommandExample | module-base/src/main/java/de/intranda/goobi/plugins/FulltextGenerationStepPlugin.java:207-218 | the template ["convert", "{input}", "{output}"] gives ["convert", source, `<text folder>/<base>.txt`] |
| ModuleBase.EmptyTemplateEscapes | module-base/src/main/java/de/intranda/goobi/plugins/FulltextGenerationStepPlugin.java:219-230 | as written, the launch lets an exception escape run() exactly when the configured template is empty |
| Plugin.PdfPrelude | plugin/src/main/java/de/intranda/goobi/plugins/FulltextGenerationStepPlugin.java:170-173 | the full-text, image and split calls all return iff the converter yields text, images and single pages |
| Plugin.FulltextGenerationStepPlugin.constructor | plugin/src/main/java/de/intranda/goobi/plugins/FulltextGenerationStepPlugin.java:70-80 | the initialized step has made no call yet, and its counter starts at 1 |
| Plugin.FulltextGenerationStepPlugin.CreateIfAbsent | plugin/src/main/java/de/intranda/goobi/plugins/FulltextGenerationStepPlugin.java:147-149 | a folder is created only when absent; the check fails iff its creation throws |
| Plugin.FulltextGenerationStepPlugin.CreateFolders | plugin/src/main/java/de/intranda/goobi/plugins/FulltextGenerationStepPlugin.java:143-163 | the four checks run in order and stop at the first failure, as Setup states |
| Plugin.FulltextGenerationStepPlugin.ConvertPdf | plugin/src/main/java/de/intranda/goobi/plugins/FulltextGenerationStepPlugin.java:168-186 | the PDF branch makes exactly the calls of PdfSteps, in order, up to the first that throws, and leaves the counter PdfSteps gives |
| Plugin.FulltextGenerationStepPlugin.WriteAltoFiles | plugin/src/main/java/de/intranda/goobi/plugins/FulltextGenerationStepPlugin.java:174-181 | the ALTO loop issues the calls AltoCalls lists, stopping after the one that throws, and succeeds iff none throws |
| Plugin.FulltextGenerationStepPlugin.HandleFile | plugin/src/main/java/de/intranda/goobi/plugins/FulltextGenerationStepPlugin.java:165-193 | one iteration of the loop does what FileStep states: a PDF is converted, anything else is passed over |
| Plugin.FulltextGenerationStepPlugin.Run | plugin/src/main/java/de/intranda/goobi/plugins/FulltextGenerationStepPlugin.java:124-198 | run() returns the status, makes the calls and leaves the counter that RunSpec states |
| Plugin.FulltextGenerationStepPlugin.RunListed | plugin/src/main/java/de/intranda/goobi/plugins/FulltextGenerationStepPlugin.java:137-195 | with a non-empty listing, the folder setup and then the loop run as ListedRun states |
| Plugin.FulltextGenerationStepPlugin.HandleFiles | plugin/src/main/java/de/intranda/goobi/plugins/FulltextGenerationStepPlugin.java:165-193 | the loop over the listing, from counter 1, stops at the first failing PDF and otherwise handles every file, as Loop states |
| Plugin.FulltextGenerationStepPlugin.Execute | plugin/src/main/java/de/intranda/goobi/plugins/FulltextGenerationStepPlugin.java:118-121 | execute() is true iff run() does not return ERROR, and makes the same calls |
| Plugin.EarlyExits | plugin/src/main/java/de/intranda/goobi/plugins/FulltextGenerationStepPlugin.java:129-137 | a listing failure returns ERROR and a null or empty listing FINISH, both without any call |
| Plugin.RunCreatesMissingFolders | plugin/src/main/java/de/intranda/goobi/plugins/FulltextGenerationStepPlugin.java:143-158 | with a non-empty listing and creatable folders, exactly the absent folders among text, pdf, alto and `<thumbs>/<title>_media` are created, in that order, before any file is handled |
| Plugin.RunFailsIff | plugin/src/main/java/de/intranda/goobi/plugins/FulltextGenerationStepPlugin.java:124-198 | run() returns ERROR iff the listing fails, or the listing has files and a folder cannot be created or a PDF fails |
| Plugin.FolderFailureStopsRun | plugin/src/main/java/de/intranda/goobi/plugins/FulltextGenerationStepPlugin.java:160-163 | a folder that cannot be created returns ERROR and no call but folder creation has been made |
| Plugin.PdfCallOrder | plugin/src/main/java/de/intranda/goobi/plugins/FulltextGenerationStepPlugin.java:170-173 | a PDF gets its full text from the current counter first, then the images from the current counter, then the split from page 1 |
| Plugin.PdfSucceedsIffNothingThrows | plugin/src/main/java/de/intranda/goobi/plugins/FulltextGenerationStepPlugin.java:169-186 | the PDF handler succeeds iff no converter call or ALTO call throws |
| Plugin.PdfCounter | plugin/src/main/java/de/intranda/goobi/plugins/FulltextGenerationStepPlugin.java:182 | the counter grows by max(single pages, images) when the PDF succeeds, and is unchanged otherwise |
| Plugin.PreludeHasNoAltoOrDelete | plugin/src/main/java/de/intranda/goobi/plugins/FulltextGenerationStepPlugin.java:170-173 | the calls before the ALTO loop make no ALTO call and delete nothing |
| Plugin.PdfAltos | plugin/src/main/java/de/intranda/goobi/plugins/FulltextGenerationStepPlugin.java:174-181 | the ALTO calls of the PDF handler are exactly those of the pairing loop |
| Plugin.PdfAltoPairing | plugin/src/main/java/de/intranda/goobi/plugins/FulltextGenerationStepPlugin.java:174-181 | one ALTO call per single-page PDF, in order, up to the one that throws (all of them on success); call i pairs PDF i with image i if there is one |
| Plugin.PdfDeletesNothing | plugin/src/main/java/de/intranda/goobi/plugins/FulltextGenerationStepPlugin.java:169-186 | the PDF handler deletes no file, whatever its calls do |
| Plugin.LoopDeletesNothing | plugin/src/main/java/de/intranda/goobi/plugins/FulltextGenerationStepPlugin.java:165-193 | no prefix of the loop over the listing deletes a file |
| Plugin.RunDeletesNothing | plugin/src/main/java/de/intranda/goobi/plugins/FulltextGenerationStepPlugin.java:124-198 | run() never deletes a file: every generated image is kept |
| Plugin.FileStepCounter | plugin/src/main/java/de/intranda/goobi/plugins/FulltextGenerationStepPlugin.java:168-191 | a file handled without failure advances the counter by its pages if it is a PDF and leaves it unchanged otherwise |
| Plugin.HandleAdvancesByPages | plugin/src/main/java/de/intranda/goobi/plugins/FulltextGenerationStepPlugin.java:165-193 | the loop body meets LoopCounter's hypothesis for every file and counter |
| Plugin.CounterTracksPages | plugin/src/main/java/de/intranda/goobi/plugins/FulltextGenerationStepPlugin.java:127-182 | after n files without failure the counter is 1 plus the summed maxima of the earlier PDFs, as a Java int |
| Plugin.CounterNeverDecreases | plugin/src/main/java/de/intranda/goobi/plugins/FulltextGenerationStepPlugin.java:127-182 | without overflow, the counter never decreases along the listing |
| Plugin.PdfStartIndex | plugin/src/main/java/de/intranda/goobi/plugins/FulltextGenerationStepPlugin.java:170-172 | the k-th file, a PDF, gets full text and images numbered from 1 plus the summed maxima of the PDFs before it |
| Plugin.PdfFailureIsFatal | plugin/src/main/java/de/intranda/goobi/plugins/FulltextGenerationStepPlugin.java:183-186 | a failing PDF returns ERROR and no later file is handled |
| Plugin.NonPdfFilesAreSkipped | plugin/src/main/java/de/intranda/goobi/plugins/FulltextGenerationStepPlugin.java:189-191 | an EPUB or any other non-PDF file makes no call and leaves the counter unchanged |

## Left out

- The converter (`PDFConverter`), the storage (`StorageProvider`) and the process launcher are
  foreign code and I/O. Only the outcome of each call is modelled, as an oracle per file.
- Text extraction, splitting, 300-DPI rasterisation and ALTO generation themselves are not
  modelled. The files they produce are given as lists of paths.
- The temporary folder passed to `writeImages` and the `false` flag passed to `writeAltoFile`
  are not recorded in the trace.
- Closing the process streams and `waitFor` are process I/O. Only the argument list and
  whether the launch returns, throws `IOException` or is interrupted are modelled.
- `initialize()` reads the command template from the XPath configuration. The template is a
  constructor parameter. The plugin variant's `value` and `allowTaskFinishButtons` settings are
  not used by `run()` and are left out.
- Logging, the `Process`/`Step` beans and the constant accessors (`getPluginGuiType`,
  `getPagePath`, `getType`, `cancel`, `finish`, `validate`, `getInterfaceVersion`) are left
  out. The directory accessors and the title are given strings.
- `toLowerCase` is modelled on ASCII letters only. Java's locale- and Unicode-aware
  lower-casing of other characters is not modelled.
- `Paths.get(dir, name)` is modelled as `dir + "/" + name`, with no normalisation.
- In the plugin variant only `PDFReadException` and `PDFWriteException` are caught. The model
  takes every failing converter or ALTO call to be one of these. A runtime exception thrown by
  the converter, which would leave `run()`, is not modelled.
- List sizes are unbounded: a list longer than a Java int could index is not modelled.
- The two classes repeat the folder and ALTO methods, because each source file has its own
  copy of that code.
- ModuleBase.FulltextGenerationStepPlugin.Run: models the corrected EPUB launch (`LaunchOutcome`).
  With an empty command template and an EPUB in the listing, the source lets an
  `IndexOutOfBoundsException` escape `run()`; the model instead goes on and can return FINISH.
  See the row in "## Findings".
- ModuleBase.FulltextGenerationStepPlugin.ConvertEpub: returns the corrected launch outcome,
  never the escaping exception of the code as written; see "## Findings".
- ModuleBase.FulltextGenerationStepPlugin.Execute: inherits the corrected launch from `Run`.
  As written, `execute()` throws in the empty-template case instead of returning.
- ModuleBase.CounterNeverDecreases: proved only when 1 plus the total pages stays within a
  Java int. Past that the counter wraps around and can decrease.
- Plugin.CounterNeverDecreases: proved only when 1 plus the total pages stays within a Java int,
  for the same reason.
- Effects.LoopCounterNeverDecreases: stated under the same no-overflow bound.

## Findings

| source | as written | input that shows it | evidently intended | confidence | as-written member | corrected member |
|---|---|---|---|---|---|---|
| module-base/src/main/java/de/intranda/goobi/plugins/FulltextGenerationStepPlugin.java:219-230 | `new ProcessBuilder(params).start()` is guarded only by `catch (IOException \| InterruptedException)` | an EPUB in the listing while the configured `/epub/@command` list is empty: `params` is empty and `start()` throws `IndexOutOfBoundsException`, which is not caught and leaves `run()` and `execute()` | a failed EPUB launch is logged and the loop goes on, like every other launch failure | medium; not executed | ModuleBase.EmptyTemplateEscapes | ModuleBase.EpubFailureIsSwallowed |
