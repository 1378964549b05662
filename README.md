# vucem-pdf image downsampler, modelled in Dafny

This project models the logic core of `app.py`. That file is a small web utility: it takes an uploaded PDF, makes every embedded image grayscale, shrinks the images that are larger than they need to be at 300 DPI, and then compresses the result with Ghostscript. The model covers three pieces:

- `Sizing` (`sizing.dfy`): `compute_target_pixels_for_image`. A rectangle in points (1/72 inch) becomes a pixel box at `TARGET_DPI = 300`, truncated the way Python's `int()` truncates.
- `Downsampler` (`downsampler.dfy`): the control flow of `process_pdf_images`. It is an imperative method with two nested loops, a `modified` flag and a log of `insert_image` calls. PyMuPDF and PIL are replaced by the outcome each call has on each image:
  - what `get_image_bbox` did: raised, or returned a possibly empty list;
  - whether `fitz.Pixmap` decoded, and at what mode and size;
  - whether `insert_image` succeeded.
  The method is proved against the specification function `Attempts`. Lemmas about `Attempts` then give the listed properties: what is logged, document order, completeness, the Save/Copy choice and the no-image cases.
- `Ghostscript` (`ghostscript.dfy`): the argument list `run_ghostscript` builds, the preset lookup with its fallback to "balanced", and the exit-status check. The child process is a parameter: a function from the argument list to an exit status, or to nothing when the process cannot be started. In that case `run_ghostscript` raises instead of returning.
- `Wrappers` (`wrappers.dfy`): an `Option` type that stands for Python's `None`.

Notes on where the model follows the code:

- `insert_image` draws a new image at the placement rectangle on top of the page. It does not delete the original image. So the model logs insertions, not replacements.
- Counting from 0, the output-file flag is at index 12, the input path at index 13 and the preset flags at 14–16. The list holds 17 strings in all.
- `get_image_bbox` is modelled the way the code treats its result: as a list whose first element is used when the list is non-empty (`if bboxes`, `bboxes[0]`).
- A rectangle is its corner plus a non-negative width and height. The corner only tells two rectangles of the same size apart.

## Model

| member | source | states |
|---|---|---|
| `Sizing.TargetPixels` | app.py:26-28 | the pixel count is the largest whole number not above points / 72 × 300 (truncation of a non-negative value) |
| `Sizing.ComputeTargetPixels` | app.py:21-28 | each dimension of the target lies within one pixel below the exact size at 300 DPI; the bbox's size is used when a bbox is given, and the page rectangle's size otherwise |
| `Sizing.BboxIgnoresPage` | app.py:25-27 | when a bbox is given, the page rectangle has no effect on the target |
| `Sizing.WholeInches` | app.py:14 | a length of n whole inches (72·n points) yields exactly 300·n pixels |
| `Sizing.TargetMonotone` | app.py:21-28 | a longer side never gets a smaller pixel target |
| `Sizing.LetterPageTarget` | app.py:22-24 | with no bbox, a 612 × 792 point page yields 2550 × 3300 pixels |
| `Sizing.SmallPlacementTarget` | app.py:25-28 | a 144 × 72 point bbox yields 600 × 300 pixels on any page |
| `Downsampler.Attempt` | app.py:40-74 | for one image: no insertion if and only if the Pixmap decode fails; otherwise one insertion at `bboxes[0]` if the list is non-empty, or at the page rectangle if the lookup raised or returned nothing; the target is that rectangle's; the mode is always gray; the decoded size is kept; `thumbnail` is called (with the target box) if and only if width > target width or height > target height; the insertion succeeds as `insert_image` does |
| `Downsampler.ProcessPdfImages` | app.py:30-85 | the insertions made are exactly `Attempts(doc)`; the result is Save(output) if and only if some image decodes and is inserted successfully, otherwise a verbatim Copy(input, output); it always returns true |
| `Downsampler.AnyOkAppend` | app.py:70-74 | after one more `insert_image` call, `modified` holds if and only if it held before or that call succeeded |
| `Downsampler.PageAttemptsSound` | app.py:39-74 | each insertion on a page comes from that page's image at its index and is what `Attempt` gives for it; indexes strictly increase |
| `Downsampler.PageAttemptsComplete` | app.py:39-74 | every image of a page that decodes gets an insertion |
| `Downsampler.AttemptsSound` | app.py:34-74 | every logged insertion belongs to an existing image that decodes, and equals that image's `Attempt` |
| `Downsampler.AttemptsInDocumentOrder` | app.py:34-39 | insertions are logged in document order: pages in order, images within a page in order; no image is processed twice |
| `Downsampler.AttemptsComplete` | app.py:39-74 | every image that decodes gets an insertion attempt, whatever happened with earlier images (a failed insertion does not stop the pass) |
| `Downsampler.AnyOkIffSomeInsertionSucceeds` | app.py:70-76 | after the loops, `modified` holds if and only if some image both decodes and has a successful `insert_image` |
| `Downsampler.DecodeFailureSkipped` | app.py:46-49 | an image whose Pixmap decode fails gets no insertion attempt |
| `Downsampler.PageAttemptsEmpty` | app.py:35-49 | a page on which no image decodes contributes no insertion |
| `Downsampler.DocAttemptsEmpty` | app.py:34-49 | a document in which no image decodes gets no insertion |
| `Downsampler.AllDecodeFailuresCopy` | app.py:46-49 | if every image fails to decode, nothing is inserted and the input is copied verbatim |
| `Downsampler.NoImagesCopies` | app.py:35-37 | a document with no images gets no insertion and is copied verbatim |
| `Downsampler.MixedDocumentSaved` | app.py:41-77 | a page with one good image and one that fails to decode: exactly the good one is inserted and the document is saved |
| `Ghostscript.PresetFlags` | app.py:88-117 | the result is always one of the table's three-flag rows (which row is pinned down by `UnknownPresetIsBalanced` and `PresetsDistinct`) |
| `Ghostscript.GhostscriptArgs` | app.py:87-117 | 17 arguments: "gs", the eleven fixed flags, `-sOutputFile=` + output at index 12, the input at index 13, then exactly the preset's three flags; the preset defaults to "balanced" |
| `Ghostscript.ParseArgsRoundTrip` | app.py:105-117 | the input path, output path and preset flags can be read back from the argument list |
| `Ghostscript.ArgsDeterminePaths` | app.py:105-117 | two equal argument lists were built from the same paths and the same preset flags |
| `Ghostscript.UnknownPresetIsBalanced` | app.py:117 | an unknown preset name yields exactly the "balanced" command line |
| `Ghostscript.PresetsDistinct` | app.py:88-104 | the three presets have pairwise different flags |
| `Ghostscript.RunGhostscript` | app.py:87-120 | the call raises exactly when the process cannot be started; otherwise it reports success if and only if the exit status is 0; the preset defaults to "balanced" |
| `Ghostscript.ParseArgsInjective` | app.py:105-117 | two well-formed command lines that ask for the same input, output and preset flags are identical |
| `Ghostscript.RunVerdictFromInvocation` | app.py:105-120 | the verdict is the process outcome of any command line that asks for this input, this output and this preset's flags: nothing else reaches `gs` |
| `Ghostscript.DefaultPresetIsBalanced` | app.py:87 | leaving out the preset gives the "balanced" command line and verdict |
| `Ghostscript.UnknownPresetSameVerdict` | app.py:117-120 | an unknown preset name gets the same verdict as "balanced", whatever the process does |

## Left out

- The Flask app, its configuration, `upload_file` and the creation of the upload folder (app.py:9-12, app.py:123-150): HTTP and filesystem plumbing.
- PDF parsing and writing (`fitz.open`, `get_images`, `get_image_bbox`, `Pixmap`, `insert_image`, `doc.save`, `doc.close`): foreign library code. Only their success or failure per image is modelled.
- `pil_from_pixmap` and PNG encoding (app.py:17-19, app.py:65-68): foreign library code. Errors raised there, in `convert`, in `thumbnail`, in `fitz.open` or in `doc.save` are outside every `try` and are fatal. The model assumes these calls succeed.
- The size `thumbnail` produces with LANCZOS (app.py:63): PIL's behaviour. The model records only that `thumbnail` was called and with which box, and says nothing about the resulting size.
- `shutil.copy2` and the actual `subprocess.run` (app.py:81, app.py:119): I/O and an external process. The copy is the `Copy` outcome. The process is the `exitStatus` parameter. The captured stdout and stderr are discarded by the source and are not modelled.
- The warning printed when an insertion fails (app.py:74): console output.
- Sizing.TargetPixels: uses exact real arithmetic, not IEEE-754 doubles. The rounding of `/ 72.0` and `* TARGET_DPI` is not modelled, so a product that lands a hair below a whole number in floating point may truncate one pixel lower in Python than in the model.
