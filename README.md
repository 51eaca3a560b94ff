# Chest X-ray screening client: report layout, diagnosis mapping and model-server rules

This project models, in Dafny, the parts of a small chest X-ray screening
application that carry real logic. The application preprocesses an image,
sends it to a hosted classifier, maps the returned probability to a
diagnosis and renders a PDF report. A separate handler serves the model.

The modelled parts are:

- **Report builder** (`build_pdf_report`, module `Report`). The reportlab
  canvas is modelled as a log of calls (`PdfCanvas.Canvas`, events
  `SetFont`, `DrawString`, `ShowPage`). The page height is a parameter;
  the application passes A4 (`Report.A4Height`).
  - The header is a fixed chain of cursor steps. The patient line falls
    back to `N/A` when no id is given. The notes start 270 points below
    the top of the page.
  - The notes are split into words (Python's `str.split()`, module
    `Words`). They are then packed greedily into lines by a loop
    (`Report.WrapNotes`), with a 90-character budget and one space
    between words.
  - A second loop (`Report.DrawNotes`) draws the lines 14 points apart.
    It breaks the page when the cursor falls below 60. After a break the
    cursor restarts 60 points below the top.
- **Diagnosis mapping** (`map_probability`, module `Diagnosis`). Two
  thresholds, 0.75 and 0.5, give three labels.
- **Normalise and batch** (module `Preprocess`). Both the application and
  the model server divide every byte of an RGB grid by 255. The result is
  the only element of a batch.
- **Model-server rules** (`input_fn`, `output_fn`, module `Inference`).
  The content-type check, the 0.5 label threshold and the shape of the
  JSON response.

The wrap is specified by the predicate `Report.IsGreedyWrap`. It states
five things:

- every line is its words joined by single spaces;
- the lines' words, read in order, are exactly the input words;
- a line of two or more words fits the budget;
- a line ends only because the next word would not fit;
- the only empty line is a leading one, emitted exactly when the first
  word alone has 90 or more characters.

`Report.GreedyWrapUnique` proves that these properties leave only one
possible sequence of lines. So the predicate is a complete specification
of the loop.

Three behaviours of the code are easy to miss, and the model follows the
code:

- A single word longer than 90 characters gets a line of its own, which
  is longer than 90.
- A first word of 90 or more characters is preceded by an empty line.
- The page-break test comes after a line has been drawn and the cursor
  stepped down, not before the line is drawn. When the last notes line
  triggers a break, the final `showPage` therefore produces an extra
  empty page. `BuildPdfReport`'s contract records this: the notes layout
  ends in `ShowPage`, `SetFont`, and the report then adds its own
  `ShowPage`.

## Model

| member | source | states |
|---|---|---|
| `Words.Split` | app.py:97 | `split()` yields only non-empty, whitespace-free words, and never more words than characters |
| `Words.Separators` | app.py:97 | the whitespace runs `split()` drops are one more than the words, all whitespace, none empty between two words, and the first is non-empty exactly when the text starts with whitespace |
| `Words.SplitSeparators` | app.py:97 | the text is exactly its separators and its words in turn, so the words are cut only at whole whitespace runs |
| `Words.SplitInterleave` | app.py:97 | conversely, any words laid out between whitespace separators (none empty between two words) are what `split()` gives back: the words are the maximal non-whitespace runs |
| `Words.SplitKeepsLetters` | app.py:97 | glued back together, the words of `split()` are exactly the non-whitespace characters of the text, in order |
| `Words.SplitJoin` | app.py:102 | words joined with single spaces split back into the same words, so each wrapped line can be read back as its words |
| `Report.WrapNotes` | app.py:94-104 | the wrap loop's lines satisfy `IsGreedyWrap` for `(notes or "").split()` (single spaced, every word kept in order, many-word lines within 90, greedy breaks, leading empty line exactly when the first word has at least 90 characters); notes that are missing, empty or blank give no lines |
| `Report.GreedyWrapUnique` | app.py:94-104 | two line sequences that are both a greedy wrap of the same words are equal: the wrap properties determine the loop's output |
| `Report.GreedyWrapFits` | app.py:96-102 | when every word has at most 90 characters, every wrapped line has at most 90 characters |
| `Report.DrawNotes` | app.py:106-112 | the pagination loop appends exactly `NotesLayout` to the canvas log: each line at its cursor, with `ShowPage` and the body font after a line whose stepped cursor is below 60; it returns the final cursor |
| `Report.NotesDrawnInOrder` | app.py:106-107 | the texts drawn by the notes layout are exactly the wrapped lines, in order |
| `Report.CursorOnPage` | app.py:108-111 | starting at or above 60 on a page whose restart height is at or above 60, the cursor never goes below 60, and never above both the start and the restart height |
| `Report.NotesOnPage` | app.py:106-112 | under the same conditions every notes line is drawn at a height of at least 60 and no higher than the start or the restart height |
| `Report.BreakAfterLowLine` | app.py:108-112 | every drawn line whose cursor minus 14 is below 60 is immediately followed by `ShowPage` and the body font |
| `Report.BreakOnlyAfterLowLine` | app.py:109-110 | every `ShowPage` of the notes comes right after a drawn line whose cursor minus 14 is below 60 |
| `Report.StepWithoutBreak` | app.py:107-109 | when a line's cursor minus 14 is still at least 60, the next event is the next line, drawn exactly 14 lower |
| `Report.RestartAfterBreak` | app.py:109-112 | after a page break and the font reset, the next line is drawn at `height - 60` |
| `Report.DrawTitleBlock` | app.py:62-68 | draws the title at `height - 50` and the timestamp line at `height - 80` with their fonts, and leaves the cursor at `height - 80` |
| `Report.DrawPatientBlock` | app.py:70-77 | draws the patient block 40, 58 and 76 below the incoming cursor, the id line as `"Patient / Study ID: " + (patient_id or "N/A")` |
| `Report.DrawAssessmentBlock` | app.py:79-86 | draws the assessment heading, the diagnosis and the probability 30, 48 and 66 below the incoming cursor |
| `Report.DrawNotesHeading` | app.py:88-92 | draws the "Notes" heading 30 below the incoming cursor, restores the body font and leaves the cursor 48 below |
| `Report.BuildPdfReport` | app.py:52-117 | the report is the header, then the pagination of some greedy wrap of the notes starting at `height - 270`, then a final `ShowPage`; the model name defaults to "Pneumonia Detector v1" |
| `Report.AppReport` | app.py:197-202 | the application's call, which leaves out the model name, gives the A4 report with the default model name |
| `Report.PatientLine` | app.py:75 | the patient line reads `"Patient / Study ID: "` followed by the id, or by `N/A` when the id is missing or empty |
| `Report.ReportOnPage` | app.py:60-112 | on a page at least 330 high (A4 is about 842), every string of the report, header and notes, is drawn between 60 and `height - 50` |
| `Report.A4ReportOnPage` | app.py:60-112 | on the A4 page the application uses, every string of the report is drawn between 60 and the title line |
| `Diagnosis.MapProbability` | app.py:151-157 | "Pneumonia Detected" exactly when p ≥ 0.75, "Possible Pneumonia (Moderate)" exactly when 0.5 ≤ p < 0.75, "Normal" exactly when p < 0.5 |
| `Diagnosis.MapProbabilityMonotone` | app.py:151-157 | a larger probability never gives a less severe diagnosis (Normal < Moderate < Detected) |
| `Diagnosis.LabelsDistinct` | app.py:153-157 | the three diagnoses have three different labels |
| `Preprocess.Normalize` | app.py:127-128 | an H×W RGB grid of bytes becomes a tensor of shape (1, H, W, 3) whose every element is its byte divided by 255 and lies in [0, 1]; the same step is inference.py:17-18 |
| `Preprocess.NormalizeRoundTrip` | inference.py:17-18 | multiplying the normalised values by 255 recovers every byte, so normalising loses nothing |
| `Inference.InputFn` | inference.py:21-24 | a content type is rejected with `ValueError("Unsupported content type: " + content_type)` exactly when it neither starts with `image/` nor equals `application/x-image`; an accepted request with a readable image yields the normalised tensor, and no tensor is produced otherwise |
| `Inference.OutputFn` | inference.py:31-33 | the response has content type `application/json` and exactly the fields `label` and `probability`; the probability is the prediction unchanged; the label is "Pneumonia" exactly when the prediction is ≥ 0.5, otherwise "Normal" |
| `Inference.OutputIgnoresAccept` | inference.py:31 | the `accept` argument has no effect on the response |
| `Inference.OutputAgreesWithDiagnosis` | inference.py:32 | the server labels a prediction "Normal" exactly when the application's diagnosis is Normal, and "Pneumonia" exactly when the application reports Moderate or Detected |

## Left out

- The Streamlit user interface (`main`): presentation only.
- The SageMaker client and its credential lookup (`get_sagemaker_runtime`, `invoke_model`): network calls to a hosted endpoint.
- The reportlab rendering: fonts, glyph widths, the PDF bytes, `canvas.save` and the byte buffer. The canvas is a log of the calls made on it. `BuildPdfReport` returns that log instead of PDF bytes.
- The generation timestamp (`datetime.now()`): it is the parameter `generatedAt`, already formatted.
- The `:.3f` formatting of the probability: it is the parameter `probabilityText`, already formatted.
- JSON serialisation (`json.dumps`) in `preprocess_image` and `output_fn`. The model stops at the tensor, and at a map from field names to JSON values.
- Image decoding, conversion to RGB and resizing to 224×224 by the imaging library. `Normalize` starts from the RGB byte grid. `InputFn` takes the library's outcome (an image or an error) as the parameter `decoded`.
- Model loading and prediction (`model_fn`, `predict_fn`): TensorFlow.
- The one-off invocation script and the two model conversion scripts: scripts around the model file, outside the application's logic.
- Floating point: probabilities, cursor heights and channel values are exact reals. NaN, float32/float64 rounding of `byte / 255`, and reportlab's rounded A4 height (`Report.A4Height` is exactly 297 mm at 72 points per inch) are not modelled.
- `Preprocess.Normalize`: states the grid's shape from its first row. The imaging library always delivers a full H×W×3 array, and the model requires every row to be as wide as the first.
