# OCR_video pipeline, modelled in Dafny

The repository samples frames from a screen recording of a trading terminal's
market-depth view, crops seven fixed regions out of each sampled frame, reads
them with an OCR engine, cleans the OCR text into tokens, assembles 20
order-book rows per sampled frame (the first row also carrying ten summary
fields) and prepends each frame's rows to the result, so the newest frame
comes first. This project models that decision logic of `ocr.py` as pure
functions over sequences and proves what it does.

Modules, one file each, following the pipeline's components:

- `Outcomes` (`outcomes.dfy`): `Result`/`Option` and the Python exceptions a
  run can end with (`IndexError`, `ZeroDivisionError`, `TypeError`).
- `TextCleaner` (`text_cleaner.dfy`): `clean_number_strings`, with the
  `str.split('\n')`, `str.rstrip(',')` and `str.strip()` it relies on.
- `RegionCrop` (`region_crop.dfy`): `crop_frame`, with Python/NumPy slice
  semantics (negative bounds count from the end, bounds clamp).
- `FrameSampler` (`frame_sampler.dfy`): `interval = int(fps)` and the test
  `frame_id % interval == 0` over positions `1..N`.
- `Records` (`records.dfy`): the 20-row assembly and the row dictionaries.
- `Accumulator` (`accumulator.dfy`): `data = values + data`.
- `Pipeline` (`pipeline.dfy`): the frame loop of `process_video`, as a
  recursive function (`Process`), as the source's read-test-prepend loop
  with the debug image write left out (`ProcessVideo`), and as an in-order
  collection reversed once (`Batches`).

The video decoder is a finite sequence of frames (`seq<Image<P>>`, a frame
being rows of pixels of any type `P`); the `p`-th frame of the sequence is
the one the decoder reports at position `p`. The OCR engine is a pair of
functions from a cropped image to the raw text it recognises, newlines
included (`Ocr.darkText` for the six order-book columns, `Ocr.lightText` for
the summary region); splitting that text into lines and cleaning the lines
are modelled.

Where the code's behaviour is easy to misread, the model follows the code:

- The cleaner does not trim kept tokens: it keeps `text.rstrip(',')`, and uses
  `strip()` only to decide whether a line is blank (`CleanDoesNotTrim`).
- The interval is `int(fps)`, which truncates: 29.97 fps gives 29, not 30
  (`TruncatesRatherThanRounds`).
- The position is read after `cap.read()`, so positions run `1..N` and
  position 0 is never sampled; three seconds at 30 fps are sampled at 30, 60
  and 90 (`ThreeSecondsOfVideo`), and an `N`-frame stream yields
  `N / interval` samples (`SampledCount`).
- A shortfall of OCR tokens is not a per-field or per-frame policy: the fixed
  index read raises `IndexError`, which ends the whole run (`Assemble`,
  `Process`).
- With a zero interval the first frame read raises `ZeroDivisionError`; an
  empty stream returns no rows without reaching the modulo
  (`ProcessZeroInterval`).
- The volume column's key is spelled `Volumn`, as in the code.
- The dark-text OCR configuration passes `tessedit_char_unblacklist=0123456789`,
  which re-allows digits rather than excluding them; OCR itself is not
  modelled.

## Model

| member | source | states |
|---|---|---|
| `TextCleaner.IsSpace` | ocr.py:19 | (a predicate with no contract of its own) the characters Python's `str.isspace()` accepts, which are the ones `strip()` removes |
| `TextCleaner.LeadingSpace` | ocr.py:19 | the count of characters `lstrip()` removes: every character before it is whitespace and the character at it, if any, is not |
| `TextCleaner.TrailingStart` | ocr.py:19 | where `rstrip()` cuts: every character from it on is whitespace and the character before it, if any, is not |
| `TextCleaner.Strip` | ocr.py:19 | `strip()` is the contiguous run of the line starting after its leading whitespace, with only whitespace outside it, and when not empty it starts and ends with non-whitespace |
| `TextCleaner.IsBlank` | ocr.py:19 | (a predicate with no contract of its own) every character is whitespace; `BlankIffStripEmpty` ties it to the source's test |
| `TextCleaner.BlankIffStripEmpty` | ocr.py:19 | a line is blank exactly when its `strip()` is the empty string, the test the source filters on |
| `TextCleaner.SplitLines` | ocr.py:30 | `text.split('\n')` (also ocr.py:40) yields at least one line and no line contains a newline |
| `TextCleaner.JoinSplitLines` | ocr.py:30 | joining the split lines with newlines gives the text back, so splitting loses nothing |
| `TextCleaner.SplitLinesCons` | ocr.py:30 | a character other than a newline in front of a text joins its first line |
| `TextCleaner.SplitLinesPrefix` | ocr.py:30 | a newline-free piece put in front of a text becomes part of the text's first line and leaves the other lines alone |
| `TextCleaner.SplitJoinLines` | ocr.py:30 | newline-free lines joined with newlines split back into exactly those lines |
| `TextCleaner.RStripCommas` | ocr.py:15 | the result is the longest prefix of the line that does not end in a comma and is followed only by commas |
| `TextCleaner.Clean` | ocr.py:8-19 | no token is blank or ends in a comma, and there are never more tokens than lines |
| `TextCleaner.KeptPositionsExact` | ocr.py:13-19 | the kept line positions are strictly increasing, and a position is kept iff its comma-stripped line is not blank |
| `TextCleaner.CleanIsOrderedFilter` | ocr.py:13-19 | token `k` is the comma-stripped line at the `k`-th kept position: the output is the order-preserving filter of the stripped lines |
| `TextCleaner.TokensComeFromLines` | ocr.py:13-19 | every token equals some input line with its trailing commas removed |
| `TextCleaner.CleanEmptyIffAllBlank` | ocr.py:13-19 | the output is empty iff every line is blank once its trailing commas are gone |
| `TextCleaner.CleanAppend` | ocr.py:13-19 | cleaning two blocks of lines one after the other equals cleaning their concatenation |
| `TextCleaner.CleanKeepsCleanTokens` | ocr.py:15-19 | lines that are already non-blank and comma-free at the end come through unchanged |
| `TextCleaner.CleanIdempotent` | ocr.py:15-19 | cleaning the cleaner's output returns it unchanged |
| `TextCleaner.CleanDoesNotTrim` | ocr.py:15-19 | a non-blank token followed by any number of commas comes out as exactly that token, surrounding spaces included |
| `TextCleaner.NoTrimExample` | ocr.py:15-19 | `" 12 ,,"` cleans to `" 12 "` |
| `RegionCrop.SliceBound` | ocr.py:45 | a slice bound resolves into `[0, n]`: kept when in range, counted from the end when negative, clamped otherwise |
| `RegionCrop.Slice` | ocr.py:45 | a slice is the contiguous run of the sequence between the resolved bounds, empty when they cross |
| `RegionCrop.Crop` | ocr.py:44-45 | `frame[y:y+height, x:x+width]`; its own contract only bounds the row count by the frame's, and the crop's dimensions and pixels are stated by `CropTruncates` and `CropInside` |
| `RegionCrop.CropTruncates` | ocr.py:44-45 | a region with non-negative coordinates is truncated at the frame's edges, not rejected: clipped row and column counts, and crop pixel `(i, j)` is frame pixel `(y+i, x+j)` |
| `RegionCrop.CropInside` | ocr.py:44-45 | a region inside an `H x W` frame yields exactly `height` rows of `width` pixels, pixel `(i, j)` being frame pixel `(y+i, x+j)` |
| `RegionCrop.SliceFromEnd` | ocr.py:45 | a negative start bound counts from the end of the sequence |
| `FrameSampler.TruncateRate` | ocr.py:52 | `int(fps)` truncates toward zero: for a non-negative rate the interval is the floor |
| `FrameSampler.TruncatesRatherThanRounds` | ocr.py:52 | 29.97 frames per second gives an interval of 29 |
| `FrameSampler.PyMod` | ocr.py:68 | Python's `%`: the remainder lies between zero and the divisor, with the divisor's sign, and with `//` it recomposes the dividend |
| `FrameSampler.RemainderTakesDivisorSign` | ocr.py:68 | `7 % -3 == -2` and `-7 % 3 == 2`, with `7 // -3 == -3` and `-7 // 3 == -3` |
| `FrameSampler.IsSampled` | ocr.py:68 | `frame_id % interval == 0` under Python's `%` holds exactly when the interval divides the position, whatever the interval's sign |
| `FrameSampler.SampledPositions` | ocr.py:59-68 | every sampled position lies in `1..N` |
| `FrameSampler.SampledPositionsExact` | ocr.py:65-68 | the sampled positions are exactly the multiples of the interval in `1..N`, in strictly increasing order |
| `FrameSampler.SampledCount` | ocr.py:65-68 | an `N`-frame stream yields `N / abs(interval)` sampled frames |
| `FrameSampler.ThreeSecondsOfVideo` | ocr.py:59-68 | `3k` frames at interval `k` are sampled at positions `k`, `2k`, `3k` |
| `Records.RemoveCommas` | ocr.py:102 | the result holds no comma and every other character with its multiplicity |
| `Records.RemoveCommasKeepsPlain` | ocr.py:102 | a field without commas passes through unchanged |
| `Records.RemoveCommasAppend` | ocr.py:102 | removing commas works piecewise on a concatenation, so the order of the other characters is kept |
| `Records.DropsThousandsSeparator` | ocr.py:102 | `high + "," + low` becomes `high + low` (`"1,234"` becomes `"1234"`) |
| `Records.RemoveCommasIdempotent` | ocr.py:102 | removing commas twice is removing them once |
| `Records.Fields` | ocr.py:101-118 | a row's dictionary has the six base keys, plus the ten summary keys exactly when the row carries the summary |
| `Records.KeyName` | ocr.py:102-118 | the key string of each column, as spelled in the source; reading the key back gives the same column, so no two columns share a key |
| `Records.BaseFields` | ocr.py:101-108 | the per-row dictionary has exactly the six order-book keys, each holding the matching field |
| `Records.SummaryFields` | ocr.py:109-118 | the first-row additions are exactly the ten summary keys, each holding the matching summary field |
| `Records.KeyCounts` | ocr.py:101-118 | there are 6 base keys and 10 summary keys, 16 in all |
| `Records.KeyNamesDistinct` | ocr.py:102-118 | no two columns share a key name, so no assignment overwrites another |
| `Records.ColumnsDisjoint` | ocr.py:102-118 | no summary key is also a base key, so adding the summary keeps the base fields |
| `Records.FieldsOfRow` | ocr.py:101-108 | each base key of a row's dictionary holds the matching field, with or without the summary |
| `Records.FieldsCount` | ocr.py:101-118 | a row's dictionary has 16 entries with the summary and 6 without |
| `Records.FieldsOfSummary` | ocr.py:109-118 | each summary key of the first row's dictionary holds the matching summary field |
| `Records.Assemble` | ocr.py:99-118 | the frame yields rows iff all six columns have at least 20 tokens and the summary at least 10, otherwise `IndexError`; then exactly 20 rows, only row 0 carries the summary, and no bid price holds a comma |
| `Records.AssembleRows` | ocr.py:100-108 | row `i` takes token `i` of each column, bid price with commas removed and the other five verbatim; row 0 has 16 keys, rows 1 to 19 have 6 |
| `Records.AssembleSummary` | ocr.py:109-118 | row 0's summary fields come from summary tokens Open=0, Low=1, Volumn=2 (commas removed), LTQ=3, Lower circuit=4, High=5, Prev.Close=6, Avg.Price=7, LTT=8, Upper circuit=9 |
| `Accumulator.Prepend` | ocr.py:119 | the new frame's rows come first, followed unchanged by the rows collected before |
| `Accumulator.AccumulateAll` | ocr.py:119 | (a function with no contract of its own) `data = values + data` applied once per sampled frame, oldest frame first; what it computes is stated by the lemmas below |
| `Accumulator.NewestFirstOldestLast` | ocr.py:119 | the newest batch's rows lead the accumulated rows and the oldest batch's rows close them |
| `Accumulator.AccumulateIsReversedFlatten` | ocr.py:119 | prepending batch by batch equals concatenating the batches newest first |
| `Accumulator.AccumulateAt` | ocr.py:119 | with `m` rows per batch, row `i` of batch `j` of `k` sits at `m * (k-1-j) + i` |
| `Accumulator.AccumulatePositions` | ocr.py:119 | `k` batches of `m` rows give `m * k` rows, and row `i` of the batch `t` places from the newest sits at `m * t + i`: batches newest first, each batch's rows in their original order |
| `Accumulator.ThreeBatches` | ocr.py:119 | batches A, B, C accumulate to C's rows, then B's, then A's |
| `Pipeline.DarkTokens` | ocr.py:30-32 | the dark-text region's OCR text, split into lines and cleaned, gives tokens that are neither blank nor comma-terminated |
| `Pipeline.LightTokens` | ocr.py:40-41 | the summary region's OCR text, split into lines and cleaned, gives tokens that are neither blank nor comma-terminated |
| `Pipeline.FrameRecords` | ocr.py:70-118 | with OCR functions that always return text, a sampled frame yields exactly 20 rows or fails with `IndexError`; the OCR adapters' own exceptions (an empty crop, a failing Tesseract call) are not modelled |
| `Pipeline.Process` | ocr.py:59-119 | the frame loop with the debug write left out: a run with a zero interval can only fail with `ZeroDivisionError`, and any other failure is the exception of the read of some frame at a sampled position |
| `Pipeline.ProcessIsReversedBatches` | ocr.py:54-119 | the prepending loop succeeds iff collecting the sampled frames' rows in stream order does, and returns those batches reversed and concatenated |
| `Pipeline.AllSampledReadStep` | ocr.py:65-68 | one more frame must also be read exactly when its position is sampled |
| `Pipeline.BatchesSucceedIff` | ocr.py:59-119 | collecting succeeds iff every sampled frame's read succeeds |
| `Pipeline.BatchesStep` | ocr.py:65-119 | one more frame adds its rows as one more batch exactly when its position is sampled |
| `Pipeline.BatchesValues` | ocr.py:59-119 | a successful collection holds one batch per sampled position, the rows of the frame there |
| `Pipeline.BatchesAreSampledFrames` | ocr.py:59-119 | the run succeeds iff every sampled frame yields its rows, and batch `k` is the rows of the frame at the `k`-th sampled position |
| `Pipeline.ProcessLength` | ocr.py:99-119 | when every frame read yields `m` rows, a successful run returns `m * (N / abs(interval))` rows |
| `Pipeline.VideoLength` | ocr.py:48-121 | a successful run over `N` frames returns `20 * (N / abs(interval))` rows |
| `Pipeline.ProcessZeroInterval` | ocr.py:52-68 | with a zero interval the run raises `ZeroDivisionError` on the first frame, and an empty stream returns no rows |
| `Pipeline.FailurePersists` | ocr.py:59-121 | once a prefix of the stream has raised, the whole run raises the same exception |
| `Pipeline.ThreeSecondBatches` | ocr.py:59-119 | over `3k` frames at interval `k`, the batches are the rows of the frames at positions `k`, `2k`, `3k`, in that order |
| `Pipeline.ThreeSecondRun` | ocr.py:59-119 | over `3k` frames at interval `k`, the result is frame `3k`'s rows, then frame `2k`'s, then frame `k`'s |
| `Pipeline.ProcessVideo` | ocr.py:48-121 | the imperative read-test-prepend loop returns exactly what the frame-loop definition does, at interval `int(fps)` |
| `Pipeline.ProcessAsWritten` | ocr.py:59-87 | (a function with no contract of its own) the frame loop with the debug write kept, which raises `TypeError` at the first sampled frame; `AsWrittenNeverYieldsRows` states what it returns |
| `Pipeline.AsWrittenNeverYieldsRows` | ocr.py:86 | as written, a stream of at least one interval raises `TypeError` whatever the OCR reads; a shorter one returns no rows |

## Left out

- OCR adapters `extract_text_from_frame` and `extract_white_text_from_frame` (ocr.py:22-41): grayscale conversion, OpenCV thresholding and the Tesseract call are an image-processing library and an external engine; they are the abstract functions `Ocr.darkText` and `Ocr.lightText`, which return the recognised text; the `text.split('\n')` that follows and the cleaning are modelled (`SplitLines`, `DarkTokens`, `LightTokens`). The model's OCR functions are total, so the adapters' own exceptions are not modelled: `cv2.cvtColor` raises `cv2.error` on an empty crop, which `crop_frame` returns without complaint for a region wholly outside the frame or of zero width or height (`CropTruncates`), and `pytesseract` can raise when the Tesseract call fails.
- Video I/O through `cv2.VideoCapture`, `cap.isOpened`, `cap.read` and `cap.release` (ocr.py:50, 59-62, 120): replaced by a finite frame sequence. A file that cannot be opened reads as an empty stream.
- `TruncateRate`: the frame rate is a binary floating-point number in the source and an exact real here, so a rate within rounding distance of an integer may truncate differently, and the `ValueError` that `int()` raises on a NaN rate and the `OverflowError` it raises on an infinite one cannot arise.
- The debug `cv2.imwrite` (ocr.py:86) is left out of `Process`; its failure is recorded under Findings.
- The bare `cv2.image` expression (ocr.py:98) is treated as having no effect. If the OpenCV module has no attribute of that name it raises `AttributeError` as well; that is not modelled.
- `last_llt` (ocr.py:55) is set to `None` and never read, and `frame_count` (ocr.py:57, 87) feeds only the debug file name; neither is modelled.
- The insertion order of the row dictionaries' keys, which fixes the spreadsheet's column order: rows are modelled as maps.
- `update_excel` (ocr.py:124-175): spreadsheet file I/O, type coercion and column widths.
- `main` (ocr.py:178-195): hard-coded paths and regions.

## Findings

| source | as written | input that shows it | evidently intended | confidence | as-written member | corrected member |
|---|---|---|---|---|---|---|
| ocr.py:86 | the debug image name is built as `"./images/frame_b_bidprice" + frame_count + ".png"` with an integer `frame_count`, which raises `TypeError` on the first sampled frame before any OCR runs | any video of at least `int(fps)` frames, e.g. 90 frames at 30 fps | the counter converted to text (`str(frame_count)`), so each sampled frame is saved and then read | high; not executed | `Pipeline.ProcessAsWritten`, `Pipeline.AsWrittenNeverYieldsRows` | `Pipeline.Process`, `Pipeline.BatchesAreSampledFrames` |
