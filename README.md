# MNIST digit-sequence generator — a Dafny model

This project models the core of the MNIST digit-sequence generator and proves properties about it. The generator works as follows:

- It reads the MNIST corpus from two IDX files, one of images and one of labels.
- It groups the images by label.
- It picks one image of each requested digit at random.
- It lays the picked images out side by side on a canvas of an exact requested width. The spacing comes from a range and follows a spacing mode:
  - the equalized modes use one gap for every glyph boundary;
  - the progressive mode uses growing gaps.
- Depending on the run mode, it does this for the original images, for augmented copies, or for both. The augmentor offers rotation, blur, warping and two flips. As written, choosing either flip raises, because `execute` names flip classes the operations module does not define (see "## Findings"). The generator is modelled as written: `Generator.AugmentedPath` raises there, and `Generator.AugmentedPathIntended` states what the branch would do with the flips fixed.
- It names the output files and saves them.
- Before any of this, the command-line and HTTP front ends check the request.

The modules follow the source files:

| module | source |
|---|---|
| `ImageDataReader` | `generator/image_data_reader.py`: IDX decoding and grouping by label |
| `Layout`, `LayoutProperties` | the layout engine `_generate_sequence` in `generator/digit_sequence_generator.py` |
| `Generator` | the rest of `generator/digit_sequence_generator.py`: selection, mode sequencing, the download loop and its file names, and the object holding the state |
| `Text` | the Python string operations the file name is built with |
| `Operations` | the two flip classes of `augmentor/operations.py` |
| `Augmentation` | `augmentor/augmentation.py` |
| `CommandParser` | the request checks of `utils/command_parser.py` |
| `Common`, `Rasters` | shared vocabulary: results, bytes, sums, Python's `str` of an integer, and 2-D pixel arrays with their shape (`np.hstack`, filled arrays) |

How the model is written:

- Operations that loop or update attributes are methods. Each method is proved equal to a specification function.
- The properties are lemmas about those functions.
- Exceptions become `Err` values carrying what the exception reports.
- The clock, the random draws, the file writer and the image-library transforms are parameters.

The feasibility of a layout depends on the spacing mode:

- Equalized modes, for a spacing range with `0 <= smin <= smax`: the glyphs fit exactly when the width is at least the glyph widths plus `n - 1` gaps of `smin`. This is `LayoutProperties.EqualizedBoundary`.
- Progressive mode, for `smin >= 0` and a range `smin..smax` that holds at least `n - 1` values: the gaps are `smin, smin + 1, …`. The glyphs fit exactly when the width is at least the glyph widths plus the sum of those `n - 1` gaps. With three or more glyphs this bound is larger than the equalized one. This is `LayoutProperties.ProgressiveBoundary`.

## Model

| member | source | states |
|---|---|---|
| Common.SumPrefixStep | generator/digit_sequence_generator.py:289 | extending a prefix by one element adds that element to the sum (the running width the joining loop accumulates) |
| Common.SumNonNegative | generator/digit_sequence_generator.py:170 | a sum of non-negative widths is non-negative |
| Common.Repeat | generator/digit_sequence_generator.py:264 | `np.repeat(g, n)`: length `n`, every element `g` |
| Common.SumRepeat | generator/digit_sequence_generator.py:213-214 | `n` gaps of `g` sum to `g * n`, the term the equalized sum check uses |
| Common.DigitChar | generator/digit_sequence_generator.py:93 | the character of a decimal digit is '0'..'9' |
| Common.NatToString | generator/image_data_reader.py:60 | `str(n)` of a non-negative number is a non-empty string of decimal digits, with two or more digits exactly when `n >= 10` |
| Common.IntToString | generator/digit_sequence_generator.py:93 | `str(i)`: a leading '-' exactly for negatives, followed by the digits of the magnitude |
| Common.NatToStringInjective | generator/image_data_reader.py:60 | distinct labels get distinct dictionary keys |
| Common.IntToStringInjective | generator/digit_sequence_generator.py:93 | distinct digits look up distinct keys |
| Common.IntToStringIsNumeral | generator/digit_sequence_generator.py:148 | `str` of an integer holds only digits and '-' (no comma, no space, no parenthesis) |
| Rasters.Blank | generator/digit_sequence_generator.py:226-232 | a filled array has the requested shape and the fill value at every pixel |
| Rasters.HStack | generator/digit_sequence_generator.py:254 | `np.hstack` of two arrays of equal height: that height, the widths added |
| Rasters.HStackAt | generator/digit_sequence_generator.py:254 | each pixel of a side-by-side pair comes from the left array before its width and from the right array after it |
| ImageDataReader.BE32 | generator/image_data_reader.py:32 | a big-endian unsigned 32-bit word is below 2^32 |
| ImageDataReader.EncodeBE32 | generator/image_data_reader.py:32 | the four bytes of a word |
| ImageDataReader.DecodeEncodeBE32 | generator/image_data_reader.py:32 | decoding the four bytes of a word gives the word back |
| ImageDataReader.EncodeDecodeBE32 | generator/image_data_reader.py:46 | re-encoding a decoded word gives back the bytes read |
| ImageDataReader.Invert | generator/image_data_reader.py:40 | `255 - p` per pixel: same length, each byte complemented |
| ImageDataReader.InvertInvolution | generator/image_data_reader.py:40 | inverting twice gives the pixels back |
| ImageDataReader.FlatIndex | generator/image_data_reader.py:41 | the row-major position of pixel `(r, c)` of image `k` lies inside the payload |
| ImageDataReader.Reshape | generator/image_data_reader.py:41 | `reshape(count, rows, cols)` of a payload of exactly `count * rows * cols` values gives `count` images of that shape |
| ImageDataReader.FlattenRowsLength | generator/image_data_reader.py:41 | an image of `rows` rows of `cols` pixels flattens to `rows * cols` bytes |
| ImageDataReader.FlattenRowsAt | generator/image_data_reader.py:41 | pixel `(r, c)` lands at `r * cols + c` |
| ImageDataReader.FlattenLength | generator/image_data_reader.py:41 | `count` such images flatten to `count * rows * cols` bytes |
| ImageDataReader.FlattenImageAt | generator/image_data_reader.py:41 | value `o` of image `k` lands `k` whole images into the payload |
| ImageDataReader.PixelAt | generator/image_data_reader.py:41 | pixel `(r, c)` of one image lands at `r * cols + c` of its rows |
| ImageDataReader.FlattenAt | generator/image_data_reader.py:41 | pixel `(r, c)` of image `k` lands at its row-major position |
| ImageDataReader.ReshapeFlatten | generator/image_data_reader.py:41 | reshaping flattened images gives them back: no pixel moves |
| ImageDataReader.DecodeImages | generator/image_data_reader.py:31-41 | a decoded image file has a 16-byte header with magic 2051, exactly `count * rows * cols` payload bytes and `count` images of the header's shape; short headers, bad magic and size mismatches are errors |
| ImageDataReader.DecodeLabels | generator/image_data_reader.py:45-53 | a decoded label file has magic 2049 and exactly `count` label bytes, which are returned as read |
| ImageDataReader.DecodeEncodeImages | generator/image_data_reader.py:31-41 | an image file written from images decodes back to those images |
| ImageDataReader.DecodeEncodeLabels | generator/image_data_reader.py:45-53 | a label file written from labels decodes back to those labels |
| ImageDataReader.UniqueFrom | generator/image_data_reader.py:59 | `np.unique` from a value on: strictly ascending, and holds exactly the labels at or above that value |
| ImageDataReader.Unique | generator/image_data_reader.py:59 | `np.unique(labels)`: strictly ascending, and holds exactly the labels present |
| ImageDataReader.Positions | generator/image_data_reader.py:60 | `np.where(label == labels)`: strictly ascending, and holds exactly the positions carrying that label |
| ImageDataReader.FirstOutOfBounds | generator/image_data_reader.py:60 | the first position past the image count, or none exactly when all positions index an image |
| ImageDataReader.Pick | generator/image_data_reader.py:60 | fancy indexing: one image per position, in the order of the positions |
| ImageDataReader.GroupedFails | generator/image_data_reader.py:59-60 | the grouping loop fails exactly when some label has a position with no image |
| ImageDataReader.GroupedKeys | generator/image_data_reader.py:58-60 | on success the keys are `str` of the labels, in loop order |
| ImageDataReader.GroupedDomain | generator/image_data_reader.py:58-60 | on success the dictionary holds exactly those keys |
| ImageDataReader.GroupedEntries | generator/image_data_reader.py:60 | on success each label's entry holds its images in file order |
| ImageDataReader.KeysDiffer | generator/image_data_reader.py:60 | distinct labels never overwrite each other's entry |
| ImageDataReader.AddGroupOk | generator/image_data_reader.py:60 | a loop step fails exactly when the label has a position with no image |
| ImageDataReader.GroupedOkStep | generator/image_data_reader.py:59-60 | the loop succeeds exactly when it succeeded before the last label and the last label's positions all hold an image |
| ImageDataReader.NewEntry | generator/image_data_reader.py:60 | a loop step stores the new label's images under its key |
| ImageDataReader.EntryKept | generator/image_data_reader.py:60 | a loop step keeps the entry of another label |
| ImageDataReader.EntryAfterStep | generator/image_data_reader.py:60 | after a loop step, the new label and every earlier label with a correct entry have their images under their keys |
| ImageDataReader.EntriesCarried | generator/image_data_reader.py:59-60 | the last loop step keeps the entries of the earlier labels and adds the entry of the last one |
| ImageDataReader.AddGroupEntries | generator/image_data_reader.py:60 | one loop step adds the new label's entry and keeps the others |
| ImageDataReader.GroupByLabel | generator/image_data_reader.py:57-66 | the dictionary built from the distinct labels, ascending; `GroupByLabelSpec` characterises it |
| ImageDataReader.GroupByLabelSpec | generator/image_data_reader.py:57-66 | grouping fails exactly when there are more labels than images; otherwise the keys are the distinct labels ascending and each entry holds exactly that label's images in file order |
| ImageDataReader.GroupByLabelUniform | generator/image_data_reader.py:57-66 | every entry is non-empty and every image in it has the header's shape |
| ImageDataReader.PickShaped | generator/image_data_reader.py:60 | the images picked for a label present in the file: at least one, all of the file's shape |
| ImageDataReader.ReadUniform | generator/image_data_reader.py:29-66 | a successful read returns non-empty entries whose images all have the shape in the image header |
| ImageDataReader.EachImageOnce | generator/image_data_reader.py:60 | an image's position is in a label's positions exactly when the image carries that label |
| ImageDataReader.GroupedStep | generator/image_data_reader.py:59-60 | one iteration of the grouping loop |
| ImageDataReader.GroupedFailureSticks | generator/image_data_reader.py:59-60 | after a failure, later labels do not change the outcome |
| ImageDataReader.GroupImages | generator/image_data_reader.py:58-60 | the grouping loop computes `GroupByLabel` |
| ImageDataReader.Read | generator/image_data_reader.py:29-69 | the image file, then the label file, then the grouping, with the first error raised; `ReadUniform` and `ReadRoundTrip` state its properties |
| ImageDataReader.ReadImage | generator/image_data_reader.py:29-69 | `__read_image` computes `Read`: images first, then labels, then grouping; the first error is raised |
| ImageDataReader.ReadRoundTrip | generator/image_data_reader.py:29-66 | files written from images and one label per image read back, for each label present, exactly the images carrying it, in order |
| Layout.Widths | generator/digit_sequence_generator.py:170 | the widths of the glyphs, one per glyph |
| Layout.MinRequiredWidth | generator/digit_sequence_generator.py:170 | the summed glyph width is non-negative |
| Layout.MaxHeight | generator/digit_sequence_generator.py:220 | `max` of the heights: no glyph is taller, and some glyph is that tall |
| Layout.Slacks | generator/digit_sequence_generator.py:180-181 | `rightEndWhiteSpaceLeft`: one slack per candidate gap, `width - (minRequired + (n - 1) * g)` |
| Layout.NonNegative | generator/digit_sequence_generator.py:182 | the filter `s[s >= 0]` keeps exactly the non-negative elements |
| Layout.Least | generator/digit_sequence_generator.py:198 | `min`: an element no greater than any other |
| Layout.Greatest | generator/digit_sequence_generator.py:200 | `max`: an element no smaller than any other |
| Layout.FirstIndex | generator/digit_sequence_generator.py:205-207 | `np.where(...)[0]`: the first position holding the value |
| Layout.EqualizedChoice | generator/digit_sequence_generator.py:180-211 | the chosen gap lies in the spacing range and leaves exactly the reported, non-negative slack |
| Layout.EqualizedPlan | generator/digit_sequence_generator.py:180-264 | an equalized plan draws one gap per glyph boundary |
| Layout.ProgressivePlan | generator/digit_sequence_generator.py:271-287 | a progressive plan draws at most one gap per glyph boundary |
| Layout.PlanFor | generator/digit_sequence_generator.py:169-293 | on success: margins, glyph widths and drawn gaps sum to the width; the right margin is the left one or one more; equalized modes draw exactly `n - 1` gaps |
| Layout.Offset | generator/digit_sequence_generator.py:251-254 | where glyph `i` starts in the joined strip; never negative |
| Layout.Strip | generator/digit_sequence_generator.py:251-254 | the strip the joining loop builds is well formed, at the glyphs' height, ending where the last glyph ends |
| Layout.Compose | generator/digit_sequence_generator.py:257 | left margin, strip, right margin: well formed, at the glyphs' height |
| Layout.JoinGlyphs | generator/digit_sequence_generator.py:305-313 | the joining loop builds `Strip`, or fails with an index error when the range supplies too few gaps |
| Layout.Generate | generator/digit_sequence_generator.py:161-329 | `_generate_sequence` as a function: the plan, then the strip, then the margins; `GenerateExactWidth` and `GenerateArranged` state its properties |
| Layout.GenerateSequence | generator/digit_sequence_generator.py:161-329 | `_generate_sequence` computes `Generate`; the source's FATAL sum check is proved never to fire |
| LayoutProperties.EqualizedChoiceSpec | generator/digit_sequence_generator.py:180-207 | equalized choice fails exactly when no gap in the range fits; `EQUALIZED_MAX` leaves the least non-negative slack and the other mode the most; ties go to the smallest gap |
| LayoutProperties.EqualizedMaxAtLeastMin | generator/digit_sequence_generator.py:197-207 | both equalized modes succeed on the same inputs, and `EQUALIZED_MAX` never picks a smaller gap than `EQUALIZED_MIN` |
| LayoutProperties.ChoiceOrder | generator/digit_sequence_generator.py:205-207 | a first gap leaving the least slack is at least as wide as a first gap leaving any greater feasible slack |
| LayoutProperties.WidthCheckFirst | generator/digit_sequence_generator.py:170-175 | glyphs wider than the canvas fail with the width error exactly when they are, whatever the spacing |
| LayoutProperties.EqualizedOutcome | generator/digit_sequence_generator.py:180-264 | equalized: fails exactly when no gap fits; on success every gap is the chosen `g`, reported once per glyph |
| LayoutProperties.ProgressiveOutcome | generator/digit_sequence_generator.py:271-323 | progressive: gaps `smin, smin + 1, …`, truncated by the range; fails exactly on a negative remainder or a short range; reports the drawn gaps |
| LayoutProperties.StripWidth | generator/digit_sequence_generator.py:251-257 | the joined strip is as wide as the glyphs plus the gaps |
| LayoutProperties.GenerateExactWidth | generator/digit_sequence_generator.py:213-218 | on success: the image is exactly the requested width at the glyphs' height; the sizes add up; the margins differ by at most one; `fullImageSize` and `numberOfLabels` are as reported |
| LayoutProperties.StripStep | generator/digit_sequence_generator.py:254 | one join step, pixel by pixel: the earlier strip, a gap of background, the next glyph |
| LayoutProperties.ShowsExtended | generator/digit_sequence_generator.py:254 | a glyph already placed stays in place when columns are appended |
| LayoutProperties.CoveredMonotone | generator/digit_sequence_generator.py:252-254 | a column covered by the earlier glyphs stays covered |
| LayoutProperties.StripShowsLast | generator/digit_sequence_generator.py:254 | the glyph just joined sits at its offset |
| LayoutProperties.StripShows | generator/digit_sequence_generator.py:251-254 | every glyph of the strip sits at its offset |
| LayoutProperties.StripBackground | generator/digit_sequence_generator.py:251-254 | every strip column outside the glyphs is background |
| LayoutProperties.ComposePixels | generator/digit_sequence_generator.py:257 | each pixel of the final image comes from the left margin, the strip or the right margin |
| LayoutProperties.ComposeArranged | generator/digit_sequence_generator.py:257 | after the margins are added, every glyph sits at its offset shifted by the left margin and every other column is background |
| LayoutProperties.ComposeShows | generator/digit_sequence_generator.py:257 | every glyph appears in the final image at its shifted offset |
| LayoutProperties.ShowsShifted | generator/digit_sequence_generator.py:257 | a glyph placed in the strip is placed `left` columns further right in the final image |
| LayoutProperties.GenerateArranged | generator/digit_sequence_generator.py:251-257 | on success each glyph appears in input order at `left + offset`, and every other pixel is background |
| LayoutProperties.ProgressiveBoundary | generator/digit_sequence_generator.py:271-274 | progressive, when the range holds a gap for every boundary: a canvas exactly as wide as the glyphs plus the gaps `smin, smin + 1, …` is filled with both margins zero; one column less fails |
| LayoutProperties.EqualizedBoundary | generator/digit_sequence_generator.py:180-195 | equalized: the glyphs plus `n - 1` gaps of `smin` fit with no margin; one column less fails |
| LayoutProperties.EqualizedBoundaryPlan | generator/digit_sequence_generator.py:180-211 | the plan at the equalized boundary: all gaps `smin`, both margins zero |
| LayoutProperties.TightPlan | generator/digit_sequence_generator.py:180-211 | on a canvas that fits `n - 1` gaps of `smin` exactly, the equalized plan has gaps of `smin` and no margins |
| LayoutProperties.TightChoiceIsNarrowest | generator/digit_sequence_generator.py:197-207 | on that canvas both equalized modes choose `smin` with no slack |
| LayoutProperties.NarrowerHasNoChoice | generator/digit_sequence_generator.py:197-204 | one column less leaves no gap in the range feasible |
| LayoutProperties.TightPlanFor | generator/digit_sequence_generator.py:169-211 | the engine's plan on the tight canvas: gaps of `smin`, no margins |
| LayoutProperties.NarrowerPlanFor | generator/digit_sequence_generator.py:169-211 | the engine has no plan one column narrower |
| LayoutProperties.PlanForEqualized | generator/digit_sequence_generator.py:169-180 | once the glyphs fit, an equalized mode plans as the equalized policy does |
| LayoutProperties.TooNarrowForGlyphs | generator/digit_sequence_generator.py:170-175 | a canvas narrower than the glyphs fails with the width error in every mode |
| LayoutProperties.FeasibleSlacks | generator/digit_sequence_generator.py:197-204 | a gap's slack is among the feasible slacks exactly when it is non-negative; there are none exactly when every gap leaves a negative slack |
| LayoutProperties.FirstBest | generator/digit_sequence_generator.py:205-207 | the gap picked for a slack value is the smallest gap leaving it |
| LayoutProperties.GenerateSucceeds | generator/digit_sequence_generator.py:169-329 | the engine succeeds exactly when the plan does and supplies a gap for every glyph boundary |
| LayoutProperties.TightChoice | generator/digit_sequence_generator.py:205-207 | when the narrowest gap leaves no slack, it is the gap chosen |
| LayoutProperties.ProgressiveExample | generator/digit_sequence_generator.py:271-287 | two 28-column glyphs, width 100, spacing 10..20, progressive: one gap of 10, margins 17 and 17 |
| LayoutProperties.NarrowCanvasExample | generator/digit_sequence_generator.py:170-175 | the same glyphs on a canvas of 50 fail the width check |
| Text.SizeSuffix | generator/digit_sequence_generator.py:148 | the size part of a file name, built from `str((h, w))`; `SizeSuffixReadsHxW` states its form |
| Text.SizeSuffixReadsHxW | generator/digit_sequence_generator.py:148 | stripping the parentheses off `str((h, w))` and replacing ", " with "x" gives "hxw" |
| Text.StripsParentheses | generator/digit_sequence_generator.py:148 | `.strip("(").strip(")")` removes exactly the outer parentheses |
| Text.ReplaceSeparator | generator/digit_sequence_generator.py:148 | `.replace(", ", "x")` on "h, w" gives "hxw" |
| Text.ReplaceAfterNumeral | generator/digit_sequence_generator.py:148 | the replacement passes over the height unchanged |
| Text.ReplaceInNumeral | generator/digit_sequence_generator.py:148 | the replacement leaves a numeral unchanged |
| Operations.Reverse | augmentor/operations.py:62 | a `::-1` slice: same length, element `i` taken from `len - 1 - i` |
| Operations.ReverseInvolution | augmentor/operations.py:62 | reversing twice gives the sequence back |
| Operations.MirrorColumns | augmentor/operations.py:62 | `img[:, ::-1]` keeps the shape and well-formedness |
| Operations.MirrorRows | augmentor/operations.py:78 | `img[::-1, :]` keeps the shape and well-formedness |
| Operations.HFlip | augmentor/operations.py:62 | the horizontal flip keeps the shape |
| Operations.VFlip | augmentor/operations.py:78 | the vertical flip keeps the shape |
| Operations.HFlipAt | augmentor/operations.py:62 | pixel `(r, c)` of the flip is pixel `(r, cols - 1 - c)`: a left-right mirror |
| Operations.VFlipAt | augmentor/operations.py:78 | pixel `(r, c)` of the "vertical" flip is pixel `(rows - 1 - r, cols - 1 - c)`: both axes reversed, a half turn |
| Operations.HFlipInvolution | augmentor/operations.py:62 | flipping twice gives the image back |
| Operations.VFlipInvolution | augmentor/operations.py:78 | turning twice gives the image back |
| Operations.HFlipAll | augmentor/operations.py:61-62 | one flipped image per input, keeping well-formedness |
| Operations.VFlipAll | augmentor/operations.py:77-78 | one turned image per input, keeping well-formedness |
| Operations.FlipAllInvolution | augmentor/operations.py:60-80 | flipping the flipped list gives the list back |
| Operations.HorizontalFlip.constructor | augmentor/operations.py:56-58 | keeps the inputs; the output list starts empty |
| Operations.HorizontalFlip.Execute | augmentor/operations.py:60-64 | appends the flipped inputs, in order, to the output list and returns the whole list |
| Operations.VerticalFlip.constructor | augmentor/operations.py:72-74 | keeps the inputs; the output list starts empty |
| Operations.VerticalFlip.Execute | augmentor/operations.py:76-80 | appends the turned inputs, in order, to the output list and returns the whole list |
| Operations.HorizontalFlipTwice | augmentor/operations.py:54-64 | a fresh object's first `execute` returns one flip per input; a second returns that list twice over |
| Operations.VerticalFlipTwice | augmentor/operations.py:70-80 | the same for the vertical flip |
| Augmentation.Rank | augmentor/augmentation.py:16-40 | the position of each operator in the order `execute` tests the options |
| Augmentation.NewAugmentor | augmentor/augmentation.py:6-14 | succeeds exactly when all six options are present, keeping the images and the option strings; otherwise it names the first missing option in reading order |
| Augmentation.FirstMissing | augmentor/augmentation.py:9-14 | the first option name the section lacks; all earlier ones are present |
| Augmentation.Selected | augmentor/augmentation.py:16-40 | the operator the if-chain reaches first; `SelectedIsFirstSet` characterises it |
| Augmentation.ExecuteAsWritten | augmentor/augmentation.py:16-40 | `execute` as written: rotation, blur and warp return their result; a chosen flip raises the misspelt class name; nothing set returns `None`; `AsWrittenDiffersOnlyOnFlips` relates it to `Execute` |
| Augmentation.Execute | augmentor/augmentation.py:16-40 | `execute` with its flip names fixed; `ExecuteFollowsSelection` and `FlipDispatch` state what it returns |
| Augmentation.SelectedIsFirstSet | augmentor/augmentation.py:16-40 | the operator chosen is the set option of highest priority, and nothing is chosen exactly when no option is set |
| Augmentation.ExecuteFollowsSelection | augmentor/augmentation.py:16-40 | `execute` returns the chosen operator's result on the whole list, and `None` exactly when no option is set |
| Augmentation.FlipDispatch | augmentor/augmentation.py:32-40 | a chosen flip returns one flipped image per input, in order, and applying the flip again restores the inputs |
| Augmentation.AsWrittenDiffersOnlyOnFlips | augmentor/augmentation.py:32-40 | the code as written matches the intended dispatch except that choosing a flip raises |
| Augmentation.VerticalFlipRaises | augmentor/augmentation.py:32-35 | with only `VerticalFlip` set, the code as written raises and the intended dispatch turns every image |
| Augmentation.RandAugIgnored | augmentor/augmentation.py:9 | the `RandAug` option never changes the result |
| Augmentation.LowerPrioritiesIgnored | augmentor/augmentation.py:16-40 | once an option is set, options of lower priority never change the result |
| Augmentation.FalseStringCountsAsSet | augmentor/augmentation.py:17 | an option written "False" still switches rotation on, because any non-empty string is true |
| CommandParser.Validate | utils/command_parser.py:57-65 | the checks after argument parsing: the width check, then the range check, each with its message; `ValidateSpec` states when each fires |
| CommandParser.ParseCli | utils/command_parser.py:16-68 | `cli_argument_parser`: status 2 for bad digits, status 1 with the message of a failed check, the arguments otherwise; `CliAccepts` and `ParsersAgree` state its outcome |
| CommandParser.ParseApi | utils/command_parser.py:75-130 | `api_argument_parser`: a 400 for bad digits, `(False, message)` for a failed check, `(True, args)` otherwise; `ParsersAgree` and `WidthReportedFirst` state its outcome |
| CommandParser.ValidateSpec | utils/command_parser.py:57-65 | a request passes exactly when the width is not negative and the range is not reversed; a negative width is reported first |
| CommandParser.MessagesDiffer | utils/command_parser.py:58-63 | a width message is never a spacing message |
| CommandParser.WidthMessageInjective | utils/command_parser.py:58 | the width message determines the width |
| CommandParser.SpacingMessageInjective | utils/command_parser.py:63 | the spacing message determines both ends of the range |
| CommandParser.ParsersAgree | utils/command_parser.py:16-132 | the CLI and API parsers accept the same requests; a status-1 exit carries exactly the API's `False` message; argument-level rejections coincide |
| CommandParser.CliAccepts | utils/command_parser.py:25-68 | the CLI accepts exactly when the digits are 0..9 (at least one), the width is not negative and the range is not reversed |
| CommandParser.WidthReportedFirst | utils/command_parser.py:121-123 | with both faults present, the API reports the width "-1" |
| Generator.Chosen | generator/digit_sequence_generator.py:95-97 | the drawn image belongs to the digit's pool; a draw below the pool size picks that index |
| Generator.Keys | generator/digit_sequence_generator.py:92-93 | one key `str(user_digit)` per requested digit, in order |
| Generator.Drawn | generator/digit_sequence_generator.py:93-97 | the image drawn for a key belongs to that key's entry |
| Generator.PrefixOkIff | generator/digit_sequence_generator.py:92-106 | the loop over a prefix of the keys succeeds exactly when every key there has a non-empty entry |
| Generator.PrefixOkStep | generator/digit_sequence_generator.py:92-106 | one more key keeps the loop going exactly when the loop was still going and that key has a non-empty entry |
| Generator.PrefixValues | generator/digit_sequence_generator.py:92-101 | when every key of a prefix has an entry, the loop holds one image per key, in key order, each drawn from that key's entry |
| Generator.PrefixFailure | generator/digit_sequence_generator.py:92-106 | a failed loop raises the error of the first key without a non-empty entry |
| Generator.FailureCarries | generator/digit_sequence_generator.py:102-106 | after a failure the next key leaves the outcome unchanged |
| Generator.SelectionIsPrefix | generator/digit_sequence_generator.py:83-109 | `Selection` is the loop over the digits' keys |
| Generator.Selection | generator/digit_sequence_generator.py:83-109 | one image per requested digit, in order, each from that digit's entry; the first unknown digit raises and names the digit and the map's keys |
| Generator.SelectionFailureSticks | generator/digit_sequence_generator.py:92-106 | once selection fails, later keys do not change the error |
| Generator.SelectStep | generator/digit_sequence_generator.py:92-106 | one iteration of the selection loop |
| Generator.SelectImages | generator/digit_sequence_generator.py:83-109 | the selection loop computes `Selection` |
| Generator.SelectKeys | generator/digit_sequence_generator.py:90-107 | the loop over the keys computes the loop function over all of them |
| Generator.SelectionFromCorpusJoinable | generator/digit_sequence_generator.py:59-67 | images selected from a decoded corpus share one shape, so the engine can join them |
| Generator.Sequence | generator/digit_sequence_generator.py:161-332 | the engine on a glyph list with the object's settings, after the up-front refusals; its properties are `SequenceExactWidth` and `OriginalRefusedOnlyForNegativeSpacing` |
| Generator.RunEngine | generator/digit_sequence_generator.py:161-332 | one engine run on a glyph list computes `Sequence` |
| Generator.SequenceExactWidth | generator/digit_sequence_generator.py:161-329 | a successful run fills exactly the requested width at the glyph height and reports that size and the glyph count |
| Generator.OriginalRefusedOnlyForNegativeSpacing | generator/digit_sequence_generator.py:74-75 | on corpus glyphs the engine refuses up front exactly when the spacing minimum is negative |
| Generator.OriginalPath | generator/digit_sequence_generator.py:74-75 | the original branch: run the engine on the selected glyphs and store its output (the specification `OriginalBranch` is proved against) |
| Generator.Run | generator/digit_sequence_generator.py:53-81 | `generate_numbers_sequence`: read, select, then the augmented branch (modes 2 and 3) and the original branch (modes 1 and 3), with the first error raised; its properties are `RunSucceeds`, `FlipRaisesInRun` and the two failure lemmas |
| Generator.RunSucceeds | generator/digit_sequence_generator.py:53-81 | after a successful call: the map and selection are stored; original outputs are recomputed exactly in modes 1 and 3; augmented outputs exactly in modes 2 and 3; all else is kept |
| Generator.AugmentedFailureSkipsOriginal | generator/digit_sequence_generator.py:69-75 | in mode 3 a failing augmented branch raises before the original outputs change |
| Generator.OriginalFailureKeepsAugmented | generator/digit_sequence_generator.py:69-75 | in mode 3 a failing original branch raises with the augmented outputs already stored |
| Generator.AugmentedPathStores | generator/digit_sequence_generator.py:70-71 | a successful augmented branch stores the augmented glyphs and the engine's result on them; no other attribute changes |
| Generator.AugmentedPathKeeps | generator/digit_sequence_generator.py:69-72 | whether the augmented branch fails does not depend on the attributes it starts from, and it never changes the original outputs |
| Generator.OriginalPathStores | generator/digit_sequence_generator.py:74-75 | a successful original branch stores the engine's result on the selected glyphs; no other attribute changes |
| Generator.FlipModeAugments | generator/digit_sequence_generator.py:70 | in the intended branch, with its flips fixed, a chosen flip makes the augmented glyphs the selected glyphs flipped one by one |
| Generator.AugmentedPath | generator/digit_sequence_generator.py:69-72 | the augmented branch as written: a missing option or a chosen flip raises before anything is stored; otherwise `execute`'s result is stored and the engine runs on it (the specification `AugmentedBranch` is proved against) |
| Generator.AugmentedResult | generator/digit_sequence_generator.py:70-71 | the branch after `execute` returns: store the result, raise on `None`, run the engine and store its output |
| Generator.AugmentedPathIntended | generator/digit_sequence_generator.py:69-72 | the augmented branch with `execute`'s flip names fixed; nothing else in the model uses it |
| Generator.AugmentedPathAsWritten | generator/digit_sequence_generator.py:69-72 | the branch as written equals the intended one unless a flip is chosen; with a flip it raises the missing operator name and leaves the attributes as they were |
| Generator.FlipRaisesInRun | generator/digit_sequence_generator.py:53-81 | in modes 2 and 3 a chosen flip makes the call raise: the augmented glyphs, both augmented outputs and both original outputs keep their old values |
| Generator.Iterations | generator/digit_sequence_generator.py:120 | `ceil(mode / 2)` passes: `2k - 1 <= mode <= 2k` for positive modes, none otherwise |
| Generator.FileName | generator/digit_sequence_generator.py:146-148 | the file name from the output path, the clock text, the extension and the size text; `FileNameSize` states its form |
| Generator.FileNameSize | generator/digit_sequence_generator.py:146-148 | the saved name is `<out>/mdsg_<stamp><ext>_<h>x<w>.png` |
| Generator.Downloads | generator/digit_sequence_generator.py:111-159 | `image_downloader`: the names saved, a failed save, or the exception raised; the mode-by-mode lemmas below state its outcome |
| Generator.DownloadOutsideModes | generator/digit_sequence_generator.py:120-148 | modes below 1 save nothing; modes above 3 raise on the first pass, before any name is built |
| Generator.DownloadOriginal | generator/digit_sequence_generator.py:127-157 | mode 1 saves one "org" file, returns False if saving fails, and raises if there is no metadata |
| Generator.DownloadAugmented | generator/digit_sequence_generator.py:135-157 | mode 2 saves one "aug" file, with the same failure cases |
| Generator.DownloadBoth | generator/digit_sequence_generator.py:123-159 | mode 3 saves the "org" file and then the "aug" file, and returns False at the first failed save |
| Generator.DownloadPass | generator/digit_sequence_generator.py:145-151 | one pass with metadata: saves under its name and goes on, or returns False |
| Generator.DigitSequenceGenerator.constructor | generator/digit_sequence_generator.py:18-44 | keeps the settings; every computed attribute starts as `None` |
| Generator.DigitSequenceGenerator.AugmentedBranch | generator/digit_sequence_generator.py:69-72 | the augmented branch, with `execute` as written, updates the attributes and reports the error exactly as `AugmentedPath` says |
| Generator.DigitSequenceGenerator.OriginalBranch | generator/digit_sequence_generator.py:74-75 | the original branch updates the attributes and reports the error exactly as `OriginalPath` says |
| Generator.DigitSequenceGenerator.GenerateNumbersSequence | generator/digit_sequence_generator.py:53-81 | updates the attributes and raises exactly as `Run` says |
| Generator.DigitSequenceGenerator.ImageDownloader | generator/digit_sequence_generator.py:111-159 | the download loop returns or raises exactly as `Downloads` says |

## Left out

- File access, `os.path` joins, `os.path.realpath`, `plt.imsave`, the clock and `ConfParser` are not modelled:
  - the corpus files are passed as byte sequences;
  - the configuration section is a map;
  - the formatted timestamp is a function of the pass number;
  - whether a save succeeds is a function of the name and the image.
- Logging, and the exception messages' free text, are not modelled; errors carry the values the messages report.
- The Flask and command-line entry points (`mdsg_api.py`, `mdsg_cli.py`), `utils/config_parser.py` and `utils/custom_logging.py` are not part of this model.
- Option names in the configuration are matched exactly. `configparser` folds option-name case, and that folding is not modelled.
- `ImageDataReader.Invert`: models `255 - p` on bytes. The further `/ 255.0` to `float32` is floating point and is left out, so pixel values stay in 0..255.
- `Generator.SelectImages`: builds the keys `str(user_digit)` before the loop (`Generator.SelectKeys`) rather than inside it. Lookups, draws and the first error come in the same order.
- `Generator.Chosen`: models `np.random.choice` as an arbitrary draw reduced modulo the pool size. Uniformity is not modelled.
- The Rotate, Blur and Warp operators call image libraries and draw random numbers, so they are opaque parameters (`Augmentation.Transforms`). The other operator classes of `augmentor/operations.py` are left out for the same reason.
- `Generator.Sequence`: glyphs `np.hstack` cannot join are refused up front with `Unjoinable`. `Generator.SelectionFromCorpusJoinable` shows that glyphs taken from a decoded corpus are always joinable. A negative spacing minimum is refused up front too. The source raises inside numpy only when a negative gap is actually drawn. Otherwise it succeeds where the model refuses. Example: two 28-column glyphs, width 100, range -5..10. With `EQUALIZED_MAX` the source picks a gap of 10 and succeeds. With `EQUALIZED_MIN` it picks -5 and raises.
- The white pixel is read from the configuration as a string. The model takes it as the pixel value the background is filled with.
- The metadata values are `str(...)` of numbers and arrays in the source. The model keeps the numbers, except for `fullImageSize`, whose text is built explicitly (`Text.PairToString`) because the file name depends on it. Newer numpy versions print `np.int64` values inside tuples differently; that repr is not modelled.
- numpy views share memory with the corpus arrays. Aliasing is not modelled: images are values.
- `Operations.HorizontalFlipTwice`, `Operations.VerticalFlipTwice`: each `execute` returns the object's own output list, the same list object every time. After a second `execute`, the list returned by the first call has also grown to `2n` images. The model returns sequences, which are values, so `first` keeps the `n` images it held when returned. This list sharing is not modelled.
- `Generator.Iterations`: models `ceil(mode / 2.0)` on integers. Float rounding for modes beyond 2^53 is not modelled.
- `Layout.PlanFor`: the engine's slacks are numpy `int64` and its left margin is `int(slack / 2)` on a `float64`. The model uses unbounded integers and exact halving. It does not model `int64` overflow, or the float rounding of slacks beyond 2^53. For example, a slack of 2^54 + 3 gives margins 2^53 + 2 and 2^53 + 1 in the source, breaking the proved `0 <= right - left <= 1`. The same holds for `Layout.EqualizedPlan`, `Layout.ProgressivePlan` and `LayoutProperties.GenerateExactWidth`.
- `CommandParser.ParseCli` and `CommandParser.ParseApi`: argument-level rejections are a status-2 exit and an HTTP 400 abort. The text argparse and `reqparse` print is not modelled, nor are type errors for non-integer arguments.

## Findings

| source | as written | input that shows it | evidently intended | confidence | as-written member | corrected member |
|---|---|---|---|---|---|---|
| augmentor/augmentation.py:33,38 | the flip branches build `ops.Verticalflip` and `ops.Horizontalflip`; the operations module defines no such names, so choosing either flip raises `AttributeError` | an `AUGMENTATION` section in which only `VerticalFlip` is non-empty (run mode 2 or 3) | build the operations module's `VerticalFlip` and `HorizontalFlip` (augmentor/operations.py:54, 70) and return their `execute()` result | high (names checked against the operations module; not executed) | Augmentation.ExecuteAsWritten, Augmentation.VerticalFlipRaises, Generator.AugmentedPath, Generator.FlipRaisesInRun | Augmentation.Execute, Augmentation.FlipDispatch, Generator.AugmentedPathIntended, Generator.FlipModeAugments |
