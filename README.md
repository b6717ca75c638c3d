# DGPrinter, modelled in Dafny

DGPrinter paints an image into another application by synthesising mouse input. It has three parts.

- **Vectoriser** (`ImageProcessor`). It samples every second row of the resized image. On each sampled row it emits one horizontal two-point path per maximal stretch of "foreground" pixels. There are three modes:
  - binary fill: foreground is a thresholded sample below 128;
  - raster coloured edges: an edge pixel that is not white, keyed by its colour darkened by 0.6 and bucketed by 20;
  - quantised blocks: a pixel that is not white, keyed by its colour bucketed by 42.

  The coloured modes gather their segments in a dictionary keyed by the packed colour `(r << 16) | (g << 8) | b`. They return the segments grouped by colour, in order of first appearance.
- **Main window run** (`RunTask`):
  1. It groups the segments into batches of one colour each.
  2. It estimates the run time as `batches * 2.5 + horizontal span / 400` seconds.
  3. For each batch in order, it chooses the batch's colour on the target application's palette, then draws the batch's paths at the canvas offset.

  Choosing a colour takes three clicks. The first opens the palette. The second picks the sample closest to the colour, found by a stride-4 scan of a capture of the palette. The third closes the palette, but only if a close region was selected.
- **Pen** (`PenSimulator`). It replays a polyline: a smooth hover to the first point, a press with a kick-start jitter, interpolated sub-steps with a 1 ms nap every `sleepInterval` steps, and a release. Cancellation is checked before every point pair. Once the pen is pressed, it is always released.

The model has these parts:

- **Device calls.** Every Win32 call (`SetCursorPos`, `mouse_event`, `Thread.Sleep`) is an `Action` appended to the pen's `trace`. The position `GetCursorPos` reports is where the trace has led the cursor.
- **Cancellation.** A token becomes requested once the trace reaches a fixed length, and then stays requested.
- **Imperative code.**
  - The three scans, `AddSegment`, the palette search and the run are `method`s with loops over `array2` buffers. They are proved against specification functions.
  - The colour dictionary is a class `ColorMap`: an insertion-ordered key list plus a `map`. `AddSegment` updates it in place.
  - The pen is a class `PenSimulator` whose methods append to its trace.
- **Specification functions and lemmas.**
  - `RunModel` defines the maximal runs of a row independently and proves that they are unique.
  - `ScanProperties`, `ColouredScan` and `ModeProperties` prove what each mode emits: maximal stretches on even rows, in order, and every foreground pixel of a sampled row covered exactly once.
  - `Grouping` models LINQ's `GroupBy` and the dictionary's insertion order.
  - `PenProperties` proves the stroke's shape: exactly one press and one release, the landing points, the number of moves and naps, and prompt stopping on cancellation.
  - `MainWindowProperties` proves the estimate's laws, the batches of each mode, and that the presses of a whole run are, in order, the planned clicks.

## Model

| member | source | states |
|---|---|---|
| ColorModel.IsWhite | ImageProcessor.cs:17 | a colour is white, and so background, exactly when each of its three channels is above 230 |
| ColorModel.QuantizeChannel | ImageProcessor.cs:123-125 | the bucketed channel is a multiple of the step and the largest such value not above the channel: `q <= c < q + step` |
| ColorModel.QuantizeChannelFixed | ImageProcessor.cs:179-181 | bucketing leaves a channel unchanged exactly when it is already a multiple of the step, and bucketing twice is bucketing once |
| ColorModel.Darken | ImageProcessor.cs:117-119 | `(byte)(c * 0.6)` is `d <= c` with `5d <= 3c < 5d + 5`, i.e. the floor of 3c/5 |
| ColorModel.EdgeChannel | ImageProcessor.cs:117-125 | an edge-mode channel is a multiple of 20, at most the source channel, and at most 140 |
| ColorModel.BlockChannel | ImageProcessor.cs:179-181 | a block-mode channel is a multiple of 42, at most the source channel, and at most 252 |
| ColorModel.Pack | ImageProcessor.cs:127 | a packed colour lies in [0, 2^24), so it is never the "no open run" sentinel -1 |
| ColorModel.Unpack | ImageProcessor.cs:145 | a key decodes by shift and mask: red from bits 16-23, green from bits 8-15, blue from bits 0-7; `UnpackPack` and `PackUnpack` state the round trip |
| ColorModel.UnpackPack | ImageProcessor.cs:145 | decoding with shifts and `& 0xFF` returns the three bytes that were packed |
| ColorModel.PackUnpack | ImageProcessor.cs:197 | every key in [0, 2^24) is the packing of its decoded colour |
| ColorModel.Quantize | MainWindow.xaml.cs:285 | each channel of the result is a multiple of 20 and lies in (c - 20, c] |
| ColorModel.QuantizeFixed | MainWindow.xaml.cs:285 | Quantize is idempotent, and fixes a colour exactly when every channel is a multiple of 20 |
| RunModel.RunEnd | ImageProcessor.cs:44-47 | the stretch of key k starting at s ends at e: every cell from s to e carries k and the cell after e, if any, does not |
| RunModel.RunsAreMaximal | ImageProcessor.cs:37-58 | the independent definition `Runs` yields exactly maximal runs, left to right, with nothing foreground outside them |
| RunModel.MaximalRunsAreRuns | ImageProcessor.cs:37-58 | any sequence of runs meeting the maximal-run description is `Runs(row)` |
| RunModel.MaximalRunsUnique | ImageProcessor.cs:37-58 | two run lists that both meet the maximal-run description of a row are equal |
| RunModel.MaximalRunsOrdered | ImageProcessor.cs:41-57 | maximal runs are pairwise disjoint and ordered: each ends before the next starts |
| RunModel.CoveredExactlyOnce | ImageProcessor.cs:41-57 | a cell is foreground iff a run covers it, it is then covered by exactly one run, and it carries that run's key |
| RunModel.ScanBackground | ImageProcessor.cs:48-55 | a background cell closes the open run at the previous column, and the runs found so far stay maximal |
| RunModel.ScanSame | ImageProcessor.cs:44-47 | a cell with the open run's key extends that run |
| RunModel.ScanNew | ImageProcessor.cs:129-135 | a foreground cell with another key closes the open run at x - 1 and opens a run at x |
| RunModel.ScanEnd | ImageProcessor.cs:57 | at the end of the row the runs found are the row's maximal runs; the open run is closed at the last column |
| ScanProperties.SampledAreSegments | ImageProcessor.cs:37-58 | every entry of the sampled rows is the two-point path of a maximal run on an even row |
| ScanProperties.SampledOrdered | ImageProcessor.cs:37-58 | entries come row by row and left to right within a row, and never overlap |
| ScanProperties.SampledCoverage | ImageProcessor.cs:37-58 | a cell is covered iff it is foreground on a sampled row; it is then covered by exactly one entry, carrying the cell's key |
| ImageProcessor.GetBinaryPaths | ImageProcessor.cs:28-60 | the loop over rows 0, 2, 4, ... returns exactly `BinaryPaths` of the thresholded buffer |
| ImageProcessor.BinaryCell | ImageProcessor.cs:43 | a sample of the thresholded buffer is ink exactly when it is below 128 |
| ImageProcessor.EdgeCell | ImageProcessor.cs:87-127 | a pixel is drawn exactly when its edge value is above 200 and it is not white, the white test reading the BGR sample as R = item2, G = item1, B = item0; its key packs the darkened colour bucketed by 20 (`ModeProperties.EdgeKeyColour` states that the key decodes to it) |
| ImageProcessor.BlockCell | ImageProcessor.cs:168-182 | a pixel is drawn exactly when it is not white; its key packs its colour bucketed by 42 (`ModeProperties.BlockKeyColour` states that the key decodes to it) |
| ImageProcessor.ScanBinaryRow | ImageProcessor.cs:39-57 | one binary row emits the paths of its maximal dark runs, in order |
| ImageProcessor.ScanBinaryPixel | ImageProcessor.cs:43-55 | one pixel step keeps the scan state (`isDrawing`, `startX`, paths emitted) in step with the maximal runs of the cells seen |
| ImageProcessor.ColorMap.constructor | ImageProcessor.cs:75 | a new colour map has no keys and no lists |
| ImageProcessor.AddSegment | ImageProcessor.cs:203-209 | exactly one path `[(startX, y), (endX, y)]` is appended to the list of rgb; the list is created if absent; a new key goes last in insertion order; other keys' lists are unchanged |
| ImageProcessor.AddSegmentGroups | ImageProcessor.cs:203-209 | AddSegment keeps the map equal to the grouping of all segments added so far: keys in first-insertion order, each list holding that key's paths in order |
| ImageProcessor.ConvertResult | ImageProcessor.cs:142-148 | the dictionary walk returns every segment with its key decoded, grouped by key in insertion order |
| ImageProcessor.GetRasterColoredEdges | ImageProcessor.cs:63-149 | the edge-mode scan returns exactly `EdgeResult` of the edge and colour buffers |
| ImageProcessor.ScanEdgeRow | ImageProcessor.cs:82-138 | one edge row adds exactly the segments of its maximal runs of equal keys, in order |
| ImageProcessor.ScanEdgePixel | ImageProcessor.cs:88-135 | one edge-mode pixel step keeps `currentRGB`/`startX` and the map in step with the runs of the cells seen; `currentRGB == -1` exactly when no run is open |
| ImageProcessor.GetQuantized256Blocks | ImageProcessor.cs:152-201 | the block-mode scan returns exactly `BlockResult` of the colour buffer |
| ImageProcessor.ScanBlockRow | ImageProcessor.cs:162-191 | one block row adds exactly the segments of its maximal runs of equal keys, in order |
| ImageProcessor.ScanBlockPixel | ImageProcessor.cs:167-189 | one block-mode pixel step keeps the scan state and the map in step with the runs of the cells seen |
| ImageProcessor.BreakSegment | ImageProcessor.cs:94-98 | a background or white pixel closes the open run into the map and resets `currentRGB` to -1 |
| ImageProcessor.ColourPixel | ImageProcessor.cs:129-135 | a coloured pixel either continues the open run or closes it and opens a run of its own key at x |
| ImageProcessor.EmitSegment | ImageProcessor.cs:132 | closing a run adds its segment to the map, keeping the map the grouping of the segments found |
| Grouping.FirstKeys | MainWindow.xaml.cs:168 | the group keys are the keys of the entries, each once, in order of first occurrence |
| Grouping.GroupsNonEmpty | MainWindow.xaml.cs:168 | every group holds at least one path, and no key is grouped twice |
| Grouping.RegroupUngroup | MainWindow.xaml.cs:168 | grouping a flattened list of distinct non-empty groups gives back those groups |
| Grouping.GroupByPermutes | ImageProcessor.cs:143-146 | flattening the groups is a permutation of the entries |
| ColouredScan.UnpackDistinct | ImageProcessor.cs:145 | distinct packed keys decode to distinct colours, so grouping by colour is grouping by key |
| ColouredScan.FirstKeysRecoloured | ImageProcessor.cs:143-146 | the first-occurrence order of decoded colours is that of the packed keys |
| ColouredScan.RecolouredGroups | ImageProcessor.cs:143-146 | grouping the decoded segments by colour equals grouping by key and then decoding |
| ColouredScan.ColoredResultGroups | ImageProcessor.cs:142-147 | a colour mode's result is the decoded segments grouped by colour in first-appearance order, and a permutation of them |
| ColouredScan.ColouredCoverage | ImageProcessor.cs:142-147 | a cell is covered by the result iff by a segment, only by that segment recoloured, and never twice when no two segments overlap |
| ColouredScan.ColouredSegments | ImageProcessor.cs:80-138 | every element of a colour mode's result is a maximal one-colour stretch of an even row |
| ColouredScan.ColouredGridCoverage | ImageProcessor.cs:80-138 | a cell is covered iff it is foreground on an even row, then exactly once and in its own colour |
| ModeProperties.BinaryPathsAreDarkRuns | ImageProcessor.cs:37-58 | every binary path is two points on one even row, with `0 <= startX <= endX < width`, all samples between below 128, and none on either side |
| ModeProperties.BinaryPathsOrdered | ImageProcessor.cs:37-58 | binary paths come row-major and left to right without overlap |
| ModeProperties.BinaryCoverage | ImageProcessor.cs:37-58 | a pixel is covered iff its row is even and its sample is below 128, and then by exactly one path |
| ModeProperties.EdgeColour | ImageProcessor.cs:117-125 | every channel of an edge colour is a multiple of 20 and at most the source channel |
| ModeProperties.EdgeKeyColour | ImageProcessor.cs:127 | an edge key is packed and decodes to the pixel's edge colour |
| ModeProperties.EdgeResultSegments | ImageProcessor.cs:80-138 | every edge segment spans edge pixels (> 200, not white) of one colour on an even row, and the pixel on each side is not of that colour |
| ModeProperties.EdgeResultCoverage | ImageProcessor.cs:85-136 | a pixel is covered iff its row is even, its edge value is above 200 and it is not white; it is covered once, in its edge colour |
| ModeProperties.EdgeResultGrouped | ImageProcessor.cs:142-147 | the edge result is the row-major segments grouped by colour in first-appearance order |
| ModeProperties.BlockColour | ImageProcessor.cs:179-181 | every channel of a block colour is a multiple of 42, at most the source channel, and at most 252 |
| ModeProperties.BlockKeyColour | ImageProcessor.cs:182 | a block key is packed and decodes to the pixel's block colour |
| ModeProperties.BlockResultSegments | ImageProcessor.cs:160-191 | every block segment spans non-white pixels of one colour on an even row, and the pixel on each side is not of that colour |
| ModeProperties.BlockResultCoverage | ImageProcessor.cs:165-190 | every non-white pixel of an even row is covered by exactly one segment, in its block colour, and no other pixel is covered |
| ModeProperties.BlockResultGrouped | ImageProcessor.cs:194-199 | the block result is the row-major segments grouped by colour in first-appearance order |
| Pen.TruncDiv | PenSimulator.cs:81-82 | the `(int)` conversion truncates toward zero: the remainder has the sign of the dividend and is smaller than the divisor |
| Pen.StepCount | PenSimulator.cs:72-76 | a pair of points, and the hover of lines 114-116, takes at least one sub-step: `Math.Max(1, dist / stepSize)` truncated |
| Pen.UpDelay | PenSimulator.cs:98 | the delay before the release is 10 ms when `stepSize < 2.0` and 2 ms otherwise |
| Pen.StepCounts | PenSimulator.cs:72-76 | one sub-step count per point pair, in order |
| Pen.PenSimulator.constructor | PenSimulator.cs:28 | a new pen has an empty trace |
| Pen.PenSimulator.Click | PenSimulator.cs:103-110 | appends set cursor, sleep 30, left down, sleep 30, left up |
| Pen.PenSimulator.MoveSmoothly | PenSimulator.cs:112-128 | appends the hover `Glide`: a cancellation check and a move per step, a nap after every fifth step, then the final snap to `to` |
| Pen.PenSimulator.GlideSteps | PenSimulator.cs:118-126 | the hover loop from step 1 appends the steps the token allows |
| Pen.PenSimulator.DrawSegment | PenSimulator.cs:78-93 | the sub-step loop appends one move per step and a 1 ms nap when the carried counter reaches the interval, and returns the counter left over |
| Pen.PenSimulator.PressAt | PenSimulator.cs:50-56 | appends set cursor, sleep 15, left down and the (+2, +2), (-2, -2) jitter |
| Pen.PenSimulator.DrawPair | PenSimulator.cs:63-93 | one uncancelled pass of the pair loop appends pair i's sub-steps and hands the counter on |
| Pen.PenSimulator.DrawPairs | PenSimulator.cs:59-100 | the pair loop with its cancellation checks, then the release, appends `PairsFrom` from pair 0 with counter 0 |
| Pen.PenSimulator.DrawStroke | PenSimulator.cs:41-101 | appends `Stroke` from the cursor's position: nothing for fewer than two points, else hover, press, pairs and release |
| PenProperties.ISqrtBounds | PenSimulator.cs:72-76 | the step count's integer square root is the floor of the square root |
| PenProperties.InterpolateBetween | PenSimulator.cs:80-82 | an interpolated coordinate lies between the pair's end coordinates |
| PenProperties.LerpEnd | PenSimulator.cs:80-84 | the last sub-step (t = 1) lands exactly on p2 |
| PenProperties.PressLandsOnPoint | PenSimulator.cs:50-56 | after the press and the jitter the cursor is on the first point: the jitter nets to zero |
| PenProperties.ClickPressRelease | PenSimulator.cs:103-110 | a click presses once and releases once, the press before the release |
| PenProperties.ClickLandsOnPoint | PenSimulator.cs:105 | a click leaves the cursor on its point |
| PenProperties.PeriodsAreQuotient | PenSimulator.cs:87-92 | counting naps by resetting a counter gives n / k naps and a leftover of n % k |
| PenProperties.SegmentShape | PenSimulator.cs:78-93 | a point pair's sub-steps press no button and make exactly `steps` moves |
| PenProperties.SegmentNaps | PenSimulator.cs:87-92 | a pair's naps are the number of completed periods of the carried counter, and the counter left over is the remainder |
| PenProperties.SegmentEnds | PenSimulator.cs:76-84 | the sub-steps of a pair leave the cursor on p2 |
| PenProperties.PairsRelease | PenSimulator.cs:61-100 | the pair loop always ends with a left up, with no button event before it, cancelled or not |
| PenProperties.PairsEndUncancelled | PenSimulator.cs:96-100 | without cancellation the release is preceded by a sleep of UpDelay: 10 when `stepSize < 2.0`, else 2 |
| PenProperties.PairsLandOnLast | PenSimulator.cs:61-94 | without cancellation the pair loop leaves the cursor on the last point |
| PenProperties.PairsMoves | PenSimulator.cs:61-94 | without cancellation the pair loop makes as many moves as the sum of the step counts |
| PenProperties.PairsNaps | PenSimulator.cs:59-94 | the counter carries across pairs: the naps are the completed periods of the total step count |
| PenProperties.PairsStopPromptly | PenSimulator.cs:61-67 | once the token is requested, at most one more pair's sub-steps and the release follow |
| PenProperties.GlideHovers | PenSimulator.cs:118-127 | the hover never presses or releases the button |
| PenProperties.GlideMoves | PenSimulator.cs:118-127 | without cancellation the hover makes `steps + 1` moves, the final snap included |
| PenProperties.GlideNaps | PenSimulator.cs:125 | without cancellation the hover naps `steps / 5` times, once per fifth step |
| PenProperties.GlideLands | PenSimulator.cs:127 | without cancellation the hover ends exactly on `to` |
| PenProperties.GlideStopsPromptly | PenSimulator.cs:120 | once the token is requested, the hover appends at most one more step |
| PenProperties.StepCountsShape | PenSimulator.cs:76 | every point pair has at least one sub-step |
| PenProperties.StrokeShape | PenSimulator.cs:41-101 | a stroke of fewer than two points is empty; otherwise it is a button-free hover, the press at the first point, button-free drawing, and a final left up |
| PenProperties.StrokePressRelease | PenSimulator.cs:50-100 | a stroke of two or more points has exactly one left down and exactly one left up, cancelled or not |
| PenProperties.StrokeCancelledBefore | PenSimulator.cs:61-67 | a stroke started with the token requested is the press at the first point followed at once by the release: no drawing sub-step |
| PenProperties.StrokeUncancelled | PenSimulator.cs:96-100 | an uncancelled stroke ends with the UpDelay sleep and the release, with the cursor on the last point |
| PenProperties.StrokeDrawingCounts | PenSimulator.cs:59-93 | an uncancelled stroke's drawing moves once per sub-step and naps once per `sleepInterval` sub-steps overall |
| PenProperties.StrokeStopsPromptly | PenSimulator.cs:61-67 | once the token is requested, a stroke appends a bounded number of further actions before it returns |
| MainWindow.Centre | MainWindow.xaml.cs:235 | the clicked centre of a region, truncated like `(int)`, lies inside the region's bounds |
| MainWindow.Estimate | MainWindow.xaml.cs:183-197 | the estimate is at least 2.5 s per batch, so never negative |
| MainWindow.EstimateSeconds | MainWindow.xaml.cs:183-197 | the loops over batches and paths compute `count * 2.5 + Σ abs(last.X - first.X) / 400` over paths of two or more points |
| MainWindow.AddSpans | MainWindow.xaml.cs:187-194 | the inner loop adds the horizontal span of every path with two or more points |
| MainWindow.Shift | MainWindow.xaml.cs:223 | the shifted path has as many points as the path |
| MainWindow.StrokeStep | MainWindow.xaml.cs:220-225 | one uncancelled pass of DrawBatch's loop appends the stroke of path i, shifted by the canvas offset, then the rest of the loop |
| MainWindow.ColourCancelled | MainWindow.xaml.cs:207-210 | a cancelled colour choice ends the run with what it appended |
| MainWindow.PassStep | MainWindow.xaml.cs:205-213 | one pass of the execution loop appends the colour choice, then the batch's drawing, then the passes of the later batches unless the drawing was cancelled |
| MainWindow.MainWindow.constructor | MainWindow.xaml.cs:30-43 | the window holds the selected regions and a fresh pen with an empty trace |
| MainWindow.MainWindow.RunTask | MainWindow.xaml.cs:153-214 | the trace grows by exactly the run's actions; no estimate when cancelled before it (line 180), else the estimate of the mode's batches |
| MainWindow.MainWindow.BuildBatches | MainWindow.xaml.cs:157-178 | the batches are `Batches(mode, …)` of the buffers: mode 0 binary, mode 1 edges, any other mode blocks |
| MainWindow.MainWindow.AddGroups | MainWindow.xaml.cs:168-170 | one batch per group, in order, with the group's colour and paths |
| MainWindow.MainWindow.ExecuteBatches | MainWindow.xaml.cs:205-213 | the loop appends exactly `BatchesFrom` from batch 0, and stops at the first cancellation |
| MainWindow.MainWindow.ExecuteBatch | MainWindow.xaml.cs:207-212 | one batch: PickColor if it has a colour, then DrawBatch with step 5.0 and interval 50; what remains is the later batches |
| MainWindow.MainWindow.DrawBatch | MainWindow.xaml.cs:216-226 | appends `DrawBatchActions`: nothing for no paths, else a cancellation check and a shifted stroke per path |
| MainWindow.MainWindow.DrawPath | MainWindow.xaml.cs:222-224 | one pass of DrawBatch's loop: the stroke of path i at the canvas offset |
| MainWindow.MainWindow.PickColor | MainWindow.xaml.cs:229-283 | appends `PickActions`: nothing if the button or picker is unselected; checks, open, choose; close only if a close region is selected |
| MainWindow.MainWindow.OpenPalette | MainWindow.xaml.cs:235-236 | a click on the button's centre and 800 ms |
| MainWindow.MainWindow.ChooseSample | MainWindow.xaml.cs:242-274 | the cursor parked at (0, 0), 50 ms, a click on the best sample, 150 ms |
| MainWindow.MainWindow.ClosePalette | MainWindow.xaml.cs:280-281 | a click on the close region's centre and 500 ms |
| Basics.SquareIsProduct | MainWindow.xaml.cs:262 | Square(d), the Math.Pow(d, 2) of the distance formulas, is d * d |
| ColourSearch.Dist | MainWindow.xaml.cs:262 | the squared RGB distance is at most 3 * 255² |
| ColourSearch.BestOffsetIsFirstMin | MainWindow.xaml.cs:256-269 | the search returns a stride-4 offset inside the patch whose distance is minimal over the sampled offsets and strictly smaller than that of every earlier sample in row-major order; (0, 0) for an empty patch |
| ColourSearch.FirstMinUnique | MainWindow.xaml.cs:263 | the strict `<` makes the first minimum unique |
| ColourSearch.FindBestMatch | MainWindow.xaml.cs:245-269 | the nested stride-4 loop returns the picker origin plus the first minimum's offset |
| ColourSearch.ScanPatchRow | MainWindow.xaml.cs:258-268 | the inner loop over one sampled row updates `min` and `best` as `ScanRow` does |
| MainWindowProperties.ColourBatchesOfGrouped | MainWindow.xaml.cs:168-170 | regrouping a colour mode's grouped result gives one batch per distinct colour, in first-appearance order, each with that colour's paths in order |
| MainWindowProperties.BatchesOfMode | MainWindow.xaml.cs:159-178 | mode 0 gives one uncoloured batch of all binary paths; other modes give one batch per distinct colour of their result, in first-appearance order |
| MainWindowProperties.EstimateOne | MainWindow.xaml.cs:197 | one batch costs 2.5 s plus its span / 400 |
| MainWindowProperties.EstimateAppend | MainWindow.xaml.cs:183-197 | the estimate is additive over batches, so adding batches never lowers it |
| MainWindowProperties.EstimateGrowsWithPath | MainWindow.xaml.cs:187-194 | adding a path raises the estimate by its span / 400, never less |
| MainWindowProperties.BestPointInPicker | MainWindow.xaml.cs:245-269 | the clicked sample lies inside the picker and is the first minimum of the capture |
| MainWindowProperties.StrokePresses | PenSimulator.cs:41-101 | a stroke presses at most once, at its first point, and presses and releases the button in turn, ending with it up, cancelled or not |
| MainWindowProperties.StrokesPresses | MainWindow.xaml.cs:220-225 | DrawBatch's loop presses at each path's shifted first point, in order, all of them unless cancelled, and leaves the button up whenever it stops |
| MainWindowProperties.OpeningPresses | MainWindow.xaml.cs:235 | opening the palette presses once, at the button's centre, and releases |
| MainWindowProperties.ChoosingPresses | MainWindow.xaml.cs:273 | choosing presses once, at the chosen sample, and releases |
| MainWindowProperties.ClosingPresses | MainWindow.xaml.cs:280 | closing presses once, at the close region's centre, and releases |
| MainWindowProperties.PickOutcomes | MainWindow.xaml.cs:229-283 | PickColor either completes (open, choose, close if selected) or stops after one of the checks; an uncancelled token always completes |
| MainWindowProperties.PickPresses | MainWindow.xaml.cs:229-283 | PickColor does nothing when the button or picker is unselected; its presses are a prefix of button, best sample, close (if selected) |
| MainWindowProperties.ColourPresses | MainWindow.xaml.cs:207-210 | a batch's colour choice presses as planned, and only a coloured batch picks |
| MainWindowProperties.DrawPresses | MainWindow.xaml.cs:216-226 | a batch's drawing presses at the shifted first points of its paths, in order |
| MainWindowProperties.BatchesPresses | MainWindow.xaml.cs:205-213 | batches run in list order, each colour chosen before its paths are drawn: the presses are a prefix of the planned ones, all of them when uncancelled |
| MainWindowProperties.ReleasedCounts | PenSimulator.cs:52-109 | actions that press and release the left button in turn, starting and ending with it up, hold as many left downs as left ups |
| MainWindowProperties.PressedThenReleased | PenSimulator.cs:52-100 | one left down, then one left up, with no other button event, leave the button up |
| MainWindowProperties.TaskPresses | MainWindow.xaml.cs:153-214 | a run presses the planned points in order, never presses a held button or releases a free one, releases as often as it presses, and ends with the button up whether or not it is cancelled; an uncancelled token completes it; a token already requested ends it with no action |

## Left out

- **OpenCV.** `Cv2.ImRead`, `ResizeMat`/`Cv2.Resize`, `Cv2.Threshold` and `Cv2.Canny` are foreign (ImageProcessor.cs:30-32, 65-71, 154-155, 211-216). The scans take their output as input: the thresholded grayscale buffer, the edge map and the BGR buffer of the image resized to fit inside the canvas, keeping its aspect ratio (`ResizeMat` scales both sides by the smaller of the two ratios, so a buffer usually matches the canvas on one side only; the edge map and the BGR buffer have the same size). The model puts no size requirement on them beyond that shared shape. `Vec3b` is BGR, so `item2`, `item1`, `item0` are R, G, B.
- **AreColorsSimilar** (ImageProcessor.cs:20-25). It is never called.
- **UI and threading.** The WPF window, its button handlers, region selection, message boxes, the estimate text and minutes string (MainWindow.xaml.cs:199-202), the hotkey listener and `Task.Run` are user interface or threading.
- **SelectionWindow.xaml.cs is not part of this model.** It is mouse-event UI. A selected region is an `Area` of integer screen pixels at least one pixel wide and high, or `Empty`.
- **Screen capture.** The capture of the picker (`WinBitmap`, `CopyFromScreen`, MainWindow.xaml.cs:249-252) is a given `array2<Rgb>` of the picker's size (`Captures`).
- **MainWindow.MainWindow.RunTask, MainWindow.MainWindow.ExecuteBatches: one capture for the whole run.** Every PickColor of a run is taken to see the same capture `patch`, and `MainWindowProperties.PlannedPresses` plans every batch's sample from it. The source captures the picker afresh inside each PickColor call, after opening the palette and parking the cursor (MainWindow.xaml.cs:235-252), so a palette that looks different from one batch to the next is not modelled.
- **Win32 calls.** These are the trace actions. The cursor moves only as the trace says: the user moving the mouse, pointer acceleration and a failing `GetCursorPos` are not modelled.
- **Time.** `Thread.Sleep` is a `Sleep(ms)` action. Elapsed time, and a token turning on during a sleep rather than between two calls, are not modelled.
- **Cancellation.** A token turns on once the trace reaches a fixed length and stays on. `ThrowIfCancellationRequested` ends the run: it is a `cancelled` result. The exception and its catch in the caller are not modelled, and neither are other exceptions or device failures. Because the token depends only on the trace length, two checks with no device action between them always read the same. Two such pairs exist: DrawBatch's check (MainWindow.xaml.cs:222) and the first check of MoveSmoothly (PenSimulator.cs:120), and RunTask's check (MainWindow.xaml.cs:180) and the first check of PickColor (line 232). So the run model never produces "DrawBatch's check passes, the token is set, the hover returns at once, then press and release". `StrokeCancelledBefore` states that case for a single stroke, but no run reaches it.
- **Pen.PenSimulator.DrawStroke: requires `stepSize > 0.0`.** The source only ever passes 5.0 (MainWindow.xaml.cs:212) and 15.0 (PenSimulator.cs:115). With a zero step, the source's double division would be infinite.
- **Pen.StepCount: no double geometry.** `Math.Sqrt` and the double interpolation are replaced by exact arithmetic:
  - the step count is the integer square root of floor(d²/stepSize²), which equals (int)(dist / stepSize) for exact reals;
  - a sub-step is `(int)(a + (b - a) * j / steps)`, truncated toward zero.

  Double rounding, which could shift a sub-step by one pixel at a boundary, is not modelled.
- **MainWindow.EstimateSeconds: exact reals, not doubles.** The source computes `totalColorChanges * 2.5 + totalPixels / 400.0` in double (MainWindow.xaml.cs:197). The division by 400.0 is inexact for most totals and the sum rounds again; that rounding is not modelled.
- **ColorModel.Darken: (byte)(c * 0.6) is (3c)/5.** The two agree for every byte. The double product differs from 3c/5 by less than half a unit in the last place. A non-integer 3c/5 has a fractional part of at least 0.2, so truncation is unaffected.
- **Coordinates are integers.** The source's `double` points and rectangles hold integer values for the selected regions and the scanned pixels. Fractional canvas offsets are not modelled.
- **`_pen == null` checks** (MainWindow.xaml.cs:155, 218, 231). The pen is created when the window is constructed (line 43), so these checks never fire and are left out.
- **Dictionary enumeration order.** The colour dictionary only has entries added, never removed. Its enumeration is taken to be in insertion order. The source relies on this for the first-appearance order of batches.
- **MainWindow.Shift: states only the length.** That the strokes are drawn at the canvas offset is stated through `StrokeStep`, `DrawBatch` and `DrawPresses`.
- **Threshold at 128.** `Threshold(…, 128, …, Binary)` maps 128 to 0, so a sample of 128 is ink, and the scan tests `< 128` on the thresholded buffer (ImageProcessor.cs:32, 43). The model takes that thresholded buffer.
- **No error for an empty capture.** PickColor has no error path for an empty patch: the best point stays at the picker's origin, which is what `BestOffsetIsFirstMin` states.
- **ColorModel.Quantize** (MainWindow.xaml.cs:285) is modelled and proved, but the source never calls it.
