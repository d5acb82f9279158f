# snapshot-controller, modelled in Dafny

snapshot-controller is a Kubernetes operator for visual regression checks. A `Snapshot`
resource names a baseline URL and a target URL. The controller captures both pages with a
headless browser, diffs the screenshots and the HTML, stores the captures and the diffs, and
writes their locations and the diff amounts into the resource's status. A `ScheduledSnapshot`
captures one target on a cron schedule and diffs each capture against the previous one. In
distributed mode the controllers do not capture anything themselves: they start the `worker`
command in a Job (or CronJob), and the worker reports its artifacts back to an HTTP callback.
A small Preact viewer lists the resources and shows their screenshots and diffs.

This project models the core of that system and proves properties of the model:

- **Text diffs** (`line_diff`, `dom_tree`, `dom_compare`, `dom_format`): the line diff, built
  from a longest-common-subsequence table and its backtrack, and the DOM diff, which builds
  path-named node trees, compares them path by path and prints the changes with a legend.
- **Image diffs** (`raster`, `pixel_diff`, `pixel_cases`, `boxes`, `box_merge`,
  `region_search`, `rect_diff`, `rect_frame`): the pixel differ, which colours each changed
  pixel by its change in brightness and counts added and removed pixels, and the rectangle
  differ, which marks changed cells, grows 8-connected regions by breadth-first search, merges
  boxes that overlap or lie close, and frames them in red. Pixel buffers are Dafny arrays
  updated in place, as in the source.
- **Retrying transport** (`retry_on`, `retry_strategy`, `retry_transport`): the retry-on
  policy parsed from a comma-separated list, exponential back-off with jitter and overflow
  checks, and the round trip that retries until the policy, the strategy or the context stops
  it.
- **Controllers** (`api_types`, `snapshot_pipeline`, `snapshot_controller`,
  `scheduled_processing`, `scheduled_controller`, `scheduled_reconciler`): the two
  reconcilers, the shared capture/diff/upload pipeline, the status updates, the Job and
  CronJob the distributed mode creates, and the requeue timing of the schedule.
- **Commands** (`go_flag`, `cli_flags`, `capture_config`, `worker_args`,
  `worker_invocation`, `worker_cli`, `capture_cli`): Go's flag parsing, the header and
  selector flags, the argument list the controllers hand to the worker, and the `worker` and
  `capture` commands end to end.
- **Viewer** (`viewer`): the selection state of `App.js`, its effects, and the race between
  superseded requests and their responses, as a class whose methods update its fields.
- **Support** (`wrappers`, `string_util`, `fraction`): `Result` and `Option`, the Go string
  functions the core relies on (split, trim, decimal conversion, sorting), and exact ratios in
  place of `float64`.

Everything outside the process is a parameter: the browser, the storage backend, the image
codecs, the image differ chosen by format, the clock, the cron parser, the random source, the
Kubernetes API server's answers and the network. Goroutine fan-outs are modelled as the same
chunks processed one after another.

The model follows the code, including in the places where the code does something its
authors evidently did not intend. "## Findings" lists those places. For each one, the
model has a member that does what the code does, and a corrected definition is proved beside
it. The controllers, the worker and the DOM diff run as written. Two behaviours of the code that are easy to miss:

- The viewer's group effect looks up the catalogue entry for the group named in the query
  string without checking it, so an unsupported group makes the effect fail. `Viewer.Mounted`
  therefore has no result for an unsupported group.
- A superseded artifact request is aborted, but the abort still reaches the `catch` handler,
  which clears the loading flag. This is the fourth row of "## Findings".

The `ScheduledSnapshot` type in `api/v1` has no mask selectors and no headers, but the
scheduled controller reads both; the model follows the controller.
## Model

| member | source | states |
|---|---|---|
| StringUtil.Split | internal/retry/on.go:33 | splitting at a separator gives at least one part, and no part contains the separator |
| StringUtil.JoinSnoc | bin/worker/main.go:40-42 | joining one more part appends the separator and the part |
| StringUtil.JoinSplit | internal/retry/on.go:33 | joining the parts of a split with the separator gives the input back |
| StringUtil.SplitJoin | bin/worker/main.go:163 | splitting a join of separator-free parts gives the parts back |
| StringUtil.SplitFirst | bin/worker/main.go:170 | splitting at the first separator fails exactly when there is none, and otherwise gives a separator-free head, the separator and the rest |
| StringUtil.TrimLeft | internal/diff/text/dom.go:112 | trimming on the left drops exactly a prefix of white space and leaves no leading white space |
| StringUtil.TrimRight | internal/diff/text/dom.go:112 | trimming on the right drops exactly a suffix of white space and leaves no trailing white space |
| StringUtil.TrimSpaceSpec | internal/diff/text/dom.go:152 | the trimmed text is a slice of the input with no white space at either end, and it is empty exactly when the input is all white space |
| StringUtil.Itoa | internal/diff/text/dom.go:148 | the decimal form of an index is a non-empty digit string without a leading zero |
| StringUtil.ItoaValue | internal/diff/text/dom.go:153 | the decimal form of an index reads back as that index |
| StringUtil.Atoi | internal/retry/on.go:44 | a parsed status code fits in 64 bits, and an empty token never parses |
| StringUtil.AtoiItoa | internal/retry/on.go:44 | the decimal form of any non-negative 64-bit number parses back to it |
| StringUtil.Sort | internal/diff/text/dom.go:244 | sorting gives a sorted permutation of the input |
| StringUtil.SortedPermutationsEqual | internal/diff/text/dom.go:377 | two sorted permutations of each other are equal |
| StringUtil.SortOrderIndependent | internal/diff/text/dom.go:377 | the sorted attribute list does not depend on the order the map was visited in |
| StringUtil.Dedup | internal/diff/text/dom.go:232-242 | the path set holds each path of either tree exactly once |
| StringUtil.SortedUnique | internal/diff/text/dom.go:232-244 | the compared paths are exactly the paths of either tree, strictly sorted |
| Fraction.CappedRatio | internal/diff/text/dom.go:184-199 | the ratio lies between 0 and 1, is the exact ratio when the part does not exceed the total, is 1 when it does, and is 0 for an empty total |
| LineDiff.SplitLines | internal/diff/text/line.go:37-42 | empty input gives no lines; otherwise the lines hold no newline and joining them with "\n" gives the input back |
| LineDiff.TrailingNewline | internal/diff/text/line.go:37-42 | input ending in a newline yields a final empty line |
| LineDiff.LcsLen | internal/diff/text/line.go:44-62 | the LCS length is at most the length of each input |
| LineDiff.LcsUpperBound | internal/diff/text/line.go:44-62 | no common subsequence is longer than LcsLen |
| LineDiff.LcsWitness | internal/diff/text/line.go:44-62 | a common subsequence of exactly LcsLen lines exists, so LcsLen is the maximum |
| LineDiff.LcsPrefixStep | internal/diff/text/line.go:51-59 | the table recurrence (equal lines: diagonal + 1, else max of the two neighbours) holds for LcsLen on prefixes |
| LineDiff.CalculateLCS | internal/diff/text/line.go:44-62 | a fresh (m+1)×(n+1) table whose cell (i, j) is the LCS length of the first i and first j lines |
| LineDiff.FillRow | internal/diff/text/line.go:52-58 | row i ends holding the prefix LCS lengths; every other row is unchanged |
| LineDiff.LcsSelf | internal/diff/text/line.go:44-62 | a sequence's LCS with itself is its whole length |
| LineDiff.StepOf | internal/diff/text/line.go:72-86 | one backtrack branch: keep consumes a common last line of both, add the last target line, remove the last baseline line |
| LineDiff.StepLcs | internal/diff/text/line.go:72-86 | the prefix LCS length drops by one exactly on a kept line, so the backtrack follows a longest common subsequence |
| LineDiff.TraceBaseline | internal/diff/text/line.go:64-86 | dropping the additions from the script for (i, j) gives the first i baseline lines |
| LineDiff.TraceTarget | internal/diff/text/line.go:64-86 | dropping the removals from the script for (i, j) gives the first j target lines |
| LineDiff.BacktrackRoundTrip | internal/diff/text/line.go:64-86 | the edit script reproduces the baseline without its additions and the target without its removals |
| LineDiff.TraceCounts | internal/diff/text/line.go:72-86 | on prefixes, kept lines number the LCS length and the other lines are added (target) or removed (baseline) |
| LineDiff.BacktrackCounts | internal/diff/text/line.go:64-86 | kept = LcsLen, added = target lines − LcsLen, removed = baseline lines − LcsLen |
| LineDiff.Render | internal/diff/text/line.go:74-82 | a rendered line is the marker ("  ", "+ " or "- ") followed by the input line unchanged |
| LineDiff.RenderAll | internal/diff/text/line.go:74-82 | one rendered line per edit, in order |
| LineDiff.UnprefixRender | internal/diff/text/line.go:74-82 | dropping the "+ " lines and stripping markers gives the baseline lines; dropping the "- " lines gives the target lines |
| LineDiff.DiffTextRoundTrip | internal/diff/text/line.go:64-96 | splitting the diff text at newlines and dropping "+ " (resp. "- ") lines gives back the split baseline (resp. target) |
| LineDiff.ScriptLinesFromInputs | internal/diff/text/line.go:64-86 | every line of the script comes from an input, so none contains a newline |
| LineDiff.BacktrackStep | internal/diff/text/line.go:73-85 | the loop body, reading the table, takes exactly the step StepOf defines |
| LineDiff.GenerateDiff | internal/diff/text/line.go:64-96 | the output is the script's lines joined by "\n"; the counts are target − LCS added and baseline − LCS removed lines |
| LineDiff.ChangedLines | internal/diff/text/line.go:21-29 | added plus removed lines never exceed the line total |
| LineDiff.Calculate | internal/diff/text/line.go:14-35 | the diff text of the backtrack, and an amount of changed lines over total lines (0 for two empty inputs); the 1.0 cap never applies |
| LineDiff.IdenticalInputs | internal/diff/text/line.go:14-35 | identical inputs have no changed lines |
| DomTree.ExtractAttributes | internal/diff/text/dom.go:123-129 | the map's keys are exactly the attribute keys |
| DomTree.AttributeLastWins | internal/diff/text/dom.go:123-129 | for a repeated key the last attribute's value is kept |
| DomTree.CreateTreeNode | internal/diff/text/dom.go:98-121 | a node is created exactly for elements and for text that is not blank after trimming |
| DomTree.TrimSpaceIdempotent | internal/diff/text/dom.go:110-111 | trimming trimmed text changes nothing |
| DomTree.BuildTree | internal/diff/text/dom.go:77-81 | the root built step by step is the tree BuildTreeSpec describes |
| DomTree.BuildTreeRecursive | internal/diff/text/dom.go:83-96 | the nodes appended to the parent are those the node and its children contribute (a dropped node passes its children up) |
| DomTree.ProcessChildren | internal/diff/text/dom.go:136-143 | the children's contributions, each under its own path, in document order |
| DomTree.BuildChildPath | internal/diff/text/dom.go:145-159 | an element's path carries its tag and element index, kept text its text index, anything else the parent path; each counter advances by one on its kind only |
| DomTree.CountStep | internal/diff/text/dom.go:145-159 | the element and text counters advance only on their own kind of child |
| DomTree.ContributeKept | internal/diff/text/dom.go:83-121 | every contributed node is well formed and the contributed nodes count exactly the kept nodes |
| DomTree.ChildrenKept | internal/diff/text/dom.go:136-143 | the same for the children from position i on |
| DomTree.BuildTreeSize | internal/diff/text/dom.go:77-81 | the tree holds the root plus one node per kept document node |
| DomTree.SizeAllAppend | internal/diff/text/dom.go:59-67 | the size of a forest is additive over concatenation |
| DomTree.SizeOfMember | internal/diff/text/dom.go:59-67 | a member of a forest is no larger than the forest |
| DomCompare.NodeMap | internal/diff/text/dom.go:223-229 | every node's path is a key, and each key maps to a node with that path |
| DomCompare.NodeMapLastWins | internal/diff/text/dom.go:223-229 | for a repeated path the last node wins |
| DomCompare.LookupSize | internal/diff/text/dom.go:223-229 | a node looked up by path is no larger than the forest |
| DomCompare.PathsAreKeys | internal/diff/text/dom.go:223-229 | the forest's paths are exactly the map's keys |
| DomCompare.CollectAllPaths | internal/diff/text/dom.go:231-246 | the union of both maps' keys, strictly sorted (so without duplicates) |
| DomCompare.NodesEqualReflexive | internal/diff/text/dom.go:288-314 | the node check as written holds between a node and itself |
| DomCompare.NodesMatchEquivalence | internal/diff/text/dom.go:288-314 | the corrected node check, with exact attribute-map equality, is reflexive, symmetric and transitive |
| DomCompare.EqualElementsPassAsWritten | internal/diff/text/dom.go:303-314 | elements with equal tags and attribute maps pass the check as written |
| DomCompare.AsWrittenExactWithoutEmptyValues | internal/diff/text/dom.go:303-314 | without empty attribute values the check as written is exactly map equality |
| DomCompare.AsWrittenCounterexample | internal/diff/text/dom.go:303-314 | `<div x="">` and `<div y="">` pass the check as written although their attributes differ, and fail the corrected check |
| DomCompare.AsWrittenAsymmetric | internal/diff/text/dom.go:303-314 | the check as written is not symmetric: `{a:"", b:"1"}` passes against `{b:"1", c:"2"}`, but not the other way round |
| DomCompare.SubsetSameSize | internal/diff/text/dom.go:303-314 | a subset as large as its superset is the superset (the length check plus the key loop) |
| DomCompare.ComparisonResult.constructor | internal/diff/text/dom.go:204-210 | a result starts with no changes and no nodes |
| DomCompare.ComparisonResult.DiffRatioOf | internal/diff/text/dom.go:183-200 | the ratio of the recorded changes over the node count |
| DomCompare.ComparisonResult.CompareNodes | internal/diff/text/dom.go:212-221 | appends exactly the changes CompareForests specifies for the children, and counts each; a path present on both sides is unchanged when the node check as written passes (a missing attribute reads as "") |
| DomCompare.ComparisonResult.ProcessNodeComparison | internal/diff/text/dom.go:248-286 | appends exactly the path's changes: added, removed, unchanged (node check as written) or modified, then the recursive comparison of its children |
| DomCompare.Compare | internal/diff/text/dom.go:204-210 | a fresh valid result whose changes are the comparison of the two roots' children at indent 0 |
| DomCompare.NestedAppend | internal/diff/text/dom.go:248-286 | changes nested at an indent stay nested when concatenated |
| DomCompare.NestedDeeper | internal/diff/text/dom.go:248-286 | changes nested deeper are nested at the shallower indent |
| DomCompare.ComparisonNested | internal/diff/text/dom.go:212-286 | every change of a comparison at indent d has indent at least d |
| DomCompare.PathsNested | internal/diff/text/dom.go:212-221 | the same for the changes of the remaining paths |
| DomCompare.PathNested | internal/diff/text/dom.go:248-286 | the same for one path's changes |
| DomCompare.AtIndentAppend | internal/diff/text/dom.go:212-221 | the changes at one indent distribute over concatenation |
| DomCompare.AtIndentDeeper | internal/diff/text/dom.go:248-286 | changes nested deeper contribute nothing at the shallower indent |
| DomCompare.TopLevelIsPathUnion | internal/diff/text/dom.go:212-246 | the changes at the top indent are one per path of the union, in sorted order |
| DomCompare.TopLevelFrom | internal/diff/text/dom.go:212-221 | the same for the remaining paths |
| DomCompare.TopLevelOfPath | internal/diff/text/dom.go:248-286 | a path present on either side yields exactly one change at its own indent |
| DomCompare.HeadThenDeeper | internal/diff/text/dom.go:248-286 | a change followed by deeper changes has just its own path at its indent |
| DomCompare.SelfComparisonUnchanged | internal/diff/text/dom.go:212-286 | comparing a forest with itself reports every change as unchanged |
| DomCompare.SelfComparisonFrom | internal/diff/text/dom.go:212-221 | the same for the remaining paths |
| DomCompare.SelfPath | internal/diff/text/dom.go:248-286 | the same for one path |
| DomCompare.UnchangedAppend | internal/diff/text/dom.go:212-221 | all-unchanged lists stay so when concatenated |
| DomCompare.ChangedCount | internal/diff/text/dom.go:183-200 | the changes that are not unchanged number at most all changes |
| DomCompare.DiffRatioOfComparison | internal/diff/text/dom.go:183-200 | the ratio is the changed changes over all changes (0 for none), and 0 when both trees are the same |
| DomCompare.NoChangedCount | internal/diff/text/dom.go:183-200 | all-unchanged lists have no changed entries |
| DomFormat.Spaces | internal/diff/text/dom.go:340 | n spaces and nothing else |
| DomFormat.Pairs | internal/diff/text/dom.go:372-379 | one `k="v"` pair per key, in the given order |
| DomFormat.PairsAppend | internal/diff/text/dom.go:372-379 | pairs distribute over concatenated key lists |
| DomFormat.SomeOrder | internal/diff/text/dom.go:374-376 | some enumeration of the map's keys, each exactly once (Go's map order is unspecified) |
| DomFormat.EnumerationCounts | internal/diff/text/dom.go:374-376 | an enumeration holds each key exactly once |
| DomFormat.PairsOfPermutation | internal/diff/text/dom.go:374-376 | permuted key lists give permuted pairs |
| DomFormat.PairsRemove | internal/diff/text/dom.go:374-376 | removing one key removes exactly its pair from the multiset |
| DomFormat.PairsPermutation | internal/diff/text/dom.go:374-376 | any two enumerations of the keys give the same multiset of pairs |
| DomFormat.AttributesOrderIndependent | internal/diff/text/dom.go:372-379 | whatever order the map is visited in, the sorted, space-joined pairs are the same text |
| DomFormat.FormatAttributes | internal/diff/text/dom.go:372-379 | the loop's result is that order-independent text |
| DomFormat.FormatNode | internal/diff/text/dom.go:355-370 | `text: "…"` for text, `<tag>` or `<tag attrs>` for elements, "unknown" otherwise |
| DomFormat.WriteChange | internal/diff/text/dom.go:339-353 | indentation of two spaces per level, the change's symbol, a space, the node text (when modified: baseline, then the characters U+00E2 U+2020 U+2019 between spaces, then target; these are the UTF-8 bytes of a right arrow read as Windows-1252), then a newline |
| DomFormat.ChangeLines | internal/diff/text/dom.go:333-337 | one line per change |
| DomFormat.ChangeLineAt | internal/diff/text/dom.go:333-337 | line k is change k's line |
| DomFormat.ChangeLinesSnoc | internal/diff/text/dom.go:333-337 | writing one more change appends its line and a newline |
| DomFormat.Format | internal/diff/text/dom.go:318-326 | header, one line per change, legend |
| DomFormat.ChangeLineReadBack | internal/diff/text/dom.go:339-353 | a line starts with its indentation, then the three-character symbol, then a space, so indent and kind can be read back |
| DomFormat.SymbolsDistinct | internal/diff/text/dom.go:12-18 | the four symbols differ |
| DomFormat.SplitLines | internal/diff/text/dom.go:318-326 | splitting concatenated newline-terminated lines at "\n" gives the lines back |
| DomFormat.HeaderConcat | internal/diff/text/dom.go:328-331 | the header is the lines "DOM Tree Diff:", "==============" and an empty one |
| DomFormat.LegendConcat | internal/diff/text/dom.go:381-387 | the legend is an empty line, "Legend:" and one line per symbol |
| DomFormat.LinesHaveNoBreak | internal/diff/text/dom.go:328-387 | header and legend lines hold no newline |
| DomFormat.FormatConcat | internal/diff/text/dom.go:318-326 | the report is the concatenation of header, change and legend lines |
| DomFormat.ReportLinesHaveNoBreak | internal/diff/text/dom.go:318-326 | no report line holds a newline when no node text does |
| DomFormat.FormatLines | internal/diff/text/dom.go:318-326 | splitting the report at "\n" gives header lines, one line per change, legend lines and a final empty piece |
| DomFormat.Calculate | internal/diff/text/dom.go:36-57 | the formatted report of the comparison of both built trees, and its change ratio |
| DomFormat.SelfDiffScoresZero | internal/diff/text/dom.go:36-57 | a document compared with itself scores 0 |
| DomFormat.LegendText | internal/diff/text/dom.go:381-387 | the legend is exactly "Legend:" after an empty line, then "[+] Added", "[-] Removed", "[~] Modified" and "[ ] Unchanged", each indented by two spaces |
| Raster.Rect | internal/diff/image/pixel.go:437 | the rectangle built from two corners is canonical: each axis is swapped into min/max order, and ordered corners are kept as given |
| Raster.UnionBounds | internal/diff/image/pixel.go:413-438 | the union bounds are canonical and contain both the baseline's and the target's canonical bounds |
| Raster.UnionBoundsSmallest | internal/diff/image/pixel.go:413-438 | any rectangle containing both bounds contains their union, so the union is the smallest such rectangle |
| Raster.UnionBoundsSame | internal/diff/image/pixel.go:413-438 | the union of a rectangle with itself is that rectangle |
| Raster.WorkerRows | internal/diff/image/pixel.go:53-65 | the first worker starts at the top row and the last worker ends at the bottom row, whatever the remainder of the division |
| Raster.WorkerRowsInRange | internal/diff/image/pixel.go:53-65 | every worker's row range lies within the bounds and is not reversed |
| Raster.WorkerRowsAdjacent | internal/diff/image/pixel.go:60-65 | each worker's range ends where the next one's starts, so the ranges tile the rows without gap or overlap |
| Raster.ChunkStart | internal/diff/image/pixel.go:60-65 | a worker's first row is the top row for worker 0 and the previous worker's end otherwise |
| Raster.ReadAt | internal/diff/image/pixel.go:166-176 | four bytes are read from the pixel buffer exactly when the offset and the offset plus 3 are inside the buffer |
| Raster.StandardOffsetInBuffer | internal/diff/image/pixel.go:157-167 | for an image whose buffer matches its stride and bounds, the offset of every in-bounds pixel passes the buffer check |
| Raster.ColorAt | internal/diff/image/pixel.go:440-446 | a point outside the image reads as opaque white; inside, it reads the pixel's four bytes |
| Raster.ColorAtStandard | internal/diff/image/pixel.go:440-446 | on a well-formed image, the colour at an in-bounds point is exactly the four bytes at its offset |
| Raster.ColorsEqualIsEquality | internal/diff/image/pixel.go:575-577 | colorsEqual holds exactly when the two colours are equal in all four channels |
| Raster.FilledColorAt | internal/diff/image/pixel.go:440-446 | every in-bounds point of an image filled with one colour reads as that colour |
| PixelDiff.LevelIsExact | internal/diff/image/pixel.go:585-592 | comparing the brightness difference against the integer level agrees with comparing the normalised difference over 765 against the threshold, in both directions |
| PixelDiff.DiffColor | internal/diff/image/pixel.go:579-596 | a target brighter beyond the threshold paints red, darker beyond it paints blue, and otherwise the baseline colour is kept |
| PixelDiff.BrighterMirrorsDarker | internal/diff/image/pixel.go:585-592 | swapping baseline and target turns "brighter" into "darker" and back |
| PixelDiff.BrighterExcludesDarker | internal/diff/image/pixel.go:589-592 | with a non-negative threshold, a pixel is never both brighter and darker |
| PixelDiff.EqualBrightnessKeepsBaseline | internal/diff/image/pixel.go:593-595 | two colours of equal brightness keep the baseline colour |
| PixelDiff.Judge | internal/diff/image/pixel.go:178-196 | equal pixels copy the baseline and count nothing; a differing pixel takes the diff colour and counts as added when that colour is red, as removed when it is blue, never both |
| PixelDiff.JudgeCountsBeyondThreshold | internal/diff/image/pixel.go:184-195 | a pixel brighter beyond the threshold is counted as added, and one darker beyond it as removed |
| PixelDiff.RedBaselineInBandCountsAsAdded | internal/diff/image/pixel.go:191-195 | a red baseline pixel that differs only in alpha keeps its red colour and is still counted as added, since the count inspects the colour and not the threshold test |
| PixelDiff.RgbaPixel | internal/diff/image/pixel.go:161-202 | one pixel of the fast path is never counted both as added and as removed |
| PixelDiff.FastPathAgreesInside | internal/diff/image/pixel.go:152-202 | for a point inside both well-formed images, the fast path gives the same colour and counts as the generic path |
| PixelDiff.GenericOutsideIsWhite | internal/diff/image/pixel.go:440-446 | in the generic path, a point outside the baseline is judged as a white baseline against the target's colour |
| PixelDiff.RowTallyStep | internal/diff/image/pixel.go:161-196 | a row's counts over n+1 pixels are its counts over n pixels plus the last pixel's |
| PixelDiff.RowsTallyBound | internal/diff/image/pixel.go:156-204 | rows y0..y1 of width w count at most (y1-y0)·w changed pixels |
| PixelDiff.ProcessRow | internal/diff/image/pixel.go:161-203 | one row of the diff is painted with the judged colour of each pixel, other rows are untouched, and the counts returned are that row's counts |
| PixelDiff.ProcessRGBA | internal/diff/image/pixel.go:152-208 | the rows startY..endY are painted, all other rows are untouched, and the counts are the sum over those rows |
| PixelDiff.PixelAmount | internal/diff/image/pixel.go:141-144 | the diff amount is a fraction between 0 and 1 with a positive denominator; empty bounds give 0 |
| PixelDiff.Calculate | internal/diff/image/pixel.go:22-150 | the same instance yields the baseline with amount 0; otherwise a fresh image over the union bounds with every row painted, and the amount is the changed-pixel count over the pixel count |
| PixelDiff.PaintChunks | internal/diff/image/pixel.go:53-71 | running every worker's chunk paints all rows of the union bounds and the summed counts equal the total over all rows |
| PixelDiff.PaintChunk | internal/diff/image/pixel.go:60-70 | one worker paints its rows, continuing the painted prefix up to the next worker's start (or the bottom row for the last worker) and extending the counts accordingly |
| PixelDiff.ExtendPainted | internal/diff/image/pixel.go:156-207 | painting from the end of the painted prefix to endY extends the prefix and returns the counts of the new rows |
| PixelDiff.EqualImagesScoreZero | internal/diff/image/pixel.go:141-144 | an image diffed against itself scores 0 |
| PixelDiff.WhiteAgainstBlackPixel | internal/diff/image/pixel.go:579-596 | with a threshold below 1, a white pixel against a black one is counted as changed |
| PixelDiff.WhiteAgainstBlackScoresOne | internal/diff/image/pixel.go:141-144 | an all-white baseline against an all-black target of the same non-empty bounds scores exactly 1 |
| PixelDiff.WhiteAgainstBlackRow | internal/diff/image/pixel.go:161-196 | in that case every pixel of every row is counted |
| PixelDiff.WhiteAgainstBlackColumn | internal/diff/image/pixel.go:166-196 | on the fast path, an in-bounds white baseline pixel against a black target pixel is counted |
| PixelDiff.Clamp | internal/diff/image/pixel.go:555-570 | values in 0..255 are kept, negative values become 0 and values above 255 become 255 |
| PixelDiff.YCbCrToRGBA | internal/diff/image/pixel.go:516-573 | each channel is the clamped fixed-point BT.601 value, and alpha is 255 |
| PixelDiff.YCbCrFitsInt32 | internal/diff/image/pixel.go:546-553 | the fixed-point intermediates never overflow int32, so modelling them on unbounded integers is exact |
| PixelDiff.NeutralChromaIsGrey | internal/diff/image/pixel.go:546-572 | neutral chroma (Cb = Cr = 128) gives the grey (y, y, y, 255) |
| PixelDiff.FixedPointWithinOne | internal/diff/image/pixel.go:533-553 | the value computed with y·0x10101 is at most 1 above the one computed with y·65536 |
| PixelCases.FastPathReadsNeighbourRow | internal/diff/image/pixel.go:157-176 | when the target is wider than the baseline, the fast path reads the baseline's next row for a pixel past its right edge and counts it as added |
| PixelCases.GenericSeesWhiteThere | internal/diff/image/pixel.go:440-446 | at the same point the generic path reads white for the baseline and counts nothing |
| Boxes.EnclosesTransitive | internal/diff/image/rectangle.go:296-323 | enclosure of boxes is transitive |
| Boxes.EnclosesCovers | internal/diff/image/rectangle.go:296-323 | a cell covered by an enclosed box is covered by the enclosing box |
| Boxes.OverlapSymmetric | internal/diff/image/rectangle.go:273-276 | rectanglesOverlap does not depend on the order of its arguments |
| Boxes.SharedEdgeIsNoOverlap | internal/diff/image/rectangle.go:273-276 | boxes that only touch along an edge do not overlap |
| Boxes.OverlapIsSharedCell | internal/diff/image/rectangle.go:273-276 | two non-empty boxes overlap exactly when some cell lies in both |
| Boxes.Expand | internal/diff/image/rectangle.go:279-291 | expanding by t moves each of the four edges outwards by t |
| Boxes.CloseMeansSmallGaps | internal/diff/image/rectangle.go:278-294 | two boxes are close exactly when the gap between them is below 2t on both axes |
| Boxes.OverlapImpliesClose | internal/diff/image/rectangle.go:278-294 | with a non-negative threshold, overlapping boxes are also close |
| Boxes.CloseSymmetric | internal/diff/image/rectangle.go:278-294 | rectanglesClose does not depend on the order of its boxes |
| Boxes.MergeableIsClose | internal/diff/image/rectangle.go:259 | the merge condition (overlap or close within 10) is the same as close within 10 |
| Boxes.Combine | internal/diff/image/rectangle.go:296-323 | the combined box encloses both boxes |
| Boxes.CombineSmallest | internal/diff/image/rectangle.go:296-323 | any box enclosing both boxes encloses their combination, so it is the smallest such box |
| Boxes.CombineCommutative | internal/diff/image/rectangle.go:296-323 | combining is independent of the order of the boxes |
| Boxes.CombineProper | internal/diff/image/rectangle.go:296-323 | combining with a box of non-negative size gives a box of non-negative size |
| Boxes.CombineAbsorbs | internal/diff/image/rectangle.go:296-323 | combining a box with a box it encloses gives the outer box back |
| BoxMerge.UnusedShrinks | internal/diff/image/rectangle.go:252-265 | marking boxes used never increases the number of unused boxes, and marking a new one decreases it, so the merge loop ends |
| BoxMerge.MergePass | internal/diff/image/rectangle.go:253-264 | one pass over the later boxes only adds used marks, only after the seed, grows the current box to enclose every box it marks and no further than any box enclosing the current box and those it marks, and a pass that merged nothing leaves no later unused box mergeable with the current box |
| BoxMerge.MergeSeed | internal/diff/image/rectangle.go:249-265 | repeating passes until none merges grows the smallest box enclosing its seed and every box it absorbed, and no unused later box stays mergeable with it |
| BoxMerge.MergeRectangles | internal/diff/image/rectangle.go:236-271 | zero or one box is returned as is; otherwise every output grows from a distinct input taken in input order, every input is enclosed by exactly one output no earlier than its seed, each output is the smallest box enclosing the inputs it absorbed, and no later seed was mergeable with an earlier output |
| BoxMerge.OwnedBefore | internal/diff/image/rectangle.go:249-265 | inputs an earlier output owns after a seed's passes are those it owned before them |
| BoxMerge.NewSplits | internal/diff/image/rectangle.go:253-264 | a box enclosing the boxes absorbed over two stretches of passes encloses those of each stretch |
| RegionSearch.Enqueue | internal/diff/image/rectangle.go:214-223 | a neighbour inside the map, marked and not yet visited is marked visited and queued; otherwise nothing changes |
| RegionSearch.VisitRow | internal/diff/image/rectangle.go:209-224 | the dx loop for one dy queues each eligible neighbour of the cell in that row and skips the cell itself |
| RegionSearch.VisitNeighbours | internal/diff/image/rectangle.go:207-225 | the 8-neighbour loops queue exactly the eligible neighbours of the dequeued cell |
| RegionSearch.FoundMore | internal/diff/image/rectangle.go:190-226 | finding one more cell shrinks the number of cells not yet found, so the search loop ends |
| RegionSearch.SpansBox | internal/diff/image/rectangle.go:228-233 | the returned box, minus the offset, is the bounding box of the cells found and is at least one cell wide and high |
| RegionSearch.SpansAdd | internal/diff/image/rectangle.go:194-205 | the four comparisons widen the bounds to include the dequeued cell |
| RegionSearch.WidenBounds | internal/diff/image/rectangle.go:194-205 | the bounds after a dequeue are those of all dequeued cells |
| RegionSearch.HandleCell | internal/diff/image/rectangle.go:207-225 | handling a dequeued cell queues its changed unvisited neighbours and closes one more found cell |
| RegionSearch.SearchStep | internal/diff/image/rectangle.go:190-226 | one turn of the loop dequeues a cell, widens the bounds and queues its neighbours, keeping the search state |
| RegionSearch.Search | internal/diff/image/rectangle.go:190-226 | the loop runs until the queue is empty, when every found cell has been handled |
| RegionSearch.StartSearch | internal/diff/image/rectangle.go:179-188 | the search starts with the start cell alone in the queue, now marked visited |
| RegionSearch.FindBoundingBox | internal/diff/image/rectangle.go:178-234 | the cells found are the start and the marked cells reached from it through marked unvisited cells, each visited; every marked neighbour of a found cell is visited; the box is their tight bounding box shifted by the offset |
| RectDiff.MapColor | internal/diff/image/rectangle.go:372-400 | a point outside an image reads as opaque white |
| RectDiff.MapColorIsColorAt | internal/diff/image/rectangle.go:360-400 | with a non-negative stride, the colour processRGBA reads is the colour getColorAt reads |
| RectDiff.SameImageDiffersNowhere | internal/diff/image/rectangle.go:402-404 | an image compared with itself marks no cell |
| RectDiff.MarkRow | internal/diff/image/rectangle.go:372-405 | one row of the diff map gains exactly the cells of that row whose colours differ; other rows are untouched |
| RectDiff.MarkRows | internal/diff/image/rectangle.go:360-407 | rows startY..endY gain exactly their differing cells; other rows are untouched |
| RectDiff.ExtendMarked | internal/diff/image/rectangle.go:360-407 | marking one more chunk extends the marked prefix and leaves the rest clear |
| RectDiff.MarkChunks | internal/diff/image/rectangle.go:111-156 | running every worker's chunk marks exactly the differing cells of every row |
| RectDiff.Keep | internal/diff/image/rectangle.go:168-170 | keeping boxes never adds boxes |
| RectDiff.KeepIsFilter | internal/diff/image/rectangle.go:168-170 | a box is kept exactly when it was found and is more than two cells wide and more than two high |
| RectDiff.KeepSnoc | internal/diff/image/rectangle.go:163-173 | a box found at the end is appended to the kept list exactly when it is big |
| RectDiff.RegionCovered | internal/diff/image/rectangle.go:228-233 | every cell of a region lies in its bounding box |
| RectDiff.NewRegion | internal/diff/image/rectangle.go:166-167 | a marked unvisited cell starts a region of marked, 8-connected cells with their bounding box; none was seen before, every marked neighbour of a region cell was seen before or is in the region, and exactly those cells are newly visited |
| RectDiff.NewRegionOk | internal/diff/image/rectangle.go:178-234 | the cells the search finds are marked, lie in its box, and each is adjacent to one found before it |
| RectDiff.NewRegionFound | internal/diff/image/rectangle.go:178-234 | the cells the search found from an unseen marked cell are marked, connected and unseen, every marked neighbour of one of them is found or seen, and they are exactly the newly visited cells |
| RectDiff.NeighbourOfSeen | internal/diff/image/rectangle.go:158-173 | a marked cell next to a cell of an earlier region belongs to an earlier region too |
| RectDiff.NewRegionMaximal | internal/diff/image/rectangle.go:158-173 | a new region is closed under marked 8-neighbours: no marked cell next to it lies outside it |
| RectDiff.NewRegionState | internal/diff/image/rectangle.go:165-171 | adding the new region keeps the scan state: every region marked, connected and maximal, and the visited cells exactly those of the regions |
| RectDiff.RecordedSnoc | internal/diff/image/rectangle.go:165-171 | recording a region's cells as seen keeps every region's cells seen |
| RectDiff.ScanCell | internal/diff/image/rectangle.go:165-171 | one cell of the scan keeps the scan state, starting a region when the cell is marked and not yet visited |
| RectDiff.ScanRow | internal/diff/image/rectangle.go:165-172 | the scan of one row keeps the scan state |
| RectDiff.Scan | internal/diff/image/rectangle.go:158-173 | the scan visits every cell and keeps exactly the big bounding boxes of the regions it finds; each region is a maximal 8-connected set of marked cells |
| RectDiff.ScanComplete | internal/diff/image/rectangle.go:163-173 | after the scan every marked cell lies in some region |
| RectDiff.RegionsChanged | internal/diff/image/rectangle.go:163-173 | with the map marked, every region is an 8-connected set of cells whose colours differ, within its box, holding every changed neighbour of its cells |
| RectDiff.EnclosesBig | internal/diff/image/rectangle.go:168 | a box enclosing a big box is big |
| RectDiff.KeptCovered | internal/diff/image/rectangle.go:175 | a cell of a region with a big box is covered by some merged box |
| RectDiff.MergedFrames | internal/diff/image/rectangle.go:175 | every merged box is big, and every cell of every big region is covered by some merged box |
| RectDiff.BuildDiffMap | internal/diff/image/rectangle.go:95-156 | the diff map has a cell per cell of the union and marks exactly the cells whose colours differ |
| RectDiff.FindRegions | internal/diff/image/rectangle.go:158-173 | every region found is a maximal 8-connected set of changed cells (a component), the kept boxes are the big ones, every changed cell lies in some region, and images without a changed cell give no boxes |
| RectDiff.NothingChanged | internal/diff/image/rectangle.go:74-176 | where no cell differs there are no regions, no boxes and no merged boxes |
| RectDiff.FindRectangles | internal/diff/image/rectangle.go:74-176 | the merged boxes detect the changes: the regions are the 8-connected components of changed cells, every cell of a component with a big box is covered by a merged box, each big box is enclosed by the merged box that absorbed it, and that merged box is the smallest box enclosing all it absorbed; every merged box is big, and images without a changed cell give none |
| RectFrame.InFrameRange | internal/diff/image/rectangle.go:41-63 | the frame reaches at most two pixels beyond the box on every side and leaves the box's interior below the top row and right of the left column untouched |
| RectFrame.RingCorners | internal/diff/image/rectangle.go:41-63 | three corners of every ring are painted but the bottom-right one is not, because both runs stop one pixel short |
| RectFrame.FrameCornerOpen | internal/diff/image/rectangle.go:41-63 | no ring paints the diagonal beyond the bottom-right corner |
| RectFrame.SetRed | internal/diff/image/rectangle.go:45 | setting a pixel paints it red when it lies inside the bounds, and changes nothing else |
| RectFrame.DrawHorizontal | internal/diff/image/rectangle.go:42-51 | the top and bottom runs of one ring paint exactly their pixels inside the guards red |
| RectFrame.DrawVertical | internal/diff/image/rectangle.go:53-62 | the left and right runs of one ring paint exactly their pixels inside the guards red |
| RectFrame.DrawFrame | internal/diff/image/rectangle.go:41-63 | the three rings of a box paint exactly its frame red |
| RectFrame.DrawFrames | internal/diff/image/rectangle.go:40-64 | after the loop over the boxes, a pixel is red exactly when some box frames it, and otherwise unchanged |
| RectFrame.TotalAreaBounds | internal/diff/image/rectangle.go:326-329 | the total area of boxes of non-negative size is at least the area of each of them |
| RectFrame.UnionArea | internal/diff/image/rectangle.go:331-351 | the area of the union is 0 exactly when the union is empty on some axis |
| RectFrame.AreaAmount | internal/diff/image/rectangle.go:325-358 | the amount has a positive denominator, is 0 without boxes, and otherwise its numerator is the total area, at least each box's area |
| RectFrame.DiffAmount | internal/diff/image/rectangle.go:325-358 | the sum loop and the ratio compute the area amount |
| RectFrame.Frame | internal/diff/image/rectangle.go:34-66 | the result is a fresh copy of the target over its bounds with the frames painted red, and the amount is the boxes' area amount |
| RectFrame.DetectsProper | internal/diff/image/rectangle.go:74-176 | the merged boxes have non-negative size and the target's bounds start at or beyond the origin |
| RectFrame.Calculate | internal/diff/image/rectangle.go:24-72 | the same instance yields the baseline with amount 0; otherwise the merged boxes detect the changes (every changed 8-connected component with a big box is covered), the image is the framed copy of the target, and the amount is their area amount |
| RectFrame.EqualImagesNoFrames | internal/diff/image/rectangle.go:24-72 | two equal images, even as different instances, get no boxes, no frame and amount 0 |
| RetryOn.ParsedSnoc | internal/retry/on.go:33-50 | each token updates the policy: a keyword sets its flag, an integer is appended to the status codes, and anything else leaves it unchanged |
| RetryOn.NewRetryOnFromString | internal/retry/on.go:31-52 | the parse succeeds exactly when every comma-separated token is a keyword or an integer, and then yields the parsed policy; otherwise the error names the first invalid token |
| RetryOn.EmptyTokenRejected | internal/retry/on.go:33-47 | the empty string splits into one empty token, and any empty token makes the parse fail |
| RetryOn.CodesAreIntegerTokens | internal/retry/on.go:43-48 | a status code is in the policy exactly when some non-keyword token parses to it |
| RetryOn.DefaultKeywords | internal/retry/on.go:21-29 | the default policy is the one parsed from gateway-error, connect-failure and retriable-4xx |
| RetryOn.CheckResponse | internal/retry/on.go:55-69 | the loop over the status codes decides exactly the retriable-status predicate |
| RetryOn.DefaultStatuses | internal/retry/on.go:21-29 | the default policy retries exactly statuses 409, 502, 503 and 504 |
| RetryOn.FiveXXCoversGateway | internal/retry/on.go:56-57 | when 5xx is set, adding gateway-error changes no decision |
| RetryOn.CheckResponseExamples | internal/retry/on_test.go:16-175 | 5xx retries 500 and not 404; gateway-error retries 502 and not 500; retriable-4xx retries 409 and not 404; a listed code retries that code and no other |
| RetryOn.CheckErrorExamples | internal/retry/on_test.go:176-334 | an end of file or a temporary error is retried under 5xx or connect-failure but not under gateway-error alone; any other error is never retried |
| RetryOn.OtherErrorsFinal | internal/retry/on.go:71-81 | an error that is neither temporary nor an end of file is never retried |
| RetryStrategy.Wrap64 | internal/retry/strategy.go:77-85 | int64 wrap-around gives an int64 and leaves values already in range unchanged |
| RetryStrategy.Quot | internal/retry/strategy.go:82 | Go's division agrees with Euclidean division for non-negative operands and is never positive for a negative divisor |
| RetryStrategy.Min | internal/retry/strategy.go:68-73 | min is at most both arguments and is one of them |
| RetryStrategy.DivisionBound | internal/retry/strategy.go:82 | for a positive divisor, l <= m / r exactly when l * r <= m, which is why the check detects overflow |
| RetryStrategy.CheckedMul | internal/retry/strategy.go:77-85 | a zero operand gives 0; for non-negative operands the product is returned exactly when it fits in int64, and an overflow error otherwise |
| RetryStrategy.Pow2Monotone | internal/retry/strategy.go:54 | 1 << n grows with n |
| RetryStrategy.Pow2Fits | internal/retry/strategy.go:50-54 | 1 << n fits in int64 for every n below 63, the only exponents the code shifts by |
| RetryStrategy.Saturated | internal/retry/strategy.go:54-58 | the aimed-for delay, base * 2^n saturated, never exceeds MaxInt64 |
| RetryStrategy.NeverSleep | internal/retry/strategy.go:22-24 | the never strategy waits 0 and is always used up |
| RetryStrategy.BackOffSleep | internal/retry/strategy.go:44-59 | the back-off is used up exactly from maxRetryCount on and then waits 0; before that it waits entropy of base * 2^n saturated and capped by max, or of MaxInt64 capped by max from n = 63 on |
| RetryStrategy.LateRetrySaturates | internal/retry/strategy.go:50-51 | from the 63rd retry on, a positive base saturates at MaxInt64 |
| RetryStrategy.NegativeBaseWaitsMax | internal/retry/strategy.go:54-56 | a negative base makes the product check fail, so the wait is entropy of max capped at MaxInt64 |
| RetryStrategy.SleepZeroBaseExamples | internal/retry/strategy_test.go:30-89 | a zero base waits 0; a budget of 0 is used up at once, and a budget of 1 at the second retry |
| RetryStrategy.SleepSecondExamples | internal/retry/strategy_test.go:90-137 | a one-second base waits 1 s, then 2 s, and a one-second max caps the second wait at 1 s |
| RetryStrategy.SleepLateExample | internal/retry/strategy_test.go:138-153 | retry 63 of a budget of 64 waits MaxInt64 |
| RetryStrategy.SleepOverflowExample | internal/retry/strategy_test.go:154-169 | 100 s times 2^31 overflows and waits MaxInt64 |
| RetryTransport.GetRetryCount | internal/retry/transport.go:19-28 | a stored uint is read back; anything else reads as 0 |
| RetryTransport.SetRetryCount | internal/retry/transport.go:30-32 | the stored value is a uint |
| RetryTransport.GetSetRetryCount | internal/retry/transport.go:19-32 | reading back a stored retry count gives that count |
| RetryTransport.StrategyOf | internal/retry/transport.go:72-77 | the configured strategy is used, and never when none is set |
| RetryTransport.ReplyOf | internal/retry/transport.go:50-62 | a response is returned as served with its status code, and an error as a failure with that error |
| RetryTransport.RoundTrip | internal/retry/transport.go:34-63 | at least one call is made, and there is one wait between consecutive calls, plus a final one when the context is cancelled during it |
| RetryTransport.RetriedBeforeLast | internal/retry/transport.go:34-63 | every call before the last one was retried: the strategy was not used up, the policy wanted a retry and the context was not cancelled |
| RetryTransport.WaitsAreDelays | internal/retry/transport.go:41-48 | the i-th wait is the strategy's delay for retry number n + i |
| RetryTransport.LastCall | internal/retry/transport.go:34-63 | a cancelled round trip ends in a wait the context cancelled; otherwise the reply is the last call's outcome, and the strategy was used up or the policy declined |
| RetryTransport.CallsBounded | internal/retry/transport.go:34-63 | the number of calls is at most the remaining retry budget plus one |
| RetryTransport.SingleCall | internal/retry/transport.go:34-63 | without a strategy, with the never strategy, or without a policy, the transport makes one call and returns its outcome |
| RetryTransport.DeclinedIsFinal | internal/retry/transport.go:40-50 | an outcome the policy does not retry is returned after one call |
| RetryTransport.UsedUpIsFinal | internal/retry/transport.go:35-36 | once the budget is used up, the outcome is returned after one call |
| RetryTransport.CancelledAtFirstWait | internal/retry/transport.go:43-46 | a context cancelled during the first wait ends the round trip after one call |
| RetryTransport.TestPolicies | internal/retry/transport_test.go:75-280 | the policies the transport tests parse are the default, and the default without connect-failure |
| RetryTransport.TransportExamples | internal/retry/transport_test.go:39-300 | under the default policy a 200 is returned after one call, a non-temporary error after one call, and a temporary error or a 503 followed by 200 ends in 200; without connect-failure a temporary error is returned after one call |
| ApiTypes.Snapshot.constructor | api/v1/snapshot_types.go:64-70 | a Snapshot holds the given name, namespace, generation, spec and status |
| ApiTypes.ScheduledSnapshot.constructor | api/v1/scheduledsnapshot_types.go:55-61 | a ScheduledSnapshot holds the given name, namespace, spec and status |
| CliFlags.HeaderFlag.constructor | bin/worker/main.go:111 | the headers flag starts with no values |
| CliFlags.HeaderFlag.Set | bin/worker/main.go:44-47 | each -H occurrence appends its value and keeps the earlier ones; the flag's string then shows the new value after ", ", or alone when it is the first |
| CliFlags.HeaderFlag.String | bin/worker/main.go:40-42 | no values print as the empty string, and a single value prints as itself; Set extends the text by ", " and the value, so the values print joined by ", " |
| CliFlags.TrimSpaceTrimmed | bin/worker/main.go:172-173 | trimming a string without surrounding blanks leaves it unchanged |
| CliFlags.TrimSpaceLeadingBlank | bin/worker/main.go:173 | trimming drops the blank after the colon |
| CliFlags.HeaderEntry | bin/worker/main.go:170-175 | a header line yields a key and value exactly when it contains a colon |
| CliFlags.HeaderLine | internal/controllers/snapshot_controller.go:324 | the "key: value" line the controllers write always contains a colon |
| CliFlags.SplitFirstAt | bin/worker/main.go:170 | splitting at the first separator of a + sep + b, where a has no separator, gives a and b |
| CliFlags.HeaderLineEntry | bin/worker/main.go:170-175 | a "key: value" line for a key without colon and trimmed key and value parses back to that key and value |
| CliFlags.AddHeader | bin/worker/main.go:169-176 | a line without a colon leaves the header map unchanged; otherwise its key is set to its value, a later line overriding an earlier one |
| CliFlags.ParseHeaders | bin/worker/main.go:168-177 | the loop over the -H values computes the header map of the lines |
| CliFlags.HeaderMapSkipsLinesWithoutColon | bin/worker/main.go:171 | lines without a colon add nothing to the map |
| CliFlags.HeaderLines | internal/controllers/snapshot_controller.go:323-325 | one "key: value" line per key, in iteration order |
| CliFlags.Restrict | internal/controllers/snapshot_controller.go:323-325 | the restriction of a header map to some keys holds exactly those of its keys |
| CliFlags.HeaderMapSnoc | bin/worker/main.go:169-176 | parsing one more line applies it to the map parsed so far |
| CliFlags.HeaderLinesRestrict | bin/worker/main.go:168-177 | the lines written for some keys parse back to the map restricted to those keys |
| CliFlags.HeaderRoundTrip | bin/worker/main.go:168-177 | the lines the controllers write for a header map parse back in the worker to the same map, in any iteration order, for keys and values without colons or surrounding blanks |
| CliFlags.TrimAll | bin/worker/main.go:164-166 | trimming keeps one selector per comma-separated part |
| CliFlags.SplitMaskSelectors | bin/worker/main.go:162-167 | the mask-selectors flag becomes its comma-separated parts, trimmed, and no selectors when it is empty |
| CliFlags.SelectorsRoundTrip | bin/worker/main.go:162-167 | selectors joined with commas by the controllers split back into the same selectors when they contain no comma and no surrounding blanks |
| CliFlags.JoinStartsWithFirst | internal/controllers/snapshot_controller.go:320 | a comma-joined list starts with its first element |
| GoFlag.Prepend | bin/worker/main.go:124 | a flag parsed before the rest is placed in front of the rest's flags, and an error in the rest stays an error |
| GoFlag.InvalidValue | bin/worker/main.go:124 | the error for a value a flag rejects starts with "invalid value \"" and is never the help request |
| GoFlag.Head | bin/worker/main.go:124 | parsing stops before an argument that is not a flag; a flag consumes one or two arguments and must be defined |
| GoFlag.ParseNamesDefined | bin/worker/main.go:124 | every flag a successful parse returns is one of the defined flags |
| GoFlag.ParsePositionalsSuffix | bin/worker/main.go:126 | the positional arguments are a suffix of the arguments |
| GoFlag.HeadFlagExtends | bin/worker/main.go:124 | a leading flag parses the same whatever follows it |
| GoFlag.HeadHaltExtends | bin/worker/main.go:124-126 | once parsing stops at a positional, everything after it is positional too |
| GoFlag.ParseExtendsPositionals | bin/worker/main.go:124-126 | appending arguments after a parse that left positionals only adds them to the positionals |
| GoFlag.StopsAtFirstPositional | bin/worker/main.go:124-126 | when the first argument is not a flag, no flag is parsed and every argument is positional |
| GoFlag.Encode | bin/worker/main.go:112-122 | each flag occurrence becomes two arguments, "--name" and its value |
| GoFlag.EncodeAppend | bin/worker/main.go:112-122 | encoding distributes over concatenation |
| GoFlag.EncodeParse | bin/worker/main.go:124-126 | encoded defined flags, then "--", then positionals parse back to the same flags and positionals |
| GoFlag.LastValue | bin/worker/main.go:112-121 | a string flag takes its default when it never occurs, and otherwise one of its occurrences' values |
| GoFlag.LastValueAfter | bin/worker/main.go:112-121 | the last occurrence of a flag wins |
| GoFlag.AllValues | bin/worker/main.go:122 | the -H values are at most as many as the occurrences |
| GoFlag.AllValuesAppend | bin/worker/main.go:122 | the repeated flag's values of two runs of occurrences are concatenated |
| GoFlag.AllValuesOther | bin/worker/main.go:122 | occurrences of other flags contribute no values |
| GoFlag.AllValuesSame | bin/worker/main.go:122 | a run of occurrences of the repeated flag yields its values in order |
| CaptureConfig.Configured | bin/capture/main.go:115-136 | each configuration field takes its flag's value when the flag is set (non-empty or positive) and the Playwright default otherwise; the browser is headless exactly when DISPLAY is empty |
| CaptureConfig.Configure | bin/capture/main.go:115-136 | the field-by-field overrides compute that configuration |
| CaptureConfig.ZeroFlagsKeepDefaults | bin/capture/main.go:115-136 | unset flags leave the default configuration |
| CaptureConfig.ConfiguredPositive | bin/worker/main.go:140-154 | the configured viewport and delay are always positive |
| WorkerArgs.MaskArgs | internal/controllers/snapshot_controller.go:319-321 | the mask-selectors pair is written exactly when there are selectors |
| WorkerArgs.HeaderArgs | internal/controllers/snapshot_controller.go:323-325 | one "-H" and "key: value" pair per header, in iteration order |
| WorkerArgs.Args | internal/controllers/snapshot_controller.go:311-325 | the list has eight fixed arguments, the mask pair and two per header: the two URLs, the two format flags with their values, then the callback flag and URL |
| WorkerArgs.KeyOrderLength | internal/controllers/snapshot_controller.go:323 | an iteration order over a map has as many keys as the map |
| WorkerArgs.BuildArgs | internal/controllers/snapshot_controller.go:311-325 | the append loop builds that list |
| WorkerArgs.Repeated | bin/worker/main.go:122 | one occurrence of the repeated flag per value, in order |
| WorkerArgs.CorrectedArgs | bin/worker/main.go:112-126 | the corrected list of the first "## Findings" row ends with "--" and the two URLs, after every flag, each under a name the worker defines |
| WorkerArgs.BuildCorrectedArgs | bin/worker/main.go:112-126 | the append loop with the URLs moved last builds the corrected list |
| WorkerInvocation.AsWrittenArgsRejected | bin/worker/main.go:124-129 | for either list as written, the worker parses no flag, sees more than two positionals and exits with status 1 |
| WorkerInvocation.WorkerNamesDefined | bin/worker/main.go:112-122 | the flags the corrected list uses are all defined by the worker |
| WorkerInvocation.HeaderFlagAppends | bin/worker/main.go:122 | a -H occurrence only appends its value to the headers |
| WorkerInvocation.HeadersAppended | bin/worker/main.go:122 | a run of -H occurrences appends its values in order |
| WorkerInvocation.SetScreenshotDiffFormat | bin/worker/main.go:118 | the occurrence sets the screenshot diff format and nothing else |
| WorkerInvocation.SetHtmlDiffFormat | bin/worker/main.go:119 | the occurrence sets the HTML diff format and nothing else |
| WorkerInvocation.SetCallbackURL | bin/worker/main.go:121 | the occurrence sets the callback URL and nothing else |
| WorkerInvocation.SetMaskSelectors | bin/worker/main.go:113 | the occurrence sets the mask selectors and nothing else |
| WorkerInvocation.FixedFlags | bin/worker/main.go:112-121 | the fixed flags of the corrected list set the formats, the callback URL and the joined selectors over the defaults |
| WorkerInvocation.CorrectedFlags | bin/worker/main.go:112-124 | all flags of the corrected list set exactly the intended flag values, headers included |
| WorkerInvocation.CorrectedParse | bin/worker/main.go:124-126 | the corrected list parses into its flags and exactly the two URLs |
| WorkerInvocation.IntendedInvocation | bin/worker/main.go:126-210 | the intended flag values give a run with the two URLs, the default configuration, the original selectors and headers, and the two formats |
| WorkerInvocation.CorrectedArgsAccepted | bin/worker/main.go:98-212 | the worker started with the corrected list runs with the controller's URLs, selectors, headers, formats and callback URL |
| WorkerCli.SetFlag | bin/worker/main.go:112-122 | a string flag takes the occurrence's value, leaving the other string flags and the numeric flags alone; only -H adds a header line |
| WorkerCli.SetAllStrings | bin/worker/main.go:112-124 | over string and -H occurrences, every string flag ends with its last value or its default, and the headers are all -H values in order |
| WorkerCli.Headers | bin/worker/main.go:168-185 | the HEADERS JSON entries override the -H headers, which stay for the other keys; without it the headers are those of the -H lines |
| WorkerCli.SetAllCons | bin/worker/main.go:124 | setting the occurrences in order is setting the first, then the rest |
| WorkerCli.ParseFlagsAgrees | bin/worker/main.go:124 | converting each value as it is parsed succeeds exactly when the syntax parse succeeds and every value then converts, with the same flags and positionals; its failures after a clean syntax parse are never the help request |
| WorkerCli.Invoke | bin/worker/main.go:98-129 | a run has parsed flags and exactly the two URLs as positionals; a flag error stops with a status other than 1; a value that does not convert stops with status 2 |
| WorkerCli.InvokeParsed | bin/worker/main.go:124-129 | once the flags parse and convert, two URLs start a run with the set flags and any other number exits with status 1 |
| WorkerCli.BadValueBeforeHelp | bin/worker/main.go:124 | a -delay value that does not convert, given before -h, exits with status 2 and Go's "invalid value" message, although the syntax parse alone would stop at the help request |
| WorkerCli.WrongUrlCount | bin/worker/main.go:126-129 | a parse that leaves other than two positionals exits with status 1 |
| WorkerCli.Deliver | bin/worker/main.go:222-228 | without a callback URL the output is printed, and otherwise it is sent to the callback; a callback URL no request can be built from exits with status 1 |
| WorkerCli.StorageFailure | bin/worker/main.go:187-203 | only the file and s3 backends can fail to open, and for them the failure is exactly the backend's error |
| WorkerCli.WorkerMain | bin/worker/main.go:98-229 | the worker's main computes the modelled run: flag parsing with each value converted as it is read, the URL count, the capturer, the storage backend, processing with the flags' capture options, and delivery |
| WorkerCli.AnsweredCallback | bin/worker/main.go:430-453 | a callback answered with a status the default policy does not retry succeeds |
| WorkerCli.UnreachableCallback | bin/worker/main.go:430-453 | a callback that only ever sees temporary errors gives up after four calls and exits with status 1 |
| WorkerInvocation.AsWrittenCallbackUndefined | internal/controllers/snapshot_controller.go:316 | as written, the Snapshot Job's "--callback" flag is not one the worker defines, so reaching it stops the worker with status 2 and "flag provided but not defined: -callback" |
| WorkerInvocation.CallbackName | bin/worker/main.go:112-122 | "callback" has no '=' and is not among the worker's flag names, of which "callback-url" is one |
| SnapshotPipeline.ImageDifferFor | internal/controllers/snapshot_controller.go:270-278 | "rectangle" and "pixel" select a differ, the pixel one with threshold 0.1; any other format is the error "unknown diff format: ..." |
| SnapshotPipeline.ImageDifferNamed | internal/controllers/snapshot_controller.go:270-278 | each of the two differs is selected by its own format name |
| SnapshotPipeline.LineDiffOf | internal/controllers/snapshot_controller.go:299-305 | the HTML diff amount is a fraction between 0 and 1 |
| SnapshotPipeline.HtmlDiff | internal/controllers/snapshot_controller.go:291-306 | the HTML diff succeeds exactly for the format "line", and then is the line diff of the two documents |
| SnapshotPipeline.GenerateHTMLDiff | internal/controllers/snapshot_controller.go:291-306 | the format switch computes that HTML diff |
| SnapshotPipeline.IdenticalHtmlNoDiff | internal/controllers/snapshot_controller.go:299-305 | identical HTML has a zero diff amount |
| SnapshotPipeline.Wrap | internal/controllers/snapshot_controller.go:114-121 | wrapping keeps a success and prefixes an error's message |
| SnapshotPipeline.GenerateDiff | internal/controllers/snapshot_controller.go:259-289 | the image diff succeeds only when both images decode and the format is known, and is then the differ's encoded result; an undecodable baseline or target fails with "failed to decode baseline image: " or "failed to decode target image: " and the decoder's error, and an unknown format with decodable images is "unknown diff format: ..." |
| SnapshotPipeline.CaptureAndDiffKeysDiffer | internal/controllers/snapshot_controller.go:157-211 | a capture key never collides with a diff key |
| SnapshotPipeline.ScheduledKeysApart | internal/controllers/scheduledsnapshot_controller.go:141 | ScheduledSnapshot capture keys never collide with Snapshot capture or diff keys |
| SnapshotPipeline.CaptureKeysDiffer | internal/controllers/snapshot_controller.go:211-225 | a capture's screenshot and HTML keys differ |
| SnapshotPipeline.DiffKeysDiffer | internal/controllers/snapshot_controller.go:159-176 | the image diff key and the HTML diff key of one pair differ |
| SnapshotPipeline.UploadCapture | internal/controllers/snapshot_controller.go:199-239 | the upload succeeds exactly when both puts succeed, and returns the URLs of the screenshot under "<base>.jpeg" and of the HTML under "<base>.html", where base is "<kind>/capture/<hash of the URL>/<timestamp>" |
| SnapshotPipeline.Uploaded | internal/controllers/snapshot_controller.go:125-189 | on success, each of the six artifacts is stored under its key and its URL is the one the put returned |
| SnapshotPipeline.ProcessSnapshot | internal/controllers/snapshot_controller.go:78-197 | capture (with the Snapshot's mask selectors and headers), diff and upload compute the modelled pipeline result step by step |
| SnapshotPipeline.ProcessedArtifacts | internal/controllers/snapshot_controller.go:78-197 | a successful pipeline captured both pages, used a known image format and the "line" HTML format, and its artifacts are the uploads of those captures and diffs |
| SnapshotPipeline.BaselineCaptureFailure | internal/controllers/snapshot_controller.go:88-94 | a failed baseline capture fails the pipeline with "failed to capture baseline screenshot: ..." |
| SnapshotPipeline.SameHtmlZeroAmount | internal/controllers/snapshot_controller.go:117-121 | two captures with the same HTML report a zero HTML diff amount |
| SnapshotController.Overwritten | internal/controllers/snapshot_controller.go:241-257 | the status takes all eight artifact fields and the snapshot time, and keeps the observed generation |
| SnapshotController.OverwriteIdempotent | internal/controllers/snapshot_controller.go:241-257 | writing the same artifacts twice is the same as writing them once |
| SnapshotController.OverwrittenArtifacts | internal/controllers/snapshot_controller.go:243-250 | the artifacts read back from the written status are the ones written |
| SnapshotController.UpdateSnapshotStatus | internal/controllers/snapshot_controller.go:241-257 | an accepted write stores the overwritten status; a rejected one fails with "failed to update snapshot status: ..." and leaves the status |
| SnapshotController.JobName | internal/controllers/snapshot_controller.go:309 | the Job name starts with "snapshot-" and then carries the Snapshot name and the Unix time |
| SnapshotController.JobNamesDiffer | internal/controllers/snapshot_controller.go:309 | Jobs created at different seconds have different names |
| SnapshotController.JobFor | internal/controllers/snapshot_controller.go:308-378 | the Job is named after the Snapshot and the time, lives in its namespace, runs the worker image, and passes the argument list as written: the baseline and target URLs first, then the two format flags, then "--callback" and the Snapshot's callback URL, then the mask pair and two arguments per header |
| SnapshotController.SubmittedJobRejected | internal/controllers/snapshot_controller.go:311-325 | the worker started with that Job's arguments never runs: it parses no flag, sees more than two URLs and exits with status 1 |
| SnapshotController.CreateJob | internal/controllers/snapshot_controller.go:308-394 | a failed create fails with "failed to create job: ..."; a create that succeeds or finds the Job already there gives that Job |
| SnapshotController.Reconcile | internal/controllers/snapshot_controller.go:47-76 | the reconcile updates the Snapshot's status and returns the result of the modelled reconcile |
| SnapshotController.MissingIsNoOp | internal/controllers/snapshot_controller.go:49-52 | a Snapshot that is gone is no work and changes nothing |
| SnapshotController.GenerationGuard | internal/controllers/snapshot_controller.go:56-58 | a generation already observed is no work and changes nothing |
| SnapshotController.ObservedGenerationAdvances | internal/controllers/snapshot_controller.go:56-63 | the observed generation never goes down, and reaches the generation once the guard write is accepted |
| SnapshotController.AtMostOncePerGeneration | internal/controllers/snapshot_controller.go:56-63 | after a reconcile whose guard write was accepted, reconciling the same generation again is no work |
| SnapshotController.DistributedSubmitsOnly | internal/controllers/snapshot_controller.go:65-69 | in distributed mode the artifacts and snapshot time are untouched, the only work is submitting the Job, and it succeeds exactly when the create does not fail |
| SnapshotController.InlineSnapshot | internal/controllers/snapshot_controller.go:69-75 | inline, a successful pipeline and status write yield its artifacts in the status, the generation observed and the snapshot time now |
| ScheduledController.CronJobName | internal/controllers/scheduledsnapshot_controller.go:284 | the CronJob name is "snapshot-" followed by the ScheduledSnapshot's name |
| ScheduledController.CronJobNamesDiffer | internal/controllers/scheduledsnapshot_controller.go:284 | different ScheduledSnapshots own different CronJobs |
| ScheduledController.DesiredCronJob | internal/controllers/scheduledsnapshot_controller.go:283-358 | the CronJob is named after the ScheduledSnapshot, lives in its namespace, runs on its schedule with the worker image, and passes the argument list as written: the target URL twice, then the two format flags, then "--callback-url" and the ScheduledSnapshot's callback URL, then the mask pair and two arguments per header |
| ScheduledController.CronJobRejected | internal/controllers/scheduledsnapshot_controller.go:286-300 | the worker started with that CronJob's arguments never runs: it parses no flag, sees more than two URLs and exits with status 1 |
| ScheduledController.AppliedCronJob | internal/controllers/scheduledsnapshot_controller.go:364-383 | a missing CronJob is created as desired; an existing one keeps its metadata and gets the desired spec; a failed lookup is "failed to get existing cronjob: ..."; otherwise the apply succeeds exactly when the write is accepted |
| ScheduledController.ApplyIdempotent | internal/controllers/scheduledsnapshot_controller.go:364-383 | applying the same desired CronJob to what an apply wrote is an update that changes nothing |
| ScheduledController.CreateOrUpdateCronJob | internal/controllers/scheduledsnapshot_controller.go:283-384 | building the arguments, looking up and creating or updating compute that apply |
| ScheduledController.Timed | internal/controllers/scheduledsnapshot_controller.go:69-78 | the reconcile waits exactly when now is before the next run after the last snapshot (or after a minute ago), and then exactly until that instant |
| ScheduledController.Landed | internal/controllers/scheduledsnapshot_controller.go:80-85 | a snapshot lands exactly when the capture pipeline and the status write succeed, and then rotates the status and requeues; on failure the status is unchanged |
| ScheduledProcessing.DiffsAgainstSetBaselines | internal/controllers/scheduledsnapshot_controller.go:99-125 | an image diff is made exactly when there is a baseline image URL, and an HTML diff exactly when there is a baseline HTML URL, each against the stored baseline |
| ScheduledProcessing.UploadsStored | internal/controllers/scheduledsnapshot_controller.go:132-200 | the capture is stored under the ScheduledSnapshot capture keys; each diff that was made is stored under its diff key with its amount, and a missing diff leaves an empty URL and a zero amount |
| ScheduledProcessing.ProcessScheduled | internal/controllers/scheduledsnapshot_controller.go:88-208 | capture, diffs and uploads compute the modelled result step by step |
| ScheduledProcessing.AsWrittenBaselines | internal/controllers/scheduledsnapshot_controller.go:103-116 | the baselines a run diffs against are the status's stored baseline image and HTML URLs |
| ScheduledProcessing.RotatedBaselines | internal/controllers/scheduledsnapshot_controller.go:262-267 | the baselines are the previous targets when there were any, and the previous baselines otherwise |
| ScheduledProcessing.Rotated | internal/controllers/scheduledsnapshot_controller.go:259-276 | the new status takes the rotated baselines, the new capture as target, its diffs and amounts, and the snapshot time |
| ScheduledProcessing.UpdateScheduledSnapshotStatus | internal/controllers/scheduledsnapshot_controller.go:259-281 | an accepted write stores the rotated status; a rejected one fails with "failed to update scheduled snapshot status: ..." and leaves the status |
| ScheduledProcessing.AsWrittenDiffsAgainstStaleBaseline | internal/controllers/scheduledsnapshot_controller.go:103-104 | as written, a run diffs against the status's baseline, which is not the baseline the status names after the run |
| ScheduledProcessing.AsWrittenSecondRunWithoutDiff | internal/controllers/scheduledsnapshot_controller.go:103-115 | as written, after the first run the status has a target but no baseline, so the second run makes no diff |
| ScheduledProcessing.RotatedBaselineIsCompared | internal/controllers/scheduledsnapshot_controller.go:262-267 | with the rotated baselines, each run diffs against the previous capture, which is the baseline the new status names |
| ScheduledProcessing.RotatedSecondRunHasDiff | internal/controllers/scheduledsnapshot_controller.go:103-125 | with the rotated baselines, the second run of a fresh resource downloads the first run's capture, diffs against it and stores that diff with its amount |
| ScheduledProcessing.FirstRunHasNoDiff | internal/controllers/scheduledsnapshot_controller.go:103-125 | the first run, without baselines, makes no diff and reports zero amounts |
| ScheduledReconciler.Reconcile | internal/controllers/scheduledsnapshot_controller.go:48-86 | the reconcile updates the ScheduledSnapshot's status and returns the result of the modelled reconcile |
| ScheduledReconciler.ReconcileInline | internal/controllers/scheduledsnapshot_controller.go:64-86 | the inline path computes the modelled inline reconcile |
| ScheduledReconciler.TakeSnapshot | internal/controllers/scheduledsnapshot_controller.go:80-85 | when due, the snapshot is processed and landed as modelled |
| ScheduledReconciler.DueLands | internal/controllers/scheduledsnapshot_controller.go:80-85 | when due, the reconcile is the landing of the pipeline run against the stored baselines |
| ScheduledReconciler.Land | internal/controllers/scheduledsnapshot_controller.go:202-204 | the status write decides whether the rotation lands, as modelled |
| ScheduledReconciler.DistributedOnlyAppliesCronJob | internal/controllers/scheduledsnapshot_controller.go:57-62 | in distributed mode the status is unchanged and the only work is applying the CronJob |
| ScheduledReconciler.NotDueWaits | internal/controllers/scheduledsnapshot_controller.go:75-78 | before the next run the reconcile changes nothing and requeues after the time left |
| ScheduledReconciler.TakenThenWaits | internal/controllers/scheduledsnapshot_controller.go:84-85 | right after a snapshot, a reconcile at the same instant waits until the next cron instant |
| ScheduledReconciler.InlineWaits | internal/controllers/scheduledsnapshot_controller.go:75-78 | the inline path waits and changes nothing before the next run |
| ScheduledReconciler.TakenDiffAgainstStoredBaseline | internal/controllers/scheduledsnapshot_controller.go:103-113 | a snapshot taken when the status has a baseline image diffs the new screenshot against that stored baseline and records that diff's amount, while the new status's baseline becomes the previous target when there was one |
| ScheduledReconciler.SecondRunWithoutDiff | internal/controllers/scheduledsnapshot_controller.go:103-125 | from a fresh status, the second snapshot taken has no image diff, no HTML diff and zero amounts |
| CaptureCli.SetCaptureFlag | bin/capture/main.go:88-96 | a text flag takes the given value and leaves the other text flags alone; -H appends its value to the headers; -delay and the viewport flags are accepted exactly when their value converts |
| CaptureCli.CaptureHeadersCollected | bin/capture/main.go:25-34 | after all flags are set, the headers are every -H value in command-line order |
| CaptureCli.CaptureTextFlagsLast | bin/capture/main.go:88-98 | after all flags are set, each text flag holds its last value on the command line, or its default when it was not given |
| CaptureCli.CaptureHeaders | bin/capture/main.go:150-160 | no header map without -H lines; otherwise the map the header lines parse to |
| CaptureCli.CaptureInvoke | bin/capture/main.go:98-104 | a capture starts only when the command line parses and names a URL, and the URL is the first positional; a flag error or a missing URL quits; a value that does not convert quits with status 2 |
| CaptureCli.SetCaptureFlagsCons | bin/capture/main.go:98 | setting the occurrences in order is setting the first, then the rest |
| CaptureCli.ParseCaptureFlagsAgrees | bin/capture/main.go:98 | converting each value as it is parsed succeeds exactly when the syntax parse succeeds and every value then converts, with the same flags and positionals; its failures after a clean syntax parse are never the help request |
| CaptureCli.ParseCaptureFlagsExtends | bin/capture/main.go:98-104 | once a URL is reached, appended arguments only lengthen the positionals |
| CaptureCli.CaptureInvokeParsed | bin/capture/main.go:98-104 | once the flags parse and convert, a URL starts the capture with the set flags and its absence exits with status 1 |
| CaptureCli.NoUrlQuits | bin/capture/main.go:100-103 | without a positional argument the command exits with status 1 and "url not specified" |
| CaptureCli.ExtraArgumentsIgnored | bin/capture/main.go:100-104 | once a URL is given, positional arguments after it change nothing |
| CaptureCli.HeadersOnlyWithFlag | bin/capture/main.go:150-160 | the capture options carry headers exactly when -H was given, and then the map parsed from all -H values |
| CaptureCli.CaptureKeys | bin/capture/main.go:167-192 | the image key is "Snapshot/capture/<hash>/<timestamp>" with the configured format as extension, and the HTML key is the same base with ".html" |
| CaptureCli.Uploads | bin/capture/main.go:178-204 | the uploads succeed exactly when both puts succeed, and the result names the two stored paths |
| CaptureCli.CaptureMain | bin/capture/main.go:78-212 | the command computes the modelled run step by step |
| CaptureCli.WroteStoresBoth | bin/capture/main.go:162-211 | a run that writes a result captured the page and stored the screenshot and the HTML under the capture keys, at the paths it reports |
| Viewer.SupportedVersions | viewer/components/App.js:5-8 | a group has versions exactly when it is one of the two supported groups, and then only "v1" |
| Viewer.SupportedKinds | viewer/components/App.js:9-12 | a group has kinds exactly when it is supported, and then "snapshot" and "scheduledsnapshot" |
| Viewer.ParamOr | viewer/components/App.js:33-56 | a non-empty query parameter replaces the current choice; an absent or empty one keeps it |
| Viewer.ArtifactsPath | viewer/components/App.js:119 | the artifacts request goes to the resource path of the selection followed by the resource name and "/artifacts" |
| Viewer.ReadsWhereWorkerPosts | viewer/components/App.js:119 | the viewer reads artifacts from the same path the worker's callback URL posts them to |
| Viewer.Issued | viewer/components/App.js:83-101 | issuing a listing request supersedes every earlier one and leaves the shown items |
| Viewer.Arrived | viewer/components/App.js:89-96 | a listing response replaces the items only when it answers the latest request and succeeded |
| Viewer.LaterListingWins | viewer/components/App.js:98-100 | of two listing requests only the later one's response can change the items, in whichever order the responses arrive |
| Viewer.FirstResource | viewer/components/App.js:103-109 | a non-empty resource list selects its first resource; an empty one keeps the selection |
| Viewer.Requested | viewer/components/App.js:111-122 | selecting a resource supersedes the previous artifact request, and a request is in flight and loading shown exactly when a resource is selected |
| Viewer.Settled | viewer/components/App.js:123-133 | only the response to the request in flight settles it: it clears loading and, when it succeeded, shows its artifacts; anything else changes nothing |
| Viewer.LoadingShownKept | viewer/components/App.js:111-133 | loading is shown whenever an artifact request is in flight, and every request and settlement keeps that |
| Viewer.AbortedResponseIgnored | viewer/components/App.js:131-133 | the settlement of an aborted request changes nothing |
| Viewer.AsWrittenAbortClearsLoading | viewer/components/App.js:127-129 | as written, the rejection of an aborted request clears loading while the newer request is still in flight |
| Viewer.MountedAsWritten | viewer/components/App.js:30-81 | as written, mounting succeeds exactly when the group is supported, and the group effect then forces version "v1" and kind "snapshot" whatever the query said |
| Viewer.Mounted | viewer/components/App.js:30-57 | mounting succeeds exactly when the group chosen by the query (or the default group) is supported |
| Viewer.AsWrittenMountDropsKind | viewer/components/App.js:75-81 | as written, a link to a scheduledsnapshot opens on kind "snapshot" |
| Viewer.MountedKeepsQuery | viewer/components/App.js:43-51 | the corrected mount keeps every choice the query makes and the initial choice for every parameter it leaves out; a queried resource lasts only until the resource list arrives, which selects its first entry (App.ResourcesArrived) |
| Viewer.EmptyQueryMountsInitial | viewer/components/App.js:15-28 | without query parameters both mounts give the initial selection |
| Viewer.RenderScreenshot | viewer/components/App.js:136-143 | a missing or empty screenshot renders the placeholder; otherwise an image whose source is the PNG data URL prefix followed by the data, with the given alt text |
| Viewer.ScreenshotSourceRoundTrip | viewer/components/App.js:139 | the screenshot data is recovered from the image source by dropping the data URL prefix |
| Viewer.App.constructor | viewer/components/App.js:15-28 | the initial state: namespace "default", the first group with its versions and kinds, version "v1", kind "snapshot", no resource, no artifacts, not loading, diff shown |
| Viewer.App.ApplyUrlParams | viewer/components/App.js:30-57 | the query parameters override the selection and nothing else changes |
| Viewer.App.ResetForGroup | viewer/components/App.js:75-81 | a supported group resets versions, kinds and the selected version and kind to the group's first; an unsupported group leaves the kinds and the selection |
| Viewer.App.GroupChanged | viewer/components/App.js:75-81 | the group effect succeeds exactly when the selected group is supported and then selects its first version and kind; for an unsupported group the versions are emptied before the throw, and the kinds and the selection stay; the groups, the diff toggle, the listings and the fetch stay |
| Viewer.App.MountAsWritten | viewer/components/App.js:30-81 | the mount as written, step by step, ends in the as-written mounted selection with the group's versions and kinds; when the query's group is unsupported, the versions are empty and the selection is the query over the defaults; the groups, the diff toggle, the listings and the fetch stay |
| Viewer.App.Mount | viewer/components/App.js:30-57 | the corrected mount ends in the mounted selection with the group's versions and kinds; when the group is unsupported, the versions are empty and the kinds stay; the groups, the diff toggle, the listings and the fetch stay |
| Viewer.App.RequestNamespaces | viewer/components/App.js:59-64 | the namespace listing is requested from "/api/" and supersedes the earlier request; the selection, the catalog lists, the diff toggle and the fetch stay |
| Viewer.App.NamespacesArrived | viewer/components/App.js:65-68 | a namespace listing response lands as Arrived says; the selection, the catalog lists, the diff toggle and the fetch stay |
| Viewer.App.RequestResources | viewer/components/App.js:83-88 | the resource listing is requested from the selection's resource path and supersedes the earlier request; the selection, the catalog lists, the diff toggle and the fetch stay |
| Viewer.App.ResourcesSettled | viewer/components/App.js:89-96 | a resource listing response lands as Arrived says; the selection, the catalog lists, the diff toggle and the fetch stay |
| Viewer.App.ResourcesArrived | viewer/components/App.js:103-109 | a new resource list selects its first resource, if any; the catalog lists, the diff toggle, the listings and the fetch stay |
| Viewer.App.ArtifactRequested | viewer/components/App.js:111-122 | the artifact request is issued exactly when a resource is selected, to the artifacts path, as Requested says; the selection, the catalog lists, the diff toggle and the listings stay |
| Viewer.App.ArtifactSettledAsWritten | viewer/components/App.js:123-129 | the as-written settlement, which any response or rejection may perform; the selection, the catalog lists, the diff toggle and the listings stay |
| Viewer.App.ArtifactSettled | viewer/components/App.js:123-133 | the corrected settlement, as Settled says; the selection, the catalog lists, the diff toggle and the listings stay |

## Left out

- Goroutines and errgroups are not modelled as concurrency: chunks of rows are processed one after another, and when steps that run side by side fail, the reported error is that of the first failing step in program order, where Go reports whichever fails first.
- `float64` is not modelled: diff amounts and the pixel threshold are exact ratios (`Fraction`), and the brightness threshold is compared exactly. Rounding of the float division is not captured.
- HTML parsing is left to golang.org/x/net/html: the DOM diff starts from an already-parsed node tree, and parser errors are an input.
- Image decoding and encoding (PNG, JPEG) are functions passed in. The rectangle differ's colour copy is modelled through the colour read at each pixel, not through `draw.Draw`.
- The browser capture (Playwright), both storage backends, SHA-256 hashing of URLs, the clock, the cron parser and the Kubernetes API server's answers are all parameters.
- Only the `*image.RGBA` fast paths and the per-pixel rule of `processGeneric` in pixel.go are modelled. The NRGBA, RGBA64, NRGBA64 and YCbCr loops of both differs and the rectangle differ's `processGeneric` are not. `ycbcrToRGBA` is modelled on its own.
- RectDiff: every member that builds or reads the diff map requires the union of the bounds to start at the origin. For any other union the Go code indexes out of range and panics, and the panic is not modelled.
- `rand.Int63n` is an `entropy` parameter. Its panic for a non-positive bound is not modelled.
- The transport's `base()` fallback to `http.DefaultTransport` and `CancelRequest` are not modelled: the base transport and the context are oracles.
- `envOrDefaultValue`: the environment overrides of each flag default in the worker and capture commands are not modelled; the defaults are the built-in ones. The Job and CronJob environment (`STORAGE_BACKEND=s3`, the S3 settings) is not modelled either.
- `api/v1/groupversion_info.go` is not part of this model: the API group and version are configuration parameters.
- `controllerutil.SetControllerReference` is assumed to succeed, so its error path is not modelled.
- Event recording (`Recorder.Eventf`) has no effect on state and is left out.
- Each reconcile reads the clock once, as `now`. The Go code calls `time.Now()` several times within one reconcile.
- Errors from encoding the JSON results and printing them to standard output are not modelled.
- WorkerCli.Invoke: the worker exits with status 1 and no message when it gets other than two URLs. The model tags that stop with a message of its own.
- WorkerCli.WorkerRun: a `--storage-backend` other than `file` or `s3` leaves the worker's storage nil, and Go panics at the first `Put`. The model hands processing the given `put` and does not model the panic.
- GoFlag.InvalidValue: Go quotes the rejected value with `%q`, which escapes quotes and control characters; the model puts the value between plain double quotes. The conversion errors themselves ("parse error", "value out of range") come from the `conv` parameter.
- Viewer.Mounted: an unsupported group in the query string makes the group effect throw. The model gives no result for that query instead of modelling the thrown error.
- Viewer.ParamOr: a query parameter that is present but empty is treated as absent. The code's `!== null` test lets an empty value override the default.
- Viewer.Arrived: a listing response without `items` is treated as a failed request that leaves the list unchanged. The code instead stores `undefined` and fails at the next use.
- The viewer's rendered element tree is left out: the select boxes, `renderHTMLDiff` (which decodes with `atob`) and the diff toggle beyond its flag. `renderScreenshot` is modelled.
- Preact's effect scheduling is modelled as explicit method calls in the order the effects run on mount and after each change. Re-render batching and effect deduplication are not modelled.

## Findings

| source | as written | input that shows it | evidently intended | confidence | as-written member | corrected member |
|---|---|---|---|---|---|---|
| internal/controllers/snapshot_controller.go:311-325 | the worker's argument list starts with the two URLs and puts the flags after them (scheduledsnapshot_controller.go:286-300 does the same); Go's flag package stops at the first non-flag argument | any distributed Snapshot, e.g. baseline `http://a`, target `http://b`: the worker parses no flags, sees eight or more URLs and exits with status 1 | flags first, then `--` and the two URLs | not executed; high | WorkerInvocation.AsWrittenArgsRejected | WorkerInvocation.CorrectedArgsAccepted |
| internal/controllers/snapshot_controller.go:316 | the Snapshot Job passes its callback URL under `--callback` | any distributed Snapshot, once the flags are parsed: "flag provided but not defined: -callback", exit status 2 | `--callback-url`, the flag the worker defines and the scheduled controller uses | not executed; high | WorkerInvocation.AsWrittenCallbackUndefined | WorkerInvocation.CorrectedArgsAccepted |
| internal/controllers/scheduledsnapshot_controller.go:103-113 | the new capture is compared with the status's baseline, but the status update moves the previous target into the baseline only after the comparison | a fresh ScheduledSnapshot: run 1 stores T1; run 2 has no baseline yet and makes no diff; run 3 compares T3 with T1 instead of T2 | compare each capture with the previous capture (the target before rotation) | not executed; medium | ScheduledReconciler.SecondRunWithoutDiff | ScheduledProcessing.RotatedSecondRunHasDiff |
| viewer/components/App.js:127-129 | the artifact fetch's `catch` clears the loading flag for every rejection, including the abort of a superseded request | select resource a, then resource b before a's response: a's abort clears loading while b is still in flight | ignore rejections of aborted requests | not executed; medium | Viewer.AsWrittenAbortClearsLoading | Viewer.AbortedResponseIgnored |
| viewer/components/App.js:75-81 | on mount, the group effect runs after the query effect and resets version and kind to the group's first entries | `?kind=scheduledsnapshot` opens kind `snapshot` | keep the version and kind the query names | not executed; medium | Viewer.AsWrittenMountDropsKind | Viewer.MountedKeepsQuery |
| internal/diff/text/dom.go:303-314 | element attributes are compared by looking up each baseline key in the target map, where a missing key reads as "" | `<div x="">` against `<div y="">` compares equal | equal attribute maps (same keys, same values) | not executed; high | DomCompare.AsWrittenCounterexample | DomCompare.NodesMatchEquivalence |
