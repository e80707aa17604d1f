# Labeling exercise: a verified model

A browser app lets a teacher mark drop zones on an image and lets students
drag term tiles onto those zones. This project models the app's logic with
the DOM removed, and proves what that logic guarantees. It covers five parts:

- **Terms file** (`TermParser`, over `JsText`). `loadTermsForActivity` reads
  a newline-delimited terms file. It handles the `@no-shuffle` directive,
  `[fixed-top]`, `[random]` and unknown headers, first-occurrence
  de-duplication and the dropping of empty clusters. It also has the
  fallbacks for a missing or failed file, and the offline path, which does
  no section parsing.
- **Zones** (`Zones`). Covers migration of legacy zones, configuration
  checks, and the clamp-and-shift of zone geometry. The editor's zone-list
  operations form the class `ZoneEditor`, and so does the choice of where
  the zone list comes from.
- **Tiles** (`Tiles`). Counts how many non-blank zones want each term. Tile
  order is fixed-top first, then each cluster, with a Fisher–Yates shuffle
  unless `noShuffle`. Tiles are built and reset.
- **Placement and scoring** (`Scoring`, `Placement`). Covers the drop
  state machine and label removal, plus reset and submission, in the class
  `AnswerHandler`. Also covers the expected and correct counts, zone
  completeness, the permissive-mode verdict, the rounded percentage and the
  `M:SS` duration.
- **Text fitting and instructions** (`TextFitting`, `Instructions`). Covers
  the two font-size bisections, where `fits` is an arbitrary test. Also
  covers the grid-row rule and the minimal markdown rendering of
  instructions.

Three pieces of browser state become explicit data:

- **Zone elements and their labels** are a map from zone id to the list of
  placed labels. A zone whose id is absent from the map has no element.
- **The sidebar tiles** are a map from term to `Tile(multi, remaining, placed)`.
- **`Math.random`** is a function `roll(cluster, step)`. Step `i` of the
  shuffle swaps with position `roll(c, i)`, or `i` when that is beyond `i`.
  Every choice in `[0, i]` stays possible.

Clocks are `now` parameters in milliseconds. Fetched text is an
`Option<string>`, where `None` is a failed load.

## Model

| member | source | states |
|---|---|---|
| JsText.TrimSpec | activity-loader.js:117 | `trim` leaves the piece of a line between a whitespace prefix and a whitespace suffix. The piece neither starts nor ends with whitespace. |
| JsText.TrimIdempotent | activity-loader.js:117 | Trimming a trimmed line changes nothing. |
| JsText.SplitLines | activity-loader.js:116 | `split('\n')` gives at least one piece and no piece holds a newline. Joining the pieces with newlines gives the text back. |
| JsText.SplitJoin | activity-loader.js:116 | Splitting the join of newline-free pieces gives the pieces back. |
| JsText.NatToString | answer-handler.js:480 | `String(n)` is a non-empty string of decimal digits with no leading zero. |
| JsText.DigitsOfNat | answer-handler.js:480 | Reading the digits `String(n)` printed gives `n` back. |
| JsText.NatToStringInjective | script.js:695 | Different numbers print differently, so the default zone ids `zone-i` are distinct. |
| JsText.PadStart2 | answer-handler.js:480 | `padStart(2,'0')` leaves strings of two or more characters alone. Shorter strings are padded on the left with zeros to length 2. |
| TermParser.ParseResult | activity-loader.js:108-167 | Over every text: the terms have no duplicate. They equal `fixedTop` followed by the flattened clusters. No stored cluster is empty. A term is returned iff some trimmed line reads as that term. `noShuffle` holds iff some trimmed line is `@no-shuffle`. |
| TermParser.ParseSeen | activity-loader.js:143-145 | The `seen` set holds exactly the terms of the lines read so far. Every term lands in exactly one of `fixedTop` and the clusters. |
| TermParser.ParseShape | activity-loader.js:110-141 | The current section is fixed-top iff the last header read was `[fixed-top]`. The cluster count is one plus the number of other headers. `noShuffle` holds iff the directive was read. |
| TermParser.ParseRouting | activity-loader.js:125-155 | A term goes to `fixedTop` iff the last header before its first occurrence is `[fixed-top]`. Otherwise it goes to the cluster opened last before that occurrence, or the default cluster before any header. |
| TermParser.ParseOrder | activity-loader.js:147-155 | Within `fixedTop` and within each cluster, terms keep the file order of their first occurrence. |
| TermParser.ParseLinesSnoc | activity-loader.js:116-156 | Reading one more line is one more step of the line-by-line fold. |
| TermParser.HandleLine | activity-loader.js:116-156 | One pass of the `forEach` body over the loader's variables leaves them exactly as one `Step` of the fold does. |
| TermParser.NonEmptyClusters | activity-loader.js:159 | Removing empty clusters keeps every non-empty cluster in order and loses no term. |
| TermParser.ParseTerms | activity-loader.js:108-170 | The line loop with its mutable state returns exactly the fold `Parse(text)`. So everything `ParseResult` proves holds for the loader: distinct terms, `fixedTop` then the clusters, no empty cluster, membership and `noShuffle`. |
| TermParser.LoadTermsForActivity | activity-loader.js:98-175 | A missing or empty terms file name (both false in `!activity.termsFile`) or a failed load yields no terms and leaves the stored ordering alone. Otherwise the parsed terms are returned and the ordering is stored. |
| TermParser.OfflineTerms | script.js:455 | The offline path keeps every non-blank trimmed line as often as it occurs and drops the blank ones, so it has as many terms as non-blank lines. It has no directive, header or duplicate handling. |
| TermParser.WithoutCounts | script.js:455 | The blank filter drops every blank entry and keeps every other entry as often as it occurs. |
| TermParser.WithoutConcat | script.js:455 | The filter keeps the order: filtering a concatenation filters each part, so the terms come in file order. |
| Zones.ConvertLegacyTerm | script.js:726-733 | A legacy `term` becomes the only accepted term, or none when it is empty. Exactly one label is required and allowed, and the legacy field is gone. |
| Zones.ConvertLegacyDefaults | script.js:738-741 | Without `term`, missing fields default to no terms, 1 and 1. Present fields are kept, including an explicit `null` maximum. |
| Zones.ConvertStored | script.js:723-743 | Migrating a zone already in the current format changes nothing. |
| Zones.ConvertLegacyIdempotent | script.js:723-743 | Migrating twice is the same as migrating once. |
| Zones.ConvertLegacyZones | script.js:723-743 | The loop converts every zone of the list in place, keeping the order. |
| Zones.ZoneErrorsSpec | script.js:1265-1291 | A blank zone has no errors. Otherwise there is one error for a negative minimum and one for a finite maximum below the minimum, and nothing else. No errors iff well configured. |
| Zones.ValidateErrorsFrom | script.js:1270-1278 | The "no accepted terms" error is never reported. Every error names a non-blank zone of the list. |
| Zones.ValidateEmptyIff | script.js:1265-1291 | The error list is empty iff every zone is well configured. |
| Zones.SaveCheckMatchesValidation | script.js:1088-1104 | `saveZone` accepts the form iff the zone it would save is non-blank and passes `validateZoneConfiguration`. The first failing check is the one reported. |
| Zones.Clamp | script.js:751-756 | `Math.max(lo, Math.min(hi, v))` lies in `[lo, hi]` and is `v` when `v` already does. |
| Zones.ClampShiftInside | script.js:769-793 | After the image-loaded branch, `5 ≤ width ≤ 50`, `0 ≤ x` and `x + width ≤ 100`, and the same for `y` and height. Only the geometry changes, and a zone already inside is left alone. |
| Zones.ClampShiftIdempotent | script.js:769-793 | Validating positions twice is the same as once. |
| Zones.ClampBasicRanges | script.js:751-756 | The not-loaded branch clamps each coordinate into [0,100] and each size into [5,50], and changes nothing else. |
| Zones.ClampBasicNoShift | script.js:751-756 | The not-loaded branch does not shift. A zone at `x = 100` with width 50 still sticks out of the image. |
| Zones.DefaultZones | script.js:694-703 | One zone per term: zone `i` is `zone-i` at `(20+15i, 20+10i)`, size 15×10, with no terms and min/max 1. |
| Zones.DefaultZonesDistinct | script.js:694-703 | Default zones are blank, need and allow one label each, and have pairwise distinct ids. |
| Zones.WithoutId | script.js:1135 | Deleting keeps exactly the zones with another id. |
| Zones.ZoneEditor.AddDropZone | script.js:1057-1073 | Appends `zone-<now>` at (50,50), size 15×10, with no terms and min/max 1, and selects it. |
| Zones.ZoneEditor.SaveZone | script.js:1075-1121 | With nothing selected, nothing happens. Otherwise the checks run in order, and a refused form leaves the zone list unchanged. When every check passes the form is saved: the selected zone's terms, minimum, maximum and its x, y, width and height are replaced, its id is kept, and the selection ends. |
| Zones.ZoneEditor.DeleteZone | script.js:1132-1140 | Removes every zone with the selected zone's id and clears the selection. With nothing selected, nothing changes. |
| Zones.ZoneEditor.ResizeAllZones | script.js:1142-1176 | Refuses NaN sizes, sizes outside [5,50] and an empty list, in that order. Otherwise it sets every zone's width and height and changes nothing else. |
| Zones.ZoneEditor.ClearAllTerms | script.js:1178-1194 | Empties every zone's accepted terms, keeps everything else and clears the selection. |
| Zones.ZoneEditor.ValidateZonePositions | script.js:745-794 | Not loaded: each zone is clamped without the shift. Loaded with a zero-sized image: nothing changes. Loaded: each zone is clamped and shifted inside the image. |
| Zones.ZoneEditor.LoadDropZones | script.js:667-721 | Zones in memory are kept. Otherwise it takes the migrated non-empty setup zones, then the migrated stored zones, then `DefaultZone(i)` for each term. The ensures give the exact new list for each source: each zone passes through `validateZonePositions` for the image state (`Revalidated`). With a loaded image every zone ends inside it. |
| Tiles.NonBlankTerms | script.js:1387-1389 | The terms listed by non-blank zones, repeats included. |
| Tiles.FirstOccurrences | script.js:1394 | The distinct used terms, each listed once. |
| Tiles.Occurrences | script.js:1390 | A term's count is positive iff it is listed. |
| Tiles.OccurrencesAppend | script.js:1390 | Counts add up over concatenation. |
| Tiles.CountOccurrences | script.js:1386-1390 | The counting loop gives each listed term its number of occurrences. It keys exactly the listed terms, in first-occurrence order. |
| Tiles.CountTerms | script.js:1386-1394 | Counts cover exactly the terms of non-blank zones. Each count is the positive number of occurrences across those zones. |
| Tiles.Keep | script.js:1407 | `filter(used && not yet listed)` keeps exactly those terms and keeps distinctness. |
| Tiles.SwapPermutes | script.js:1412 | A swap permutes the sequence. |
| Tiles.ShuffleFromPermutes | script.js:1410-1413 | The Fisher–Yates loop is a permutation whatever `Math.random` returns. |
| Tiles.ArrangePermutes | script.js:1408-1415 | A cluster's terms are appended as a permutation of themselves, unchanged under `noShuffle`. |
| Tiles.OrderClustersSpec | script.js:1404-1416 | The clusters add each used term not yet listed exactly once. Nothing already ordered moves, and nothing else is added. |
| Tiles.OrderClustersNoShuffle | script.js:1408 | Under `noShuffle`, the order does not depend on the random source. |
| Tiles.TileOrderFileOrder | script.js:1393-1416 | With `@no-shuffle` and clusters, the tiles are exactly the used terms of the loader's fixed-top list followed by its clusters, in file order. Without clusters, they are the used fixed-top terms and then the other used terms in zone order. |
| Tiles.OrderClustersFileOrder | script.js:1405-1415 | Without shuffling, each cluster adds its used, not yet listed terms in file order. |
| Tiles.TileOrderSpec | script.js:1393-1416 | The tile order has no duplicate and lists only used terms, with the used fixed-top terms first. When clusters exist, exactly the used terms in some section get a tile. Otherwise every used term gets one. |
| Tiles.TileOrderNoShuffle | script.js:1408 | With `@no-shuffle`, the tile order is deterministic. |
| Tiles.OrderClustersUsed | script.js:1407 | Ordering adds only used terms. |
| Tiles.ShuffleCluster | script.js:1410-1413 | The in-place swap loop on the cluster array computes the specified shuffle. |
| Tiles.OrderTiles | script.js:1393-1416 | The cluster loop computes the specified tile order. |
| Tiles.BuildTiles | script.js:1419-1437 | A term in the order with a count gets a tile. It is multi-use iff its count is > 1, starts with `remaining = count`, and is not placed. |
| Tiles.CreateDraggableLabels | script.js:1381-1440 | The tile order is the specified order of the used terms. Each tile starts from its term's occurrence count across non-blank zones. |
| Tiles.ZonesAccepting | script.js:1570 | The reset count is positive iff some non-blank zone accepts the term, and at most the number of zones. |
| Tiles.ResetCountBound | script.js:1568-1574 | The reset count is at most the initial count. It equals the initial count unless a zone lists the term twice. |
| Tiles.ResetCountDiffers | script.js:1568-1574 | A zone listing `a` twice starts the tile at 2, but a reset restores 1. |
| Scoring.CorrectIn | answer-handler.js:291-307 | At most one correct label per placed label. |
| Scoring.CorrectForBounds | answer-handler.js:296-308 | A finite zone contributes at most its maximum. An unlimited zone contributes at most its number of labels. Neither is negative when the maximum is not. |
| Scoring.PlacedCorrectAtMostTotal | answer-handler.js:269-311 | When every non-blank zone has a finite non-negative maximum, the correct count never exceeds the expected total. |
| Scoring.UnlimitedZoneExceedsTotal | answer-handler.js:269-311 | With an unlimited zone, the correct count can exceed the total: 4 correct against 3 expected. |
| Scoring.CorrectZones | answer-handler.js:314-345 | At most one correct zone per non-blank zone. |
| Scoring.AllCompleteIffAllCorrect | answer-handler.js:314-373 | All zones are complete iff every non-blank zone counts as correct. |
| Scoring.VerdictMatchesCompleteness | answer-handler.js:401-435 | When placements were flagged by acceptance, a zone is green iff it is non-blank, non-empty and complete. |
| Scoring.Percentage | answer-handler.js:464-466 | For a positive total, the exact value of `100·correct/total` rounded half up. It is 0 otherwise. This is exact arithmetic, not the source's double-precision product (see Left out). |
| Scoring.PercentageRange | answer-handler.js:464-466 | With `0 ≤ correct ≤ total`, the percentage lies in [0,100]. |
| Scoring.PercentageExamples | answer-handler.js:464-466 | 3/4→75, 1/8→13, 1/3→33, 5/5→100, 0/7→0, any/0→0. |
| Scoring.Duration | script.js:1537-1542 | Whole seconds from the start to the end time, or to `now` while running. It is 0 before any start. |
| Scoring.FormatDurationShape | answer-handler.js:480 | A formatted duration is the minutes, a colon, and the seconds padded to two digits. |
| Scoring.FormatParseRoundTrip | answer-handler.js:480 | Reading back a formatted non-negative duration gives the duration. |
| Scoring.NegativeDurationFormat | answer-handler.js:480 | A negative duration prints with two minus signs: −5 s is `-1:-5`. |
| Placement.FindZone | answer-handler.js:40 | Finds the first zone with the id, or reports that none has it. |
| Placement.DropCheckRefusals | answer-handler.js:50-78 | A full zone refuses even an accepted term. Strict mode rejects exactly the unaccepted terms. Permissive mode places every term with `isCorrect = accepted`. |
| Placement.TileAfterPlacement | answer-handler.js:115-131 | A multi-use tile's `remaining` becomes `max(0, remaining−1)`, and the tile is consumed when it reaches 0. A single-use tile is consumed. |
| Placement.TileAfterRemoval | answer-handler.js:233-249 | A multi-use tile gets `min(remaining+1, cap)`, and is available again iff that is > 0. A single-use tile is restored. |
| Placement.PlaceRemoveRoundTrip | answer-handler.js:221-249 | Placing from an available tile and removing again gives the tile back when its count is at most the cap. |
| Placement.PlaceRemoveLosesUse | answer-handler.js:235 | A tile at 2 with cap 1 comes back at 1 after a place-and-remove. |
| Placement.RemoveAt | answer-handler.js:223 | Removing a label keeps the others in order. |
| Placement.AppendRemoveRoundTrip | answer-handler.js:221-223 | Removing the label just appended gives the zone's labels back. |
| Placement.CorrectInConcat | answer-handler.js:282-311 | A zone's correct count is the sum over any split of its labels, so it does not depend on their order. |
| Placement.RemoveReaddSameCount | answer-handler.js:221-223 | Removing a label from a zone and dropping it on the same zone again leaves that zone's correct count unchanged. |
| Placement.RemoveReaddRoundTrip | answer-handler.js:282-311 | The same round trip leaves the progress count over all zones unchanged. |
| Placement.Emptied | script.js:1577-1584 | After reset every zone element is empty. |
| Placement.ResetTiles | script.js:1564-1575 | Every tile is reset as in `ResetTile`. |
| Placement.ResetTilesSpec | script.js:1564-1575 | After reset every tile is available. A multi-use tile's count equals the number of non-blank zones accepting its term. |
| Placement.EmptiedScoresZero | answer-handler.js:628-634 | With no labels placed and no negative maximum, the correct count is 0. |
| Placement.AnswerHandler.constructor | answer-handler.js:4-10 | No progress and permissive mode, as in the constructor. One empty element per zone, as `createActivityDropZones` builds them (script.js:1361-1370). A running timer with no end time, as `startActivity` starts it (script.js:1328-1332). |
| Placement.AnswerHandler.UpdateProgress | answer-handler.js:258-266 | The progress count becomes the current correct count. |
| Placement.AnswerHandler.HandleDrop | answer-handler.js:28-218 | Refusals change nothing. A permissive placement appends one flagged label and uses up the tile. A strict placement appends an unflagged label, uses up the tile, and overwrites the progress count. It ends the activity iff all zones are complete. |
| Placement.AnswerHandler.RemovePlacedLabel | answer-handler.js:221-255 | Removes exactly that label and restores the tile with the cap. Decrements the progress count, never below 0. |
| Placement.AnswerHandler.ResetActivity | script.js:1554-1600 | Stops a running timer, empties every zone, resets every tile, and recomputes the progress count. |
| Placement.AnswerHandler.SubmitScore | answer-handler.js:456-488 | Stops the timer. Reports the correct count, the expected total, the rounded percentage and the duration with its `M:SS` form. Permissive mode also refreshes the progress count. |
| Placement.AnswerHandler.SetValidationMode | answer-handler.js:658-668 | Accepts exactly "strict" and "permissive". Any other name leaves the mode alone and returns false. |
| TextFitting.ScanIsLargest | text-fitting.js:147-178 | The reference downward scan returns the largest fitting size in the range, or the lower bound. |
| TextFitting.LargestFitting | text-fitting.js:147-178 | The bisection returns at least the lower bound. `best` only moves to a fitting size. An empty range returns the lower bound. For a monotone test, the result equals the reference scan. |
| TextFitting.GridRows | text-fitting.js:231-236 | The row count is never below 1. |
| TextFitting.GridRowsOfMultiTerm | text-fitting.js:231-236 | A finite multi-term zone has one row per allowed label. An unlimited zone has one row per placed label, or one when it is empty. |
| TextFitting.FitRange | text-fitting.js:132-147 | The range starts at `max(1, minPx)`. It ends at `maxPx` when given, else at most 75% (cell) or 85% (zone) of the text height. |
| TextFitting.FitLabelToZone | text-fitting.js:132-178 | The size is at least `max(1, minPx)`. It is the lower bound or a fitting size in range. For a monotone test it is the largest fitting size. |
| TextFitting.DraggableCeiling | text-fitting.js:312-314 | The ceiling lies in [14,28]. |
| TextFitting.DraggableCeilingExamples | text-fitting.js:312-314 | An unreadable or zero size uses 18, 16.5 rounds to 17, and the ceiling clamps at 28 and 14. |
| TextFitting.AdjustDraggableLabel | text-fitting.js:312-336 | The size lies in [10, ceiling], is 10 or fits, and for a monotone test is the largest fitting size. |
| Instructions.SplitParagraphs | script.js:375-377 | Splitting on a blank line gives at least one paragraph. |
| Instructions.SplitParagraphsHead | script.js:375-377 | The first paragraph is a prefix of the text, and when more paragraphs follow the text continues with the blank-line separator right after it. |
| Instructions.SplitParagraphsPieces | script.js:375-377 | The cut is leftmost: no paragraph holds two newlines in a row and no paragraph but the last ends with a newline. With the join round trip this is exactly `split('\n\n')`. |
| Instructions.SplitParagraphsJoin | script.js:375-377 | Joining the paragraphs with blank lines gives the text back. |
| Instructions.LineBreaks | script.js:377 | The paragraph HTML holds no newline, and newline-free text is unchanged. |
| Instructions.MarkdownToHtmlSpec | script.js:375-378 | The HTML holds no newline and opens with `<p>`. A newline-free payload is exactly one paragraph around it. |

## Left out

- DOM, styling, feedback banners, event wiring, drag visuals and modals. Placement state is explicit data instead.
- Network, file-system and `localStorage` I/O. Fetched text and stored zones are parameters.
- Mouse drag and resize of zones, and zoom and pan: event-driven pixel arithmetic.
- Timers (`setTimeout`, `setInterval`, `requestAnimationFrame` retries), including the retry inside `validateZonePositions` and the live timer display.
- Floating-point rounding:
  - the 2-decimal `synchronizeZonePositions`;
  - the pixel-to-percent measurement;
  - `durationMinutes`;
  - the 0.9/0.95 margins and the text measurement in `fitLabelToZone`.
  Geometry is over exact reals, and a measurement is the `fits` parameter.
- `Math.random`. It is the arbitrary `roll` function; only the permutation is proved, not the distribution.
- Integer-like term keys. `Object.keys(counts)` lists integer-like keys first and treats a term named like an `Object.prototype` member (`constructor`) specially. The model keeps first-occurrence order for all keys.
- Zones with duplicate ids. The model keys placements by id, so such zones share one label list. In the page, `document.getElementById` finds only the first element.
- Character encoding. Strings are sequences of Unicode scalar values, not UTF-16 code units, and there is no lower-casing beyond ASCII. Only ASCII letters lower-case to a letter of `fixed-top`, so the header test is exact.
- `saveZone` parsing. A `NaN` minimum or maximum from `parseInt` is not modelled: the form's minimum is an integer and an empty maximum is `null`. A stored `null` minimum, which the migration keeps, is not modelled either.
- Placement.AnswerHandler.HandleDrop: the `draggable` attribute is not modelled. `placed` stands for a tile that can no longer be dragged.
- Scoring.Percentage: the source computes `Math.round((correct / total) * 100)` in double precision. The model uses the exact half-up value, which differs on some ordinary inputs where the double product falls just below a half: 23/40 gives 57 in the source and 58 in the model, and 29/200 gives 14 against 15.
- Tiles.BuildTiles: the `remaining` of a single-use tile has no meaning in the source. The model keeps the count there.
- Scoring.Duration: JavaScript number range and date parsing are out; times are unbounded integers in milliseconds.
- The HTML-injection behaviour of rendering terms and instructions through `innerHTML` is not modelled.
- Password checks, activity listing, score submission to the remote form and downloadable reports: UI and I/O only.
