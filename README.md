# Spacewalk live contact map: a Dafny model

This project models the bookkeeping that Spacewalk runs around its live
contact map. Spacewalk shows 3D chromosome traces next to a Juicebox Hi-C
viewer. A background worker turns the current ensemble of traces into a dense
`traceLength x traceLength` contact-frequency array. The code modelled here
does the following with that array:

- `LiveContactMapService` turns the array into sparse `{bin1, bin2, counts}`
  contact records for the live-map dataset. It keeps a distance threshold
  and the input control that shows it, the cached frequencies, and an RGBA
  byte buffer that is reused when its length still fits. Only the threshold
  button clamps the threshold to `[0, 10000]`. `setState`, the reset on a new
  ensemble and the recomputation's argument are stored as given.
- `JuiceboxPanel` paints the frequencies into the RGBA buffer through the
  colour scale. It sizes the live-map canvases and picks direct or resampled
  transfer. Its crosshairs handler filters what Juicebox reports. Its tab
  state machine shows one of three map containers and re-activates a
  remembered (dataset, state) pair. Loading a session remembers those pairs,
  creates the live-map containers, lets `configureTabs` assess its first tab,
  and ends on the Hi-C or the live-map tab. It also builds the chromosome list of the
  live-map dataset, with the "All" entry moved to the front.

Files:

- `js_values.dfy` (module `JsValues`): the JavaScript value rules the code
  relies on. These are `Option` for undefined, the byte of a
  `Uint8ClampedArray`, numbers as integer-or-NaN, `Number#toString` for
  integers, `parseInt(s, 10)` and `clamp`.
- `live_contact_map.dfy` (module `LiveContactMap`): record extraction, with
  a specification function, the loop proved against it and the properties
  of the specification. It also holds record keys, threshold resolution and
  the `LiveContactMapService` class.
- `juicebox_panel.dfy` (module `Juicebox`): RGBA painting, the crosshair
  predicate, chromosome reordering, the canvas size guards, and the
  `JuiceboxPanel` class (tab assessment, session pair memory, render steps).

Things outside these files are inputs:

- the worker's result array;
- whether `enableLiveMaps()` succeeded;
- the trace-bounds threshold estimate;
- the Juicebox browser's active pair after a session restore or a live-map
  load;
- the viewport size;
- the colour scale (`getColor`) and `compositeColors`.

The last two are function parameters with no interpretation.

Some of the source's behaviour surprises, and the model keeps it:

- The threshold button stores `clamp(parseInt(input.value))` but does not
  rewrite the input control. The control is mirrored again only by the
  recomputation that the button schedules.
- A threshold of 0 passes the clamp. It is falsy, though, so the
  recomputation replaces it with the estimate
  (`ZeroThresholdFallsBackToEstimate`).
- An unparsable input gives NaN, and NaN also falls back to the estimate.
- When the worker's promise rejects, the update still prepares the buffer.
  It then throws on `result.workerValuesBuffer`. The model ends that call
  with `WorkerFailed` and does not claim that the failure is handled.
- An index past the end of the frequency array reads `undefined`, which is
  never `> 0`. A short array therefore yields fewer records and no error.
- Typed-array writes past the end are ignored. Painting therefore needs no
  size agreement between the frequencies and the buffer.

## Model

| member | source | states |
|---|---|---|
| `LiveContactMap.ConvertContactFrequencyArrayToRecords` | js/juicebox/liveContactMapService.js:18-37 | the nested loop returns exactly the row-by-row upper-triangle records: strictly ordered, and containing a record iff it names a cell `bin1 <= bin2 < traceLength` with its positive count |
| `LiveContactMap.ContactRecordsExactly` | js/juicebox/liveContactMapService.js:19-36 | soundness and completeness: a record is emitted iff `bin1 <= bin2 < traceLength`, `counts == contactFrequencies[bin1*traceLength+bin2]` and `counts > 0` |
| `LiveContactMap.ContactRecordsOrdered` | js/juicebox/liveContactMapService.js:20-25 | records come in strictly increasing lexicographic `(bin1, bin2)` order, so no cell appears twice |
| `LiveContactMap.ContactRecordsCount` | js/juicebox/liveContactMapService.js:20-21 | at most `traceLength*(traceLength+1)/2` records |
| `LiveContactMap.ContactRecordsReadUpperTriangleOnly` | js/juicebox/liveContactMapService.js:20-23 | arrays that agree on the upper triangle give the same records; lower-triangular entries are never read |
| `LiveContactMap.PositiveCountIsStored` | js/juicebox/liveContactMapService.js:22-24 | a count passes `count > 0` only when its index is inside the array, and then it is that entry; a read past the end (`undefined`) never passes |
| `LiveContactMap.Key` | js/juicebox/liveContactMapService.js:29-31 | `getKey()` is the `bin1` numeral, one `_`, then the `bin2` numeral: every other character is a digit |
| `LiveContactMap.KeyIdentifiesCell` | js/juicebox/liveContactMapService.js:29-31 | `getKey()` (`bin1_bin2`) is injective on the bin pair |
| `LiveContactMap.ContactRecordKeysDistinct` | js/juicebox/liveContactMapService.js:25-31 | the keys of the emitted records are pairwise different |
| `JsValues.Clamp` | js/juicebox/liveContactMapService.js:50 | a number is pulled into `[lo, hi]` (unchanged inside, the nearer bound outside), NaN stays NaN |
| `JsValues.ClampExamples` | js/juicebox/liveContactMapService.js:9 | clamping -5 and 50000 into `[0, 1e4]` gives 0 and 10000 |
| `JsValues.ParseIntOfIntToString` | js/juicebox/liveContactMapService.js:46-50 | `parseInt(n.toString(), 10) == n` for every integer: what the service writes into the control reads back unchanged |
| `JsValues.ParseInt` | js/juicebox/liveContactMapService.js:50 | `parseInt(s, 10)` of the empty string is NaN, and of a string of decimal digits is their value |
| `JsValues.IntToString` | js/juicebox/liveContactMapService.js:46 | `n.toString()` starts with `-` iff `n` is negative and is decimal digits otherwise |
| `JsValues.NumberToString` | js/juicebox/liveContactMapService.js:77-99 | `x.toString()` is `"NaN"` exactly for NaN; it is written into the control at lines 77, 83 and 99 |
| `JsValues.NatToString` | js/juicebox/liveContactMapService.js:30 | the numeral is non-empty, all decimal digits, without a leading zero |
| `LiveContactMap.ThresholdFromInput` | js/juicebox/liveContactMapService.js:50 | the value the button stores is NaN or lies in `[0, 1e4]` |
| `LiveContactMap.ThresholdFromMirroredInput` | js/juicebox/liveContactMapService.js:48-50 | when the control shows a stored in-range threshold, pressing the button stores that same threshold |
| `LiveContactMap.ResolveDistanceThreshold` | js/juicebox/liveContactMapService.js:98 | the effective threshold is the argument when truthy; undefined, NaN and 0 give the estimate |
| `LiveContactMap.ZeroThresholdFallsBackToEstimate` | js/juicebox/liveContactMapService.js:48-98 | a 0 typed into the control survives the clamp but the scheduled recomputation uses the estimate |
| `LiveContactMap.LiveContactMapService.constructor` | js/juicebox/liveContactMapService.js:41-46 | stores the threshold and mirrors it into the control; nothing is cached |
| `LiveContactMap.LiveContactMapService.ApplyThresholdInput` | js/juicebox/liveContactMapService.js:48-55 | the click stores `clamp(parseInt(input.value), 0, 1e4)` and changes nothing else |
| `LiveContactMap.LiveContactMapService.SetState` | js/juicebox/liveContactMapService.js:81-84 | stores the threshold and the control mirrors it |
| `LiveContactMap.LiveContactMapService.ReceiveEvent` | js/juicebox/liveContactMapService.js:63-79 | `DidLoadEnsembleFile` drops frequencies and buffer, resets the threshold to the estimate and mirrors it; other events change nothing |
| `LiveContactMap.LiveContactMapService.PrepareRgbaMatrix` | js/juicebox/liveContactMapService.js:120-127 | afterwards the buffer has length `traceLength²·4` and every byte is 0; the same array is reused iff its length already matched, otherwise it is fresh |
| `LiveContactMap.FillZero` | js/juicebox/liveContactMapService.js:126 | every byte of the array is 0 |
| `LiveContactMap.LiveContactMapService.UpdateEnsembleContactFrequencyCanvas` | js/juicebox/liveContactMapService.js:90-144 | no change when live maps are unavailable; otherwise the resolved threshold is stored and mirrored and the buffer is zeroed at `traceLength²·4` bytes; a failed worker ends there with the cached frequencies untouched; a result is cached and its records (exactly `ContactRecords` of it) are pushed iff the active dataset is a `livemap` |
| `Juicebox.StoreByte` | js/juicebox/juiceboxPanel.js:578-581 | a typed-array store changes exactly byte `i` when it is inside the buffer, and nothing past the end |
| `Juicebox.PaintContactMapRGBAMatrix` | js/juicebox/juiceboxPanel.js:571-583 | the buffer becomes `Painted(old buffer, ...)` |
| `Juicebox.PaintedPixel` | js/juicebox/juiceboxPanel.js:574-581 | bytes `4k..4k+2` hold the composite of `getColor(frequencies[k])` over the background and byte `4k+3` is 255 |
| `Juicebox.PaintedKeepsTail` | js/juicebox/juiceboxPanel.js:572-583 | the length is kept and every byte from `4·|frequencies|` on is unchanged |
| `Juicebox.PaintedIdempotent` | js/juicebox/juiceboxPanel.js:571-583 | painting twice with the same inputs gives the buffer painting once gives |
| `Juicebox.JuiceboxMouseHandler` | js/juicebox/juiceboxPanel.js:603-625 | posts `[interpolantX, interpolantY]` iff the locus is defined and none of the rejection comparisons `>`/`<` holds, each false when a side is NaN; with numbers only, iff both crosshair extents overlap `[genomicStart, genomicEnd]` and `xBP`, `yBP` lie in it |
| `Juicebox.NaNPassesRejection` | js/juicebox/juiceboxPanel.js:611-624 | NaN or `undefined` crosshair coordinates, or NaN locus bounds, reach the post |
| `Juicebox.OverlapsIsCommonPoint` | js/juicebox/juiceboxPanel.js:611 | for non-empty extents, passing the trivial-rejection test means sharing a point with the locus |
| `Juicebox.SizeOf` | js/juicebox/juiceboxPanel.js:430-431 | `chr.size`, or else `chr.bpLength`: the size when present and non-zero, the length otherwise |
| `Juicebox.LiveMapChromosomes` | js/juicebox/juiceboxPanel.js:428-433 | one entry per genome chromosome, in genome order, with its name, `SizeOf` as size and length, and its position as index |
| `Juicebox.IsAllChromosome` | js/juicebox/juiceboxPanel.js:435 | `name.toLowerCase() === 'all'` holds exactly for the three-letter names `all` in any mix of case |
| `Juicebox.FindIndex` | js/juicebox/juiceboxPanel.js:435 | the first position satisfying the predicate, or -1 when none does |
| `Juicebox.MoveAllChromosomeToFront` | js/juicebox/juiceboxPanel.js:434-441 | the splice, `unshift` and renumbering loop yields exactly `MovedAllToFront` of the list |
| `Juicebox.MovedAllToFrontPlacement` | js/juicebox/juiceboxPanel.js:434-441 | an "all" found past position 0 moves to the front, the others keep their relative order and every entry is renumbered by position; otherwise the list is unchanged; always a permutation up to indices |
| `Juicebox.LoadLiveMapDataset` | js/juicebox/juiceboxPanel.js:410-451 | a configuration exists iff the locus chromosome is known and listed; its list is exactly `MovedAllToFront` of the genome's chromosomes (genome order, any "all" first, renumbered), and `chr1 == chr2 ==` the chromosome's first position plus one |
| `Juicebox.UpdateLiveMapCanvasSizes` | js/juicebox/juiceboxPanel.js:230-260 | a zero viewport side changes no canvas; otherwise each existing canvas gets exactly the viewport's width and height |
| `Juicebox.Resized` | js/juicebox/juiceboxPanel.js:236-244 | a canvas sized to a viewport takes the viewport's size unless the viewport has a zero side, and then keeps its own; it has a zero side afterwards only if it had one before |
| `Juicebox.JuiceboxPanel.constructor` | js/juicebox/juiceboxPanel.js:30-34 | no pair is remembered |
| `Juicebox.AssessedDom` | js/juicebox/juiceboxPanel.js:649-707 | without a viewport nothing changes; otherwise only the tab's container is shown (none for an unknown tab), and on a known tab each widget shows only on its own tab while an unknown tab leaves the widgets alone |
| `Juicebox.AssessedBrowser` | js/juicebox/juiceboxPanel.js:664-697 | the Hi-C tab activates the Hi-C pair, and the live tab the live-map pair, when the viewport and the tab's container exist and both halves are set; the active pair changes only then |
| `Juicebox.TabAssessmentIdempotent` | js/juicebox/juiceboxPanel.js:134-142 | assessing the same tab twice gives what assessing it once gives, so the deferred re-assessment changes nothing |
| `Juicebox.JuiceboxPanel.TabAssessment` | js/juicebox/juiceboxPanel.js:644-708 | the display flags and the active pair become `AssessedDom` and `AssessedBrowser` of the old ones; the pair changes only when the viewport and the tab's container exist and both halves of that tab's pair are set |
| `Juicebox.Created` | js/juicebox/juiceboxPanel.js:165-203 | a missing live-map container is created, displayed; an existing one is kept |
| `Juicebox.WithLiveContainers` | js/juicebox/juiceboxPanel.js:156-203 | with a viewport both live-map containers exist afterwards and nothing else changes; without one nothing changes |
| `Juicebox.JuiceboxPanel.InitializeLiveMapContexts` | js/juicebox/juiceboxPanel.js:156-203 | the display flags become `WithLiveContainers` of the old ones |
| `Juicebox.InitialTab` | js/juicebox/juiceboxPanel.js:319-324 | the Hi-C tab iff a dataset other than a live map is active, the live-map tab otherwise |
| `Juicebox.JuiceboxPanel.ConfigureTabs` | js/juicebox/juiceboxPanel.js:301-326 | shows `InitialTab` of the active pair and assesses it |
| `Juicebox.JuiceboxPanel.LoadSession` | js/juicebox/juiceboxPanel.js:89-146 | a Hi-C pair is remembered from a Hi-C session's non-live restore, a live pair from a live-map load; the session ends on the Hi-C tab iff it has a Hi-C file and a Hi-C pair is remembered, with that pair active; otherwise on the live tab, with the live pair active whenever a viewport exists and both halves are set; the final flags and pair are the assessment of the final tab after `configureTabs`' assessment of its own tab, and with a viewport only the final tab's container shows |
| `Juicebox.JuiceboxPanel.RenderLiveMapWithContactData` | js/juicebox/juiceboxPanel.js:489-569 | without an active dataset and state nothing changes; otherwise both canvases are sized to the viewport, and sized again to the retry viewport when the live canvas still has a zero side; painting throws on missing frequencies or buffer, before any byte of the buffer is written; transfer needs a live canvas with no zero side; it is direct iff the canvas is `traceLength` on both sides, which with a non-empty viewport means iff the viewport is |
| `Juicebox.TransferToLiveCanvas` | js/juicebox/juiceboxPanel.js:523-569 | no live canvas iff `NoLiveContext`; a zero-sided live canvas makes both canvases resized once to the retry viewport, and `InvalidCanvas` only when that leaves a zero side; a transfer has a live canvas with no zero side and is direct iff it is `traceLength` on both sides |

## Left out

- Worker messaging (`postMessageToWorker`), `enableLiveMaps` and the spinner are asynchronous foreign calls. Their results are parameters.
- `distanceThresholdEstimate` computes a float radius from `getTraceBounds`, which is not part of this model. The estimate is a parameter.
- `clamp` lives in `mathUtils`, which is not part of this model. The model takes it to be `Math.min(Math.max(v, lo), hi)`, so NaN stays NaN.
- Thresholds are modelled as integers or NaN. A fractional threshold given to `setState` is not modelled.
- `JsValues.NatToString` writes plain digits. `Number#toString` switches to exponent notation at 1e21, and the model does not.
- `JsValues.ParseInt` uses unbounded integers. It ignores the precision loss of long numerals past 2^53.
- Frequencies are reals. Float32 NaN values are not modelled.
- `Juicebox.JuiceboxMouseHandler`: coordinates and locus bounds are reals or NaN (`JsValues.JsReal`), and `undefined` is written as NaN. The infinities are not modelled.
- DOM and canvas work is not modelled: the canvases and bitmap-renderer contexts that `initializeLiveMapContexts` sets up (only its containers are modelled), `createImageBitmap`, `drawImage`, `transferFromImageBitmap`, the canvas clearing in both `receiveEvent`s, CSS sizes, and the Bootstrap `data-bs-target` attributes and `shown.bs.tab` listener in `configureTabs`.
- `Juicebox.JuiceboxPanel.LoadSession`: a `tab.show()` is modelled as one `tabAssessment` of that tab, since `show.bs.tab` runs `tabEventHandler`. By `TabAssessmentIdempotent`, the result is the same when Bootstrap skips the event for a tab that is already active. The active button that `configureTabs` reads back is taken to be the tab it has just shown.
- `Juicebox.JuiceboxPanel.LoadSession`: the 150 ms deferred re-assessment and repaint are not modelled. That re-assessment changes nothing (`TabAssessmentIdempotent`).
- `Juicebox.JuiceboxPanel.LoadSession`: the `MapLoad` handler's `tabAssessment` is not modelled. Its timing depends on Juicebox's event bus.
- `Juicebox.JuiceboxPanel.RenderLiveMapWithContactData`: `ResampledTransfer` names the resampling branch only. The nearest-neighbour pixels that `drawImage` produces are browser work and are not stated.
- Juicebox library calls are inputs: `hic.restoreSession`, `setActiveDataset`, `browser.loadLiveMapDataset`, `parseGotoInput`, `contactMatrixView.update` and `updateContactRecords`. The records are returned rather than pushed, and `binSize` is not modelled.
- Floating-point arithmetic is not modelled: `binSize`, `xBin`/`yBin`, and the `xFunction`/`yFunction` panel placement.
- `colorScale.getColor` and `compositeColors` are uninterpreted function parameters. So is the clamping that `Uint8ClampedArray` applies to their results.
- The session normalisation in `initialize` and the `'{}'` substitution in `loadSession` only shape a Juicebox session object. `hasHicFile` (`session.url` or the first browser's `url`) is a parameter.
- The panel's `receiveEvent`, `colorPickerHandler`, the `DidUpdateColorScaleThreshold` and `MapLoad` handlers, `loadHicFile` and the distance-map rendering are glue around Juicebox and other services. They call the modelled operations and are not modelled themselves.
- `UpdateEnsembleContactFrequencyCanvas` ends where the service hands the cached frequencies and buffer to `renderLiveMapWithContactData`. That render is the separate `Juicebox.JuiceboxPanel.RenderLiveMapWithContactData`.
- `isJSONString` (depends on `JSON.parse`), `setTimeout` scheduling, `console`/`alert` and async interleaving are not modelled. The button's deferred recomputation is a separate call of `UpdateEnsembleContactFrequencyCanvas`.
