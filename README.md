# PiNozCam in Dafny

PiNozCam watches a 3D printer's camera for "spaghetti" failures. It runs an
object detector on each snapshot, turns the detections into a severity
between 0 and 1, and pauses or cancels the print once enough severe results
pile up within a time window. This project models and proves properties of:

- The detector's post-processing, in both implementations:
  - the NumPy one used by the OctoPrint plugin (`octoprint_pinozcam/inference.py`);
  - the PyTorch one that sits beside the stand-alone server (`AI/Model/inference.py`).

  Both are modelled end to end:
  - anchor generation;
  - anchor-plus-delta box decoding;
  - top-N selection of the class scores;
  - greedy per-class non-maximum suppression (NMS), including the older
    `_nms_bak` of the torch file;
  - the concatenation over the five heads;
  - the coverage bitmap behind the severity figure;
  - the rescaling of boxes to the source image.
- The intra-op thread count: the largest power of two not above
  `ceil(cores · speed_control)`.
- The inference server (`AI/Model/server.py`; `AI/Model/server_quart.py` is
  the same program step for step):
  - its result store, with the placeholder, the pop on delivery and the
    five-minute sweep;
  - the busy flag;
  - the two routes and the worker.
- The stand-alone scripts:
  - the polling client (`AI/Model/client.py`) with its ready/waiting loop;
  - the HTTP backend loop (`AI/Model/backend.py`);
  - the local monitor loop (`AI/Model/monitor.py`).

  All three share one failure window: the timestamps of red results, pruned
  to the last `count_time` seconds.
- The OctoPrint plugin (`octoprint_pinozcam/__init__.py`):
  - its result deque of at most 100 entries and its failure count;
  - event handling, the processing loop's iteration, the printer action,
    the box-drawing loop and the five-second freshness test of `check`.

Modelling choices:
- Floats are exact reals.
- `exp`, `sqrt` and `2 ** x` are function parameters whose values are left
  open.
- The batch dimension is fixed at one, as every caller passes one image.
- Both argsorts are unstable, so the model sorts into some descending order
  and every statement holds for every descending order.
- Objects whose fields the source updates in place are classes:
  - the server's `ProcessingManager`;
  - the scripts' `count`/`timestamps` pair (`FailureCounter`);
  - the client's loop state (`PollingClient`);
  - the plugin (`PinozCam`).
- Clock readings, CPU counts, HTTP exchanges, image decoding and the
  inference call are parameters of the steps that use them.

Modules:
- `Common`: Option, scalar helpers, Python's `int`, `ceil`, `round` and float `%`.
- `Geometry`: boxes, candidates, the "+1" IoU test.
- `Anchors`: anchor generation and `_delta2box`.
- `Ordering`: permutations, the argsort, boolean-mask compaction.
- `NmsCore`: the mask NMS round engine shared by both `_nms` versions.
- `Decoding`: what both `_decode` versions share.
- `NumpyInference` and `TorchInference`: the two pipelines, with their severity computations.
- `Raster`: the coverage bitmap and the severity formula.
- `Threads`: `largest_power_of_two` and the thread calculation.
- `ResultStore` and `Server`: the inference server.
- `FailureWindow`, `Client`, `Backend` and `Monitor`: the scripts.
- `Plugin`: the OctoPrint plugin.

## Model

| member | source | states |
|---|---|---|
| Common.Trunc | octoprint_pinozcam/inference.py:333 | `int(x)` truncates toward zero: r ≤ x < r+1 for x ≥ 0 and r-1 < x ≤ r for x < 0 |
| Common.Ceil | AI/Model/server.py:89 | `math.ceil`: the least integer r with x ≤ r (r-1 < x ≤ r) |
| Common.RoundHalfEven | octoprint_pinozcam/inference.py:73 | `np.round` is within 0.5 of x and, at an exact half, lands on the even neighbour |
| Common.RealMod | octoprint_pinozcam/inference.py:165 | Python's float `%` by a positive modulus: the value in [0, m) that differs from v by a whole multiple of m |
| Common.Clamp | octoprint_pinozcam/inference.py:130 | the `max(m, min(t, M))` clamp lands in [m, M], leaves values already inside unchanged, sends values below m to m and values above M to M |
| Geometry.Zeros | octoprint_pinozcam/inference.py:52-54 | the zero-initialised output has n slots, each the all-zero candidate |
| Geometry.SelfOverlap | octoprint_pinozcam/inference.py:87-89 | a box with non-negative extent is never "IoU at most t" against itself for t < 1, so an equal-class, equal-score copy is always suppressible |
| Geometry.IouSymmetric | octoprint_pinozcam/inference.py:88 | the IoU test is symmetric in its two boxes |
| Anchors.AnchorFor | octoprint_pinozcam/inference.py:22-30 | an anchor is centred at stride/2, has width sqrt(stride²/ratio)·scale and height ratio·width (torch: AI/Model/inference.py:9-42) |
| Anchors.AnchorShape | octoprint_pinozcam/inference.py:6-30 | anchor k pairs ratio k mod R with scale k div R, with the centre and size of AnchorFor |
| Anchors.Delta2Box | octoprint_pinozcam/inference.py:104-136 | the decoded corners are clamped to [0, width·stride - 1] × [0, height·stride - 1] (torch: AI/Model/inference.py:166-204) |
| Anchors.ZeroDeltasReproduceAnchor | octoprint_pinozcam/inference.py:118-136 | zero deltas (with exp(0) = 1) decode an anchor inside the map back to itself: the "-1" of the upper corner undoes the "+1" width |
| Anchors.CachedAnchors | octoprint_pinozcam/inference.py:211-213 | a stride not yet cached generates its anchors and stores them, a cached one reuses them untouched; the anchors returned are those of the stride, the cache keys grow by exactly that stride, and the number of generations stays equal to the number of cached strides (also AI/Model/inference.py:321-324) |
| Ordering.ArgsortDescending | octoprint_pinozcam/inference.py:67 | the sort order is a permutation of the indices that reads the scores in non-increasing order (torch: AI/Model/inference.py:133) |
| Ordering.CompactSource | octoprint_pinozcam/inference.py:95-100 | every compacted entry is an input entry whose bit was set, at or after its own position |
| Ordering.CompactKeepsOrder | octoprint_pinozcam/inference.py:95-100 | compacting a non-increasing score list keeps it non-increasing |
| Ordering.CompactPrefix | AI/Model/inference.py:103-107 | entries before the first cleared bit keep their positions |
| Ordering.CompactMap | AI/Model/inference.py:103-105 | compaction commutes with mapping a function over the entries (scores, boxes and classes are compacted alike) |
| Ordering.CountExtremes | octoprint_pinozcam/inference.py:79 | an all-set mask keeps everything, an all-clear one nothing, and a zero count means no bit is set (`np.any(keep)`) |
| NmsCore.PositivesFromInput | octoprint_pinozcam/inference.py:58-61 | every candidate kept by the filter is an input candidate with a positive score |
| NmsCore.SortedScores | octoprint_pinozcam/inference.py:67-70 | candidates permuted by a descending order have non-increasing scores |
| NmsCore.ApplyRound | octoprint_pinozcam/inference.py:83-92 | `keep &= criterion` with `criterion[i] = True`: j stays iff it was kept and (j = i, or it scores higher, or its IoU with row i is at most nms, or its class differs) |
| NmsCore.RunRoundsExact | octoprint_pinozcam/inference.py:78-92 | a row survives iff it started kept and survives every round that ran, including rounds whose pivot was already cleared |
| NmsCore.RunRoundsStops | octoprint_pinozcam/inference.py:79-80 | the loop ends after ndetections rounds or exactly at its break: no row alive (NumPy) or the index reaching the live count (torch, AI/Model/inference.py:140-142) |
| NmsCore.RunNmsRounds | octoprint_pinozcam/inference.py:76-92 | the imperative round loop over a `keep` array computes the RunRounds mask from all-true |
| NmsCore.PadTo | octoprint_pinozcam/inference.py:97-100 | the first `min(n, len)` slots are copied into a zero array of n slots |
| NmsCore.MaskNmsRows | octoprint_pinozcam/inference.py:95-100 | slots from the kept count on are zero; every earlier slot is a kept row in kept order, with the output class column |
| NmsCore.MaskNmsDescending | octoprint_pinozcam/inference.py:95-100 | for sorted input the filled slots have non-increasing scores and every filled slot precedes every zero slot |
| NmsCore.TwinsClearEachOther | octoprint_pinozcam/inference.py:78-92 | two copies of one self-overlapping row with equal keys both end cleared under the NumPy guard |
| NmsCore.TwinsKeepFirst | AI/Model/inference.py:139-152 | under the index guard two copies of one self-overlapping row with equal keys end with the first kept and the second cleared |
| Decoding.NumClasses | octoprint_pinozcam/inference.py:148 | `channels // num_anchors` is positive and divides the channels exactly for a well-shaped head |
| Decoding.Above | octoprint_pinozcam/inference.py:158 | `np.where(cls >= threshold)`: exactly the positions at or above the threshold, ascending (torch: AI/Model/inference.py:254) |
| Decoding.NoneSelected | octoprint_pinozcam/inference.py:158-160 | with no score at the threshold the selection is empty |
| Decoding.AboveNone | octoprint_pinozcam/inference.py:158-160 | with no score at the threshold `keep` is empty |
| Decoding.SelectTop | octoprint_pinozcam/inference.py:158-164 | the selection holds min(top_n, passing) distinct passing positions in descending score, and no passing position left out scores above a selected one (torch topk: AI/Model/inference.py:254-263) |
| Decoding.SelectionIsTop | octoprint_pinozcam/inference.py:162-164 | `keep` read through any descending order and cut at top_n is a top selection |
| Decoding.SelectionDescending | octoprint_pinozcam/inference.py:163-164 | the selected positions are distinct and read the scores in non-increasing order |
| Decoding.SelectionCovers | octoprint_pinozcam/inference.py:163 | a passing position cut off by top_n scores no higher than any selected one |
| Decoding.Grid | octoprint_pinozcam/inference.py:174 | adding the grid offset moves an anchor without changing its width or height |
| Decoding.ClassOf | octoprint_pinozcam/inference.py:165 | the float class `(keep / width / height) % num_classes` lies in [0, num_classes) |
| Decoding.BlockCount | octoprint_pinozcam/inference.py:155 | the flattened class head holds num_anchors blocks of classes × height × width |
| Decoding.CellFacts | octoprint_pinozcam/inference.py:167-169 | for an index inside the head the recovered row and anchor are the integer ones, and the anchor is below num_anchors |
| Decoding.CellOf | octoprint_pinozcam/inference.py:165-169 | a flat index's column, row and anchor are k mod W, ⌊k/W⌋ mod H and ⌊k/(C·H·W)⌋, each in range, despite the float divisions (torch: AI/Model/inference.py:264-270) |
| Decoding.YOfIsRow | octoprint_pinozcam/inference.py:168 | `((k / W) % H).astype(int)` on true division equals the integer ⌊k/W⌋ mod H |
| Decoding.AnchorOfIsBlock | octoprint_pinozcam/inference.py:169 | `(k / C / H / W).astype(int)` equals ⌊k/(C·H·W)⌋ |
| Decoding.ClassOfParts | octoprint_pinozcam/inference.py:165 | the float class is the class channel ⌊k/(W·H)⌋ mod C plus a fraction below one, so its floor is that channel |
| Decoding.FlatIndexParts | octoprint_pinozcam/inference.py:165-169 | k = ((a·C + c)·H + y)·W + x with every part in range: the layout the decode assumes |
| Decoding.ConcatFrom | octoprint_pinozcam/inference.py:236-238 | every concatenated row comes from one of the heads (torch: AI/Model/inference.py:331) |
| NumpyInference.DoubleSortedKeys | octoprint_pinozcam/inference.py:70-73 | the NMS class keys are the rounded classes read through the sort order twice (`classes[indices]` after `classes` was already sorted) |
| NumpyInference.Nms | octoprint_pinozcam/inference.py:32-102 | the imperative `_nms`: filter positives, argsort descending, run the rounds, copy the kept rows; the result is NmsResult for the order it sorted by |
| NumpyInference.NmsOutputsFromInputs | octoprint_pinozcam/inference.py:95-100 | every output slot is zero or carries the score and box of a positive input, with an integral class |
| NumpyInference.NmsDescending | octoprint_pinozcam/inference.py:95-100 | the output scores never increase |
| NumpyInference.NmsNoPositives | octoprint_pinozcam/inference.py:58-64 | with no positive score the output is all zero |
| NumpyInference.NmsRounds | octoprint_pinozcam/inference.py:78-92 | a sorted row survives iff it survives every round that ran, and the loop ran ndetections rounds or stopped when no row was alive |
| NumpyInference.TiedTwinsVanish | octoprint_pinozcam/inference.py:78-92 | two identical positive detections clear each other for any IoU threshold below 1 and at least two output slots, whatever order the sort picks: round 1 still runs for the already-cleared copy, so the output is all zero |
| NumpyInference.DecodeSelected | octoprint_pinozcam/inference.py:171-175 | the selected rows decode, or the decode fails when a selected index has no row in `box_head.reshape(-1, 4)` |
| NumpyInference.Decode | octoprint_pinozcam/inference.py:138-181 | `_decode` for one head: a top selection of the scores, then DecodeSelected of it |
| NumpyInference.DecodeFailsExactly | octoprint_pinozcam/inference.py:156 | the decode fails iff a selected index lies past the box head's rows, which cannot happen with one class per anchor |
| NumpyInference.BoxRows | octoprint_pinozcam/inference.py:156 | the reshaped box head has anchors × height × width rows |
| NumpyInference.DecodeRows | octoprint_pinozcam/inference.py:162-175 | a successful decode gives at most top_n rows, with scores at or above the threshold in descending order and each row's class floor equal to its class channel |
| NumpyInference.RowFacts | octoprint_pinozcam/inference.py:162-175 | one decoded row carries the score at its selected position, a class whose floor is the class channel, and a box inside the feature map |
| NumpyInference.RowsPass | octoprint_pinozcam/inference.py:158-175 | every row of a successful decode at 0.05 scores at least 0.05, and a head with no score at 0.05 decodes to no rows |
| NumpyInference.DecodeHeads | octoprint_pinozcam/inference.py:203-218 | the head loop generates anchors once per distinct stride and returns exactly the blocks Collected defines for the selections its sorts made: each head decoded with the anchors of its stride, empty blocks skipped, a failing decode ending the loop in failure |
| NumpyInference.CollectedFails | octoprint_pinozcam/inference.py:156-171 | the collection fails exactly when some head's selection indexes past that head's box rows |
| NumpyInference.CollectedPass | octoprint_pinozcam/inference.py:216-218 | every collected block is non-empty and each of its rows scores at least 0.05 |
| NumpyInference.CollectedQuiet | octoprint_pinozcam/inference.py:216-218 | with no score at 0.05 in any head nothing is collected |
| NumpyInference.NmsOfPassing | octoprint_pinozcam/inference.py:236-241 | NMS(0.5, 6) over rows that each scored at least 0.05 gives six descending slots, each zero or a detection scoring at least 0.05 |
| NumpyInference.Postprocess | octoprint_pinozcam/inference.py:183-243 | the result is NMS(0.5, 6) (NmsResult) over the concatenation of the collected blocks, for a descending sort of their positive rows; it fails exactly when a head's selection indexes past its box rows; six descending detection-or-zero slots, the all-zero early return when nothing reaches 0.05 |
| NumpyInference.NmsStage | octoprint_pinozcam/inference.py:220-241 | nothing collected gives six zero slots; otherwise NMS(0.5, 6) over the concatenated blocks, equal to NmsResult for the descending order it sorted by |
| NumpyInference.ClipBox | octoprint_pinozcam/inference.py:333-337 | every truncated corner is clipped into [0, 639] × [0, 383] |
| NumpyInference.FilledCells | octoprint_pinozcam/inference.py:327-337 | exactly the boxes scoring strictly above the threshold are filled, in order, clipped to the grid |
| NumpyInference.FilledCellsAppend | octoprint_pinozcam/inference.py:327-328 | the score filter distributes over concatenation |
| NumpyInference.NothingFilled | octoprint_pinozcam/inference.py:327-328 | detections at or below the threshold fill nothing |
| NumpyInference.CoverageBound | octoprint_pinozcam/inference.py:339-344 | because `range(y1, y2)` stops before the clipped last row and column, at most 383 × 639 cells can be set, below the 640 × 384 grid |
| NumpyInference.CoverageGrows | octoprint_pinozcam/inference.py:339-344 | more detections never lower the covered cell count |
| NumpyInference.Assess | octoprint_pinozcam/inference.py:324-362 | a zero sensitivity fails; otherwise the percentage is the covered share, the severity is its clamped ratio to the sensitivity (both in range), and the boxes are rescaled to the image |
| NumpyInference.SeverityGrows | octoprint_pinozcam/inference.py:349-352 | adding detections never lowers the severity |
| NumpyInference.QuietImage | octoprint_pinozcam/inference.py:327-352 | with nothing above the threshold the percentage and the severity are zero |
| Raster.CoveredByAny | octoprint_pinozcam/inference.py:339-341 | a bitmap cell ends set exactly when some filled rectangle contains it |
| Raster.Rasterize | octoprint_pinozcam/inference.py:324-344 | filling a fresh bitmap rectangle by rectangle and summing the row counts yields GridCount of the rectangles (torch: AI/Model/inference.py:412-433) |
| Raster.GridBound | octoprint_pinozcam/inference.py:339-344 | rectangles that stop before column xMax and row yMax set at most min(rows, yMax) · xMax cells |
| Raster.EmptyGrid | octoprint_pinozcam/inference.py:324 | the fresh bitmap has no set cell |
| Raster.GridGrows | octoprint_pinozcam/inference.py:339-344 | filling more rectangles never lowers the count |
| Raster.ClipInt | octoprint_pinozcam/inference.py:334-337 | `max(lo, min(v, hi))` lies in [lo, hi], leaves values already inside unchanged, sends values below lo to lo and values above hi to hi |
| Raster.Severity | octoprint_pinozcam/inference.py:352 | `max(0, min(p / s, 1))` is undefined exactly for s = 0 and otherwise lies in [0, 1] (torch: AI/Model/inference.py:439) |
| Raster.SeverityMonotone | octoprint_pinozcam/inference.py:352 | a larger covered share never gives a smaller severity, whatever the sign of the sensitivity |
| Raster.ShareGrows | octoprint_pinozcam/inference.py:349-352 | the same for covered cell counts over one grid |
| Raster.EmptyShare | octoprint_pinozcam/inference.py:324-352 | an empty bitmap gives a zero percentage and a zero severity for any positive sensitivity |
| Raster.SeverityProportional | octoprint_pinozcam/inference.py:352 | below saturation the severity is the covered share divided by the sensitivity |
| Raster.RescaleInside | octoprint_pinozcam/inference.py:355-359 | a box inside the grid lands inside the image, and a zero slot stays zero |
| TorchInference.NonZeroFromInput | AI/Model/inference.py:124-125 | every kept row is an input row with a non-zero score |
| TorchInference.RoundedClass | AI/Model/inference.py:131 | `round(c · 10) / 10` is within 0.05 of the class |
| TorchInference.Nms | AI/Model/inference.py:116-164 | the imperative `_nms`: non-zero filter, descending sort, rounds with the index guard, kept rows copied; the result is NmsResult for its order |
| TorchInference.NmsOutputsFromInputs | AI/Model/inference.py:154-162 | every output slot is zero or an input row with a non-zero score, class included |
| TorchInference.NmsDescending | AI/Model/inference.py:154-162 | the output scores never increase, and filled slots precede zero slots |
| TorchInference.NmsAllZero | AI/Model/inference.py:124-128 | with every score zero the output is all zero |
| TorchInference.NmsRounds | AI/Model/inference.py:139-152 | a sorted row survives iff it survives every round run; the loop stops after ndetections rounds or when the index reaches the live count |
| TorchInference.TiedTwinsKeepOne | AI/Model/inference.py:139-152 | two identical detections keep exactly one copy for any IoU threshold below 1 and at least one slot, whatever order the sort picks: the output is the detection followed by zeros, because round 1 does not run once one row is alive |
| TorchInference.MisalignedKeys | AI/Model/inference.py:131-149 | with unsorted keys, on one box scored 0.5/0.9/0.7 with classes 1/1/2, the class-2 row is suppressed and both class-1 rows survive |
| TorchInference.BakCriterion | AI/Model/inference.py:97-100 | bit j of round i's criterion: j = i, a higher score, a small overlap or another class |
| TorchInference.BakRound | AI/Model/inference.py:88-107 | one compacting round keeps the rows sorted, keeps the first i+1 rows in place and leaves every later row apart from each of those pivots |
| TorchInference.ApartRows | AI/Model/inference.py:97-100 | keeps, in order, exactly the rows that a pivot does not suppress |
| TorchInference.Greedy | AI/Model/inference.py:86-107 | greedy suppression, the reference the round loop is proved against: the first row is kept, the rows it suppresses dropped, and the same goes on over the rest; the kept rows are drawn from the input, top row first |
| TorchInference.GreedyApart | AI/Model/inference.py:97-100 | the rows greedy suppression keeps are pairwise apart (other class or overlap at most nms) |
| TorchInference.GreedyMaximal | AI/Model/inference.py:97-100 | every input row is kept by greedy suppression or overlaps a kept row of its class beyond nms |
| TorchInference.RoundMask | AI/Model/inference.py:97-100 | round i's criterion keeps the first i+1 rows, and a later row iff it is apart from the pivot |
| TorchInference.RoundCompact | AI/Model/inference.py:103-106 | compacting by round i's criterion leaves the first i+1 rows followed by the later rows apart from the pivot |
| TorchInference.Cleared | AI/Model/inference.py:107 | the keep marks are cleared exactly at the positions the criterion drops |
| TorchInference.NoRowsPad | AI/Model/inference.py:77-78 | with no positive row the output is all zero, which is greedy suppression of nothing, padded |
| TorchInference.BakRounds | AI/Model/inference.py:86-107 | the round loop stops after ndetections rounds or once the rows greedy suppression keeps run out, and the rows before its final index are exactly the first greedy rows (Greedy); the rows stay sorted, drawn from the sorted input, top row first |
| TorchInference.NmsBak | AI/Model/inference.py:45-114 | `_nms_bak`: fails only when ndetections is 0 and a row exists (the loop variable is unbound); otherwise the output is greedy suppression (Greedy) of the positive rows sorted descending, cut to ndetections and zero-padded: descending slots of positive input rows, each apart from every earlier one, the top-scoring row first |
| TorchInference.BakOutput | AI/Model/inference.py:109-112 | the rows written out are the greedy rows cut to ndetections and zero-padded; they are descending, positive, pairwise apart and drawn from the input, the top-scoring row first |
| TorchInference.GatherBound | AI/Model/inference.py:271-272 | `box_head.view(A, 4, H, W)[a, c, y, x]` indexes inside the flattened box head |
| TorchInference.Decode | AI/Model/inference.py:207-284 | `_decode`: a top selection of the scores, decoded and written into top_n zero slots |
| TorchInference.DecodeSlots | AI/Model/inference.py:280-282 | the selected rows fill the first slots with scores at the threshold, descending, each class floor the class channel; the rest are zero |
| TorchInference.RowFacts | AI/Model/inference.py:262-282 | one written slot carries the score at its selected position, a non-negative class whose floor is the class channel, and (for a positive stride) a box inside the feature map |
| TorchInference.NmsOfDecoded | AI/Model/inference.py:331-334 | NMS(0.5, 6) over detection-or-zero rows gives six descending detection-or-zero slots |
| TorchInference.DecodedAreDetections | AI/Model/inference.py:254-282 | every slot of a head's output is zero or a detection scoring at least 0.05 |
| TorchInference.Postprocess | AI/Model/inference.py:293-336 | the result is NMS(0.5, 6) (NmsResult) over the concatenation, in head order, of every head's top_n slots decoded with the anchors of its stride, for a descending sort of the non-zero rows: six descending detection-or-zero slots, all zero when no score reaches 0.05 |
| TorchInference.DecodeHeads | AI/Model/inference.py:313-328 | the head loop generates anchors once per distinct stride and returns exactly AllSlots: one block per head, the padded decode of the selection its sort made with the anchors of its stride; every slot is zero or a detection, and all are zero when nothing reaches 0.05 |
| TorchInference.DecodeHead | AI/Model/inference.py:327-328 | one head decoded at 0.05 with top_n 1000: a top selection, decoded and zero-padded to 1000 slots, each zero or a detection, all zero when no score reaches 0.05 |
| TorchInference.HeadSlots | AI/Model/inference.py:254-282 | each head contributes 1000 detection-or-zero slots, all zero when nothing passes |
| TorchInference.NmsOfHeads | AI/Model/inference.py:331-334 | NMS over the concatenated heads yields six descending detection-or-zero slots, all zero for quiet heads |
| TorchInference.ClipBox | AI/Model/inference.py:421-427 | x1 is clipped to [0, 287], y1 to [0, 479], x2 to [0, 288], y2 to [0, 480]: the grid is transposed and the upper corners are clipped one further |
| TorchInference.FilledCells | AI/Model/inference.py:416-427 | exactly the detections above the threshold with a label strictly between 0.5 and 1.5 are filled, and they fit the 480 × 288 bitmap |
| TorchInference.FilledCellsAppend | AI/Model/inference.py:416-417 | the filter distributes over concatenation |
| TorchInference.NothingFilled | AI/Model/inference.py:416-417 | detections that fail the filter fill nothing |
| TorchInference.CoverageBound | AI/Model/inference.py:412-433 | at most 480 × 288 cells are set, so the percentage is at most 1 |
| TorchInference.FarRightFillsLastColumn | AI/Model/inference.py:424-430 | a box starting at or right of x = 288 is clipped to x1 = 287, x2 = 288 and still fills column 287 |
| TorchInference.CoverageGrows | AI/Model/inference.py:428-433 | more detections never lower the covered count |
| TorchInference.Assess | AI/Model/inference.py:412-447 | a zero sensitivity fails; otherwise the percentage is the covered share (at most 1), the severity its clamped ratio, and the boxes rescaled |
| TorchInference.SeverityGrows | AI/Model/inference.py:436-439 | adding detections never lowers the severity |
| TorchInference.QuietImage | AI/Model/inference.py:416-439 | with nothing passing the filter the percentage and the severity are zero |
| Threads.Pow2Grows | AI/Model/inference.py:338-342 | a larger exponent gives at least twice the power |
| Threads.Log2Floor | AI/Model/inference.py:340 | `floor(log2(n))` is the k with 2^k ≤ n < 2^(k+1) |
| Threads.LargestPowerOfTwo | AI/Model/server.py:73-75 | fails exactly for n ≤ 0 (`log2` domain error); otherwise a power of two p with p ≤ n < 2p (also AI/Model/inference.py:338-342 and octoprint_pinozcam/__init__.py:289-292) |
| Threads.PowerOfTwoUnique | AI/Model/server.py:73-75 | only one power of two p has p ≤ n < 2p |
| Threads.LargestIsLargest | AI/Model/server.py:73-75 | no power of two at or below n exceeds the result |
| Threads.PowerOfTwoFixed | AI/Model/server.py:73-75 | a power of two maps to itself |
| Threads.ThreadCount | octoprint_pinozcam/__init__.py:294-298 | the thread count is a power of two, at least 1, with p ≤ candidate < 2p (also AI/Model/server.py:88-90, AI/Model/inference.py:370-374) |
| Threads.ThreadsWithinCores | octoprint_pinozcam/__init__.py:294-298 | with at least one core and speed control at most 1, no more threads than cores |
| ResultStore.LookupIn | AI/Model/server.py:32-45 | `get_result` answers None iff the uuid is absent, "" iff its entry is the placeholder, and otherwise the stored response |
| ResultStore.AfterLookup | AI/Model/server.py:42-45 | a delivered entry is popped; anything else leaves the store unchanged |
| ResultStore.ProcessingManager.constructor | AI/Model/server.py:19-23 | idle, with no results (also AI/Model/server_quart.py:19-23) |
| ResultStore.ProcessingManager.SubmitResult | AI/Model/server.py:25-30 | stores the placeholder or the result under the uuid, stamped now, replacing any earlier entry (also AI/Model/server_quart.py:25-30) |
| ResultStore.ProcessingManager.GetResult | AI/Model/server.py:32-45 | answers LookupIn and leaves AfterLookup behind; busy unchanged (also AI/Model/server_quart.py:32-40) |
| ResultStore.ProcessingManager.SetBusy | AI/Model/server.py:51-53 | sets the flag, results unchanged (also AI/Model/server_quart.py:42-44) |
| ResultStore.ProcessingManager.GetBusy | AI/Model/server.py:55-57 | reads the flag (also AI/Model/server_quart.py:46-48) |
| ResultStore.ProcessingManager.CleanupResults | AI/Model/server.py:59-65 | one sweep pops every entry more than 300 s old and keeps the rest unchanged (also AI/Model/server_quart.py:50-56) |
| ResultStore.PlaceholderPending | AI/Model/server.py:39-41 | a stored placeholder answers "not ready" and survives the poll |
| ResultStore.DeliveredOnce | AI/Model/server.py:42-45 | a stored response is delivered once, the next poll finds nothing, and other uuids are untouched |
| ResultStore.LookupIsolated | AI/Model/server.py:32-45 | polling one uuid never changes the answer for another |
| ResultStore.SweepThenLookup | AI/Model/server.py:59-65 | after a sweep an expired uuid is unknown and every other uuid answers as before |
| ResultStore.SweepsCompose | AI/Model/server.py:61-65 | sweeping at an earlier and then a later time equals sweeping once at the later time, so a sweep is idempotent |
| Server.FieldValue | AI/Model/server.py:121-123 | `float(form.get(name, default))`: the default when absent, a failure exactly for text that is not a number |
| Server.Admit | AI/Model/server.py:112-132 | busy gives 503 first and a missing image 400; admission happens exactly when idle with an image that decodes, three numeric fields and a uuid (also AI/Model/server_quart.py:100-121) |
| Server.SubmitRequest | AI/Model/server.py:112-132 | a rejection answers Admit's reply and changes nothing; an admission sets busy, answers "processing started" and hands the job on |
| Server.Work | AI/Model/server.py:77-109 | the worker yields a response stamped now exactly when the image opens and the inference succeeds on ThreadCount(cores, speed) threads |
| Server.ProcessImage | AI/Model/server.py:77-109 | the placeholder is written first; on success the response replaces it and busy is cleared; on failure the placeholder stays and busy is untouched (also AI/Model/server_quart.py:68-98) |
| Server.Answer | AI/Model/server.py:141-148 | unknown gives 404, placeholder gives 202, a response its body |
| Server.RequestResult | AI/Model/server.py:135-148 | 400 without a uuid, otherwise the three-way lookup with its pop; busy unchanged (also AI/Model/server_quart.py:123-135) |
| Server.FailureBlocksServer | AI/Model/server.py:83-98 | after a failed worker, busy stays set, so every later submission gets 503, and its uuid stays "not ready" |
| Server.PollAfterSuccess | AI/Model/server.py:77-148 | after a successful worker the first poll returns the response and the second gets 404 |
| FailureWindow.ReadSeverity | AI/Model/client.py:38-45 | a number is read directly, a non-empty list by its first element; an empty list or anything else is an unexpected format |
| FailureWindow.ConsoleColour | AI/Model/client.py:48-56 | red above 0.66, yellow for 0.33 ≤ s ≤ 0.66, green below 0.33 (also AI/Model/backend.py:71-79, AI/Model/monitor.py:45-53) |
| FailureWindow.PruneMembers | AI/Model/client.py:60 | exactly the timestamps at most count_time old survive |
| FailureWindow.PruneAppend | AI/Model/client.py:60 | pruning distributes over concatenation, so the order is kept |
| FailureWindow.PruneKeepsFresh | AI/Model/client.py:60 | a window that is all fresh is left alone |
| FailureWindow.PruneLater | AI/Model/client.py:59-60 | pruning at one time and again later is pruning once at the later time |
| FailureWindow.PruneList | AI/Model/client.py:60 | the comprehension computed element by element equals Prune |
| FailureWindow.FailureCounter.constructor | AI/Model/client.py:20-28 | count 0, no timestamps, the configured max_count and count_time |
| FailureWindow.FailureCounter.Observe | AI/Model/client.py:47-65 | a red level appends its time; the window is then pruned, the count becomes its length, every remaining timestamp is fresh, and the result says whether the count exceeds max_count (also AI/Model/backend.py:71-88, AI/Model/monitor.py:45-62) |
| FailureWindow.RedIsCounted | AI/Model/client.py:49-61 | a red result stamped at the pruning time is counted, one above the surviving earlier ones |
| FailureWindow.CountGrowsByAtMostOne | AI/Model/client.py:49-61 | one observation raises the count by at most one over the surviving earlier timestamps |
| Client.HandleNetworkRequest | AI/Model/client.py:106-124 | a transport error gives None; 503 and 404 are handed back; any other failing status gives None; the rest is returned |
| Client.TruthyIsSuccess | AI/Model/client.py:110-118 | a returned response tests true exactly for a non-failing status, so the 503 and 404 responses handed back still read as failures |
| Client.Classify | AI/Model/client.py:209-238 | a falsy reply or "UUID not found" goes back to ready; "Result not ready" keeps waiting; the result is processed exactly when both uuids match and every key is present |
| Client.MismatchIgnored | AI/Model/client.py:220-225 | a result for another client or picture keeps the client waiting |
| Client.PollingClient.constructor | AI/Model/client.py:27-35 | ready, no second request, no picture uuid, a fresh empty failure window |
| Client.PollingClient.ReadyStep | AI/Model/client.py:145-199 | an unavailable server sets second_request; the next available answer only clears it; a picture that opens gets a fresh uuid, and the client waits exactly when the submission answers "processing started" |
| Client.PollingClient.ProcessResponseData | AI/Model/client.py:37-104 | a readable level goes through the window and stops the loop once the count exceeds max_count; an unexpected format changes nothing; a non-numeric first element crashes the loop |
| Client.PollingClient.WaitingStep | AI/Model/client.py:201-238 | acts on Classify: back to ready, keep waiting, or process the severity through the window |
| Backend.BackendStep | AI/Model/backend.py:29-106 | a failed reply or an unexpected severity format stops the loop and leaves the window alone; otherwise the console colour is printed, the level goes through the window, and the loop stops once the count exceeds max_count |
| Monitor.MonitorStep | AI/Model/monitor.py:29-75 | the colour is ConsoleColour, the window is updated as by Observe, and the loop stops once the count exceeds max_count |
| Plugin.RedCountAppend | octoprint_pinozcam/__init__.py:273-278 | appending a result raises the red count by one exactly when it is red |
| Plugin.ExpiredPrefix | octoprint_pinozcam/__init__.py:235 | the expiry loop pops exactly the leading results more than count_time old, stopping at the first fresh one |
| Plugin.ExpiryLeavesFresh | octoprint_pinozcam/__init__.py:234-239 | results are stored in time order, so after expiry no stored result is expired |
| Plugin.Pushed | octoprint_pinozcam/__init__.py:49 | appending to `deque(maxlen=100)` adds the result at the end and drops the oldest only when full |
| Plugin.PushedRedCount | octoprint_pinozcam/__init__.py:49 | a push onto the bounded deque adds the new result's red mark and removes the red mark of the result a full deque drops (the append at octoprint_pinozcam/__init__.py:274) |
| Plugin.FullDequeForgetsDrop | octoprint_pinozcam/__init__.py:49 | a red result pushed out of a full deque is never taken off the count, so the count can exceed the red results stored |
| Plugin.Command | octoprint_pinozcam/__init__.py:121-137 | action 1 pauses, action 2 cancels, anything else leaves the print alone |
| Plugin.DrawColour | octoprint_pinozcam/__init__.py:315-322 | red above 0.66, yellow above 0.33 up to 0.66, green at or below 0.33 |
| Plugin.ColourBoundaryDiffers | octoprint_pinozcam/__init__.py:320 | at exactly 0.33 the plugin draws green while the scripts print yellow |
| Plugin.DrawnBoxes | octoprint_pinozcam/__init__.py:324-328 | the box loop draws the leading run of scores at or above the threshold and stops at the first score below it |
| Plugin.PinozCam.constructor | octoprint_pinozcam/__init__.py:42-54 | count 0, an empty deque, not running, one thread, with the settings of octoprint_pinozcam/__init__.py:139-155 |
| Plugin.PinozCam.OnEvent | octoprint_pinozcam/__init__.py:191-211 | a print start clears the count and the results; a start or resume starts the thread unless one is alive; done, failed, cancelled or paused clears ai_running |
| Plugin.PinozCam.ExpireOld | octoprint_pinozcam/__init__.py:234-239 | pops the expired prefix and takes one off the count per red result popped, keeping count = red stored + red dropped by the full deque |
| Plugin.PinozCam.PerformAction | octoprint_pinozcam/__init__.py:121-137 | issues Command(action) |
| Plugin.PinozCam.Record | octoprint_pinozcam/__init__.py:261-287 | a result above 0.33 is pushed; one above 0.66 also raises the count, and the action runs exactly then and only once the count reaches max_count |
| Plugin.PinozCam.ProcessIteration | octoprint_pinozcam/__init__.py:228-287 | while printing: expire, then a failed fetch or a failed inference skips the round, an unreadable picture ends the thread, and a result is recorded as by Record |
| Plugin.PinozCam.ThreadCalculation | octoprint_pinozcam/__init__.py:294-298 | num_threads becomes ThreadCount(cores, cpu_speed_control), a power of two of at least 1 |
| Plugin.PinozCam.Check | octoprint_pinozcam/__init__.py:400-404 | serves the newest result image exactly when one is stored and it is at most 5 s old |
| Plugin.StoredIsServed | octoprint_pinozcam/__init__.py:261-279 | a result just stored is what `check` serves for the next five seconds |

## Left out

- Floating point: IEEE rounding, float16 and float32 conversions, NaN and infinity are not modelled. A zero IoU union is treated like the float comparison on NaN or infinity (the test fails).
- Transcendental values: `exp`, `sqrt` and `2 ** (i/3)` are parameters, so no statement depends on their values.
- Batches: only batch size one is modelled, the only size any caller uses.
- Rotated boxes: the `rotated` branch of `_decode` and `_generate_anchors` (and its angles argument) is not modelled; no caller enables it.
- Tie order of the unstable sorts: statements hold for every descending order, so which of several equal scores comes first is left open.
- I/O is not modelled: the ONNX session, image loading and JPEG encoding, preprocessing, base64, HTTP requests, Telegram messages, logging and printing. Each appears only as a parameter of the step that uses it, or not at all.
- Concurrency is not modelled: the server's lock and thread, the asyncio task of the Quart server, the plugin's lock and daemon thread. Each operation is modelled as one atomic step, and the loops are modelled one iteration at a time.
- Sleeps, and the `while` loops around the modelled iterations: the cleanup loop, the client, backend and monitor loops, and `process_ai_image`.
- `stop_cleanup` and its stop event are not modelled.
- Time: each step takes the clock readings it needs as parameters. The two `time.time()` calls of one iteration are separate parameters where they can differ (the stored stamp and the pruning time).
- Plugin.PinozCam.OnEvent: whether the previous thread is still alive is a parameter.
- The plugin's settings save, templates, assets, camera and CPU-temperature queries and Telegram sending are not modelled. The settings are set once by the constructor.
- The text drawn beside each box is not modelled: only which boxes the loop draws and the colour.
- Client.PollingClient.ReadyStep: the availability endpoint is a parameter; its server side is not part of this model. The streaming branch is dead code (`use_streaming = False`) and is not modelled.
- Client.PollingClient.ProcessResponseData: drawing the boxes on the input image, and the sleep that follows, are not modelled.
- The client and the servers are modelled separately, each against its own side of the exchange. The client posts `client_uuid` and `picture_uuid` but no `uuid` field, and expects `message`, `result` and the echoed uuids in a result reply. The servers modelled here read `uuid` and reply with the bare response dictionary. The server the client was written against is not part of this model.
- Server.Work: its `infer` parameter has the four-argument signature of the plugin's `image_inference` (octoprint_pinozcam/inference.py:265), which takes a thread count. The `image_inference` beside the server (AI/Model/inference.py:344) takes three arguments. The server imports that one and passes four (AI/Model/server.py:93-94, AI/Model/server_quart.py:82-83), so as written every call raises a TypeError. The worker catches it (AI/Model/server.py:95-97) and returns with busy still set; Server.FailureBlocksServer states what follows from that. The model does not tie `infer` to TorchInference.
