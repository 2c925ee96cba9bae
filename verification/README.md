# RetinaNet target encoder in Dafny

A model of `DataEncoder` from a PyTorch RetinaNet implementation: the object
that, for one training image, turns ground-truth boxes and labels into the
per-anchor regression and classification targets the network is trained
against. It has three parts:

- **Anchor size table** (`_get_anchor_wh`, module `AnchorTable`): for every
  base area (one per pyramid level p3 .. p7), aspect ratio and scale ratio, in
  that loop order, one anchor (w, h) with h = sqrt(s / ar) and w = ar * h, both
  scaled by the scale ratio, viewed as one row of 9 entries per level.
- **Anchor layout** (`_get_anchor_boxes`, module `AnchorLayout`): level i has
  an fm x fm grid with fm = int(n / 2^(i+3) + 0.5) for input size n. Its cell
  centres are input_size // fm pixels apart and offset by half a cell. Every
  cell carries the level's 9 table entries, slot varying fastest, and the
  levels are concatenated in order.
- **Target assignment** (`encode`, module `TargetEncoder`): the ground truth
  is converted to centre form and scaled to pixels. Every anchor is matched
  to the box of highest IoU, the first one on a tie. Its regression target is
  the centre offset in anchor sizes and the log of the size ratios. Its class
  target is 1 + label, overwritten with 0 below IoU 0.4 and then with -1
  strictly between 0.4 and 0.5.

Module `Boxes` holds the two box forms, their conversions and the cell grid.
Module `Arith` holds the integer facts the index arithmetic rests on.

Square root, power, logarithm, exponential and IoU are function-valued
parameters. Each contract states what it needs of them, at the points where
it uses them.

An input size whose coarsest grid is empty makes the source divide by zero in
`input_size // fm_size`. The model returns `Err(EmptyFeatureMap(level))` for
the first such level. `AnchorLayout.AnchorBoxesDefined` shows this happens
exactly when n < 2^(levels+1), i.e. n < 64 for five levels.

## Model

| member | source | states |
|---|---|---|
| AnchorTable.GetAnchorWH | encoder.py:15-31 | one row per area with #ratios * #scales entries; slot p of row i is the entry of area i, aspect ratio p / #scales, scale ratio p % #scales |
| AnchorTable.SlotOfIteration | encoder.py:21-31 | loop iteration (j, k) of area i lands in slot j * #scales + k of row i, inside the row |
| AnchorTable.AnchorSize | encoder.py:24-28 | an entry is positive when the square root it uses is positive |
| AnchorTable.AnchorSizeShape | encoder.py:23-29 | with a true square root, every entry has w / h equal to its aspect ratio and w * h equal to area * scale^2 |
| AnchorTable.DefaultConfig | encoder.py:10-12 | 5 areas (32 * 2^i)^2, aspect ratios 2^j / 2, scale ratios 1 and pow(2, k/3); DefaultConfigShape adds well-formedness |
| AnchorTable.DefaultConfigShape | encoder.py:10-12 | the default configuration is well formed, with 5 levels of 9 slots, 45 entries |
| TargetEncoder.NewDataEncoder | encoder.py:9-13 | the constructed encoder has the default configuration and 5 rows of 9 positive entries; entry p of level i comes from aspect ratio p / 3 and scale ratio p % 3 |
| AnchorLayout.FeatureMapSize | encoder.py:44 | int(n / 2^(i+3) + 0.5) over the reals equals the integer round-half-up (n + 2^(i+2)) div 2^(i+3) |
| AnchorLayout.RoundHalfUp | encoder.py:44 | the real floor of n / 2^(i+3) + 0.5 agrees with integer division |
| AnchorLayout.FeatureMapNonEmpty | encoder.py:44-50 | a level's grid is non-empty exactly when n >= 2^(i+2) |
| AnchorLayout.FeatureMapShrinks | encoder.py:44 | a non-empty grid at a coarser level implies non-empty grids at all finer ones |
| AnchorLayout.StrideFits | encoder.py:50 | for a non-empty grid, fm <= n, the stride n // fm is at least 1 and fm * stride <= n |
| AnchorLayout.LevelGrid | encoder.py:49-50 | a level's grid has side FeatureMapSize, stride at least 1, and fits in the input |
| AnchorLayout.GridAnchorInside | encoder.py:51-52 | every anchor centre of a grid lies strictly between 0 and fm * stride |
| AnchorLayout.AnchorInside | encoder.py:51-52 | every anchor centre of a level lies strictly between 0 and the input size |
| AnchorLayout.Expand | encoder.py:52-55 | one box per (centre, size) pair, #centres * #sizes in all; ExpandIndex gives box k |
| AnchorLayout.GridBoxes | encoder.py:51-55 | fm * fm * #sizes boxes for a grid; GridBoxesIndex gives box k |
| AnchorLayout.LevelBoxes | encoder.py:48-55 | LevelCount(n, i) boxes for level i; LevelBoxesIndex gives box k |
| AnchorLayout.ExpandIndex | encoder.py:52-55 | box k of a broadcast of centres against sizes pairs centre k / #sizes with size k % #sizes |
| AnchorLayout.CellCenterAt | encoder.py:51 | centre c of a grid is the centre of cell (c % fm, c / fm), x varying fastest |
| AnchorLayout.GridBoxesIndex | encoder.py:51-55 | the broadcast grid is, anchor by anchor, the written-out anchor: cell k / 9, size slot k % 9 |
| AnchorLayout.LevelBoxesIndex | encoder.py:48-55 | the same for level i of input size n |
| AnchorLayout.AnchorBoxes | encoder.py:33-56 | succeeds exactly when every level's grid is non-empty, with 9 * sum of fm^2 anchors; otherwise fails at the first empty level |
| AnchorLayout.AnchorsUpTo | encoder.py:47-56 | the same for the first `levels` levels, concatenated in order |
| AnchorLayout.AnchorCountGrows | encoder.py:47-56 | level i occupies positions AnchorCount(i) .. AnchorCount(i+1), inside the full list |
| AnchorLayout.AnchorIndex | encoder.py:47-56 | anchor k of level i sits at position AnchorCount(i) + k of the full list and is the written-out anchor of that level |
| AnchorLayout.Locate | encoder.py:47-56 | every position of the full list is AnchorCount(i) + k for a level i and an index k within that level |
| AnchorLayout.LocateUnique | encoder.py:47-56 | that (level, index) pair is unique |
| AnchorLayout.AnchorOfIndex | encoder.py:47-56 | every anchor of a successful layout is its level's written-out anchor, lies inside the input, and has a size from its own level's row |
| AnchorLayout.AnchorBoxesDefined | encoder.py:44-50 | the layout exists exactly when n >= 2^(levels+1) |
| AnchorLayout.Layout600 | encoder.py:44-56 | for n = 600: sides 75, 38, 19, 9, 5, strides 8, 15, 31, 66, 120, and 67824 anchors |
| Boxes.ToCenter | encoder.py:71 | the centre-form box converts back to the same corners |
| Boxes.ToCorners | encoder.py:71 | the corners are w and h apart and centred on (cx, cy); ConversionRoundTrip gives both round trips |
| Boxes.ConversionRoundTrip | encoder.py:71 | corner-to-centre and centre-to-corner conversion undo each other, both ways |
| Boxes.Scale | encoder.py:72 | scaling a centre-form box scales its corners by the same factor |
| TargetEncoder.GroundTruth | encoder.py:71-72 | ground-truth box g in centre form and pixels has as corners the input box's corners times the input size |
| TargetEncoder.GroundTruthPositive | encoder.py:71-72 | a ground-truth box of positive extent has positive width and height in pixels |
| TargetEncoder.ArgMax | encoder.py:75 | the reduction returns the position of the first maximum |
| TargetEncoder.BestMatch | encoder.py:74-75 | an anchor's match is the first maximum of its IoU row |
| TargetEncoder.BestMatchUnique | encoder.py:75 | the first maximum of a row is unique |
| TargetEncoder.ClassTarget | encoder.py:81-85 | below 0.4 gives 0; strictly between 0.4 and 0.5 gives -1; exactly 0.4 or at least 0.5 gives 1 + label |
| TargetEncoder.ClassTargetRanges | encoder.py:81-85 | for a non-negative label, each class value holds exactly in its IoU range |
| TargetEncoder.ClassTargetBoundaries | encoder.py:83-85 | IoU 0.4 keeps the foreground class, 0.45 is ignored, 0.5 is foreground, 0.39 is background |
| TargetEncoder.LocTarget | encoder.py:78-80 | the centre offset times the anchor size, added to the anchor centre, gives back the matched box's centre; DecodeLocTarget gives the full inverse |
| TargetEncoder.DecodeLocTarget | encoder.py:78-80 | decoding a regression target against its anchor gives back the matched box, when exp undoes log |
| TargetEncoder.AnchorsPositive | encoder.py:53 | every anchor of a constructed encoder has a positive size |
| TargetEncoder.AnchorTargets | encoder.py:74-85 | an anchor's targets are those of a first best-matching ground-truth box |
| TargetEncoder.MatchTargets | encoder.py:74-85 | targets for every anchor, each from its first best-matching box |
| TargetEncoder.Encode | encoder.py:58-86 | fails exactly when the layout fails, with the same error; otherwise both target lists have one entry per anchor, each from the anchor's first best match |
| TargetEncoder.ClassTargetValues | encoder.py:81-85 | every class target is -1, 0 or 1 + one of the labels |
| TargetEncoder.EncodedAtMatch | encoder.py:74-85 | at the anchor's best match, its IoU is at least every other box's, the targets are that box's, and the class target tells the IoU range |
| TargetEncoder.EncodedRoundTrip | encoder.py:76-80 | decoding an anchor's regression target gives back its matched box |
| TargetEncoder.EncodeDecodeRoundTrip | encoder.py:70-80 | encode then decode gives back the matched input box, in corner form, scaled to pixels |

## Left out

- `utils.py` is not part of this model. Three of its functions are stood in for by these conventions:
  - `meshgrid(fm, swap_dims=True)` becomes `Boxes.Meshgrid`: row-major cells with x varying fastest.
  - `change_box_order` becomes `Boxes.ToCenter` and `Boxes.ToCorners`: the usual corner/centre conversion, w = xmax - xmin and cx = (xmin + xmax) / 2, with no +1 pixel.
  - `box_iou` becomes the parameter `iou`.
- Floating point: tensors are float32 in the source, while the model computes over exact reals. `sqrt`, `pow`, `log` and `exp` are parameters. A contract that needs one of them names the property it needs at the points it uses it, e.g. `exp(log(x)) == x`.
- Tensor plumbing is not modelled as such; sequences with explicit index arithmetic stand in. The flat list of `_get_anchor_wh` and its `view(num_fms, -1, 2)` are built directly as one row per area. The `view`, `expand` and `cat` of the layout are `AnchorLayout.Expand` and sequence concatenation.
- `AnchorTable.GetAnchorWH` requires a well-formed configuration: non-empty lists of positive values. The source builds only the default one, which `AnchorTable.DefaultConfigShape` shows to be well formed.
- The layout fixes 9 anchors per cell, as the source's `view(1,1,9,2)` does. Tables with another row width are outside `AnchorLayout.LevelTable`.
- `TargetEncoder.Encode` requires at least one ground-truth box and one label per box. In the source, the reduction over an empty IoU row raises an error.
- The input size is a natural number. Negative sizes are not modelled.
- `TargetEncoder.ArgMax`: the model takes the first maximum on a tie. Current PyTorch documents this for `max(dim)`; the early releases this code was written against did not promise it.
- `TargetEncoder.ClassTarget` follows the code: an IoU of exactly 0.4 keeps the foreground class. The comment on encoder.py:84 calls the ignore range "[0.4,0.5]", which would send 0.4 to -1; the code's strict comparison `max_ious>0.4` does not.
- The demo drivers `test` and `test2` (encoder.py:89-121) are not modelled. They are annotation parsing and printing.
