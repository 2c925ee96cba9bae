/** The target encoder (DataEncoder.__init__ and DataEncoder.encode).

    The encoder holds its configuration and the anchor table built once
    from it.  For one image it lays out the anchors for the input size,
    converts the ground-truth boxes to centre form in input pixels, matches
    every anchor to the ground-truth box of highest IoU (first one on a
    tie), and produces per anchor a regression target (centre offset in
    anchor sizes, log of the size ratio) and a class target: 1 + label,
    overwritten with 0 below IoU 0.4 and then with -1 strictly between 0.4
    and 0.5.

    IoU, the logarithm and its inverse are function parameters. */
module TargetEncoder {
  import opened Arith
  import opened Boxes
  import opened AnchorTable
  import opened AnchorLayout

  /** The encoder object: its configuration and the anchor table computed
      from it at construction. */
  datatype DataEncoder = DataEncoder(config: Config, anchorWH: seq<seq<Size>>)

  /** Regression target of one anchor: centre offset in anchor widths and
      heights, then log of the width and height ratios. */
  datatype Loc = Loc(dx: real, dy: real, dw: real, dh: real)

  /** The two outputs of encode, one entry per anchor. */
  datatype Targets = Targets(loc: seq<Loc>, cls: seq<int>)

  /** Every entry of the table has a positive width and height. */
  predicate PositiveTable(table: seq<seq<Size>>)
  {
    forall i, p :: 0 <= i < |table| && 0 <= p < |table[i]| ==> table[i][p].w > 0.0 && table[i][p].h > 0.0
  }

  /** A constructed encoder: a well-formed configuration and a table of one
      row per area, AnchorsPerCell positive entries per row. */
  predicate Valid(e: DataEncoder)
  {
    && WellFormed(e.config)
    && |e.anchorWH| == |e.config.areas|
    && LevelTable(e.anchorWH)
    && PositiveTable(e.anchorWH)
  }

  /** The constructor: the default configuration and its anchor table.
      With a square root that is positive on positive numbers, the table
      has 5 levels of 9 positive entries, entry p of level i coming from
      aspect ratio p / 3 and scale ratio p % 3. */
  method NewDataEncoder(sqrt: real -> real, pow: (real, real) -> real) returns (e: DataEncoder)
    requires forall x :: x > 0.0 ==> sqrt(x) > 0.0
    requires pow(2.0, 1.0 / 3.0) > 0.0 && pow(2.0, 2.0 / 3.0) > 0.0
    ensures Valid(e)
    ensures e.config == DefaultConfig(pow)
    ensures |e.anchorWH| == 5
    ensures forall i, p :: 0 <= i < 5 && 0 <= p < 9 ==>
              e.anchorWH[i][p] == AnchorSize(e.config, sqrt, i, p / 3, p % 3)
  {
    var c := DefaultConfig(pow);
    DefaultConfigShape(pow);
    var table: seq<seq<Size>> := GetAnchorWH(c, sqrt);
    forall i, p | 0 <= i < |table| && 0 <= p < |table[i]|
      ensures table[i][p].w > 0.0 && table[i][p].h > 0.0
    {
      assert c.areas[i] / c.aspectRatios[p / 3] > 0.0;
    }
    e := DataEncoder(c, table);
  }

  /** The ground truth in centre form and input pixels: box g, converted
      from corner form and multiplied by the input size, is box g of the
      input scaled to pixels. */
  function GroundTruth(boxes: seq<Corners>, n: nat): (gts: seq<Box>)
    ensures |gts| == |boxes|
    ensures forall g :: 0 <= g < |gts| ==> ToCorners(gts[g]) == ScaleCorners(boxes[g], n as real)
  {
    seq(|boxes|, g requires 0 <= g < |boxes| => Scale(ToCenter(boxes[g]), n as real))
  }

  /** One row of the IoU matrix: the anchor against every ground-truth box. */
  function IouRow(anchor: Box, gts: seq<Box>, iou: (Box, Box) -> real): (row: seq<real>)
    ensures |row| == |gts|
  {
    seq(|gts|, g requires 0 <= g < |gts| => iou(anchor, gts[g]))
  }

  /** g is the position of the first maximum of row. */
  predicate IsBestMatch(row: seq<real>, g: nat)
  {
    && g < |row|
    && (forall j :: 0 <= j < |row| ==> row[j] <= row[g])
    && (forall j :: 0 <= j < g ==> row[j] < row[g])
  }

  /** The best match of a row is unique. */
  lemma BestMatchUnique(row: seq<real>, g: nat, g': nat)
    requires IsBestMatch(row, g) && IsBestMatch(row, g')
    ensures g == g'
  {
    assert row[g] == row[g'];
  }

  /** The reduction `max(1)`: the position of the first maximum. */
  function ArgMax(xs: seq<real>): (k: nat)
    requires |xs| >= 1
    ensures IsBestMatch(xs, k)
  {
    if |xs| == 1 then 0
    else
      var k := ArgMax(xs[..|xs| - 1]);
      if xs[|xs| - 1] > xs[k] then |xs| - 1 else k
  }

  /** The class target of an anchor whose best IoU is maxIou with a box
      labelled labelId: first 1 + labelId, then 0 where maxIou < 0.4, then -1
      where 0.4 < maxIou < 0.5.  An IoU of exactly 0.4 meets neither
      overwrite and keeps the foreground class. */
  function ClassTarget(maxIou: real, labelId: int): (c: int)
    ensures maxIou < 0.4 ==> c == 0
    ensures 0.4 < maxIou < 0.5 ==> c == -1
    ensures maxIou == 0.4 || maxIou >= 0.5 ==> c == 1 + labelId
  {
    var foreground := 1 + labelId;
    var afterBackground := if maxIou < 0.4 then 0 else foreground;
    var afterIgnore := if 0.4 < maxIou && maxIou < 0.5 then -1 else afterBackground;
    afterIgnore
  }

  /** With a non-negative labelId the class target tells the three IoU
      ranges apart: 0 exactly below 0.4, -1 exactly strictly between 0.4
      and 0.5, and 1 + labelId exactly at 0.4 and from 0.5 on. */
  lemma ClassTargetRanges(maxIou: real, labelId: int)
    requires labelId >= 0
    ensures ClassTarget(maxIou, labelId) == 0 <==> maxIou < 0.4
    ensures ClassTarget(maxIou, labelId) == -1 <==> 0.4 < maxIou < 0.5
    ensures ClassTarget(maxIou, labelId) == 1 + labelId <==> maxIou == 0.4 || maxIou >= 0.5
    ensures ClassTarget(maxIou, labelId) >= 1 <==> maxIou == 0.4 || maxIou >= 0.5
  {
  }

  /** The boundary values: 0.4 keeps the foreground class, 0.45 is ignored,
      0.5 is foreground again. */
  lemma ClassTargetBoundaries(labelId: int)
    ensures ClassTarget(0.4, labelId) == 1 + labelId
    ensures ClassTarget(0.45, labelId) == -1
    ensures ClassTarget(0.5, labelId) == 1 + labelId
    ensures ClassTarget(0.39, labelId) == 0
  {
  }

  /** The regression target of an anchor for its matched box, both in
      centre form: centre offset divided by the anchor size, and the log of
      the size ratio. */
  function LocTarget(g: Box, a: Box, log: real -> real): (l: Loc)
    requires a.w != 0.0 && a.h != 0.0
    ensures l.dx * a.w + a.cx == g.cx && l.dy * a.h + a.cy == g.cy
  {
    Loc((g.cx - a.cx) / a.w, (g.cy - a.cy) / a.h, log(g.w / a.w), log(g.h / a.h))
  }

  /** The inverse of LocTarget used at inference time:
      box_xy = loc_xy * anchor_wh + anchor_xy, box_wh = exp(loc_wh) * anchor_wh. */
  function Decode(l: Loc, a: Box, exp: real -> real): Box
  {
    Box(l.dx * a.w + a.cx, l.dy * a.h + a.cy, exp(l.dw) * a.w, exp(l.dh) * a.h)
  }

  /** Decoding the regression target against its own anchor gives back the
      matched box, when exp undoes log at the two size ratios. */
  lemma DecodeLocTarget(g: Box, a: Box, log: real -> real, exp: real -> real)
    requires a.w > 0.0 && a.h > 0.0 && g.w > 0.0 && g.h > 0.0
    requires exp(log(g.w / a.w)) == g.w / a.w && exp(log(g.h / a.h)) == g.h / a.h
    ensures Decode(LocTarget(g, a, log), a, exp) == g
  {
    var l := LocTarget(g, a, log);
    assert l.dx * a.w == g.cx - a.cx;
    assert l.dy * a.h == g.cy - a.cy;
    assert (g.w / a.w) * a.w == g.w;
    assert (g.h / a.h) * a.h == g.h;
  }

  /** Every anchor of a constructed encoder has a positive size. */
  lemma AnchorsPositive(e: DataEncoder, n: nat)
    requires Valid(e) && AnchorBoxes(e.anchorWH, n).Ok?
    ensures forall a :: 0 <= a < |AnchorBoxes(e.anchorWH, n).value| ==>
              AnchorBoxes(e.anchorWH, n).value[a].w > 0.0 && AnchorBoxes(e.anchorWH, n).value[a].h > 0.0
  {
    var anchors := AnchorBoxes(e.anchorWH, n).value;
    forall a | 0 <= a < |anchors|
      ensures anchors[a].w > 0.0 && anchors[a].h > 0.0
    {
      AnchorOfIndex(e.anchorWH, n, a);
    }
  }

  /** What encode promises of its result: one regression and one class
      target per anchor, and for each anchor a ground-truth box of highest
      IoU (the first such box) from which both targets are computed. */
  ghost predicate EncodedAs(anchors: seq<Box>, gts: seq<Box>, labels: seq<int>,
                            iou: (Box, Box) -> real, log: real -> real, t: Targets)
    requires |labels| == |gts|
  {
    && |t.loc| == |anchors|
    && |t.cls| == |anchors|
    && forall a :: 0 <= a < |anchors| ==> MatchedTargets(anchors[a], gts, labels, iou, log, t.loc[a], t.cls[a])
  }

  /** l and c are the targets of a positive anchor for a ground-truth box
      of highest IoU (the first such box). */
  ghost predicate MatchedTargets(anchor: Box, gts: seq<Box>, labels: seq<int>,
                                 iou: (Box, Box) -> real, log: real -> real, l: Loc, c: int)
    requires |labels| == |gts|
  {
    && anchor.w > 0.0 && anchor.h > 0.0
    && exists g: nat :: IsBestMatch(IouRow(anchor, gts, iou), g)
         && l == LocTarget(gts[g], anchor, log)
         && c == ClassTarget(iou(anchor, gts[g]), labels[g])
  }

  /** encode: fails exactly when the anchor layout does (some level of the
      input size has an empty grid) and otherwise returns targets aligned
      with the anchors, each computed from the anchor's best match. */
  function Encode(e: DataEncoder, boxes: seq<Corners>, labels: seq<int>, n: nat,
                  iou: (Box, Box) -> real, log: real -> real): (r: Result<Targets>)
    requires Valid(e)
    requires |boxes| >= 1 && |boxes| == |labels|
    ensures r.Ok? <==> AnchorBoxes(e.anchorWH, n).Ok?
    ensures r.Err? ==> r.error == AnchorBoxes(e.anchorWH, n).error
    ensures r.Ok? ==> |r.value.loc| == |r.value.cls| == AnchorCount(n, |e.anchorWH|)
    ensures r.Ok? ==> EncodedAs(AnchorBoxes(e.anchorWH, n).value, GroundTruth(boxes, n), labels, iou, log, r.value)
  {
    match AnchorBoxes(e.anchorWH, n)
    case Err(err) => Err(err)
    case Ok(anchors) =>
      AnchorsPositive(e, n);
      Ok(MatchTargets(anchors, GroundTruth(boxes, n), labels, iou, log))
  }

  /** The best match of one anchor: `max(1)` over its row of the IoU
      matrix. */
  function BestMatch(anchor: Box, gts: seq<Box>, iou: (Box, Box) -> real): (g: nat)
    requires |gts| >= 1
    ensures IsBestMatch(IouRow(anchor, gts, iou), g)
  {
    ArgMax(IouRow(anchor, gts, iou))
  }

  /** The targets of positive anchors against a non-empty ground truth: for
      each anchor, the regression and class targets of its best match. */
  function MatchTargets(anchors: seq<Box>, gts: seq<Box>, labels: seq<int>,
                        iou: (Box, Box) -> real, log: real -> real): (t: Targets)
    requires |gts| >= 1 && |labels| == |gts|
    requires forall a :: 0 <= a < |anchors| ==> anchors[a].w > 0.0 && anchors[a].h > 0.0
    ensures EncodedAs(anchors, gts, labels, iou, log, t)
  {
    var pairs := seq(|anchors|, a requires 0 <= a < |anchors| => AnchorTargets(anchors[a], gts, labels, iou, log));
    Targets(seq(|anchors|, a requires 0 <= a < |anchors| => pairs[a].0),
            seq(|anchors|, a requires 0 <= a < |anchors| => pairs[a].1))
  }

  /** The regression and class targets of one positive anchor, from its
      best match. */
  function AnchorTargets(anchor: Box, gts: seq<Box>, labels: seq<int>,
                         iou: (Box, Box) -> real, log: real -> real): (lc: (Loc, int))
    requires |gts| >= 1 && |labels| == |gts|
    requires anchor.w > 0.0 && anchor.h > 0.0
    ensures MatchedTargets(anchor, gts, labels, iou, log, lc.0, lc.1)
  {
    var g := BestMatch(anchor, gts, iou);
    (LocTarget(gts[g], anchor, log), ClassTarget(iou(anchor, gts[g]), labels[g]))
  }

  /** Every class target is -1, 0 or 1 + one of the labels. */
  lemma ClassTargetValues(anchors: seq<Box>, gts: seq<Box>, labels: seq<int>,
                          iou: (Box, Box) -> real, log: real -> real, t: Targets)
    requires |labels| == |gts|
    requires EncodedAs(anchors, gts, labels, iou, log, t)
    ensures forall a :: 0 <= a < |t.cls| ==>
              t.cls[a] == -1 || t.cls[a] == 0 || exists g :: 0 <= g < |labels| && t.cls[a] == 1 + labels[g]
  {
    forall a | 0 <= a < |t.cls|
      ensures t.cls[a] == -1 || t.cls[a] == 0 || exists g :: 0 <= g < |labels| && t.cls[a] == 1 + labels[g]
    {
      assert MatchedTargets(anchors[a], gts, labels, iou, log, t.loc[a], t.cls[a]);
      var g: nat :| IsBestMatch(IouRow(anchors[a], gts, iou), g)
                    && t.loc[a] == LocTarget(gts[g], anchors[a], log)
                    && t.cls[a] == ClassTarget(iou(anchors[a], gts[g]), labels[g]);
    }
  }

  /** Given the best match g of anchor a, the targets of a are those of g,
      and with a non-negative label the class target tells which IoU range
      the anchor's best IoU falls in. */
  lemma EncodedAtMatch(anchors: seq<Box>, gts: seq<Box>, labels: seq<int>,
                       iou: (Box, Box) -> real, log: real -> real, t: Targets, a: nat, g: nat)
    requires |labels| == |gts|
    requires EncodedAs(anchors, gts, labels, iou, log, t)
    requires a < |anchors| && IsBestMatch(IouRow(anchors[a], gts, iou), g)
    ensures g < |gts| && forall h :: 0 <= h < |gts| ==> iou(anchors[a], gts[h]) <= iou(anchors[a], gts[g])
    ensures t.loc[a] == LocTarget(gts[g], anchors[a], log)
    ensures t.cls[a] == ClassTarget(iou(anchors[a], gts[g]), labels[g])
    ensures labels[g] >= 0 ==>
              && (t.cls[a] == 0 <==> iou(anchors[a], gts[g]) < 0.4)
              && (t.cls[a] == -1 <==> 0.4 < iou(anchors[a], gts[g]) < 0.5)
              && (t.cls[a] >= 1 <==> iou(anchors[a], gts[g]) == 0.4 || iou(anchors[a], gts[g]) >= 0.5)
  {
    var row := IouRow(anchors[a], gts, iou);
    assert MatchedTargets(anchors[a], gts, labels, iou, log, t.loc[a], t.cls[a]);
    var g': nat :| IsBestMatch(row, g')
                   && t.loc[a] == LocTarget(gts[g'], anchors[a], log)
                   && t.cls[a] == ClassTarget(iou(anchors[a], gts[g']), labels[g']);
    BestMatchUnique(row, g, g');
    forall h | 0 <= h < |gts|
      ensures iou(anchors[a], gts[h]) <= iou(anchors[a], gts[g])
    {
      assert row[h] <= row[g];
    }
    if labels[g] >= 0 {
      ClassTargetRanges(iou(anchors[a], gts[g]), labels[g]);
    }
  }

  /** A ground-truth box with positive extent in [0, 1] coordinates has a
      positive width and height in pixels. */
  lemma GroundTruthPositive(boxes: seq<Corners>, n: nat, g: nat)
    requires n >= 1 && g < |boxes|
    requires boxes[g].xmin < boxes[g].xmax && boxes[g].ymin < boxes[g].ymax
    ensures GroundTruth(boxes, n)[g].w > 0.0 && GroundTruth(boxes, n)[g].h > 0.0
  {
    var b := boxes[g];
    assert GroundTruth(boxes, n)[g] == Scale(ToCenter(b), n as real);
    RealMulLess(0.0, b.xmax - b.xmin, n as real);
    RealMulLess(0.0, b.ymax - b.ymin, n as real);
  }

  /** Decoding the regression target of anchor a against a gives back its
      matched box, when exp undoes log on positive numbers and the matched
      box has a positive size. */
  lemma EncodedRoundTrip(anchors: seq<Box>, gts: seq<Box>, labels: seq<int>,
                         iou: (Box, Box) -> real, log: real -> real, exp: real -> real,
                         t: Targets, a: nat, g: nat)
    requires |labels| == |gts|
    requires EncodedAs(anchors, gts, labels, iou, log, t)
    requires a < |anchors| && IsBestMatch(IouRow(anchors[a], gts, iou), g)
    requires gts[g].w > 0.0 && gts[g].h > 0.0
    requires forall x :: x > 0.0 ==> exp(log(x)) == x
    ensures Decode(t.loc[a], anchors[a], exp) == gts[g]
  {
    EncodedAtMatch(anchors, gts, labels, iou, log, t, a, g);
    var gb, ab := gts[g], anchors[a];
    assert gb.w / ab.w > 0.0 && gb.h / ab.h > 0.0;
    DecodeLocTarget(gb, ab, log, exp);
  }

  /** Encode then decode: decoding the regression target of an anchor
      against the anchor gives back its matched ground-truth box, the input
      box scaled to pixels, when exp undoes log on positive numbers and the
      matched box has positive extent. */
  lemma EncodeDecodeRoundTrip(e: DataEncoder, boxes: seq<Corners>, labels: seq<int>, n: nat,
                              iou: (Box, Box) -> real, log: real -> real, exp: real -> real, a: nat, g: nat)
    requires Valid(e)
    requires |boxes| >= 1 && |boxes| == |labels|
    requires Encode(e, boxes, labels, n, iou, log).Ok?
    requires forall x :: x > 0.0 ==> exp(log(x)) == x
    requires a < |AnchorBoxes(e.anchorWH, n).value|
    requires IsBestMatch(IouRow(AnchorBoxes(e.anchorWH, n).value[a], GroundTruth(boxes, n), iou), g)
    requires boxes[g].xmin < boxes[g].xmax && boxes[g].ymin < boxes[g].ymax
    ensures g < |boxes|
    ensures ToCorners(Decode(Encode(e, boxes, labels, n, iou, log).value.loc[a], AnchorBoxes(e.anchorWH, n).value[a], exp))
            == ScaleCorners(boxes[g], n as real)
  {
    var anchors := AnchorBoxes(e.anchorWH, n).value;
    var gts := GroundTruth(boxes, n);
    var t := Encode(e, boxes, labels, n, iou, log).value;
    StrideFits(n, 0);
    GroundTruthPositive(boxes, n, g);
    EncodedRoundTrip(anchors, gts, labels, iou, log, exp, t, a, g);
  }
}
