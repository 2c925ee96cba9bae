/** The per-level anchor size table (DataEncoder._get_anchor_wh).

    For every base area s (outer loop), every aspect ratio ar = w / h
    (middle loop) and every scale ratio sr (inner loop) the table gets one
    (w, h) entry: h = sqrt(s / ar), w = ar * h, both scaled by sr.  The
    flat list is then viewed as [#levels, #slots, 2]; the model builds
    that view directly, one row per area, so slot p of level i comes from
    aspect ratio p / #scales and scale ratio p % #scales.

    Square root and power are not computed: they are function parameters,
    and a lemma states what it needs of them at the points it uses. */
module AnchorTable {
  import opened Arith
  import opened Boxes

  /** The encoder's configuration: base areas (one per pyramid level),
      aspect ratios and scale ratios, all in their declared order. */
  datatype Config = Config(areas: seq<real>, aspectRatios: seq<real>, scaleRatios: seq<real>)

  /** What the table construction needs of a configuration: none of the
      three lists empty (an empty table cannot be viewed per level), and
      every value positive (the square root and the division by the
      aspect ratio are then defined). */
  predicate WellFormed(c: Config)
  {
    && |c.areas| >= 1 && |c.aspectRatios| >= 1 && |c.scaleRatios| >= 1
    && (forall i :: 0 <= i < |c.areas| ==> c.areas[i] > 0.0)
    && (forall j :: 0 <= j < |c.aspectRatios| ==> c.aspectRatios[j] > 0.0)
    && (forall k :: 0 <= k < |c.scaleRatios| ==> c.scaleRatios[k] > 0.0)
  }

  /** The configuration the encoder is built with: areas 32^2 .. 512^2 for
      levels p3 .. p7, aspect ratios 1/2, 1, 2, scale ratios 1, 2^(1/3),
      2^(2/3). */
  function DefaultConfig(pow: (real, real) -> real): (c: Config)
    ensures |c.areas| == 5 && |c.aspectRatios| == 3 && |c.scaleRatios| == 3
    ensures forall i :: 0 <= i < 5 ==> c.areas[i] == ((32 * Pow2(i)) * (32 * Pow2(i))) as real
    ensures forall j :: 0 <= j < 3 ==> c.aspectRatios[j] * 2.0 == Pow2(j) as real
    ensures c.scaleRatios[0] == 1.0
    ensures forall k :: 1 <= k < 3 ==> c.scaleRatios[k] == pow(2.0, (k as real) / 3.0)
  {
    Config([32.0 * 32.0, 64.0 * 64.0, 128.0 * 128.0, 256.0 * 256.0, 512.0 * 512.0],
           [1.0 / 2.0, 1.0 / 1.0, 2.0 / 1.0],
           [1.0, pow(2.0, 1.0 / 3.0), pow(2.0, 2.0 / 3.0)])
  }

  /** Number of anchors per grid cell: one per (aspect ratio, scale ratio). */
  function SlotsPerLevel(c: Config): nat
  {
    |c.aspectRatios| * |c.scaleRatios|
  }

  /** The default configuration is well formed as soon as the two powers
      are positive, and has 5 levels of 9 slots, 45 entries in all. */
  lemma DefaultConfigShape(pow: (real, real) -> real)
    requires pow(2.0, 1.0 / 3.0) > 0.0 && pow(2.0, 2.0 / 3.0) > 0.0
    ensures WellFormed(DefaultConfig(pow))
    ensures |DefaultConfig(pow).areas| == 5 && SlotsPerLevel(DefaultConfig(pow)) == 9
    ensures |DefaultConfig(pow).areas| * SlotsPerLevel(DefaultConfig(pow)) == 45
  {
  }

  /** The (w, h) pair the loops emit for area i, aspect ratio j and scale
      ratio k. */
  function AnchorSize(c: Config, sqrt: real -> real, i: nat, j: nat, k: nat): (z: Size)
    requires WellFormed(c)
    requires i < |c.areas| && j < |c.aspectRatios| && k < |c.scaleRatios|
    ensures sqrt(c.areas[i] / c.aspectRatios[j]) > 0.0 ==> z.w > 0.0 && z.h > 0.0
  {
    var h := sqrt(c.areas[i] / c.aspectRatios[j]);
    var w := c.aspectRatios[j] * h;
    var sr := c.scaleRatios[k];
    Size(w * sr, h * sr)
  }

  /** Given a true square root at s / ar, every entry has the requested
      shape: w / h equals the aspect ratio and w * h equals the area scaled
      by the square of the scale ratio. */
  lemma AnchorSizeShape(c: Config, sqrt: real -> real, i: nat, j: nat, k: nat)
    requires WellFormed(c)
    requires i < |c.areas| && j < |c.aspectRatios| && k < |c.scaleRatios|
    requires sqrt(c.areas[i] / c.aspectRatios[j]) > 0.0
    requires sqrt(c.areas[i] / c.aspectRatios[j]) * sqrt(c.areas[i] / c.aspectRatios[j])
             == c.areas[i] / c.aspectRatios[j]
    ensures AnchorSize(c, sqrt, i, j, k).w / AnchorSize(c, sqrt, i, j, k).h == c.aspectRatios[j]
    ensures AnchorSize(c, sqrt, i, j, k).w * AnchorSize(c, sqrt, i, j, k).h
            == c.areas[i] * c.scaleRatios[k] * c.scaleRatios[k]
  {
    var s, ar, sr := c.areas[i], c.aspectRatios[j], c.scaleRatios[k];
    var h := sqrt(s / ar);
    var z := AnchorSize(c, sqrt, i, j, k);
    assert z.w == ar * (h * sr);
    assert z.h == h * sr;
    assert h * sr > 0.0;
    assert z.w * z.h == ar * (h * h) * (sr * sr);
    assert ar * (s / ar) == s;
  }

  /** Entry p of a level's row: the entry of aspect ratio p / #scales and
      scale ratio p % #scales, the order in which the loops emit them. */
  function SlotSize(c: Config, sqrt: real -> real, i: nat, p: nat): Size
    requires WellFormed(c) && i < |c.areas| && p < SlotsPerLevel(c)
  {
    DivBelow(p, |c.scaleRatios|, |c.aspectRatios|);
    AnchorSize(c, sqrt, i, p / |c.scaleRatios|, p % |c.scaleRatios|)
  }

  /** Iteration (j, k) of the two inner loops lands in slot j * #scales + k,
      and that slot holds its entry. */
  lemma SlotOfIteration(c: Config, sqrt: real -> real, i: nat, j: nat, k: nat)
    requires WellFormed(c) && i < |c.areas| && j < |c.aspectRatios| && k < |c.scaleRatios|
    ensures j * |c.scaleRatios| + k < SlotsPerLevel(c)
    ensures SlotSize(c, sqrt, i, j * |c.scaleRatios| + k) == AnchorSize(c, sqrt, i, j, k)
  {
    BlockInside(j, |c.aspectRatios|, |c.scaleRatios|);
    Decompose2(j, k, |c.scaleRatios|);
  }

  /** Every slot of the row written so far holds its entry. */
  ghost predicate RowFilled(c: Config, sqrt: real -> real, i: nat, row: seq<Size>)
    requires WellFormed(c) && i < |c.areas|
  {
    forall p :: 0 <= p < |row| ==> p < SlotsPerLevel(c) && row[p] == SlotSize(c, sqrt, i, p)
  }

  /** The table the encoder builds once, by the same three nested loops as
      the Python `DataEncoder`, in the same order: one row per area, holding the entries
      of its slots. */
  method GetAnchorWH(c: Config, sqrt: real -> real) returns (table: seq<seq<Size>>)
    requires WellFormed(c)
    ensures |table| == |c.areas|
    ensures forall i :: 0 <= i < |table| ==> |table[i]| == SlotsPerLevel(c)
    ensures forall i, p :: 0 <= i < |table| && 0 <= p < SlotsPerLevel(c) ==>
              table[i][p] == SlotSize(c, sqrt, i, p)
  {
    table := [];
    for i := 0 to |c.areas|
      invariant |table| == i
      invariant forall i' :: 0 <= i' < i ==> |table[i']| == SlotsPerLevel(c)
      invariant forall i', p :: 0 <= i' < i && 0 <= p < SlotsPerLevel(c) ==>
                  table[i'][p] == SlotSize(c, sqrt, i', p)
    {
      var row := LevelRow(c, sqrt, i);
      table := table + [row];
    }
  }

  /** The body of the outer loop: the entries of area i, every aspect
      ratio in order. */
  method LevelRow(c: Config, sqrt: real -> real, i: nat) returns (row: seq<Size>)
    requires WellFormed(c) && i < |c.areas|
    ensures |row| == SlotsPerLevel(c)
    ensures forall p :: 0 <= p < |row| ==> row[p] == SlotSize(c, sqrt, i, p)
  {
    var nr, ns := |c.aspectRatios|, |c.scaleRatios|;
    row := [];
    for j := 0 to nr
      invariant |row| == j * ns
      invariant RowFilled(c, sqrt, i, row)
    {
      row := AppendScaled(c, sqrt, i, row, j);
    }
  }

  /** The body of the middle loop: the base (w, h) of area i and aspect
      ratio j, emitted once per scale ratio, in scale order. */
  method AppendScaled(c: Config, sqrt: real -> real, i: nat, row: seq<Size>, j: nat)
    returns (row': seq<Size>)
    requires WellFormed(c) && i < |c.areas| && j < |c.aspectRatios|
    requires |row| == j * |c.scaleRatios|
    requires RowFilled(c, sqrt, i, row)
    ensures |row'| == (j + 1) * |c.scaleRatios|
    ensures row'[..|row|] == row
    ensures RowFilled(c, sqrt, i, row')
  {
    var ns := |c.scaleRatios|;
    var s, ar := c.areas[i], c.aspectRatios[j];
    var h := sqrt(s / ar);
    var w := ar * h;
    row' := row;
    for k := 0 to ns
      invariant |row'| == j * ns + k
      invariant row'[..|row|] == row
      invariant RowFilled(c, sqrt, i, row')
    {
      var sr := c.scaleRatios[k];
      assert Size(w * sr, h * sr) == AnchorSize(c, sqrt, i, j, k);
      SlotOfIteration(c, sqrt, i, j, k);
      row' := row' + [Size(w * sr, h * sr)];
    }
  }
}
