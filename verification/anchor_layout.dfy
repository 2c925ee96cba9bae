/** The anchor layout for one input size (DataEncoder._get_anchor_boxes).

    Level i (p3 .. p7) has an fm x fm grid, fm = int(n / 2^(i+3) + 0.5),
    with cells input_size // fm pixels apart.  Every cell carries the
    level's AnchorsPerCell table entries, slot varying fastest, cells in
    row-major order with x varying fastest, and the levels are concatenated
    in order.  A level whose grid is empty makes the stride a division by
    zero; that is the layout's one error. */
module AnchorLayout {
  import opened Arith
  import opened Boxes

  /** Anchors per cell; the layout's reshapes fix it at 9. */
  const AnchorsPerCell: nat := 9

  datatype LayoutError = EmptyFeatureMap(level: nat)

  datatype Result<T> = Ok(value: T) | Err(error: LayoutError)

  /** Rounding n / 2^(i+3) half up, through the reals as the Python `DataEncoder` does,
      agrees with integer division. */
  lemma RoundHalfUp(n: nat, i: nat)
    ensures ((n as real) / (Pow2(i + 3) as real) + 0.5).Floor == (n + Pow2(i + 2)) / Pow2(i + 3)
  {
    var h := Pow2(i + 2);
    var d := Pow2(i + 3);
    Pow2Step(i + 2);
    HalfShift(n, h);
    FloorDiv(n + h, d);
  }

  /** Adding one half to n / 2h is adding h to the numerator. */
  lemma HalfShift(n: nat, h: nat)
    requires h >= 1
    ensures (n as real) / ((2 * h) as real) + 0.5 == ((n + h) as real) / ((2 * h) as real)
  {
    var d := (2 * h) as real;
    assert (h as real) / d == 0.5;
    assert ((n + h) as real) == (n as real) + (h as real);
    DivAdd(n as real, h as real, d);
  }

  /** Division by a positive real distributes over a sum. */
  lemma DivAdd(x: real, y: real, d: real)
    requires d > 0.0
    ensures (x + y) / d == x / d + y / d
  {
  }

  /** Side of the feature map at level i for input size n: the Python `DataEncoder`'s
      int(n / 2^(i+3) + 0.5), which is n / 2^(i+3) rounded half up. */
  function FeatureMapSize(n: nat, i: nat): (fm: nat)
    ensures fm == (n + Pow2(i + 2)) / Pow2(i + 3)
  {
    RoundHalfUp(n, i);
    ((n as real) / (Pow2(i + 3) as real) + 0.5).Floor
  }

  /** A level's grid is non-empty exactly when n reaches 2^(i+2). */
  lemma FeatureMapNonEmpty(n: nat, i: nat)
    ensures FeatureMapSize(n, i) >= 1 <==> n >= Pow2(i + 2)
  {
    var h, d := Pow2(i + 2), Pow2(i + 3);
    assert d == 2 * h;
    if n >= h {
      DivModUnique(n + h, d, (n + h) / d, (n + h) % d);
      if (n + h) / d <= 0 {
        assert false;
      }
    } else {
      DivModUnique(n + h, d, 0, n + h);
    }
  }

  /** Grids shrink from level to level, so the first empty grid is followed
      only by empty ones. */
  lemma FeatureMapShrinks(n: nat, i: nat, j: nat)
    requires i <= j
    ensures FeatureMapSize(n, j) >= 1 ==> FeatureMapSize(n, i) >= 1
  {
    FeatureMapNonEmpty(n, i);
    FeatureMapNonEmpty(n, j);
    Pow2Monotone(i + 2, j + 2);
  }

  /** Larger exponents give larger powers of two. */
  lemma {:induction false} Pow2Monotone(a: nat, b: nat)
    requires a <= b
    ensures Pow2(a) <= Pow2(b)
    decreases b - a
  {
    if a < b {
      Pow2Monotone(a + 1, b);
    }
  }

  /** A non-empty grid is never wider than the input, so the stride
      input_size // fm is at least 1 and fm strides fit in the input. */
  lemma StrideFits(n: nat, i: nat)
    requires FeatureMapSize(n, i) >= 1
    ensures FeatureMapSize(n, i) <= n
    ensures n / FeatureMapSize(n, i) >= 1
    ensures FeatureMapSize(n, i) * (n / FeatureMapSize(n, i)) <= n
  {
    Pow2Step(i + 2);
    RoundedFits(n, Pow2(i + 2), FeatureMapSize(n, i));
  }

  /** StrideFits for fm = (n + h) / 2h. */
  lemma RoundedFits(n: nat, h: nat, fm: nat)
    requires h >= 1 && fm >= 1 && fm == (n + h) / (2 * h)
    ensures fm <= n && n / fm >= 1 && fm * (n / fm) <= n
  {
    var d := 2 * h;
    DivModUnique(n + h, d, fm, (n + h) % d);
    assert fm * d <= n + h;
    assert n >= 1 by {
      if n == 0 {
        DivModUnique(h, d, 0, h);
      }
    }
    assert n + h <= n * d by {
      MulAtLeast(n, h);
      MulAtLeast(h, n);
      assert n * d == n * h + n * h;
    }
    MulLeCancel(fm, n, d);
    var stride := n / fm;
    DivModUnique(n, fm, stride, n % fm);
    if stride < 1 {
      assert false;
    }
  }

  /** The grid of one level: its side fm and the stride between cell
      centres, in input pixels. */
  datatype Grid = Grid(fm: nat, stride: nat)

  /** The grid of level i for input size n: side FeatureMapSize and stride
      input_size // fm; the stride is at least 1 and the grid fits in the
      input. */
  function LevelGrid(n: nat, i: nat): (g: Grid)
    requires FeatureMapSize(n, i) >= 1
    ensures g.fm == FeatureMapSize(n, i) && g.fm >= 1
    ensures g.stride >= 1 && g.fm * g.stride <= n
  {
    StrideFits(n, i);
    Grid(FeatureMapSize(n, i), n / FeatureMapSize(n, i))
  }

  /** Number of anchors on level i: AnchorsPerCell for each of the fm * fm
      cells, 0 for an empty grid. */
  function LevelCount(n: nat, i: nat): nat
  {
    AnchorsPerCell * (FeatureMapSize(n, i) * FeatureMapSize(n, i))
  }

  /** Number of anchors on the first `levels` levels; the flat position
      where level `levels` starts. */
  function AnchorCount(n: nat, levels: nat): nat
  {
    if levels == 0 then 0 else AnchorCount(n, levels - 1) + LevelCount(n, levels - 1)
  }

  /** The k-th anchor of a grid, written out: cell k / 9 at column
      (k / 9) % fm and row (k / 9) / fm, centre offset by half a cell and
      scaled by the stride, size the table entry k % 9. */
  function GridAnchor(sizes: seq<Size>, g: Grid, k: nat): Box
    requires |sizes| == AnchorsPerCell && g.fm >= 1
  {
    var cell := k / AnchorsPerCell;
    var slot := k % AnchorsPerCell;
    var p := CellCenter(Cell(cell % g.fm, cell / g.fm), g.stride);
    Box(p.x, p.y, sizes[slot].w, sizes[slot].h)
  }

  /** The centre of a cell: half a cell in from its corner, in pixels. */
  function CellCenter(c: Cell, stride: nat): Point
  {
    Point(((c.x as real) + 0.5) * (stride as real), ((c.y as real) + 0.5) * (stride as real))
  }

  /** The k-th anchor of level i for input size n. */
  function AnchorAt(sizes: seq<Size>, n: nat, i: nat, k: nat): Box
    requires |sizes| == AnchorsPerCell && FeatureMapSize(n, i) >= 1
  {
    GridAnchor(sizes, LevelGrid(n, i), k)
  }

  /** Every anchor of a grid lies inside it: both centre coordinates are
      strictly between 0 and fm * stride. */
  lemma GridAnchorInside(sizes: seq<Size>, g: Grid, k: nat)
    requires |sizes| == AnchorsPerCell && g.fm >= 1 && g.stride >= 1
    requires k < AnchorsPerCell * (g.fm * g.fm)
    ensures 0.0 < GridAnchor(sizes, g, k).cx < (g.fm * g.stride) as real
    ensures 0.0 < GridAnchor(sizes, g, k).cy < (g.fm * g.stride) as real
  {
    var cell := k / AnchorsPerCell;
    DivBelow(k, AnchorsPerCell, g.fm * g.fm);
    DivBelow(cell, g.fm, g.fm);
    CenterBelow(cell % g.fm, g.fm, g.stride);
    CenterBelow(cell / g.fm, g.fm, g.stride);
  }

  /** Every anchor of level i lies inside the input: both centre
      coordinates are strictly between 0 and fm * stride, which is at most
      the input size. */
  lemma AnchorInside(sizes: seq<Size>, n: nat, i: nat, k: nat)
    requires |sizes| == AnchorsPerCell && FeatureMapSize(n, i) >= 1
    requires k < LevelCount(n, i)
    ensures 0.0 < AnchorAt(sizes, n, i, k).cx < n as real
    ensures 0.0 < AnchorAt(sizes, n, i, k).cy < n as real
  {
    var g := LevelGrid(n, i);
    GridAnchorInside(sizes, g, k);
  }

  /** (c + 0.5) * stride lies strictly between 0 and fm * stride for c < fm. */
  lemma CenterBelow(c: nat, fm: nat, stride: nat)
    requires c < fm && stride >= 1
    ensures 0.0 < ((c as real) + 0.5) * (stride as real) < ((fm * stride) as real)
  {
    RealMulLess((c as real) + 0.5, fm as real, stride as real);
    assert ((fm * stride) as real) == (fm as real) * (stride as real);
  }

  /** One box per (centre, size) pair, size varying fastest: the
      broadcast-and-flatten of the centres against the sizes. */
  function Expand(centers: seq<Point>, sizes: seq<Size>): (r: seq<Box>)
    ensures |r| == |centers| * |sizes|
  {
    if |centers| == 0 then []
    else
      var last := centers[|centers| - 1];
      var prefix := Expand(centers[..|centers| - 1], sizes);
      assert |prefix| + |sizes| == |centers| * |sizes| by {
        assert (|centers| - 1) * |sizes| + |sizes| == |centers| * |sizes|;
      }
      prefix + seq(|sizes|, p requires 0 <= p < |sizes| => Box(last.x, last.y, sizes[p].w, sizes[p].h))
  }

  /** Box k of an expansion pairs centre k / |sizes| with size k % |sizes|. */
  lemma {:induction false} ExpandIndex(centers: seq<Point>, sizes: seq<Size>, k: nat)
    requires k < |centers| * |sizes|
    ensures k / |sizes| < |centers|
    ensures Expand(centers, sizes)[k]
            == Box(centers[k / |sizes|].x, centers[k / |sizes|].y,
                   sizes[k % |sizes|].w, sizes[k % |sizes|].h)
    decreases |centers|
  {
    var m, p := |centers|, |sizes|;
    var init := centers[..m - 1];
    assert p > 0;
    if k < (m - 1) * p {
      ExpandIndex(init, sizes, k);
    } else {
      DivModUnique(k, p, m - 1, k - (m - 1) * p);
    }
  }

  /** The cell centres of a grid, ((x + 0.5) * stride, (y + 0.5) * stride)
      for the cells of the fm x fm grid in grid order. */
  function CellCenters(g: Grid): (centers: seq<Point>)
    ensures |centers| == g.fm * g.fm
  {
    var cells := Meshgrid(g.fm);
    seq(|cells|, c requires 0 <= c < |cells| => CellCenter(cells[c], g.stride))
  }

  /** Centre c of a grid is that of cell (c % fm, c / fm). */
  lemma CellCenterAt(g: Grid, c: nat)
    requires c < g.fm * g.fm
    ensures CellCenters(g)[c] == CellCenter(Cell(c % g.fm, c / g.fm), g.stride)
  {
    assert Meshgrid(g.fm)[c] == Cell(c % g.fm, c / g.fm);
  }

  /** All anchors of a grid: its cell centres expanded against the level's
      table entries. */
  function GridBoxes(sizes: seq<Size>, g: Grid): (r: seq<Box>)
    ensures |r| == (g.fm * g.fm) * |sizes|
  {
    Expand(CellCenters(g), sizes)
  }

  /** The grid built by broadcasting is the written-out layout, anchor by
      anchor. */
  lemma GridBoxesIndex(sizes: seq<Size>, g: Grid, k: nat)
    requires |sizes| == AnchorsPerCell && g.fm >= 1
    requires k < (g.fm * g.fm) * AnchorsPerCell
    ensures GridBoxes(sizes, g)[k] == GridAnchor(sizes, g, k)
  {
    var centers := CellCenters(g);
    ExpandIndex(centers, sizes, k);
    CellCenterAt(g, k / AnchorsPerCell);
  }

  /** All anchors of level i. */
  function LevelBoxes(sizes: seq<Size>, n: nat, i: nat): (r: seq<Box>)
    requires |sizes| == AnchorsPerCell && FeatureMapSize(n, i) >= 1
    ensures |r| == LevelCount(n, i)
  {
    GridBoxes(sizes, LevelGrid(n, i))
  }

  /** Level i, built by broadcasting, is the written-out layout, anchor by
      anchor. */
  lemma LevelBoxesIndex(sizes: seq<Size>, n: nat, i: nat, k: nat)
    requires |sizes| == AnchorsPerCell && FeatureMapSize(n, i) >= 1
    requires k < LevelCount(n, i)
    ensures LevelBoxes(sizes, n, i)[k] == AnchorAt(sizes, n, i, k)
  {
    GridBoxesIndex(sizes, LevelGrid(n, i), k);
  }

  /** Table rows of the layout: one per level, AnchorsPerCell each. */
  predicate LevelTable(table: seq<seq<Size>>)
  {
    forall i :: 0 <= i < |table| ==> |table[i]| == AnchorsPerCell
  }

  /** Anchors of the first `levels` levels, level by level; fails at the
      first level whose grid is empty. */
  function AnchorsUpTo(table: seq<seq<Size>>, n: nat, levels: nat): (r: Result<seq<Box>>)
    requires LevelTable(table) && levels <= |table|
    ensures r.Ok? <==> forall i :: 0 <= i < levels ==> FeatureMapSize(n, i) >= 1
    ensures r.Ok? ==> |r.value| == AnchorCount(n, levels)
    ensures r.Err? ==> r.error.level < levels && FeatureMapSize(n, r.error.level) == 0
    ensures r.Err? ==> forall i :: 0 <= i < r.error.level ==> FeatureMapSize(n, i) >= 1
  {
    if levels == 0 then Ok([])
    else
      match AnchorsUpTo(table, n, levels - 1)
      case Err(e) => Err(e)
      case Ok(prefix) =>
        if FeatureMapSize(n, levels - 1) == 0 then Err(EmptyFeatureMap(levels - 1))
        else Ok(prefix + LevelBoxes(table[levels - 1], n, levels - 1))
  }

  /** The full anchor list for input size n: every level of the table, in
      order. */
  function AnchorBoxes(table: seq<seq<Size>>, n: nat): (r: Result<seq<Box>>)
    requires LevelTable(table)
    ensures r.Ok? <==> forall i :: 0 <= i < |table| ==> FeatureMapSize(n, i) >= 1
    ensures r.Ok? ==> |r.value| == AnchorCount(n, |table|)
    ensures r.Err? ==> r.error.level < |table| && FeatureMapSize(n, r.error.level) == 0
    ensures r.Err? ==> forall i :: 0 <= i < r.error.level ==> FeatureMapSize(n, i) >= 1
  {
    AnchorsUpTo(table, n, |table|)
  }

  /** The levels before level i take AnchorCount(n, i) places, and level i
      fits before the end of `levels` levels. */
  lemma {:induction false} AnchorCountGrows(n: nat, i: nat, levels: nat)
    requires i < levels
    ensures AnchorCount(n, i) + LevelCount(n, i) <= AnchorCount(n, levels)
    decreases levels
  {
    if i < levels - 1 {
      AnchorCountGrows(n, i, levels - 1);
    }
  }

  /** Index mapping: anchor k of level i sits at flat position
      AnchorCount(n, i) + k of the full list, and it is the written-out
      anchor AnchorAt. */
  lemma {:induction false} AnchorIndex(table: seq<seq<Size>>, n: nat, levels: nat, i: nat, k: nat)
    requires LevelTable(table) && levels <= |table|
    requires AnchorsUpTo(table, n, levels).Ok?
    requires i < levels && k < LevelCount(n, i)
    ensures FeatureMapSize(n, i) >= 1
    ensures AnchorCount(n, i) + k < |AnchorsUpTo(table, n, levels).value|
    ensures AnchorsUpTo(table, n, levels).value[AnchorCount(n, i) + k] == AnchorAt(table[i], n, i, k)
    decreases levels
  {
    var prefix := AnchorsUpTo(table, n, levels - 1).value;
    var level := LevelBoxes(table[levels - 1], n, levels - 1);
    assert AnchorsUpTo(table, n, levels).value == prefix + level;
    if i < levels - 1 {
      AnchorIndex(table, n, levels - 1, i, k);
    } else {
      LevelBoxesIndex(table[levels - 1], n, levels - 1, k);
    }
  }

  /** The inverse of the index mapping: flat position g of the first
      `levels` levels is anchor k of level i, for exactly one (i, k). */
  function Locate(n: nat, levels: nat, g: nat): (ik: (nat, nat))
    requires g < AnchorCount(n, levels)
    ensures ik.0 < levels && ik.1 < LevelCount(n, ik.0)
    ensures g == AnchorCount(n, ik.0) + ik.1
  {
    if g >= AnchorCount(n, levels - 1) then (levels - 1, g - AnchorCount(n, levels - 1))
    else Locate(n, levels - 1, g)
  }

  /** The (level, index) pair of a flat position is unique. */
  lemma LocateUnique(n: nat, levels: nat, i: nat, k: nat, i': nat, k': nat)
    requires i < levels && k < LevelCount(n, i) && i' < levels && k' < LevelCount(n, i')
    requires AnchorCount(n, i) + k == AnchorCount(n, i') + k'
    ensures i == i' && k == k'
  {
    if i < i' {
      AnchorCountGrows(n, i, i');
      assert false;
    } else if i' < i {
      AnchorCountGrows(n, i', i);
      assert false;
    }
  }

  /** Every anchor of a successful layout is inside the input and takes its
      size from its own level's table: anchor g is the written-out anchor of
      the (level, index) pair that Locate finds. */
  lemma AnchorOfIndex(table: seq<seq<Size>>, n: nat, g: nat)
    requires LevelTable(table) && AnchorBoxes(table, n).Ok?
    requires g < |AnchorBoxes(table, n).value|
    ensures Locate(n, |table|, g).0 < |table|
    ensures FeatureMapSize(n, Locate(n, |table|, g).0) >= 1
    ensures AnchorBoxes(table, n).value[g]
            == AnchorAt(table[Locate(n, |table|, g).0], n, Locate(n, |table|, g).0, Locate(n, |table|, g).1)
    ensures 0.0 < AnchorBoxes(table, n).value[g].cx < n as real
    ensures 0.0 < AnchorBoxes(table, n).value[g].cy < n as real
    ensures exists p :: 0 <= p < AnchorsPerCell &&
              Size(AnchorBoxes(table, n).value[g].w, AnchorBoxes(table, n).value[g].h)
              == table[Locate(n, |table|, g).0][p]
  {
    var (i, k) := Locate(n, |table|, g);
    AnchorIndex(table, n, |table|, i, k);
    AnchorInside(table[i], n, i, k);
    var p := k % AnchorsPerCell;
    assert Size(AnchorAt(table[i], n, i, k).w, AnchorAt(table[i], n, i, k).h) == table[i][p];
  }

  /** The layout exists exactly when the last (coarsest) level's grid is
      non-empty, i.e. when the input size reaches 2^(levels+1); 64 for the
      five default levels. */
  lemma AnchorBoxesDefined(table: seq<seq<Size>>, n: nat)
    requires LevelTable(table) && |table| >= 1
    ensures AnchorBoxes(table, n).Ok? <==> n >= Pow2(|table| + 1)
  {
    var last := |table| - 1;
    FeatureMapNonEmpty(n, last);
    if n >= Pow2(|table| + 1) {
      forall i | 0 <= i < |table|
        ensures FeatureMapSize(n, i) >= 1
      {
        FeatureMapShrinks(n, i, last);
      }
    }
  }

  /** For input size 600 the five levels have sides 75, 38, 19, 9, 5 and
      strides 8, 15, 31, 66, 120, and 67824 anchors in all. */
  lemma Layout600()
    ensures FeatureMapSize(600, 0) == 75 && 600 / 75 == 8
    ensures FeatureMapSize(600, 1) == 38 && 600 / 38 == 15
    ensures FeatureMapSize(600, 2) == 19 && 600 / 19 == 31
    ensures FeatureMapSize(600, 3) == 9 && 600 / 9 == 66
    ensures FeatureMapSize(600, 4) == 5 && 600 / 5 == 120
    ensures AnchorCount(600, 5) == 67824
  {
    assert Pow2(2) == 4 && Pow2(3) == 8 && Pow2(4) == 16 && Pow2(5) == 32;
    assert Pow2(6) == 64 && Pow2(7) == 128;
    assert AnchorCount(600, 5) == 9 * (75 * 75 + 38 * 38 + 19 * 19 + 9 * 9 + 5 * 5);
  }
}
