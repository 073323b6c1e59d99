/** The tile grid of SetScanComplete and the hit box of OnDrawFrame's
    selection loop. Tile i of n gets the offset pair (TileX(n, i), TileY(n, i)). */
module GridLayout {

  const HOST_WIDTH: real := 0.3
  const HOST_HEIGHT: real := 0.3
  const HOST_HORIZ_SPACING: real := 0.45
  const HOST_VERT_SPACING: real := 0.75

  /** Distance between neighbouring tiles of a row, and between rows. */
  const X_STEP: real := HOST_WIDTH + HOST_HORIZ_SPACING
  const Y_STEP: real := HOST_HEIGHT + HOST_VERT_SPACING

  /** Tiles per full row: 8, 10, 12 or 16 by the number of hosts. */
  function HostsPerRow(n: nat): nat
  {
    if n < 40 then 8 else if n < 80 then 10 else if n < 160 then 12 else 16
  }

  /** i / HostsPerRow(n), written with a literal divisor per row width so
      that reasoning about rows stays linear. */
  function DivRow(n: nat, i: nat): nat
  {
    var per := HostsPerRow(n);
    if per == 8 then i / 8 else if per == 10 then i / 10 else if per == 12 then i / 12 else i / 16
  }

  /** i % HostsPerRow(n), likewise. */
  function ModRow(n: nat, i: nat): nat
  {
    var per := HostsPerRow(n);
    if per == 8 then i % 8 else if per == 10 then i % 10 else if per == 12 then i % 12 else i % 16
  }

  /** RowFirst(n, r): the index of the first tile of row r. */
  function RowFirst(n: nat, r: nat): nat
  {
    var per := HostsPerRow(n);
    if per == 8 then 8 * r else if per == 10 then 10 * r else if per == 12 then 12 * r else 16 * r
  }

  /** Number of full rows. */
  function NumRows(n: nat): nat
  {
    DivRow(n, n)
  }

  /** Row of tile i; the partial row, if any, is row NumRows(n). */
  function Row(n: nat, i: nat): nat
  {
    DivRow(n, i)
  }

  /** Column of tile i within its row. */
  function Col(n: nat, i: nat): nat
  {
    ModRow(n, i)
  }

  /** The row helpers are the source's division, remainder and product. */
  lemma RowArithmetic(n: nat, i: nat)
    ensures DivRow(n, i) == i / HostsPerRow(n) && ModRow(n, i) == i % HostsPerRow(n)
    ensures RowFirst(n, i) == i * HostsPerRow(n)
  {
  }

  /** Number of tiles in row r: a full row, or the remainder. */
  function RowLen(n: nat, r: nat): nat
  {
    if r < NumRows(n) then HostsPerRow(n) else n - RowFirst(n, NumRows(n))
  }

  /** Number of tiles in the row of tile i. */
  function RowCount(n: nat, i: nat): int
  {
    RowLen(n, Row(n, i))
  }

  /** x of the first tile of a row of `count` tiles (x_limit). */
  function RowStart(count: int): real
  {
    -1.0 * X_STEP * (count as real - 1.0) / 2.0
  }

  /** y of the top row (y_limit). */
  function YLimit(n: nat): real
  {
    Y_STEP * (NumRows(n) as real - 1.0) / 2.0
  }

  /** x of column c of row r. */
  function PosX(n: nat, r: nat, c: nat): real
  {
    RowStart(RowLen(n, r)) + c as real * X_STEP
  }

  /** y of row r. */
  function PosY(n: nat, r: nat): real
  {
    YLimit(n) - r as real * Y_STEP
  }

  function TileX(n: nat, i: nat): real
  {
    PosX(n, Row(n, i), Col(n, i))
  }

  function TileY(n: nat, i: nat): real
  {
    PosY(n, Row(n, i))
  }

  /** The first 2n entries of the offsets array after SetScanComplete. */
  function Layout(n: nat): (r: seq<real>)
    ensures |r| == 2 * n
  {
    seq(2 * n, k requires 0 <= k < 2 * n => if k % 2 == 0 then TileX(n, k / 2) else TileY(n, k / 2))
  }

  /** Division by a row width recovers the row and the column, and the full
      rows hold at most n tiles and leave fewer than a row over. */
  lemma DivModRow(q: nat, n: nat, c: nat)
    requires c < HostsPerRow(n)
    ensures Row(n, RowFirst(n, q) + c) == q && Col(n, RowFirst(n, q) + c) == c
    ensures RowFirst(n, NumRows(n)) <= n < RowFirst(n, NumRows(n)) + HostsPerRow(n)
    ensures q < NumRows(n) ==> RowFirst(n, q) + c < RowFirst(n, NumRows(n))
  {
  }

  /** Row r of the layout loops starts at tile RowFirst(n, r), the next row
      starts where it ends, and the partial row ends at n. */
  lemma RowBounds(n: nat, r: nat)
    requires r <= NumRows(n)
    ensures RowFirst(n, r) + RowLen(n, r) <= n
    ensures r < NumRows(n) ==> RowFirst(n, r) + RowLen(n, r) == RowFirst(n, r + 1)
    ensures r == NumRows(n) ==> RowFirst(n, r) + RowLen(n, r) == n
  {
    DivModRow(r, n, 0);
  }

  /** The RowLen(n, r) tiles of row r are X_STEP apart from RowStart, at
      height PosY(n, r). */
  lemma RowTiles(n: nat, r: nat)
    requires r <= NumRows(n)
    ensures forall i :: RowFirst(n, r) <= i < RowFirst(n, r) + RowLen(n, r) ==>
              TileX(n, i) == RowStart(RowLen(n, r)) + (i - RowFirst(n, r)) as real * X_STEP &&
              TileY(n, i) == PosY(n, r)
  {
    forall i | RowFirst(n, r) <= i < RowFirst(n, r) + RowLen(n, r)
      ensures TileX(n, i) == RowStart(RowLen(n, r)) + (i - RowFirst(n, r)) as real * X_STEP
      ensures TileY(n, i) == PosY(n, r)
    {
      var c := i - RowFirst(n, r);
      TileInRow(n, r, c);
      assert Row(n, i) == r && Col(n, i) == c;
    }
  }

  /** Full rows and the partial row partition the tiles: every tile lies in
      one row, at a column inside that row, and the partial row is shorter
      than a full row. */
  lemma {:induction false} RowPartition(n: nat, i: nat)
    requires i < n
    ensures 0 <= n - RowFirst(n, NumRows(n)) < HostsPerRow(n) &&
            Row(n, i) <= NumRows(n) &&
            i == RowFirst(n, Row(n, i)) + Col(n, i) &&
            Col(n, i) < RowCount(n, i) <= HostsPerRow(n)
  {
  }

  /** Column c of row r, when the row has that column, is a tile with that
      row and column. */
  lemma TileInRow(n: nat, r: nat, c: nat)
    requires (r < NumRows(n) && c < HostsPerRow(n)) || (r == NumRows(n) && c < n - RowFirst(n, NumRows(n)))
    ensures RowFirst(n, r) + c < n
    ensures Row(n, RowFirst(n, r) + c) == r && Col(n, RowFirst(n, r) + c) == c
  {
    DivModRow(r, n, c);
  }

  /** Mirroring column c of a row negates its x. */
  lemma MirrorX(n: nat, r: nat, c: nat)
    requires c < RowLen(n, r)
    ensures PosX(n, r, RowLen(n, r) - 1 - c) == -PosX(n, r, c)
  {
  }

  /** A row is centred: tile i and its mirror in the same row have opposite
      x and the same y. */
  lemma {:induction false} RowSymmetric(n: nat, i: nat)
    requires i < n
    ensures var r, c := Row(n, i), Col(n, i);
            var j := RowFirst(n, r) + (RowLen(n, r) - 1 - c);
            j < n && Row(n, j) == r && TileX(n, j) == -TileX(n, i) && TileY(n, j) == TileY(n, i)
  {
    var r, c := Row(n, i), Col(n, i);
    RowPartition(n, i);
    var c' := RowLen(n, r) - 1 - c;
    TileInRow(n, r, c');
    MirrorX(n, r, c);
  }

  /** Neighbours in a row are X_STEP apart at the same height. */
  lemma {:induction false} RowStep(n: nat, i: nat)
    requires i < n && Col(n, i) + 1 < RowCount(n, i)
    ensures i + 1 < n && Row(n, i + 1) == Row(n, i) && Col(n, i + 1) == Col(n, i) + 1
    ensures TileX(n, i + 1) == TileX(n, i) + X_STEP && TileY(n, i + 1) == TileY(n, i)
  {
    var r, c := Row(n, i), Col(n, i);
    RowPartition(n, i);
    TileInRow(n, r, c + 1);
    assert i + 1 == RowFirst(n, r) + (c + 1);
    assert RowCount(n, i + 1) == RowCount(n, i);
  }

  /** The full rows are centred vertically (rows r and NumRows - 1 - r have
      opposite y) and the partial row sits one step below the lowest full row. */
  lemma {:induction false} RowHeights(n: nat, i: nat, j: nat)
    requires i < n && j < n
    ensures Row(n, i) + Row(n, j) + 1 == NumRows(n) ==> TileY(n, i) == -TileY(n, j)
    ensures Row(n, i) == NumRows(n) ==> TileY(n, i) == -YLimit(n) - Y_STEP
  {
  }

  /** The first m of n tiles are in place in `a`. */
  ghost predicate TilesWritten(a: seq<real>, n: nat, m: nat)
    requires 2 * m <= |a|
  {
    forall i :: 0 <= i < m ==> a[2 * i] == TileX(n, i) && a[2 * i + 1] == TileY(n, i)
  }

  /** Once all n tiles are in place the array starts with the layout. */
  lemma WrittenIsLayout(a: seq<real>, n: nat)
    requires 2 * n <= |a| && TilesWritten(a, n, n)
    ensures a[..2 * n] == Layout(n)
  {
    forall k | 0 <= k < 2 * n
      ensures a[k] == Layout(n)[k]
    {
      assert k == 2 * (k / 2) + k % 2;
    }
  }

  /** The offset pairs of a row of `count` tiles, X_STEP apart from x0, all at
      height y. */
  function RowPairs(count: nat, x0: real, y: real): (r: seq<real>)
    ensures |r| == 2 * count
  {
    seq(2 * count, k requires 0 <= k => if k % 2 == 0 then x0 + (k / 2) as real * X_STEP else y)
  }

  /** Pair c of a row: the c-th x position and the row's height. */
  lemma RowPairsAt(count: nat, x0: real, y: real, c: nat)
    requires c < count
    ensures RowPairs(count, x0, y)[2 * c] == x0 + c as real * X_STEP
    ensures RowPairs(count, x0, y)[2 * c + 1] == y
  {
    assert (2 * c) / 2 == c && (2 * c) % 2 == 0 && (2 * c + 1) % 2 == 1;
  }

  /** Writing the pairs of tiles first .. first + count - 1, when those are the
      tiles' positions, extends the tiles in place from `first` to
      `first + count`. */
  lemma {:induction false} ExtendWritten(a: seq<real>, b: seq<real>, n: nat, first: nat, count: nat, x0: real, y: real)
    requires 2 * (first + count) <= |a| == |b|
    requires TilesWritten(a, n, first)
    requires forall k :: 0 <= k < 2 * first ==> b[k] == a[k]
    requires b[2 * first..2 * (first + count)] == RowPairs(count, x0, y)
    requires forall i :: first <= i < first + count ==>
               TileX(n, i) == x0 + (i - first) as real * X_STEP && TileY(n, i) == y
    ensures TilesWritten(b, n, first + count)
  {
    var row := b[2 * first..2 * (first + count)];
    forall i | 0 <= i < first + count
      ensures b[2 * i] == TileX(n, i) && b[2 * i + 1] == TileY(n, i)
    {
      if i < first {
        assert b[2 * i] == a[2 * i] && b[2 * i + 1] == a[2 * i + 1];
      } else {
        var c := i - first;
        RowPairsAt(count, x0, y, c);
        assert 2 * i == 2 * first + 2 * c;
        assert b[2 * i] == row[2 * c] && b[2 * i + 1] == row[2 * c + 1];
      }
    }
  }

  /** Writing row r in place after the rows above it extends the tiles in
      place to the end of row r. */
  lemma RowWritten(a: seq<real>, b: seq<real>, n: nat, r: nat)
    requires r <= NumRows(n) && 2 * n <= |a| == |b|
    requires TilesWritten(a, n, RowFirst(n, r))
    requires forall k :: 0 <= k < 2 * RowFirst(n, r) ==> b[k] == a[k]
    requires RowFirst(n, r) + RowLen(n, r) <= n
    requires b[2 * RowFirst(n, r)..2 * (RowFirst(n, r) + RowLen(n, r))] ==
             RowPairs(RowLen(n, r), RowStart(RowLen(n, r)), PosY(n, r))
    ensures TilesWritten(b, n, RowFirst(n, r) + RowLen(n, r))
  {
    RowTiles(n, r);
    ExtendWritten(a, b, n, RowFirst(n, r), RowLen(n, r), RowStart(RowLen(n, r)), PosY(n, r));
  }

  /** The row loops of SetScanComplete: `count` tiles from tile `first` on,
      X_STEP apart starting at x0, all at height y. */
  method WriteRow(offsets: array<real>, first: nat, count: nat, x0: real, y: real)
    requires 2 * (first + count) <= offsets.Length
    modifies offsets
    ensures offsets[2 * first..2 * (first + count)] == RowPairs(count, x0, y)
    ensures forall k :: 0 <= k < offsets.Length && !(2 * first <= k < 2 * (first + count)) ==>
              offsets[k] == old(offsets[k])
  {
    var col := 0;
    while col < count
      invariant 0 <= col <= count
      invariant offsets[2 * first..2 * (first + col)] == RowPairs(col, x0, y)
      invariant forall k :: 0 <= k < offsets.Length && !(2 * first <= k < 2 * (first + col)) ==>
                  offsets[k] == old(offsets[k])
    {
      ghost var prev := offsets[..];
      offsets[2 * (first + col)] := x0 + col as real * X_STEP;
      offsets[2 * (first + col) + 1] := y;
      ghost var next := RowPairs(col + 1, x0, y);
      forall k | 0 <= k < 2 * (col + 1)
        ensures offsets[2 * first + k] == next[k]
      {
        if k < 2 * col {
          assert prev[2 * first + k] == prev[2 * first..2 * (first + col)][k];
        }
      }
      col := col + 1;
    }
  }

  /** One pass of the full-row loop of SetScanComplete: row `row` is written
      after the rows above it. */
  method WriteFullRow(offsets: array<real>, n: nat, row: nat, hostsPerRow: nat, xLimit: real, yLimit: real)
    requires row < NumRows(n) && 2 * n <= offsets.Length
    requires hostsPerRow == HostsPerRow(n) && xLimit == RowStart(hostsPerRow) && yLimit == YLimit(n)
    requires TilesWritten(offsets[..], n, RowFirst(n, row))
    modifies offsets
    ensures TilesWritten(offsets[..], n, RowFirst(n, row + 1))
    ensures forall k :: 2 * n <= k < offsets.Length ==> offsets[k] == old(offsets[k])
  {
    RowArithmetic(n, row);
    RowBounds(n, row);
    ghost var before := offsets[..];
    WriteRow(offsets, row * hostsPerRow, hostsPerRow, xLimit, yLimit - row as real * Y_STEP);
    RowWritten(before, offsets[..], n, row);
  }

  /** The partial-row step of SetScanComplete: the tiles left over after the
      full rows, centred on their own, one step below the last full row. */
  method WritePartialRow(offsets: array<real>, n: nat, numRows: nat, hostsPerRow: nat, yLimit: real)
    requires 2 * n <= offsets.Length
    requires hostsPerRow == HostsPerRow(n) && numRows == NumRows(n) && yLimit == YLimit(n)
    requires TilesWritten(offsets[..], n, RowFirst(n, numRows))
    modifies offsets
    ensures offsets[..2 * n] == Layout(n)
    ensures forall k :: 2 * n <= k < offsets.Length ==> offsets[k] == old(offsets[k])
  {
    var index := numRows * hostsPerRow;
    RowArithmetic(n, numRows);
    RowBounds(n, numRows);
    var numCols := n - index;
    var xLimit := -1.0 * X_STEP * (numCols as real - 1.0) / 2.0;
    ghost var before := offsets[..];
    WriteRow(offsets, index, numCols, xLimit, yLimit - numRows as real * Y_STEP);
    RowWritten(before, offsets[..], n, numRows);
    WrittenIsLayout(offsets[..], n);
  }

  /** The layout loops of SetScanComplete: the full rows, then the partial
      row, each centred on x = 0. */
  method WriteLayout(offsets: array<real>, n: nat)
    requires 2 * n <= offsets.Length
    modifies offsets
    ensures offsets[..2 * n] == Layout(n)
    ensures forall k :: 2 * n <= k < offsets.Length ==> offsets[k] == old(offsets[k])
  {
    var hostsPerRow := if n < 40 then 8 else if n < 80 then 10 else if n < 160 then 12 else 16;
    var numRows := n / hostsPerRow;
    RowArithmetic(n, n);
    var xLimit := -1.0 * X_STEP * (hostsPerRow as real - 1.0) / 2.0;
    var yLimit := Y_STEP * (numRows as real - 1.0) / 2.0;
    assert hostsPerRow == HostsPerRow(n) && numRows == NumRows(n);
    var row := 0;
    while row < numRows
      invariant 0 <= row <= numRows
      invariant TilesWritten(offsets[..], n, RowFirst(n, row))
      invariant forall k :: 2 * n <= k < offsets.Length ==> offsets[k] == old(offsets[k])
    {
      WriteFullRow(offsets, n, row, hostsPerRow, xLimit, yLimit);
      row := row + 1;
    }
    WritePartialRow(offsets, n, numRows, hostsPerRow, yLimit);
  }

  /** The hit test's box for a tile at (x, y): the open rectangle
      (x - W/2, x + W/2) x (y - H, y). */
  predicate InHitBox(tx: real, ty: real, x: real, y: real)
  {
    x - HOST_WIDTH / 2.0 < tx < x + HOST_WIDTH / 2.0 && y - HOST_HEIGHT < ty < y
  }

  /** The host quad as drawn around an offset: (x - W/2, x + W/2) x (y - H/2, y + H/2). */
  predicate InDrawnQuad(tx: real, ty: real, x: real, y: real)
  {
    x - HOST_WIDTH / 2.0 < tx < x + HOST_WIDTH / 2.0 && y - HOST_HEIGHT / 2.0 < ty < y + HOST_HEIGHT / 2.0
  }

  /** The hit band is not the drawn tile: the upper quarter of a tile is not
      selectable, and a band below it is. */
  lemma HitBandIsNotDrawnQuad(x: real, y: real)
    ensures InDrawnQuad(x, y + HOST_HEIGHT / 4.0, x, y) && !InHitBox(x, y + HOST_HEIGHT / 4.0, x, y)
    ensures InHitBox(x, y - 3.0 * HOST_HEIGHT / 4.0, x, y) && !InDrawnQuad(x, y - 3.0 * HOST_HEIGHT / 4.0, x, y)
  {
  }

  /** Tile i of an offsets table holds a hit. */
  predicate HitAt(offs: seq<real>, i: nat, tx: real, ty: real)
    requires 2 * i + 1 < |offs|
  {
    InHitBox(tx, ty, offs[2 * i], offs[2 * i + 1])
  }

  /** `hit` is what the first-match loop over `count` tiles selects: the
      smallest hit tile, or -1 when no tile is hit. */
  predicate IsFirstHit(offs: seq<real>, count: nat, tx: real, ty: real, hit: int)
    requires 2 * count <= |offs|
  {
    (hit == -1 && forall i :: 0 <= i < count ==> !HitAt(offs, i, tx, ty)) ||
    (0 <= hit < count && HitAt(offs, hit, tx, ty) &&
     forall i :: 0 <= i < hit ==> !HitAt(offs, i, tx, ty))
  }

  /** No point lies in the hit boxes of two different tiles: tiles of one row
      are X_STEP > W apart, and rows are Y_STEP > H apart. */
  lemma {:induction false} HitBoxesDisjoint(n: nat, i: nat, j: nat, tx: real, ty: real)
    requires i < n && j < n && i != j
    ensures !(InHitBox(tx, ty, TileX(n, i), TileY(n, i)) && InHitBox(tx, ty, TileX(n, j), TileY(n, j)))
  {
    RowPartition(n, i);
    RowPartition(n, j);
    PositionsApart(n, Row(n, i), Col(n, i), Row(n, j), Col(n, j), tx, ty);
  }

  /** Two distinct grid positions have disjoint hit boxes. */
  lemma PositionsApart(n: nat, r: nat, c: nat, r': nat, c': nat, tx: real, ty: real)
    requires r != r' || c != c'
    ensures !(InHitBox(tx, ty, PosX(n, r, c), PosY(n, r)) && InHitBox(tx, ty, PosX(n, r', c'), PosY(n, r')))
  {
    if r == r' {
      assert PosX(n, r, c) - PosX(n, r', c') == (c as real - c' as real) * X_STEP;
    }
  }

  /** On the grid layout the first match is the only match: a selected tile
      is the one tile under the target, and -1 means no tile is under it. */
  lemma {:induction false} FirstHitIsOnlyHit(n: nat, tx: real, ty: real, hit: int)
    requires IsFirstHit(Layout(n), n, tx, ty, hit)
    ensures hit == -1 <==> forall i :: 0 <= i < n ==> !InHitBox(tx, ty, TileX(n, i), TileY(n, i))
    ensures hit >= 0 ==> forall i :: 0 <= i < n ==> (InHitBox(tx, ty, TileX(n, i), TileY(n, i)) <==> i == hit)
  {
    var offs := Layout(n);
    forall i | 0 <= i < n
      ensures HitAt(offs, i, tx, ty) == InHitBox(tx, ty, TileX(n, i), TileY(n, i))
    {
      assert offs[2 * i] == TileX(n, i) && offs[2 * i + 1] == TileY(n, i);
    }
    if hit >= 0 {
      forall i | 0 <= i < n && i != hit
        ensures !InHitBox(tx, ty, TileX(n, i), TileY(n, i))
      {
        HitBoxesDisjoint(n, i, hit, tx, ty);
      }
    }
  }

  /** One host sits alone at (0, -Y_STEP/2); twelve hosts make one full row of
      eight at y = 0 and a row of four below it. */
  lemma SmallLayouts()
    ensures TileX(1, 0) == 0.0 && TileY(1, 0) == -0.525
    ensures TileX(12, 0) == -2.625 && TileX(12, 7) == 2.625 && TileY(12, 7) == 0.0
    ensures TileX(12, 8) == -1.125 && TileX(12, 11) == 1.125 && TileY(12, 8) == -1.05
  {
  }
}
