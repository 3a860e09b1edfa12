/**
 * The grid laid over geographic coordinates (src/grid.ts). Coordinates are
 * exact reals here, so every statement below holds under exact arithmetic;
 * the source divides and multiplies IEEE doubles.
 */
module Grid {
  import opened State

  /** Edge length of one cell, in degrees. */
  const CELL_SIZE_DEG: real := 0.0002

  /** The cell containing a point: floor division of both coordinates. */
  function LatLngToCellId(ll: LatLng): (id: CellId)
    ensures id.x as real * CELL_SIZE_DEG <= ll.lng < (id.x + 1) as real * CELL_SIZE_DEG
    ensures id.y as real * CELL_SIZE_DEG <= ll.lat < (id.y + 1) as real * CELL_SIZE_DEG
  {
    CellId((ll.lng / CELL_SIZE_DEG).Floor, (ll.lat / CELL_SIZE_DEG).Floor)
  }

  /** `[[south, west], [north, east]]` of a cell. */
  datatype CellBounds = CellBounds(south: real, west: real, north: real, east: real)

  function CellIdToBounds(id: CellId): (b: CellBounds)
    ensures b.north - b.south == CELL_SIZE_DEG && b.east - b.west == CELL_SIZE_DEG
    ensures LatLngToCellId(LatLng(b.south, b.west)) == id
  {
    var south := id.y as real * CELL_SIZE_DEG;
    var west := id.x as real * CELL_SIZE_DEG;
    CellBounds(south, west, south + CELL_SIZE_DEG, west + CELL_SIZE_DEG)
  }

  /** A point lies in the cell's bounds (south and west edges included,
      north and east excluded) exactly when it maps to that cell. */
  lemma PointInCellBounds(p: LatLng, id: CellId)
    ensures var b := CellIdToBounds(id);
      LatLngToCellId(p) == id <==> b.south <= p.lat < b.north && b.west <= p.lng < b.east
  {
    var b := CellIdToBounds(id);
    if b.south <= p.lat < b.north && b.west <= p.lng < b.east {
      FloorUnique(p.lng / CELL_SIZE_DEG, id.x);
      FloorUnique(p.lat / CELL_SIZE_DEG, id.y);
    }
  }

  lemma FloorUnique(r: real, k: int)
    requires k as real <= r < (k + 1) as real
    ensures r.Floor == k
  {
  }

  function Abs(n: int): nat {
    if n < 0 then -n else n
  }

  function AbsReal(r: real): real {
    if r < 0.0 then -r else r
  }

  /** The cell `id` shifted by `(dx, dy)`. */
  function Offset(id: CellId, dx: int, dy: int): CellId {
    CellId(id.x + dx, id.y + dy)
  }

  /** Grid distance used for the interaction range. */
  function Manhattan(a: CellId, b: CellId): (d: nat)
    ensures d == 0 <==> a == b
  {
    Abs(a.x - b.x) + Abs(a.y - b.y)
  }

  lemma ManhattanSymmetric(a: CellId, b: CellId)
    ensures Manhattan(a, b) == Manhattan(b, a)
  {
  }

  lemma ManhattanTriangle(a: CellId, b: CellId, c: CellId)
    ensures Manhattan(a, c) <= Manhattan(a, b) + Manhattan(b, c)
  {
  }

  /** The viewport handed to `enumerateCellsInBounds`. */
  datatype MapBounds = MapBounds(south: real, north: real, west: real, east: real)

  /** `Row(y, x0, x1)`: the cells `(x0, y), ..., (x1, y)`, x ascending. */
  function Row(y: int, x0: int, x1: int): seq<CellId>
    decreases x1 - x0 + 1
  {
    if x1 < x0 then [] else Row(y, x0, x1 - 1) + [CellId(x1, y)]
  }

  /** Rows `lo.y .. y1` of the rectangle with columns `lo.x .. hi.x`, in row-major order. */
  function Rows(lo: CellId, hi: CellId, y1: int): seq<CellId>
    decreases y1 - lo.y + 1
  {
    if y1 < lo.y then [] else Rows(lo, hi, y1 - 1) + Row(y1, lo.x, hi.x)
  }

  /** Number of integers in `lo .. hi`. */
  function Span(lo: int, hi: int): nat {
    if hi < lo then 0 else hi - lo + 1
  }

  /** Strict row-major order: y first, then x. */
  predicate Before(a: CellId, b: CellId) {
    a.y < b.y || (a.y == b.y && a.x < b.x)
  }

  predicate InRect(c: CellId, lo: CellId, hi: CellId) {
    lo.x <= c.x <= hi.x && lo.y <= c.y <= hi.y
  }

  /** A cell `[x*C, (x+1)*C) x [y*C, (y+1)*C)` meets the closed viewport. */
  predicate MeetsViewport(c: CellId, b: MapBounds) {
    && b.west < (c.x + 1) as real * CELL_SIZE_DEG && c.x as real * CELL_SIZE_DEG <= b.east
    && b.south < (c.y + 1) as real * CELL_SIZE_DEG && c.y as real * CELL_SIZE_DEG <= b.north
  }

  lemma {:induction false} RowIndex(y: int, x0: int, x1: int)
    ensures |Row(y, x0, x1)| == Span(x0, x1)
    ensures forall i :: 0 <= i < |Row(y, x0, x1)| ==> Row(y, x0, x1)[i] == CellId(x0 + i, y)
    decreases x1 - x0 + 1
  {
    if x0 <= x1 {
      RowIndex(y, x0, x1 - 1);
    }
  }

  lemma {:induction false} RowsLength(lo: CellId, hi: CellId, y1: int)
    ensures |Rows(lo, hi, y1)| == Span(lo.x, hi.x) * Span(lo.y, y1)
    decreases y1 - lo.y + 1
  {
    if lo.y <= y1 {
      RowsLength(lo, hi, y1 - 1);
      RowIndex(y1, lo.x, hi.x);
      assert Span(lo.y, y1) == Span(lo.y, y1 - 1) + 1;
      assert Span(lo.x, hi.x) * Span(lo.y, y1) == Span(lo.x, hi.x) * Span(lo.y, y1 - 1) + Span(lo.x, hi.x);
    }
  }

  lemma {:induction false} RowsMembers(lo: CellId, hi: CellId, y1: int)
    ensures forall c :: c in Rows(lo, hi, y1) <==> InRect(c, lo, CellId(hi.x, y1))
    decreases y1 - lo.y + 1
  {
    if lo.y <= y1 {
      RowsMembers(lo, hi, y1 - 1);
      RowIndex(y1, lo.x, hi.x);
      var row := Row(y1, lo.x, hi.x);
      forall c | InRect(c, lo, CellId(hi.x, y1)) && c.y == y1 ensures c in row {
        assert row[c.x - lo.x] == c;
      }
    }
  }

  lemma {:induction false} RowsOrdered(lo: CellId, hi: CellId, y1: int)
    ensures forall i, j :: 0 <= i < j < |Rows(lo, hi, y1)| ==> Before(Rows(lo, hi, y1)[i], Rows(lo, hi, y1)[j])
    decreases y1 - lo.y + 1
  {
    if lo.y <= y1 {
      var prefix := Rows(lo, hi, y1 - 1);
      var row := Row(y1, lo.x, hi.x);
      var all := Rows(lo, hi, y1);
      RowsOrdered(lo, hi, y1 - 1);
      RowsMembers(lo, hi, y1 - 1);
      RowIndex(y1, lo.x, hi.x);
      forall i, j | 0 <= i < j < |all| ensures Before(all[i], all[j]) {
        if j < |prefix| {
          assert all[i] == prefix[i] && all[j] == prefix[j];
        } else if i < |prefix| {
          assert all[i] == prefix[i] && prefix[i] in prefix;
          assert all[j] == row[j - |prefix|];
        } else {
          assert all[i] == row[i - |prefix|] && all[j] == row[j - |prefix|];
        }
      }
    }
  }

  lemma FloorAtMost(r: real, k: int)
    ensures r.Floor <= k <==> r < (k + 1) as real
  {
  }

  lemma FloorAtLeast(r: real, k: int)
    ensures k <= r.Floor <==> k as real <= r
  {
  }

  /** The rectangle spanned by the corner cells is exactly the set of cells
      meeting the viewport. */
  lemma CornerRectIsViewport(b: MapBounds, c: CellId)
    ensures var lo, hi := LatLngToCellId(LatLng(b.south, b.west)), LatLngToCellId(LatLng(b.north, b.east));
      InRect(c, lo, hi) <==> MeetsViewport(c, b)
  {
    FloorAtMost(b.west / CELL_SIZE_DEG, c.x);
    FloorAtMost(b.south / CELL_SIZE_DEG, c.y);
    FloorAtLeast(b.east / CELL_SIZE_DEG, c.x);
    FloorAtLeast(b.north / CELL_SIZE_DEG, c.y);
  }

  /** Lists the cells of the viewport: the corner cells are computed and the
      integer rectangle between them is walked, y outer and x inner. */
  method EnumerateCellsInBounds(b: MapBounds) returns (ids: seq<CellId>)
    ensures forall c :: c in ids <==> MeetsViewport(c, b)
    ensures forall i, j :: 0 <= i < j < |ids| ==> Before(ids[i], ids[j])
    ensures var lo, hi := LatLngToCellId(LatLng(b.south, b.west)), LatLngToCellId(LatLng(b.north, b.east));
      |ids| == Span(lo.x, hi.x) * Span(lo.y, hi.y)
  {
    var lo := LatLngToCellId(LatLng(b.south, b.west));
    var hi := LatLngToCellId(LatLng(b.north, b.east));
    ids := [];
    var y := lo.y;
    while y <= hi.y
      invariant lo.y <= y && (y <= hi.y + 1 || y == lo.y)
      invariant ids == Rows(lo, hi, y - 1)
    {
      var x := lo.x;
      while x <= hi.x
        invariant lo.x <= x && (x <= hi.x + 1 || x == lo.x)
        invariant ids == Rows(lo, hi, y - 1) + Row(y, lo.x, x - 1)
      {
        ids := ids + [CellId(x, y)];
        x := x + 1;
      }
      y := y + 1;
    }
    assert ids == Rows(lo, hi, hi.y);
    RowsMembers(lo, hi, hi.y);
    RowsOrdered(lo, hi, hi.y);
    RowsLength(lo, hi, hi.y);
    forall c ensures c in ids <==> MeetsViewport(c, b) {
      CornerRectIsViewport(b, c);
    }
  }

  /** Row-major order is strict, so the enumeration never lists a cell twice. */
  lemma OrderedHasNoDuplicates(ids: seq<CellId>)
    requires forall i, j :: 0 <= i < j < |ids| ==> Before(ids[i], ids[j])
    ensures forall i, j :: 0 <= i < j < |ids| ==> ids[i] != ids[j]
  {
  }
}
