/** The category row-layout editor of the admin panel: rows of category cells,
    each cell `full`, `half` or `third` wide. Widths are integer thousandths of a
    row: full = 1000, half = 500, anything else = 333. A row overflows above 1010
    and counts as complete from 990 on. */
module Layout {
  import opened Js
  import Lists
  import Catalog

  /** What a cell holds in its `category` field: the category object itself
      (a default or freshly placed cell) or just its id (a layout as saved). */
  datatype CategoryRef = Embedded(cat: Catalog.Category) | ById(id: string)

  datatype Cell = Cell(category: CategoryRef, size: string)

  datatype Row = Row(rowOrder: int, cells: seq<Cell>)

  /** A row may not grow past this width. */
  const OverflowAbove: nat := 1010
  /** A row of at least this width is complete. */
  const CompleteAt: nat := 990

  /** `cat.layoutSize || 'half'` */
  function EffectiveSize(layoutSize: string): (s: string)
    ensures s != ""
    ensures layoutSize != "" ==> s == layoutSize
  {
    if layoutSize == "" then "half" else layoutSize
  }

  function Width(size: string): (w: nat)
    ensures w == 1000 || w == 500 || w == 333
  {
    if size == "full" then 1000 else if size == "half" then 500 else 333
  }

  /** `getRowWidth`: the summed width of a row's cells. */
  function RowWidth(cells: seq<Cell>): nat {
    if cells == [] then 0 else RowWidth(cells[..|cells| - 1]) + Width(cells[|cells| - 1].size)
  }

  lemma RowWidthAppend(cells: seq<Cell>, c: Cell)
    ensures RowWidth(cells + [c]) == RowWidth(cells) + Width(c.size)
  {
    assert (cells + [c])[..|cells|] == cells;
  }

  /** The cell a category gets when it is placed without an explicit size. */
  function CellOf(c: Catalog.Category): Cell {
    Cell(Embedded(c), EffectiveSize(c.layoutSize))
  }

  /** All cells of all rows, row by row. */
  function Flatten(rows: seq<Row>): seq<Cell> {
    if rows == [] then [] else Flatten(rows[..|rows| - 1]) + rows[|rows| - 1].cells
  }

  lemma FlattenAppend(rows: seq<Row>, r: Row)
    ensures Flatten(rows + [r]) == Flatten(rows) + r.cells
  {
    assert (rows + [r])[..|rows|] == rows;
  }

  /** Every row's `rowOrder` is its index. */
  predicate Numbered(rows: seq<Row>) {
    forall i :: 0 <= i < |rows| ==> rows[i].rowOrder == i
  }

  // ---------------------------------------------------------------- default packing

  /** A row as the default packing closes it: not empty, not overflowing, and
      not yet complete before its last cell. */
  predicate PackedRow(cells: seq<Cell>) {
    |cells| > 0
    && RowWidth(cells) <= OverflowAbove
    && RowWidth(cells[..|cells| - 1]) < CompleteAt
  }

  /** Widths are positive, so a longer prefix of a row is wider. */
  lemma {:induction false} RowWidthMonotone(cells: seq<Cell>, k: nat, m: nat)
    requires k <= m <= |cells|
    ensures RowWidth(cells[..k]) <= RowWidth(cells[..m])
    ensures k < m ==> RowWidth(cells[..k]) < RowWidth(cells[..m])
    decreases m
  {
    if k < m {
      assert cells[..m][..m - 1] == cells[..m - 1];
      RowWidthMonotone(cells, k, m - 1);
    }
  }

  /** A packed row was never complete before it was closed: no proper prefix of
      it reaches the completion width. */
  lemma PackedRowPrefixes(cells: seq<Cell>, k: nat)
    requires PackedRow(cells)
    requires 0 < k < |cells|
    ensures RowWidth(cells[..k]) < CompleteAt
  {
    RowWidthMonotone(cells, k, |cells| - 1);
  }

  /** A row was closed before `next` either because it was complete or because
      `next` would have made it overflow. */
  predicate ClosedBefore(cells: seq<Cell>, next: Cell) {
    RowWidth(cells) >= CompleteAt || RowWidth(cells) + Width(next.size) > OverflowAbove
  }

  /** No row could have taken the first cell of the row after it. */
  predicate Greedy(rows: seq<Row>) {
    forall i :: 0 <= i < |rows| - 1 ==> rows[i + 1].cells != [] ==> ClosedBefore(rows[i].cells, rows[i + 1].cells[0])
  }

  /** The rows as the default packing closes them, row by row: each row is
      numbered by its index, packed, and was closed before the first cell of the
      row after it. */
  predicate RowsClosed(rows: seq<Row>) {
    rows == [] ||
      (var last := rows[|rows| - 1];
       RowsClosed(rows[..|rows| - 1])
       && last.rowOrder == |rows| - 1
       && PackedRow(last.cells)
       && (|rows| > 1 ==> ClosedBefore(rows[|rows| - 2].cells, last.cells[0])))
  }

  /** What `RowsClosed` means for the whole layout: numbered, every row packed,
      and greedy. */
  lemma {:induction false} RowsClosedMeans(rows: seq<Row>)
    requires RowsClosed(rows)
    ensures Numbered(rows)
    ensures forall i :: 0 <= i < |rows| ==> PackedRow(rows[i].cells)
    ensures Greedy(rows)
  {
    if rows != [] {
      var init := rows[..|rows| - 1];
      RowsClosedMeans(init);
      assert forall i :: 0 <= i < |init| ==> rows[i] == init[i];
    }
  }

  /** The state of `createDefaultLayouts` between two categories: `done` are the
      cells placed so far, in the closed rows and then in the open row `current`,
      which is not complete. */
  ghost predicate Packing(result: seq<Row>, current: Row, done: seq<Cell>) {
    RowsClosed(result)
    && Flatten(result) + current.cells == done
    && current.rowOrder == |result|
    && RowWidth(current.cells) < CompleteAt
    && (|result| > 0 && current.cells != [] ==> ClosedBefore(result[|result| - 1].cells, current.cells[0]))
  }

  /** The state just after a cell was put in the open row. */
  ghost predicate Filled(result: seq<Row>, current: Row, done: seq<Cell>) {
    RowsClosed(result)
    && Flatten(result) + current.cells == done
    && current.rowOrder == |result|
    && PackedRow(current.cells)
    && (|result| > 0 ==> ClosedBefore(result[|result| - 1].cells, current.cells[0]))
  }

  /** Closing a packed open row keeps the closed rows well formed. */
  lemma CloseRow(result: seq<Row>, current: Row, done: seq<Cell>)
    requires Filled(result, current, done)
    ensures RowsClosed(result + [current])
    ensures Flatten(result + [current]) == done
  {
    FlattenAppend(result, current);
    assert (result + [current])[..|result|] == result;
  }

  /** The next cell overflows the open row: the row is closed and a new one opened. */
  lemma OverflowStep(result: seq<Row>, current: Row, done: seq<Cell>, c: Cell)
    requires Packing(result, current, done)
    requires RowWidth(current.cells) + Width(c.size) > OverflowAbove
    ensures current.cells != []
    ensures Packing(result + [current], Row(|result| + 1, []), done)
    ensures ClosedBefore(current.cells, c)
  {
    RowWidthMonotone(current.cells, |current.cells| - 1, |current.cells|);
    assert current.cells[..|current.cells|] == current.cells;
    CloseRow(result, current, done);
  }

  /** The next cell fits: it is appended to the open row. */
  lemma AppendStep(result: seq<Row>, current: Row, done: seq<Cell>, c: Cell)
    requires Packing(result, current, done)
    requires RowWidth(current.cells) + Width(c.size) <= OverflowAbove
    requires |result| > 0 && current.cells == [] ==> ClosedBefore(result[|result| - 1].cells, c)
    ensures Filled(result, current.(cells := current.cells + [c]), done + [c])
    ensures RowWidth(current.cells + [c]) == RowWidth(current.cells) + Width(c.size)
  {
    RowWidthAppend(current.cells, c);
    assert (current.cells + [c])[..|current.cells|] == current.cells;
  }

  /** After the append: a complete row is closed, otherwise it stays open. */
  lemma SettleStep(result: seq<Row>, current: Row, done: seq<Cell>)
    requires Filled(result, current, done)
    ensures RowWidth(current.cells) >= CompleteAt ==> Packing(result + [current], Row(|result| + 1, []), done)
    ensures RowWidth(current.cells) < CompleteAt ==> Packing(result, current, done)
  {
    if RowWidth(current.cells) >= CompleteAt {
      CloseRow(result, current, done);
    }
  }

  /** A row that was closed while the open row is still empty was complete. */
  ghost predicate LastComplete(result: seq<Row>, current: Row) {
    |result| > 0 && current.cells == [] ==> RowWidth(result[|result| - 1].cells) >= CompleteAt
  }

  /** First half of a loop turn: when `cell` would overflow the open row, the
      row is closed and an empty one opened. */
  method ResetIfOverflow(result: seq<Row>, current: Row, width: nat, cell: Cell, ghost done: seq<Cell>)
    returns (result': seq<Row>, current': Row, width': nat)
    requires Packing(result, current, done) && LastComplete(result, current)
    requires width == RowWidth(current.cells)
    ensures Packing(result', current', done)
    ensures width' == RowWidth(current'.cells)
    ensures width' + Width(cell.size) <= OverflowAbove
    ensures |result'| > 0 && current'.cells == [] ==> ClosedBefore(result'[|result'| - 1].cells, cell)
  {
    result', current', width' := result, current, width;
    if width + Width(cell.size) > OverflowAbove {
      OverflowStep(result, current, done, cell);
      if |current.cells| > 0 {
        result' := result + [current];
      }
      current' := Row(|result'|, []);
      width' := 0;
    }
  }

  /** Second half of a loop turn: `cell` joins the open row, which is closed
      once it is complete. */
  method AppendCell(result: seq<Row>, current: Row, width: nat, cell: Cell, ghost done: seq<Cell>)
    returns (result': seq<Row>, current': Row, width': nat)
    requires Packing(result, current, done)
    requires width == RowWidth(current.cells)
    requires width + Width(cell.size) <= OverflowAbove
    requires |result| > 0 && current.cells == [] ==> ClosedBefore(result[|result| - 1].cells, cell)
    ensures Packing(result', current', done + [cell]) && LastComplete(result', current')
    ensures width' == RowWidth(current'.cells)
    ensures result' != [] || current'.cells != []
  {
    AppendStep(result, current, done, cell);
    current' := current.(cells := current.cells + [cell]);
    width' := width + Width(cell.size);
    SettleStep(result, current', done + [cell]);
    result' := result;
    if width' >= CompleteAt {
      result' := result + [current'];
      current' := Row(|result'|, []);
      width' := 0;
    }
  }

  /** Closing the last open row, if any, ends the packing. */
  lemma FinishPacking(result: seq<Row>, current: Row, done: seq<Cell>)
    requires Packing(result, current, done)
    ensures current.cells != [] ==> RowsClosed(result + [current]) && Flatten(result + [current]) == done
    ensures current.cells == [] ==> Flatten(result) == done
  {
    if current.cells != [] {
      RowWidthMonotone(current.cells, |current.cells| - 1, |current.cells|);
      assert current.cells[..|current.cells|] == current.cells;
      CloseRow(result, current, done);
    }
  }

  /** The loop of `createDefaultLayouts`: every category placed, the last row
      possibly still open. */
  method PackRows(cells: seq<Cell>) returns (result: seq<Row>, current: Row)
    ensures Packing(result, current, cells)
    ensures cells != [] ==> result != [] || current.cells != []
  {
    result := [];
    current := Row(0, []);
    var width: nat := 0;
    var i := 0;
    while i < |cells|
      invariant 0 <= i <= |cells|
      invariant Packing(result, current, cells[..i])
      invariant width == RowWidth(current.cells)
      invariant LastComplete(result, current)
      invariant i > 0 ==> result != [] || current.cells != []
    {
      assert cells[..i + 1] == cells[..i] + [cells[i]];
      result, current, width := ResetIfOverflow(result, current, width, cells[i], cells[..i]);
      result, current, width := AppendCell(result, current, width, cells[i], cells[..i]);
      i := i + 1;
    }
    assert cells[..|cells|] == cells;
  }

  /** `createDefaultLayouts`: packs the categories, in order, into rows, each
      cell sized by the category's `layoutSize` or `half`. */
  method CreateDefaultLayouts(cats: seq<Catalog.Category>) returns (result: seq<Row>)
    ensures Flatten(result) == Lists.Map(cats, CellOf)
    ensures (result == []) == (cats == [])
    ensures RowsClosed(result)
    ensures Numbered(result)
    ensures forall i :: 0 <= i < |result| ==> PackedRow(result[i].cells)
    ensures Greedy(result)
  {
    var current;
    result, current := PackRows(Lists.Map(cats, CellOf));
    FinishPacking(result, current, Lists.Map(cats, CellOf));
    if |current.cells| > 0 {
      result := result + [current];
    }
    RowsClosedMeans(result);
  }

  // ---------------------------------------------------------------- row editing

  /** `.map((l, i) => ({ ...l, rowOrder: i }))` */
  function Renumber(rows: seq<Row>): (r: seq<Row>)
    ensures |r| == |rows| && Numbered(r)
    ensures forall i :: 0 <= i < |r| ==> r[i].cells == rows[i].cells
  {
    seq(|rows|, i requires 0 <= i < |rows| => rows[i].(rowOrder := i))
  }

  /** Rows with the same cells, row by row, show the same cells in all. */
  lemma {:induction false} FlattenSameCells(a: seq<Row>, b: seq<Row>)
    requires |a| == |b|
    requires forall i :: 0 <= i < |a| ==> a[i].cells == b[i].cells
    ensures Flatten(a) == Flatten(b)
  {
    if a != [] {
      FlattenSameCells(a[..|a| - 1], b[..|b| - 1]);
    }
  }

  lemma {:induction false} FlattenConcat(a: seq<Row>, b: seq<Row>)
    ensures Flatten(a + b) == Flatten(a) + Flatten(b)
    decreases |b|
  {
    if b == [] {
      assert a + b == a;
    } else {
      assert (a + b)[..|a + b| - 1] == a + b[..|b| - 1];
      FlattenConcat(a, b[..|b| - 1]);
    }
  }

  /** `addRow`: one empty row at the end, numbered after the others. */
  function EmptyRowAdded(rows: seq<Row>): (r: seq<Row>)
    ensures |r| == |rows| + 1 && r[..|rows|] == rows
    ensures r[|rows|].cells == [] && r[|rows|].rowOrder == |rows|
  {
    rows + [Row(|rows|, [])]
  }

  /** An added row changes neither the cells shown nor the numbering. */
  lemma EmptyRowAddedKeeps(rows: seq<Row>)
    ensures Flatten(EmptyRowAdded(rows)) == Flatten(rows)
    ensures Numbered(rows) ==> Numbered(EmptyRowAdded(rows))
  {
    FlattenAppend(rows, Row(|rows|, []));
  }

  /** `removeRow`: the row at index `k` is dropped (nothing is dropped when `k`
      is no index) and the rest are renumbered. */
  function RowDropped(rows: seq<Row>, k: int): (r: seq<Row>)
    ensures Numbered(r)
    ensures 0 <= k < |rows| ==> (|r| == |rows| - 1
      && (forall i :: 0 <= i < k ==> r[i].cells == rows[i].cells)
      && (forall i :: k <= i < |r| ==> r[i].cells == rows[i + 1].cells))
    ensures !(0 <= k < |rows|) ==> |r| == |rows| && forall i :: 0 <= i < |r| ==> r[i].cells == rows[i].cells
  {
    Renumber(if 0 <= k < |rows| then rows[..k] + rows[k + 1..] else rows)
  }

  /** Removing a row removes exactly that row's cells from the layout. */
  lemma RowDroppedCells(rows: seq<Row>, k: int)
    requires 0 <= k < |rows|
    ensures Flatten(RowDropped(rows, k)) == Flatten(rows[..k]) + Flatten(rows[k + 1..])
  {
    var kept := rows[..k] + rows[k + 1..];
    FlattenSameCells(RowDropped(rows, k), kept);
    FlattenConcat(rows[..k], rows[k + 1..]);
  }

  /** The cell lists of the rows, in row order. */
  function Shape(rows: seq<Row>): (r: seq<seq<Cell>>)
    ensures |r| == |rows| && forall i :: 0 <= i < |r| ==> r[i] == rows[i].cells
  {
    seq(|rows|, i requires 0 <= i < |rows| => rows[i].cells)
  }

  /** `moveRow`: the row at `k` swaps places with its neighbour `k + d`; when
      there is no such row nothing changes, not even the numbering. */
  function RowSwapped(rows: seq<Row>, k: int, d: int): (r: seq<Row>)
    requires 0 <= k < |rows|
    ensures !(0 <= k + d < |rows|) ==> r == rows
    ensures 0 <= k + d < |rows| ==> (Numbered(r) && |r| == |rows|
      && r[k].cells == rows[k + d].cells && r[k + d].cells == rows[k].cells
      && (forall i :: 0 <= i < |r| && i != k && i != k + d ==> r[i].cells == rows[i].cells))
  {
    var t := k + d;
    if t < 0 || t >= |rows| then rows
    else Renumber(rows[k := rows[t]][t := rows[k]])
  }

  /** Moving a row only reorders the rows' cells. */
  lemma RowSwappedPermutes(rows: seq<Row>, k: int, d: int)
    requires 0 <= k < |rows|
    ensures multiset(Shape(RowSwapped(rows, k, d))) == multiset(Shape(rows))
  {
    var t := k + d;
    if 0 <= t < |rows| {
      var swapped := rows[k := rows[t]][t := rows[k]];
      assert Shape(Renumber(swapped)) == Shape(swapped) == Shape(rows)[k := rows[t].cells][t := rows[k].cells];
    }
  }

  /** Moving a row and then moving it back restores a numbered layout. */
  lemma RowSwappedBack(rows: seq<Row>, k: int, d: int)
    requires Numbered(rows)
    requires 0 <= k < |rows| && 0 <= k + d < |rows|
    ensures RowSwapped(RowSwapped(rows, k, d), k + d, -d) == rows
  {
    var r := RowSwapped(RowSwapped(rows, k, d), k + d, -d);
    forall i | 0 <= i < |rows| ensures r[i] == rows[i] {
      RowSwappedBackAt(rows, k, d, i);
    }
  }

  /** One row of `RowSwappedBack`. */
  lemma RowSwappedBackAt(rows: seq<Row>, k: int, d: int, i: int)
    requires Numbered(rows)
    requires 0 <= k < |rows| && 0 <= k + d < |rows| && 0 <= i < |rows|
    ensures RowSwapped(RowSwapped(rows, k, d), k + d, -d)[i] == rows[i]
  {
    var once := RowSwapped(rows, k, d);
    var r := RowSwapped(once, k + d, -d);
    assert r[i].rowOrder == i == rows[i].rowOrder;
    if i == k {
      assert r[i].cells == once[k + d].cells == rows[k].cells;
    } else if i == k + d {
      assert r[i].cells == once[k].cells == rows[k + d].cells;
    } else {
      assert r[i].cells == once[i].cells == rows[i].cells;
    }
  }

  /** `addCategoryToRow`: the cell is pushed onto row `ri`; no other row changes. */
  function AddCell(rows: seq<Row>, ri: int, cell: Cell): (r: seq<Row>)
    requires 0 <= ri < |rows|
    ensures |r| == |rows|
    ensures r[ri].rowOrder == rows[ri].rowOrder && r[ri].cells == rows[ri].cells + [cell]
    ensures forall i :: 0 <= i < |r| && i != ri ==> r[i] == rows[i]
  {
    rows[ri := rows[ri].(cells := rows[ri].cells + [cell])]
  }

  /** `splice(j, 1)` on a list: removes the element at `j`, counting a negative
      `j` from the end and clamping it at the front; removes nothing when `j` is
      past the end. */
  function SpliceOne<T>(s: seq<T>, j: int): (r: seq<T>)
    ensures |s| > 0 && j < |s| ==> |r| == |s| - 1
    ensures 0 <= j < |s| ==> r == s[..j] + s[j + 1..]
    ensures -|s| <= j < 0 ==> r == s[..|s| + j] + s[|s| + j + 1..]
    ensures j < -|s| && |s| > 0 ==> r == s[1..]
    ensures j >= |s| ==> r == s
  {
    var start := if j < 0 then (if |s| + j < 0 then 0 else |s| + j) else j;
    if start < |s| then s[..start] + s[start + 1..] else s
  }

  /** `removeCategoryFromRow`: row `ri` loses the cell that `splice(j, 1)`
      removes; no other row changes. */
  function RemoveCell(rows: seq<Row>, ri: int, j: int): (r: seq<Row>)
    requires 0 <= ri < |rows|
    ensures |r| == |rows|
    ensures r[ri].rowOrder == rows[ri].rowOrder && r[ri].cells == SpliceOne(rows[ri].cells, j)
    ensures forall i :: 0 <= i < |r| && i != ri ==> r[i] == rows[i]
  {
    rows[ri := rows[ri].(cells := SpliceOne(rows[ri].cells, j))]
  }

  /** Removing the cell just added undoes the addition. */
  lemma RemoveAddedCell(rows: seq<Row>, ri: int, cell: Cell)
    requires 0 <= ri < |rows|
    ensures RemoveCell(AddCell(rows, ri, cell), ri, |rows[ri].cells|) == rows
    ensures RemoveCell(AddCell(rows, ri, cell), ri, -1) == rows
  {
    var cells := rows[ri].cells + [cell];
    assert cells[..|rows[ri].cells|] == rows[ri].cells;
    assert cells[|rows[ri].cells| + 1..] == [];
    var r := RemoveCell(AddCell(rows, ri, cell), ri, -1);
    assert r[ri] == rows[ri];
  }

  /** `changeCategorySize`: cell `j` of row `ri` gets the new size; it keeps its
      category and every other cell and row stays as it was. */
  function ChangeSize(rows: seq<Row>, ri: int, j: int, size: string): (r: seq<Row>)
    requires 0 <= ri < |rows| && 0 <= j < |rows[ri].cells|
    ensures |r| == |rows| && r[ri].rowOrder == rows[ri].rowOrder
    ensures |r[ri].cells| == |rows[ri].cells|
    ensures r[ri].cells[j] == Cell(rows[ri].cells[j].category, size)
    ensures forall c :: 0 <= c < |r[ri].cells| && c != j ==> r[ri].cells[c] == rows[ri].cells[c]
    ensures forall i :: 0 <= i < |r| && i != ri ==> r[i] == rows[i]
  {
    rows[ri := rows[ri].(cells := rows[ri].cells[j := rows[ri].cells[j].(size := size)])]
  }

  /** Setting a cell back to its old size restores the layout. */
  lemma ChangeSizeBack(rows: seq<Row>, ri: int, j: int, size: string)
    requires 0 <= ri < |rows| && 0 <= j < |rows[ri].cells|
    ensures ChangeSize(ChangeSize(rows, ri, j, size), ri, j, rows[ri].cells[j].size) == rows
  {
    var r := ChangeSize(ChangeSize(rows, ri, j, size), ri, j, rows[ri].cells[j].size);
    assert r[ri].cells == rows[ri].cells;
  }

  // ---------------------------------------------------------------- used and unused categories

  /** `c.category?.id || c.category?._id || c.category` as far as it can equal a
      category id: the embedded category's id, or the stored id; `None` when that
      is empty. */
  function RefId(r: CategoryRef): (o: Option<string>)
    ensures o.Some? ==> o.value != ""
  {
    match r
    case Embedded(cat) => if cat.id != "" then Some(cat.id) else None
    case ById(id) => if id != "" then Some(id) else None
  }

  /** The non-empty ids the cells refer to, in order (`flatMap(...).filter(Boolean)`). */
  function CellIds(cells: seq<Cell>): (ids: seq<string>)
    ensures forall id :: id in ids <==> exists i :: 0 <= i < |cells| && RefId(cells[i].category) == Some(id)
  {
    if cells == [] then []
    else
      var rest := CellIds(cells[1..]);
      assert forall i :: 0 < i < |cells| ==> cells[i] == cells[1..][i - 1];
      match RefId(cells[0].category)
      case Some(id) => [id] + rest
      case None => rest
  }

  /** `usedCategoryIds` */
  function UsedIds(rows: seq<Row>): seq<string> {
    CellIds(Flatten(rows))
  }

  /** `unusedCategories`: the categories, in order, whose id no cell uses. */
  function UnusedCategories(cats: seq<Catalog.Category>, rows: seq<Row>): seq<Catalog.Category> {
    var used := UsedIds(rows);
    Lists.Filter(cats, (c: Catalog.Category) => c.id !in used)
  }

  /** A category is unused exactly when it is listed and no cell of any row
      refers to its id. */
  lemma UnusedIff(cats: seq<Catalog.Category>, rows: seq<Row>, c: Catalog.Category)
    ensures c in UnusedCategories(cats, rows) <==>
      c in cats && forall cell :: cell in Flatten(rows) ==> RefId(cell.category) != Some(c.id)
  {
    var cells := Flatten(rows);
    var u := UnusedCategories(cats, rows);
    if c in u {
      var k :| 0 <= k < |u| && u[k] == c;
    }
    if c in cats && forall cell :: cell in cells ==> RefId(cell.category) != Some(c.id) {
      var k :| 0 <= k < |cats| && cats[k] == c;
      if c.id in CellIds(cells) {
        var i :| 0 <= i < |cells| && RefId(cells[i].category) == Some(c.id);
        assert cells[i] in cells;
      }
    }
  }

  /** The click on an unused category: it starts the first row, joins the last
      row while that is short of complete, or starts a new row. */
  function ClickUnused(rows: seq<Row>, cat: Catalog.Category): (r: seq<Row>)
    ensures rows == [] ==> r == [Row(0, [CellOf(cat)])]
    ensures rows != [] && RowWidth(rows[|rows| - 1].cells) < CompleteAt ==> r == AddCell(rows, |rows| - 1, CellOf(cat))
    ensures rows != [] && RowWidth(rows[|rows| - 1].cells) >= CompleteAt ==> r == EmptyRowAdded(rows)[|rows| := Row(|rows|, [CellOf(cat)])]
  {
    if rows == [] then [Row(0, [CellOf(cat)])]
    else if RowWidth(rows[|rows| - 1].cells) < CompleteAt then AddCell(rows, |rows| - 1, CellOf(cat))
    else rows + [Row(|rows|, [CellOf(cat)])]
  }

  /** The click places exactly the clicked category, after every cell already
      placed, and keeps the layout numbered. */
  lemma ClickUnusedPlaces(rows: seq<Row>, cat: Catalog.Category)
    ensures Flatten(ClickUnused(rows, cat)) == Flatten(rows) + [CellOf(cat)]
    ensures Numbered(rows) ==> Numbered(ClickUnused(rows, cat))
  {
    var c := CellOf(cat);
    if rows == [] {
      assert Flatten([Row(0, [c])]) == Flatten([]) + [c];
    } else if RowWidth(rows[|rows| - 1].cells) < CompleteAt {
      var init := rows[..|rows| - 1];
      var last := rows[|rows| - 1];
      var r := ClickUnused(rows, cat);
      assert r == init + [last.(cells := last.cells + [c])];
      assert rows == init + [last];
      FlattenAppend(init, last);
      FlattenAppend(init, last.(cells := last.cells + [c]));
    } else {
      FlattenAppend(rows, Row(|rows|, [c]));
    }
  }

  /** After the click the category, if it has an id, is no longer unused. */
  lemma ClickedIsUsed(cats: seq<Catalog.Category>, rows: seq<Row>, cat: Catalog.Category)
    requires cat.id != ""
    ensures cat !in UnusedCategories(cats, ClickUnused(rows, cat))
  {
    var r := ClickUnused(rows, cat);
    ClickUnusedPlaces(rows, cat);
    var cells := Flatten(r);
    assert cells[|cells| - 1] == CellOf(cat);
    UnusedIff(cats, r, cat);
  }

  /** The row "add category" menu: `categories.find(c => c.id === id)`, then
      `addCategoryToRow` when one is found. */
  function PickForRow(cats: seq<Catalog.Category>, rows: seq<Row>, ri: int, id: string): (r: seq<Row>)
    requires 0 <= ri < |rows|
    ensures (forall k :: 0 <= k < |cats| ==> cats[k].id != id) ==> r == rows
    ensures forall k :: 0 <= k < |cats| && cats[k].id == id && (forall m :: 0 <= m < k ==> cats[m].id != id) ==>
      r == AddCell(rows, ri, CellOf(cats[k]))
  {
    var k := Lists.FindIndex(cats, (c: Catalog.Category) => c.id == id);
    if k < 0 then rows else AddCell(rows, ri, CellOf(cats[k]))
  }

  // ---------------------------------------------------------------- sizes

  /** `getGridSize`: columns of a 12-column grid. */
  function GridSize(size: string): (n: nat)
    ensures n == 12 || n == 6 || n == 4
  {
    if size == "full" then 12 else if size == "half" then 6 else 4
  }

  /** `getLayoutLabel` */
  function LayoutLabel(size: string): (l: string)
    ensures l == "Tam" <==> size == "full"
    ensures l == "1/3" <==> size == "third"
    ensures size != "full" && size != "third" ==> l == "1/2"
  {
    if size == "full" then "Tam"
    else if size == "half" then "1/2"
    else if size == "third" then "1/3"
    else "1/2"
  }

  /** `n` cells of one size. */
  function Uniform(cat: CategoryRef, size: string, n: nat): (r: seq<Cell>)
    ensures |r| == n && forall i :: 0 <= i < n ==> r[i] == Cell(cat, size)
  {
    seq(n, i => Cell(cat, size))
  }

  /** The grid sizes and the widths agree: a row of `12 / GridSize(size)` cells of
      one size fills the grid and is exactly what the packing calls complete. */
  lemma UniformRowComplete(cat: CategoryRef, size: string)
    ensures 12 / GridSize(size) * GridSize(size) == 12
    ensures CompleteAt <= RowWidth(Uniform(cat, size, 12 / GridSize(size))) <= OverflowAbove
  {
    var c := Cell(cat, size);
    var n := 12 / GridSize(size);
    assert Uniform(cat, size, n) == seq(n, _ => c);
    RowWidthRepeated(c, n);
    if size == "full" {
      assert n * Width(size) == 1000;
    } else if size == "half" {
      assert n * Width(size) == 1000;
    } else {
      assert n * Width(size) == 999;
    }
  }

  /** A row of `n` copies of one cell is `n` times as wide as the cell. */
  lemma {:induction false} RowWidthRepeated(c: Cell, n: nat)
    ensures RowWidth(seq(n, _ => c)) == n * Width(c.size)
  {
    if n > 0 {
      var shorter := seq(n - 1, _ => c);
      assert seq(n, _ => c) == shorter + [c];
      RowWidthRepeated(c, n - 1);
      RowWidthAppend(shorter, c);
    }
  }

  /** The width chip of a row: over, complete or short. */
  datatype Fill = Over | Complete | Short

  function RowFill(cells: seq<Cell>): (f: Fill)
    ensures f == Over <==> RowWidth(cells) > OverflowAbove
    ensures f == Complete <==> CompleteAt <= RowWidth(cells) <= OverflowAbove
  {
    if RowWidth(cells) > OverflowAbove then Over
    else if RowWidth(cells) >= CompleteAt then Complete
    else Short
  }

  /** No row of the default layout is shown as over-full. */
  lemma DefaultRowsNotOver(rows: seq<Row>)
    requires RowsClosed(rows)
    ensures forall i :: 0 <= i < |rows| ==> RowFill(rows[i].cells) != Over
  {
    RowsClosedMeans(rows);
  }

  // ---------------------------------------------------------------- the editor

  /** The layout page's state: the branch's categories and the rows being edited.
      Each edit replaces `layouts` with the edited rows. */
  class LayoutEditor {
    var categories: seq<Catalog.Category>
    var layouts: seq<Row>

    constructor()
      ensures categories == [] && layouts == []
    {
      categories := [];
      layouts := [];
    }

    /** `loadData`: with no saved rows but some categories the default packing is
        used, otherwise the saved rows. */
    method Load(cats: seq<Catalog.Category>, saved: seq<Row>)
      modifies this
      ensures categories == cats
      ensures saved == [] && cats != [] ==> Flatten(layouts) == Lists.Map(cats, CellOf) && RowsClosed(layouts)
      ensures !(saved == [] && cats != []) ==> layouts == saved
    {
      categories := cats;
      if |saved| == 0 && |cats| > 0 {
        layouts := CreateDefaultLayouts(cats);
      } else {
        layouts := saved;
      }
    }

    method AddRow()
      modifies this
      ensures layouts == EmptyRowAdded(old(layouts)) && categories == old(categories)
    {
      layouts := layouts + [Row(|layouts|, [])];
    }

    method RemoveRow(k: int)
      modifies this
      ensures layouts == RowDropped(old(layouts), k) && categories == old(categories)
    {
      layouts := RowDropped(layouts, k);
    }

    method MoveRow(k: int, d: int)
      requires 0 <= k < |layouts|
      modifies this
      ensures layouts == RowSwapped(old(layouts), k, d) && categories == old(categories)
    {
      var t := k + d;
      if t < 0 || t >= |layouts| {
        return;
      }
      var rows := layouts;
      rows := rows[k := layouts[t]][t := layouts[k]];
      layouts := Renumber(rows);
    }

    method AddCategoryToRow(ri: int, cat: CategoryRef, size: string)
      requires 0 <= ri < |layouts|
      modifies this
      ensures layouts == AddCell(old(layouts), ri, Cell(cat, size)) && categories == old(categories)
    {
      var row := layouts[ri];
      layouts := layouts[ri := row.(cells := row.cells + [Cell(cat, size)])];
    }

    method RemoveCategoryFromRow(ri: int, j: int)
      requires 0 <= ri < |layouts|
      modifies this
      ensures layouts == RemoveCell(old(layouts), ri, j) && categories == old(categories)
    {
      var row := layouts[ri];
      layouts := layouts[ri := row.(cells := SpliceOne(row.cells, j))];
    }

    method ChangeCategorySize(ri: int, j: int, size: string)
      requires 0 <= ri < |layouts| && 0 <= j < |layouts[ri].cells|
      modifies this
      ensures layouts == ChangeSize(old(layouts), ri, j, size) && categories == old(categories)
    {
      var row := layouts[ri];
      layouts := layouts[ri := row.(cells := row.cells[j := row.cells[j].(size := size)])];
    }

    /** The click on an unused category's card. */
    method ClickUnusedCategory(cat: Catalog.Category)
      modifies this
      ensures layouts == ClickUnused(old(layouts), cat) && categories == old(categories)
    {
      var cell := Cell(Embedded(cat), EffectiveSize(cat.layoutSize));
      if |layouts| == 0 {
        layouts := [Row(0, [cell])];
      } else {
        var last := |layouts| - 1;
        if RowWidth(layouts[last].cells) < CompleteAt {
          AddCategoryToRow(last, Embedded(cat), EffectiveSize(cat.layoutSize));
        } else {
          layouts := layouts + [Row(|layouts|, [cell])];
        }
      }
    }

    /** A choice in a row's "add category" menu. */
    method PickCategoryForRow(ri: int, id: string)
      requires 0 <= ri < |layouts|
      modifies this
      ensures layouts == PickForRow(old(categories), old(layouts), ri, id) && categories == old(categories)
    {
      var k := Lists.FindIndex(categories, (c: Catalog.Category) => c.id == id);
      if k >= 0 {
        var cat := categories[k];
        AddCategoryToRow(ri, Embedded(cat), EffectiveSize(cat.layoutSize));
      }
    }
  }
}
