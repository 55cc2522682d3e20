/** The paging of a mod stack's widget (src/tk_modStack.py): the window of
    mod indices shown on a page and the grid cell each shown mod takes.
    The widgets themselves are reduced to the cells they are placed in. */
module Pagination {
  import opened Wrappers
  import opened Dicts
  import opened Mods
  import opened ModStacks

  /** Mods per page. */
  const PageSize: nat := 18
  /** Columns of the grid. */
  const Columns: nat := 5

  /** A mod widget placed in the grid. */
  datatype Cell = Cell(mod: Mod, row: nat, column: nat)

  /** `range(lo, hi)`. */
  function Range(lo: nat, hi: nat): (r: seq<nat>)
    requires lo <= hi
    ensures |r| == hi - lo
    ensures forall j :: 0 <= j < |r| ==> r[j] == lo + j
    ensures forall i :: i in r <==> lo <= i < hi
    decreases hi - lo
  {
    if lo == hi then [] else [lo] + Range(lo + 1, hi)
  }

  /** The indices `range(max(0, start), min(count, end))`. */
  function Shown(start: int, end: int, count: nat): (r: seq<nat>)
    ensures forall i :: i in r <==> 0 <= i && start <= i && i < end && i < count
    ensures forall j :: 0 <= j < |r| ==> j == 0 || r[j] == r[j - 1] + 1
    ensures |r| <= if end > start then end - start else 0
  {
    var lo := if start > 0 then start else 0;
    var hi := if count < end then count else end;
    if hi <= lo then [] else Range(lo, hi)
  }

  /** Where the widget of the mod at `index` goes: row `index // 5`, column
      `index % 5`. */
  function CellOf(mods: Dict<string, Mod>, index: nat): Cell
    requires mods.Valid() && index < |mods.keys|
  {
    Cell(mods.vals[mods.keys[index]], index / Columns, index % Columns)
  }

  /** The cells of the mods at indices `lo` up to `hi`, in order. */
  function Cells(mods: Dict<string, Mod>, lo: nat, hi: nat): (r: seq<Cell>)
    requires mods.Valid() && lo <= hi <= |mods.keys|
    ensures |r| == hi - lo
  {
    seq(hi - lo, j requires 0 <= j < hi - lo => CellOf(mods, lo + j))
  }

  lemma CellsSnoc(mods: Dict<string, Mod>, lo: nat, i: nat)
    requires mods.Valid() && lo <= i < |mods.keys|
    ensures Cells(mods, lo, i + 1) == Cells(mods, lo, i) + [CellOf(mods, i)]
  {
  }

  /** What `__createModWidgets` puts in the grid for the window
      `[start, end)`: a cell for each shown index, in index order. */
  function Layout(mods: Dict<string, Mod>, start: int, end: int): (r: seq<Cell>)
    requires mods.Valid()
    ensures |r| == |Shown(start, end, |mods.keys|)|
    ensures forall j :: 0 <= j < |r| ==> r[j] == CellOf(mods, Shown(start, end, |mods.keys|)[j])
  {
    var lo := if start > 0 then start else 0;
    var hi := if |mods.keys| < end then |mods.keys| else end;
    if hi <= lo then [] else Cells(mods, lo, hi)
  }

  /** Two different shown mods never share a cell, and every cell lies in
      one of the five columns. */
  lemma {:induction false} CellsDistinct(mods: Dict<string, Mod>, start: int, end: int)
    requires mods.Valid()
    ensures forall a, b :: 0 <= a < b < |Layout(mods, start, end)| ==>
              (Layout(mods, start, end)[a].row, Layout(mods, start, end)[a].column)
              != (Layout(mods, start, end)[b].row, Layout(mods, start, end)[b].column)
    ensures forall a :: 0 <= a < |Layout(mods, start, end)| ==> Layout(mods, start, end)[a].column < Columns
  {
    var shown := Shown(start, end, |mods.keys|);
    var r := Layout(mods, start, end);
    forall a, b | 0 <= a < b < |r| ensures (r[a].row, r[a].column) != (r[b].row, r[b].column) {
      ShownIncreasing(start, end, |mods.keys|, a, b);
      PlacementInjective(shown[a], shown[b]);
    }
  }

  /** Later positions of the window hold larger indices. */
  lemma {:induction false} ShownIncreasing(start: int, end: int, count: nat, a: nat, b: nat)
    requires a < b < |Shown(start, end, count)|
    ensures Shown(start, end, count)[a] < Shown(start, end, count)[b]
    decreases b - a
  {
    var r := Shown(start, end, count);
    if b > a + 1 {
      ShownIncreasing(start, end, count, a, b - 1);
    }
    assert r[b] == r[b - 1] + 1;
  }

  /** `(i // 5, i % 5)` tells indices apart. */
  lemma PlacementInjective(i: nat, k: nat)
    requires i != k
    ensures (i / Columns, i % Columns) != (k / Columns, k % Columns)
  {
    assert i == Columns * (i / Columns) + i % Columns;
    assert k == Columns * (k / Columns) + k % Columns;
  }

  /** The indices page `p` shows: its window after `setPage(p)`. */
  function PageIndices(p: int, count: nat): seq<nat> {
    Shown(p * PageSize, (p + 1) * PageSize, count)
  }

  /** Page `p` shows the valid indices from `18p` up to, not including,
      `18(p + 1)`: at most 18 of them. */
  lemma PageWindow(p: int, count: nat)
    ensures forall i :: i in PageIndices(p, count) <==> 0 <= i < count && p * PageSize <= i < p * PageSize + PageSize
    ensures |PageIndices(p, count)| <= PageSize
  {
    assert (p + 1) * PageSize == p * PageSize + PageSize;
  }

  /** Every mod is shown on exactly one page: page `i // 18`. */
  lemma {:induction false} EveryModOnOnePage(i: nat, count: nat, p: int)
    requires i < count
    ensures i in PageIndices(p, count) <==> p == i / PageSize
  {
    PageWindow(p, count);
    var q := i / PageSize;
    assert q * PageSize <= i < q * PageSize + PageSize;
    if p < q {
      assert (p + 1) * PageSize <= q * PageSize;
    } else if p > q {
      assert p * PageSize >= (q + 1) * PageSize;
    }
  }

  /** `ModStackWidget`: the stack it shows, the window of mod indices it
      shows, and the cells of the mod widgets in its grid. */
  class ModStackWidget {
    const stack: ModStack
    var startIndex: int
    var endIndex: int
    var shown: seq<Cell>

    /** The window spans one page, so the grid gets at most a page of
        widgets. */
    ghost predicate Valid()
      reads this
    {
      endIndex == startIndex + PageSize && startIndex % PageSize == 0
    }

    /** `ModStackWidget(master, stack)`: the first page, laid out. */
    constructor (stack: ModStack)
      requires stack.Valid()
      ensures Valid() && this.stack == stack
      ensures startIndex == 0 && endIndex == PageSize
      ensures shown == Layout(stack.mods, 0, PageSize)
      ensures |shown| <= PageSize
    {
      this.stack := stack;
      startIndex := 0;
      endIndex := PageSize;
      shown := [];
      new;
      CreateModWidgets();
    }

    /** `__clearModWidgets`: the grid is emptied. */
    method ClearModWidgets()
      modifies this`shown
      ensures shown == []
    {
      shown := [];
    }

    /** One turn of the loop of `__createModWidgets`: the widget of the mod
      at `index`, placed at row `index // 5` and column `index % 5`. */
    method PlaceMod(index: nat) returns (c: Cell)
      requires stack.Valid() && index < |stack.mods.keys|
      ensures c == CellOf(stack.mods, index)
    {
      var mod := stack.GetModByIndex(index);
      c := Cell(mod.value, index / Columns, index % Columns);
    }

    /** The loop of `__createModWidgets` over `range(lo, hi)`: the cells of
      the mods at those indices, in index order. */
    method PlaceMods(lo: nat, hi: nat) returns (cells: seq<Cell>)
      requires stack.Valid() && lo <= hi <= |stack.mods.keys|
      ensures cells == Cells(stack.mods, lo, hi)
    {
      cells := [];
      var i: nat := lo;
      while i < hi
        invariant lo <= i <= hi
        invariant cells == Cells(stack.mods, lo, i)
      {
        var cell := PlaceMod(i);
        CellsSnoc(stack.mods, lo, i);
        cells := cells + [cell];
        i := i + 1;
      }
    }

    /** `__createModWidgets`: a widget for each index of the clamped window,
      placed after the widgets already in the grid. */
    method CreateModWidgets()
      requires stack.Valid()
      modifies this`shown
      ensures shown == old(shown) + Layout(stack.mods, startIndex, endIndex)
      ensures Valid() ==> |shown| <= |old(shown)| + PageSize
    {
      var lo: nat := if startIndex > 0 then startIndex else 0;
      var count := stack.Len();
      SizeIsKeyCount(stack.mods);
      var hi := if count < endIndex then count else endIndex;
      var cells: seq<Cell> := [];
      if lo < hi {
        cells := PlaceMods(lo, hi);
      }
      shown := shown + cells;
    }

    /** `setPage(page)`: the window moves to page `page` and the grid shows
      exactly that page. */
    method SetPage(page: int)
      requires stack.Valid()
      modifies this`startIndex, this`endIndex, this`shown
      ensures Valid()
      ensures startIndex == page * PageSize && endIndex == (page + 1) * PageSize
      ensures shown == Layout(stack.mods, startIndex, endIndex)
      ensures |shown| <= PageSize
    {
      startIndex := page * PageSize;
      endIndex := (page + 1) * PageSize;
      ClearModWidgets();
      CreateModWidgets();
    }
  }
}
