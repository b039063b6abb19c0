/** Whether a discovered excerpt is really on the slide: a run of one cell, or a
    run of one text block followed by the cells of one table rectangle read row
    by row. Tokens are canonical; the matcher works on token lists only. */
module ExcerptGrounding {
  import opened Collections
  import opened Outcomes

  type Token = string

  datatype Block =
    | Text(tokens: seq<Token>)
    | Cell(table: nat, row: Option<int>, col: Option<int>, tokens: seq<Token>)

  type Grid = map<(int, int), seq<Token>>

  // ----- what it means to be grounded -----

  /** The tokens at a coordinate; a missing cell contributes none. */
  function At(grid: Grid, r: int, c: int): seq<Token> {
    if (r, c) in grid then grid[(r, c)] else []
  }

  function RowText(grid: Grid, r: int, c1: int, c2: int): seq<Token>
    decreases c2 - c1 + 1
  {
    if c2 < c1 then [] else RowText(grid, r, c1, c2 - 1) + At(grid, r, c2)
  }

  /** Every cell with coordinates in the rectangle, row by row. The bounds are
      plain integers: they need not be rows or columns of the table. */
  function RowMajor(grid: Grid, r1: int, r2: int, c1: int, c2: int): seq<Token>
    decreases r2 - r1 + 1
  {
    if r2 < r1 then [] else RowMajor(grid, r1, r2 - 1, c1, c2) + RowText(grid, r2, c1, c2)
  }

  ghost predicate ReadsRectangle(grid: Grid, suffix: seq<Token>) {
    exists r1, r2, c1, c2 :: RowMajor(grid, r1, r2, c1, c2) == suffix
  }

  predicate OccursAt(needle: seq<Token>, tokens: seq<Token>, i: nat) {
    i + |needle| <= |tokens| && tokens[i..i + |needle|] == needle
  }

  ghost predicate Within(needle: seq<Token>, tokens: seq<Token>) {
    exists i :: OccursAt(needle, tokens, i)
  }

  ghost predicate InSome(needle: seq<Token>, lists: seq<seq<Token>>) {
    needle == [] || exists k :: 0 <= k < |lists| && Within(needle, lists[k])
  }

  function CellsOf(blocks: seq<Block>, table: nat): (cells: seq<Block>)
    ensures forall b :: b in cells <==> b in blocks && b.Cell? && b.table == table
  {
    if blocks == [] then []
    else
      var last := blocks[|blocks| - 1];
      assert forall b :: b in blocks <==> b in blocks[..|blocks| - 1] || b == last;
      CellsOf(blocks[..|blocks| - 1], table) + (if last.Cell? && last.table == table then [last] else [])
  }

  predicate Placed(cells: seq<Block>) {
    forall b :: b in cells ==> b.Cell? && b.row.Some? && b.col.Some?
  }

  /** A later cell with the same coordinates replaces an earlier one. */
  function GridOf(cells: seq<Block>): Grid
    requires Placed(cells)
  {
    if cells == [] then map[]
    else
      var last := cells[|cells| - 1];
      GridOf(cells[..|cells| - 1])[(last.row.value, last.col.value) := last.tokens]
  }

  /** The cell a table shows at a coordinate: no later one there replaces it. */
  ghost predicate Stands(blocks: seq<Block>, table: nat, r: int, c: int, i: nat) {
    && i < |blocks| && IsCellAt(blocks[i], table, r, c)
    && forall j :: i < j < |blocks| ==> !IsCellAt(blocks[j], table, r, c)
  }

  predicate IsCellAt(b: Block, table: nat, r: int, c: int) {
    b.Cell? && b.table == table && b.row == Some(r) && b.col == Some(c)
  }

  ghost predicate FullyPlaced(blocks: seq<Block>, table: nat) {
    forall i :: 0 <= i < |blocks| && blocks[i].Cell? && blocks[i].table == table ==> blocks[i].row.Some? && blocks[i].col.Some?
  }

  /** Row by row, and within a row column by column. */
  predicate ReadBefore(a: Block, b: Block) {
    && a.Cell? && b.Cell? && a.row.Some? && b.row.Some? && a.col.Some? && b.col.Some?
    && (a.row.value < b.row.value || (a.row == b.row && a.col.value < b.col.value))
  }

  ghost predicate InReadingOrder(blocks: seq<Block>, at: seq<nat>) {
    && (forall k :: 0 <= k < |at| ==> at[k] < |blocks|)
    && forall j, k :: 0 <= j < k < |at| ==> ReadBefore(blocks[at[j]], blocks[at[k]])
  }

  /** All cells the table shows in the rectangle, in reading order. The bounds are
      plain integers: they need not be rows or columns of the table. */
  ghost predicate ListsRectangle(blocks: seq<Block>, table: nat, r1: int, r2: int, c1: int, c2: int, at: seq<nat>) {
    && InReadingOrder(blocks, at)
    && forall i: nat :: i in at <==> exists r, c :: r1 <= r <= r2 && c1 <= c <= c2 && Stands(blocks, table, r, c, i)
  }

  /** The text cut into the tokens of one listed block after the other. */
  ghost predicate SpelledOut(blocks: seq<Block>, at: seq<nat>, cuts: seq<nat>, text: seq<Token>) {
    && |cuts| == |at| + 1 && cuts[0] == 0 && cuts[|at|] == |text|
    && forall k :: 0 <= k < |at| ==> IsPiece(blocks, at[k], text, cuts[k], cuts[k + 1])
  }

  predicate IsPiece(blocks: seq<Block>, i: nat, text: seq<Token>, from: nat, to: nat) {
    i < |blocks| && from <= to <= |text| && text[from..to] == blocks[i].tokens
  }

  ghost predicate RectangleSpells(
    blocks: seq<Block>, table: nat, r1: int, r2: int, c1: int, c2: int, at: seq<nat>, cuts: seq<nat>, text: seq<Token>) {
    ListsRectangle(blocks, table, r1, r2, c1, c2, at) && SpelledOut(blocks, at, cuts, text)
  }

  ghost predicate TableReads(blocks: seq<Block>, table: nat, suffix: seq<Token>) {
    && FullyPlaced(blocks, table)
    && exists r1, r2, c1, c2, at, cuts :: RectangleSpells(blocks, table, r1, r2, c1, c2, at, cuts, suffix)
  }

  /** The same as the program finds it out: a grid of the table's cells. */
  ghost predicate GridReads(blocks: seq<Block>, table: nat, suffix: seq<Token>) {
    Placed(CellsOf(blocks, table)) && ReadsRectangle(GridOf(CellsOf(blocks, table)), suffix)
  }

  ghost predicate InText(needle: seq<Token>, blocks: seq<Block>) {
    needle == [] || exists b :: b in blocks && b.Text? && Within(needle, b.tokens)
  }

  ghost predicate InCell(needle: seq<Token>, blocks: seq<Block>) {
    needle == [] || exists b :: b in blocks && b.Cell? && Within(needle, b.tokens)
  }

  ghost predicate InSomeTable(blocks: seq<Block>, suffix: seq<Token>) {
    exists t :: TableReads(blocks, t, suffix)
  }

  ghost predicate SplitsAt(excerpt: seq<Token>, blocks: seq<Block>, split: nat)
    requires split <= |excerpt|
  {
    InText(excerpt[..split], blocks) && (split == |excerpt| || InSomeTable(blocks, excerpt[split..]))
  }

  ghost predicate Grounded(excerpt: seq<Token>, blocks: seq<Block>) {
    && excerpt != []
    && (InCell(excerpt, blocks) || Splits(excerpt, blocks))
  }

  ghost predicate Splits(excerpt: seq<Token>, blocks: seq<Block>) {
    exists split :: 0 <= split <= |excerpt| && SplitsAt(excerpt, blocks, split)
  }

  // ----- the grid shows the table -----

  lemma CellsSnoc(front: seq<Block>, last: Block, table: nat)
    ensures CellsOf(front + [last], table)
         == CellsOf(front, table) + (if last.Cell? && last.table == table then [last] else [])
  {
    var blocks := front + [last];
    assert blocks[..|blocks| - 1] == front;
  }

  lemma FileSnoc(cells: seq<Block>, last: Block)
    requires Placed(cells + [last])
    ensures Placed(cells) && last.Cell? && last.row.Some? && last.col.Some?
    ensures GridOf(cells + [last]) == GridOf(cells)[(last.row.value, last.col.value) := last.tokens]
  {
    assert last in cells + [last] && (cells + [last])[..|cells|] == cells;
    assert forall b :: b in cells ==> b in cells + [last];
  }

  /** What a grid holds at a coordinate is the cell its table shows there. */
  ghost predicate Shows(grid: Grid, blocks: seq<Block>, table: nat, r: int, c: int) {
    if (r, c) in grid then exists i: nat :: Stands(blocks, table, r, c, i) && grid[(r, c)] == blocks[i].tokens
    else !exists i: nat :: Stands(blocks, table, r, c, i)
  }

  /** A grid holds exactly the cells its table shows, with their tokens. */
  lemma {:induction false} GridShows(blocks: seq<Block>, table: nat, r: int, c: int)
    requires Placed(CellsOf(blocks, table))
    ensures Shows(GridOf(CellsOf(blocks, table)), blocks, table, r, c)
    decreases |blocks|
  {
    if blocks != [] {
      var n := |blocks| - 1;
      var front, last := blocks[..n], blocks[n];
      assert blocks == front + [last];
      CellsSnoc(front, last, table);
      hide *;
      if last.Cell? && last.table == table {
        FileSnoc(CellsOf(front, table), last);
        GridShows(front, table, r, c);
        ShowsLast(GridOf(CellsOf(front, table)), front, last, table, r, c);
      } else {
        assert CellsOf(front, table) + [] == CellsOf(front, table);
        GridShows(front, table, r, c);
        ShowsFront(GridOf(CellsOf(front, table)), front, last, table, r, c);
      }
    }
  }

  lemma ShowsLast(grid: Grid, front: seq<Block>, last: Block, table: nat, r: int, c: int)
    requires Shows(grid, front, table, r, c)
    requires last.Cell? && last.table == table && last.row.Some? && last.col.Some?
    ensures Shows(grid[(last.row.value, last.col.value) := last.tokens], front + [last], table, r, c)
  {
    if (last.row.value, last.col.value) == (r, c) {
      assert Stands(front + [last], table, r, c, |front|);
    } else {
      ShowsFront(grid, front, last, table, r, c);
    }
  }

  lemma ShowsFront(grid: Grid, front: seq<Block>, last: Block, table: nat, r: int, c: int)
    requires Shows(grid, front, table, r, c) && !IsCellAt(last, table, r, c)
    ensures Shows(grid, front + [last], table, r, c)
  {
    forall i: nat
      ensures Stands(front + [last], table, r, c, i) <==> Stands(front, table, r, c, i)
    {
      StandsInFront(front, last, table, r, c, i);
    }
  }

  lemma StandsInFront(front: seq<Block>, last: Block, table: nat, r: int, c: int, i: nat)
    requires !IsCellAt(last, table, r, c)
    ensures Stands(front + [last], table, r, c, i) <==> Stands(front, table, r, c, i)
    ensures i < |front| ==> (front + [last])[i] == front[i]
  {
    var blocks := front + [last];
    hide IsCellAt;
    assert forall j :: 0 <= j < |front| ==> blocks[j] == front[j];
  }

  lemma PlacedIff(blocks: seq<Block>, table: nat)
    ensures Placed(CellsOf(blocks, table)) <==> FullyPlaced(blocks, table)
  {
    hide CellsOf;
    if FullyPlaced(blocks, table) {
      forall b | b in CellsOf(blocks, table)
        ensures b.Cell? && b.row.Some? && b.col.Some?
      {
        var i :| 0 <= i < |blocks| && blocks[i] == b;
      }
    }
    if Placed(CellsOf(blocks, table)) {
      forall i | 0 <= i < |blocks| && blocks[i].Cell? && blocks[i].table == table
        ensures blocks[i].row.Some? && blocks[i].col.Some?
      {
        assert blocks[i] in CellsOf(blocks, table);
      }
    }
  }

  /** Two cells never stand at one coordinate. */
  lemma StandsOnce(blocks: seq<Block>, table: nat, r: int, c: int, i: nat, j: nat)
    requires Stands(blocks, table, r, c, i) && Stands(blocks, table, r, c, j)
    ensures i == j
  {
  }

  function Join(blocks: seq<Block>, at: seq<nat>): seq<Token>
    requires forall k :: 0 <= k < |at| ==> at[k] < |blocks|
  {
    if at == [] then [] else Join(blocks, at[..|at| - 1]) + blocks[at[|at| - 1]].tokens
  }

  lemma {:induction false} JoinConcat(blocks: seq<Block>, a: seq<nat>, b: seq<nat>)
    requires forall k :: 0 <= k < |a| ==> a[k] < |blocks|
    requires forall k :: 0 <= k < |b| ==> b[k] < |blocks|
    ensures Join(blocks, a + b) == Join(blocks, a) + Join(blocks, b)
    decreases |b|
  {
    if b == [] {
      assert a + b == a;
    } else {
      assert (a + b)[..|a + b| - 1] == a + b[..|b| - 1];
      JoinConcat(blocks, a, b[..|b| - 1]);
    }
  }

  /** Spelling a text out is joining the listed tokens. */
  lemma SpelledIsJoined(blocks: seq<Block>, at: seq<nat>, cuts: seq<nat>, text: seq<Token>)
    requires SpelledOut(blocks, at, cuts, text)
    ensures (forall k :: 0 <= k < |at| ==> at[k] < |blocks|) && text == Join(blocks, at)
  {
    forall k | 0 <= k < |at|
      ensures at[k] < |blocks|
    {
      assert IsPiece(blocks, at[k], text, cuts[k], cuts[k + 1]);
    }
    SpelledUpTo(blocks, at, cuts, text, |at|);
    assert at[..|at|] == at && text[..|text|] == text;
  }

  lemma {:induction false} SpelledUpTo(blocks: seq<Block>, at: seq<nat>, cuts: seq<nat>, text: seq<Token>, k: nat)
    requires SpelledOut(blocks, at, cuts, text) && k <= |at|
    requires forall j :: 0 <= j < |at| ==> at[j] < |blocks|
    ensures cuts[k] <= |text| && text[..cuts[k]] == Join(blocks, at[..k])
  {
    if k > 0 {
      SpelledUpTo(blocks, at, cuts, text, k - 1);
      assert IsPiece(blocks, at[k - 1], text, cuts[k - 1], cuts[k - 1 + 1]);
      assert at[..k][..k - 1] == at[..k - 1];
      assert text[..cuts[k]] == text[..cuts[k - 1]] + text[cuts[k - 1]..cuts[k]];
    }
  }

  lemma JoinPrefix(blocks: seq<Block>, at: seq<nat>, k: nat)
    requires k < |at| && forall j :: 0 <= j < |at| ==> at[j] < |blocks|
    ensures Join(blocks, at[..k + 1]) == Join(blocks, at[..k]) + blocks[at[k]].tokens
    ensures Join(blocks, at[..k + 1]) <= Join(blocks, at)
  {
    assert at[..k + 1][..k] == at[..k];
    assert at == at[..k + 1] + at[k + 1..];
    JoinConcat(blocks, at[..k + 1], at[k + 1..]);
  }

  lemma JoinedIsSpelled(blocks: seq<Block>, at: seq<nat>) returns (cuts: seq<nat>)
    requires forall k :: 0 <= k < |at| ==> at[k] < |blocks|
    ensures SpelledOut(blocks, at, cuts, Join(blocks, at))
  {
    hide Join;
    var text := Join(blocks, at);
    cuts := seq(|at| + 1, k requires 0 <= k <= |at| => |Join(blocks, at[..k])|);
    NothingJoined(blocks);
    assert at[..0] == [] && at[..|at|] == at;
    forall k | 0 <= k < |at|
      ensures IsPiece(blocks, at[k], text, cuts[k], cuts[k + 1])
    {
      JoinPrefix(blocks, at, k);
      var upTo := Join(blocks, at[..k + 1]);
      assert text[..cuts[k + 1]] == upTo;
      assert text[cuts[k]..cuts[k + 1]] == upTo[cuts[k]..];
    }
  }

  lemma NothingJoined(blocks: seq<Block>)
    ensures Join(blocks, []) == []
  {
  }

  /** The cells of a rectangle as the grid is read: row after row. */
  ghost function CellAt(blocks: seq<Block>, table: nat, r: int, c: int): (at: seq<nat>)
    ensures forall k :: 0 <= k < |at| ==> Stands(blocks, table, r, c, at[k])
    ensures |at| <= 1 && ((exists i :: Stands(blocks, table, r, c, i)) ==> at != [])
  {
    if i :| Stands(blocks, table, r, c, i) then [i] else []
  }

  ghost function RowCells(blocks: seq<Block>, table: nat, r: int, c1: int, c2: int): seq<nat>
    decreases c2 - c1 + 1
  {
    if c2 < c1 then [] else RowCells(blocks, table, r, c1, c2 - 1) + CellAt(blocks, table, r, c2)
  }

  ghost function RectangleCells(blocks: seq<Block>, table: nat, r1: int, r2: int, c1: int, c2: int): seq<nat>
    decreases r2 - r1 + 1
  {
    if r2 < r1 then []
    else RectangleCells(blocks, table, r1, r2 - 1, c1, c2) + RowCells(blocks, table, r2, c1, c2)
  }

  lemma OrderConcat(blocks: seq<Block>, a: seq<nat>, b: seq<nat>)
    requires InReadingOrder(blocks, a) && InReadingOrder(blocks, b)
    requires forall j, k :: 0 <= j < |a| && 0 <= k < |b| ==> ReadBefore(blocks[a[j]], blocks[b[k]])
    ensures InReadingOrder(blocks, a + b)
  {
    hide ReadBefore;
  }

  lemma {:induction false} RowCellsList(blocks: seq<Block>, table: nat, r: int, c1: int, c2: int)
    ensures InReadingOrder(blocks, RowCells(blocks, table, r, c1, c2))
    ensures forall i: nat :: i in RowCells(blocks, table, r, c1, c2) <==>
                             exists c :: c1 <= c <= c2 && Stands(blocks, table, r, c, i)
    decreases c2 - c1 + 1
  {
    if c1 <= c2 {
      RowCellsList(blocks, table, r, c1, c2 - 1);
      var front, here := RowCells(blocks, table, r, c1, c2 - 1), CellAt(blocks, table, r, c2);
      forall j, k | 0 <= j < |front| && 0 <= k < |here|
        ensures ReadBefore(blocks[front[j]], blocks[here[k]])
      {
        assert front[j] in front;
      }
      OrderConcat(blocks, front, here);
      forall i: nat
        ensures i in front + here <==> exists c :: c1 <= c <= c2 && Stands(blocks, table, r, c, i)
      {
        CellAtList(blocks, table, r, c2, i);
      }
    }
  }

  lemma CellAtList(blocks: seq<Block>, table: nat, r: int, c: int, i: nat)
    ensures i in CellAt(blocks, table, r, c) <==> Stands(blocks, table, r, c, i)
  {
    var at := CellAt(blocks, table, r, c);
    if Stands(blocks, table, r, c, i) {
      StandsOnce(blocks, table, r, c, i, at[0]);
    }
  }

  lemma {:induction false} RectangleCellsList(blocks: seq<Block>, table: nat, r1: int, r2: int, c1: int, c2: int)
    ensures ListsRectangle(blocks, table, r1, r2, c1, c2, RectangleCells(blocks, table, r1, r2, c1, c2))
    decreases r2 - r1 + 1
  {
    if r1 <= r2 {
      RectangleCellsList(blocks, table, r1, r2 - 1, c1, c2);
      RowCellsList(blocks, table, r2, c1, c2);
      var above, row := RectangleCells(blocks, table, r1, r2 - 1, c1, c2), RowCells(blocks, table, r2, c1, c2);
      forall j, k | 0 <= j < |above| && 0 <= k < |row|
        ensures ReadBefore(blocks[above[j]], blocks[row[k]])
      {
        assert above[j] in above && row[k] in row;
      }
      OrderConcat(blocks, above, row);
      forall i: nat
        ensures i in above + row <==> exists r, c :: r1 <= r <= r2 && c1 <= c <= c2 && Stands(blocks, table, r, c, i)
      {
      }
    }
  }

  lemma {:induction false} JoinRow(blocks: seq<Block>, table: nat, r: int, c1: int, c2: int)
    requires Placed(CellsOf(blocks, table))
    ensures InReadingOrder(blocks, RowCells(blocks, table, r, c1, c2))
    ensures Join(blocks, RowCells(blocks, table, r, c1, c2)) == RowText(GridOf(CellsOf(blocks, table)), r, c1, c2)
    decreases c2 - c1 + 1
  {
    RowCellsList(blocks, table, r, c1, c2);
    if c1 <= c2 {
      hide CellsOf, GridOf, Placed, Stands;
      JoinRow(blocks, table, r, c1, c2 - 1);
      JoinCell(blocks, table, r, c2);
      JoinConcat(blocks, RowCells(blocks, table, r, c1, c2 - 1), CellAt(blocks, table, r, c2));
    }
  }

  lemma JoinCell(blocks: seq<Block>, table: nat, r: int, c: int)
    requires Placed(CellsOf(blocks, table))
    ensures forall k :: 0 <= k < |CellAt(blocks, table, r, c)| ==> CellAt(blocks, table, r, c)[k] < |blocks|
    ensures Join(blocks, CellAt(blocks, table, r, c)) == At(GridOf(CellsOf(blocks, table)), r, c)
  {
    hide CellsOf, GridOf, Placed;
    GridShows(blocks, table, r, c);
    var at := CellAt(blocks, table, r, c);
    if at != [] {
      var i: nat :| Stands(blocks, table, r, c, i) && At(GridOf(CellsOf(blocks, table)), r, c) == blocks[i].tokens;
      StandsOnce(blocks, table, r, c, i, at[0]);
      assert at[..0] == [];
      assert Join(blocks, at) == [] + blocks[at[0]].tokens;
    }
  }

  lemma {:induction false} JoinRectangle(blocks: seq<Block>, table: nat, r1: int, r2: int, c1: int, c2: int)
    requires Placed(CellsOf(blocks, table))
    ensures InReadingOrder(blocks, RectangleCells(blocks, table, r1, r2, c1, c2))
    ensures Join(blocks, RectangleCells(blocks, table, r1, r2, c1, c2)) == RowMajor(GridOf(CellsOf(blocks, table)), r1, r2, c1, c2)
    decreases r2 - r1 + 1
  {
    RectangleCellsList(blocks, table, r1, r2, c1, c2);
    if r1 <= r2 {
      hide CellsOf, GridOf, Placed, Stands, RowCells, RowText;
      JoinRectangle(blocks, table, r1, r2 - 1, c1, c2);
      JoinRow(blocks, table, r2, c1, c2);
      JoinConcat(blocks, RectangleCells(blocks, table, r1, r2 - 1, c1, c2), RowCells(blocks, table, r2, c1, c2));
    }
  }

  /** There is one way to list a rectangle. */
  lemma OneListing(blocks: seq<Block>, table: nat, r1: int, r2: int, c1: int, c2: int, at: seq<nat>)
    requires ListsRectangle(blocks, table, r1, r2, c1, c2, at)
    ensures at == RectangleCells(blocks, table, r1, r2, c1, c2)
  {
    RectangleCellsList(blocks, table, r1, r2, c1, c2);
    var less := (i: nat, j: nat) => i < |blocks| && j < |blocks| && ReadBefore(blocks[i], blocks[j]);
    hide RectangleCells, Stands;
    OneOrder(at, RectangleCells(blocks, table, r1, r2, c1, c2), less);
  }

  /** The grid of a table reads as a text exactly when some rectangle of the table
      itself spells it. */
  lemma GridReadsIff(blocks: seq<Block>, table: nat, suffix: seq<Token>)
    ensures GridReads(blocks, table, suffix) <==> TableReads(blocks, table, suffix)
  {
    PlacedIff(blocks, table);
    hide CellsOf, GridOf, Placed, FullyPlaced, RowMajor, SpelledOut, ListsRectangle;
    if GridReads(blocks, table, suffix) {
      var r1, r2, c1, c2 :| RowMajor(GridOf(CellsOf(blocks, table)), r1, r2, c1, c2) == suffix;
      JoinRectangle(blocks, table, r1, r2, c1, c2);
      RectangleCellsList(blocks, table, r1, r2, c1, c2);
      var cuts := JoinedIsSpelled(blocks, RectangleCells(blocks, table, r1, r2, c1, c2));
      assert RectangleSpells(blocks, table, r1, r2, c1, c2, RectangleCells(blocks, table, r1, r2, c1, c2), cuts, suffix);
    }
    if TableReads(blocks, table, suffix) {
      var r1, r2, c1, c2, at, cuts :| RectangleSpells(blocks, table, r1, r2, c1, c2, at, cuts, suffix);
      SpelledIsJoined(blocks, at, cuts, suffix);
      OneListing(blocks, table, r1, r2, c1, c2, at);
      JoinRectangle(blocks, table, r1, r2, c1, c2);
    }
  }

  // ----- sorted row and column indexes -----

  ghost predicate Ascending(xs: seq<int>) {
    forall i, j :: 0 <= i < j < |xs| ==> xs[i] < xs[j]
  }

  method Smallest(s: set<int>) returns (m: int)
    requires s != {}
    ensures m in s && forall x :: x in s ==> m <= x
  {
    ghost var member := SomeMember(s);
    m :| m in s;
    var rest := s - {m};
    while rest != {}
      invariant rest <= s && m in s
      invariant forall x :: x in s && x !in rest ==> m <= x
    {
      ghost var member := SomeMember(rest);
      var next :| next in rest;
      rest := rest - {next};
      if next < m {
        m := next;
      }
    }
  }

  lemma AscendingSnoc(front: seq<int>, last: int)
    requires Ascending(front) && forall x :: x in front ==> x < last
    ensures Ascending(front + [last])
  {
    forall i | 0 <= i < |front|
      ensures front[i] < last
    {
      assert front[i] in front;
    }
  }

  method Sorted(s: set<int>) returns (xs: seq<int>)
    ensures Ascending(xs)
    ensures forall x :: x in xs <==> x in s
  {
    xs := [];
    var rest := s;
    while rest != {}
      invariant Ascending(xs)
      invariant rest <= s && forall x :: x in xs <==> x in s - rest
      invariant forall x, y :: x in xs && y in rest ==> x < y
    {
      var m := Smallest(rest);
      AscendingSnoc(xs, m);
      xs := xs + [m];
      rest := rest - {m};
    }
  }

  /** The members of xs between lo and hi, in order. */
  function Slice(xs: seq<int>, lo: int, hi: int): (r: seq<int>)
    ensures forall x :: x in r <==> x in xs && lo <= x <= hi
  {
    if xs == [] then []
    else
      var front, last := xs[..|xs| - 1], xs[|xs| - 1];
      assert forall x :: x in xs <==> x in front || x == last;
      Slice(front, lo, hi) + (if lo <= last <= hi then [last] else [])
  }

  lemma {:induction false} SliceIncreasing(xs: seq<int>, lo: int, hi: int)
    requires Ascending(xs)
    ensures Ascending(Slice(xs, lo, hi))
  {
    if xs != [] {
      var front, last := xs[..|xs| - 1], xs[|xs| - 1];
      SliceIncreasing(front, lo, hi);
      forall x | x in front
        ensures x < last
      {
        var i :| 0 <= i < |front| && front[i] == x;
        assert xs[i] < xs[|xs| - 1];
      }
      AscendingSnoc(Slice(front, lo, hi), last);
    }
  }

  // ----- reading listed rows and columns is reading the rectangle -----

  function ReadRow(grid: Grid, r: int, cols: seq<int>): seq<Token> {
    if cols == [] then [] else ReadRow(grid, r, cols[..|cols| - 1]) + At(grid, r, cols[|cols| - 1])
  }

  function ReadRows(grid: Grid, rows: seq<int>, cols: seq<int>): seq<Token> {
    if rows == [] then []
    else ReadRows(grid, rows[..|rows| - 1], cols) + ReadRow(grid, rows[|rows| - 1], cols)
  }

  ghost predicate Covers(xs: seq<int>, lo: int, hi: int) {
    Ascending(xs) && forall x :: x in xs ==> lo <= x <= hi
  }

  lemma CoversFront(xs: seq<int>, lo: int, hi: int)
    requires Covers(xs, lo, hi) && xs != [] && xs[|xs| - 1] == hi
    ensures Covers(xs[..|xs| - 1], lo, hi - 1)
    ensures forall x :: x in xs <==> x in xs[..|xs| - 1] || x == hi
  {
    var front := xs[..|xs| - 1];
    forall x | x in front
      ensures lo <= x <= hi - 1
    {
      var i :| 0 <= i < |front| && front[i] == x;
      assert xs[i] < xs[|xs| - 1] && xs[i] in xs;
    }
  }

  lemma CoversBelow(xs: seq<int>, lo: int, hi: int)
    requires Covers(xs, lo, hi) && !(xs != [] && xs[|xs| - 1] == hi)
    ensures hi !in xs && Covers(xs, lo, hi - 1)
  {
    assert forall i :: 0 <= i < |xs| ==> xs[i] in xs;
    if xs != [] {
      assert forall i :: 0 <= i < |xs| - 1 ==> xs[i] < xs[|xs| - 1];
    }
  }

  lemma CoversNothing(xs: seq<int>, lo: int, hi: int)
    requires Covers(xs, lo, hi)
    ensures xs == [] || lo <= hi
  {
    if xs != [] {
      assert xs[0] in xs;
    }
  }

  lemma {:induction false} RowTextIsReadRow(grid: Grid, r: int, cols: seq<int>, c1: int, c2: int)
    requires Covers(cols, c1, c2)
    requires forall c :: c1 <= c <= c2 && (r, c) in grid ==> c in cols
    ensures RowText(grid, r, c1, c2) == ReadRow(grid, r, cols)
    decreases c2 - c1 + 1
  {
    if c2 < c1 {
      CoversNothing(cols, c1, c2);
    } else if cols != [] && cols[|cols| - 1] == c2 {
      CoversFront(cols, c1, c2);
      RowTextIsReadRow(grid, r, cols[..|cols| - 1], c1, c2 - 1);
    } else {
      CoversBelow(cols, c1, c2);
      RowTextIsReadRow(grid, r, cols, c1, c2 - 1);
    }
  }

  lemma {:induction false} ReadRowNothing(grid: Grid, r: int, cols: seq<int>)
    requires forall c :: (r, c) !in grid
    ensures ReadRow(grid, r, cols) == []
  {
    if cols != [] {
      ReadRowNothing(grid, r, cols[..|cols| - 1]);
    }
  }

  lemma {:induction false} RowMajorIsReadRows(grid: Grid, rows: seq<int>, cols: seq<int>,
                                              r1: int, r2: int, c1: int, c2: int)
    requires Covers(rows, r1, r2) && Covers(cols, c1, c2)
    requires forall r, c :: r1 <= r <= r2 && (r, c) in grid ==> r in rows
    requires forall r, c :: c1 <= c <= c2 && (r, c) in grid ==> c in cols
    ensures RowMajor(grid, r1, r2, c1, c2) == ReadRows(grid, rows, cols)
    decreases r2 - r1 + 1
  {
    if r2 < r1 {
      CoversNothing(rows, r1, r2);
    } else {
      RowTextIsReadRow(grid, r2, cols, c1, c2);
      if rows != [] && rows[|rows| - 1] == r2 {
        CoversFront(rows, r1, r2);
        RowMajorIsReadRows(grid, rows[..|rows| - 1], cols, r1, r2 - 1, c1, c2);
      } else {
        CoversBelow(rows, r1, r2);
        ReadRowNothing(grid, r2, cols);
        RowMajorIsReadRows(grid, rows, cols, r1, r2 - 1, c1, c2);
      }
    }
  }

  ghost predicate Indexes(grid: Grid, rows: seq<int>, cols: seq<int>) {
    && Ascending(rows) && Ascending(cols)
    && forall r, c :: (r, c) in grid ==> r in rows && c in cols
  }

  lemma SlicesRead(grid: Grid, rows: seq<int>, cols: seq<int>, r1: int, r2: int, c1: int, c2: int)
    requires Indexes(grid, rows, cols)
    ensures RowMajor(grid, r1, r2, c1, c2) == ReadRows(grid, Slice(rows, r1, r2), Slice(cols, c1, c2))
  {
    SliceIncreasing(rows, r1, r2);
    SliceIncreasing(cols, c1, c2);
    RowMajorIsReadRows(grid, Slice(rows, r1, r2), Slice(cols, c1, c2), r1, r2, c1, c2);
  }

  lemma {:induction false} NoColumnsNothing(grid: Grid, rows: seq<int>)
    ensures ReadRows(grid, rows, []) == []
  {
    if rows != [] {
      NoColumnsNothing(grid, rows[..|rows| - 1]);
    }
  }

  lemma LastIsGreatest(xs: seq<int>)
    requires Ascending(xs) && xs != []
    ensures Covers(xs, xs[0], xs[|xs| - 1])
  {
  }

  lemma EmptyOnlyIf(xs: seq<int>, ys: seq<int>)
    requires forall x :: x in xs ==> x in ys
    ensures ys == [] ==> xs == []
  {
    if xs != [] {
      assert xs[0] in xs;
      var i :| 0 <= i < |ys| && ys[i] == xs[0];
    }
  }

  /** Ascending lists with the same members are equal. */
  lemma {:induction false} SameMembersSameList(xs: seq<int>, ys: seq<int>)
    requires Ascending(xs) && Ascending(ys)
    requires forall x :: x in xs <==> x in ys
    ensures xs == ys
    decreases |xs|
  {
    EmptyOnlyIf(xs, ys);
    EmptyOnlyIf(ys, xs);
    if xs != [] {
      var a, b := xs[|xs| - 1], ys[|ys| - 1];
      var front, others := xs[..|xs| - 1], ys[..|ys| - 1];
      LastIsGreatest(xs);
      LastIsGreatest(ys);
      assert a in xs && b in ys;
      CoversFront(xs, xs[0], a);
      CoversFront(ys, ys[0], b);
      forall x
        ensures x in front <==> x in others
      {
        assert x in front ==> x in xs && x < a;
        assert x in others ==> x in ys && x < b;
      }
      SameMembersSameList(front, others);
      assert xs == front + [a] && ys == others + [b];
    }
  }

  /** A nonempty slice is bounded by two members, in order. */
  lemma SnapSlice(xs: seq<int>, lo: int, hi: int) returns (i: nat, j: nat)
    requires Ascending(xs) && Slice(xs, lo, hi) != []
    ensures i <= j < |xs| && Slice(xs, xs[i], xs[j]) == Slice(xs, lo, hi)
  {
    var slice := Slice(xs, lo, hi);
    var first, last := slice[0], slice[|slice| - 1];
    assert first in slice && last in slice;
    i :| 0 <= i < |xs| && xs[i] == first;
    j :| 0 <= j < |xs| && xs[j] == last;
    SliceIncreasing(xs, lo, hi);
    SliceIncreasing(xs, first, last);
    LastIsGreatest(slice);
    SameMembersSameList(Slice(xs, first, last), slice);
  }

  /** Any rectangle with text in it can be snapped to listed rows and columns. */
  lemma SnapRectangle(grid: Grid, rows: seq<int>, cols: seq<int>, suffix: seq<Token>)
    returns (i: nat, i2: nat)
    requires Indexes(grid, rows, cols) && suffix != [] && ReadsRectangle(grid, suffix)
    ensures i <= i2 < |rows|
    ensures !NoColumns(grid, suffix, Slice(rows, rows[i], rows[i2]), cols)
  {
    var r1, r2, c1, c2 :| RowMajor(grid, r1, r2, c1, c2) == suffix;
    SlicesRead(grid, rows, cols, r1, r2, c1, c2);
    NoColumnsNothing(grid, Slice(rows, r1, r2));
    i, i2 := SnapSlice(rows, r1, r2);
    var j, j2 := SnapSlice(cols, c1, c2);
    assert TextAt(grid, Slice(rows, rows[i], rows[i2]), cols, j, j2) == suffix;
  }

  // ----- the rectangle search -----

  lemma {:induction false} ReadRowGrows(grid: Grid, r: int, cols: seq<int>, n: nat)
    requires n <= |cols|
    ensures ReadRow(grid, r, cols[..n]) <= ReadRow(grid, r, cols)
    decreases |cols| - n
  {
    if n < |cols| {
      ReadRowGrows(grid, r, cols, n + 1);
      assert cols[..n + 1][..n] == cols[..n];
    } else {
      assert cols[..n] == cols;
    }
  }

  lemma {:induction false} ReadRowsGrows(grid: Grid, rows: seq<int>, cols: seq<int>, n: nat)
    requires n <= |rows|
    ensures ReadRows(grid, rows[..n], cols) <= ReadRows(grid, rows, cols)
    decreases |rows| - n
  {
    if n < |rows| {
      ReadRowsGrows(grid, rows, cols, n + 1);
      assert rows[..n + 1][..n] == rows[..n];
    } else {
      assert rows[..n] == rows;
    }
  }

  /** What was collected once `n` rows are read, plus `m` cells of the next, is a
      prefix of the whole rectangle's text: too long already means too long. */
  lemma PartIsPrefix(grid: Grid, rows: seq<int>, cols: seq<int>, n: nat, m: nat)
    requires n < |rows| && m <= |cols|
    ensures |ReadRows(grid, rows[..n], cols) + ReadRow(grid, rows[n], cols[..m])| <= |ReadRows(grid, rows, cols)|
  {
    ReadRowGrows(grid, rows[n], cols, m);
    ReadRowsGrows(grid, rows, cols, n + 1);
    assert rows[..n + 1][..n] == rows[..n];
  }

  /** Append the cells of the next row, giving up once the text is too long. */
  method AppendRow(grid: Grid, suffix: seq<Token>, rowSlice: seq<int>, colSlice: seq<int>, n: nat, before: seq<Token>)
    returns (concat: seq<Token>, overflow: bool)
    requires n < |rowSlice| && before == ReadRows(grid, rowSlice[..n], colSlice)
    ensures !overflow ==> concat == before + ReadRow(grid, rowSlice[n], colSlice)
    ensures overflow ==> |ReadRows(grid, rowSlice, colSlice)| > |suffix|
  {
    hide ReadRows;
    concat, overflow := before, false;
    for m := 0 to |colSlice|
      invariant concat == before + ReadRow(grid, rowSlice[n], colSlice[..m])
      invariant !overflow
    {
      concat := concat + At(grid, rowSlice[n], colSlice[m]);
      assert colSlice[..m + 1][..m] == colSlice[..m];
      if |concat| > |suffix| {
        PartIsPrefix(grid, rowSlice, colSlice, n, m + 1);
        return concat, true;
      }
    }
    assert colSlice[..|colSlice|] == colSlice;
  }

  /** Concatenate the cells row by row, giving up once the text is too long. */
  method RectangleIs(grid: Grid, suffix: seq<Token>, rowSlice: seq<int>, colSlice: seq<int>)
    returns (equal: bool)
    ensures equal <==> ReadRows(grid, rowSlice, colSlice) == suffix
  {
    hide ReadRow;
    var concat: seq<Token> := [];
    var overflow := false;
    var n := 0;
    while n < |rowSlice| && !overflow
      invariant 0 <= n <= |rowSlice|
      invariant !overflow ==> concat == ReadRows(grid, rowSlice[..n], colSlice)
      invariant overflow ==> |ReadRows(grid, rowSlice, colSlice)| > |suffix|
      decreases |rowSlice| - n
    {
      concat, overflow := AppendRow(grid, suffix, rowSlice, colSlice, n, concat);
      assert rowSlice[..n + 1][..n] == rowSlice[..n];
      n := n + 1;
    }
    assert rowSlice[..|rowSlice|] == rowSlice;
    return !overflow && concat == suffix;
  }

  function TextAt(grid: Grid, rowSlice: seq<int>, cols: seq<int>, j: nat, j2: nat): seq<Token>
    requires j < |cols| && j2 < |cols|
  {
    ReadRows(grid, rowSlice, Slice(cols, cols[j], cols[j2]))
  }

  /** No rectangle over these row bounds reads as the suffix. */
  ghost predicate NoColumns(grid: Grid, suffix: seq<Token>, rowSlice: seq<int>, cols: seq<int>) {
    forall j, j2 :: 0 <= j <= j2 < |cols| ==> TextAt(grid, rowSlice, cols, j, j2) != suffix
  }

  method ColumnsMatch(grid: Grid, suffix: seq<Token>, rowSlice: seq<int>, cols: seq<int>) returns (found: bool)
    ensures found <==> !NoColumns(grid, suffix, rowSlice, cols)
  {
    hide Slice, ReadRows;
    for j := 0 to |cols|
      invariant forall a, b :: 0 <= a < j && a <= b < |cols| ==> TextAt(grid, rowSlice, cols, a, b) != suffix
    {
      for j2 := j to |cols|
        invariant forall b :: j <= b < j2 ==> TextAt(grid, rowSlice, cols, j, b) != suffix
      {
        var equal := RectangleIs(grid, suffix, rowSlice, Slice(cols, cols[j], cols[j2]));
        if equal {
          assert TextAt(grid, rowSlice, cols, j, j2) == suffix;
          return true;
        }
      }
    }
    return false;
  }

  lemma FoundRectangle(grid: Grid, suffix: seq<Token>, rows: seq<int>, cols: seq<int>, i: nat, i2: nat)
    requires Indexes(grid, rows, cols) && i <= i2 < |rows|
    requires !NoColumns(grid, suffix, Slice(rows, rows[i], rows[i2]), cols)
    ensures ReadsRectangle(grid, suffix)
  {
    var j, j2 :| 0 <= j <= j2 < |cols| && TextAt(grid, Slice(rows, rows[i], rows[i2]), cols, j, j2) == suffix;
    SlicesRead(grid, rows, cols, rows[i], rows[i2], cols[j], cols[j2]);
  }

  method IndexesOf(grid: Grid) returns (rows: seq<int>, cols: seq<int>)
    ensures Indexes(grid, rows, cols)
  {
    rows := Sorted(set k | k in grid :: k.0);
    cols := Sorted(set k | k in grid :: k.1);
    forall r, c | (r, c) in grid
      ensures r in rows && c in cols
    {
      assert (r, c).0 == r && (r, c).1 == c;
    }
  }

  method SuffixFromTableRectangle(suffix: seq<Token>, grid: Grid) returns (found: bool)
    ensures found <==> suffix != [] && ReadsRectangle(grid, suffix)
  {
    hide *;
    if suffix == [] {
      return false;
    }
    var rows, cols := IndexesOf(grid);
    for i := 0 to |rows|
      invariant forall a, b :: 0 <= a < i && a <= b < |rows| ==>
                                 NoColumns(grid, suffix, Slice(rows, rows[a], rows[b]), cols)
    {
      for i2 := i to |rows|
        invariant forall b :: i <= b < i2 ==> NoColumns(grid, suffix, Slice(rows, rows[i], rows[b]), cols)
      {
        var hit := ColumnsMatch(grid, suffix, Slice(rows, rows[i], rows[i2]), cols);
        if hit {
          FoundRectangle(grid, suffix, rows, cols, i, i2);
          return true;
        }
      }
    }
    if ReadsRectangle(grid, suffix) {
      ghost var i, i2 := SnapRectangle(grid, rows, cols, suffix);
      assert false;
    }
    return false;
  }

  // ----- runs of one block -----

  method ContiguousInAnyBlock(prefix: seq<Token>, lists: seq<seq<Token>>) returns (found: bool)
    ensures found <==> InSome(prefix, lists)
  {
    if prefix == [] {
      return true;
    }
    for k := 0 to |lists|
      invariant forall a :: 0 <= a < k ==> !Within(prefix, lists[a])
    {
      var i := 0;
      while i < |lists[k]| - |prefix| + 1
        invariant 0 <= i
        invariant forall a :: 0 <= a < i ==> !OccursAt(prefix, lists[k], a)
      {
        if lists[k][i..i + |prefix|] == prefix {
          assert OccursAt(prefix, lists[k], i);
          return true;
        }
        i := i + 1;
      }
    }
    return false;
  }

  /** A shorter prefix is found wherever a longer one is. */
  lemma InTextShrinks(excerpt: seq<Token>, blocks: seq<Block>, short: nat, long: nat)
    requires short <= long <= |excerpt| && InText(excerpt[..long], blocks)
    ensures InText(excerpt[..short], blocks)
  {
    if short > 0 {
      var b :| b in blocks && b.Text? && Within(excerpt[..long], b.tokens);
      var i: nat :| OccursAt(excerpt[..long], b.tokens, i);
      assert b.tokens[i..i + short] == b.tokens[i..i + long][..short];
      assert excerpt[..long][..short] == excerpt[..short];
      assert OccursAt(excerpt[..short], b.tokens, i);
    }
  }

  // ----- sorting the blocks into text lists and tables -----

  function TextLists(blocks: seq<Block>): seq<seq<Token>> {
    if blocks == [] then []
    else
      var last := blocks[|blocks| - 1];
      TextLists(blocks[..|blocks| - 1]) + (if last.Text? then [last.tokens] else [])
  }

  lemma {:induction false} TextIsListed(blocks: seq<Block>, i: nat)
    requires i < |blocks| && blocks[i].Text?
    ensures blocks[i].tokens in TextLists(blocks)
  {
    if i < |blocks| - 1 {
      TextIsListed(blocks[..|blocks| - 1], i);
    }
  }

  lemma {:induction false} ListedIsText(blocks: seq<Block>, k: nat) returns (i: nat)
    requires k < |TextLists(blocks)|
    ensures i < |blocks| && blocks[i].Text? && blocks[i].tokens == TextLists(blocks)[k]
  {
    var front := blocks[..|blocks| - 1];
    if k < |TextLists(front)| {
      i := ListedIsText(front, k);
    } else {
      i := |blocks| - 1;
    }
  }

  lemma TextListsAgree(needle: seq<Token>, blocks: seq<Block>)
    ensures InSome(needle, TextLists(blocks)) <==> InText(needle, blocks)
  {
    hide TextLists, Within;
    var lists := TextLists(blocks);
    if needle != [] && InSome(needle, lists) {
      var k :| 0 <= k < |lists| && Within(needle, lists[k]);
      var i := ListedIsText(blocks, k);
      assert blocks[i] in blocks;
    }
    if needle != [] && InText(needle, blocks) {
      var b :| b in blocks && b.Text? && Within(needle, b.tokens);
      var i :| 0 <= i < |blocks| && blocks[i] == b;
      TextIsListed(blocks, i);
    }
  }

  /** The cells seen so far, filed under their table, and the tables in the order
      they were first met. */
  ghost predicate Filed(blocks: seq<Block>, tables: map<nat, seq<Block>>, order: seq<nat>) {
    && (forall t :: t in order <==> t in tables)
    && forall t :: CellsOf(blocks, t) == if t in tables then tables[t] else []
  }

  function FileInto(tables: map<nat, seq<Block>>, b: Block): map<nat, seq<Block>>
    requires b.Cell?
  {
    tables[b.table := (if b.table in tables then tables[b.table] else []) + [b]]
  }

  lemma FiledText(blocks: seq<Block>, tables: map<nat, seq<Block>>, order: seq<nat>, b: Block)
    requires Filed(blocks, tables, order) && b.Text?
    ensures Filed(blocks + [b], tables, order)
  {
  }

  lemma FiledCell(blocks: seq<Block>, tables: map<nat, seq<Block>>, order: seq<nat>, b: Block, orderNow: seq<nat>)
    requires Filed(blocks, tables, order) && b.Cell?
    requires orderNow == if b.table in tables then order else order + [b.table]
    ensures Filed(blocks + [b], FileInto(tables, b), orderNow)
  {
  }

  lemma TextListsSnoc(blocks: seq<Block>, b: Block)
    ensures TextLists(blocks + [b]) == TextLists(blocks) + (if b.Text? then [b.tokens] else [])
  {
    assert (blocks + [b])[..|blocks|] == blocks;
  }

  method FileBlocks(blocks: seq<Block>)
    returns (texts: seq<seq<Token>>, tables: map<nat, seq<Block>>, order: seq<nat>)
    ensures texts == TextLists(blocks)
    ensures Filed(blocks, tables, order)
  {
    texts, tables, order := [], map[], [];
    for i := 0 to |blocks|
      invariant texts == TextLists(blocks[..i])
      invariant Filed(blocks[..i], tables, order)
    {
      hide *;
      var b := blocks[i];
      assert blocks[..i + 1] == blocks[..i] + [b];
      TextListsSnoc(blocks[..i], b);
      match b {
        case Text(tokens) =>
          FiledText(blocks[..i], tables, order, b);
          texts := texts + [tokens];
        case Cell(t, _, _, _) =>
          var orderNow := if t in tables then order else order + [t];
          FiledCell(blocks[..i], tables, order, b, orderNow);
          order := orderNow;
          tables := FileInto(tables, b);
      }
    }
    assert blocks[..|blocks|] == blocks;
  }

  method BuildGrid(cells: seq<Block>) returns (grid: Grid)
    requires Placed(cells)
    ensures grid == GridOf(cells)
  {
    grid := map[];
    for i := 0 to |cells|
      invariant grid == GridOf(cells[..i])
    {
      assert cells[..i + 1][..i] == cells[..i];
      assert cells[i] in cells;
      grid := grid[(cells[i].row.value, cells[i].col.value) := cells[i].tokens];
    }
    assert cells[..|cells|] == cells;
  }

  function TokensOf(cells: seq<Block>): (lists: seq<seq<Token>>)
    ensures |lists| == |cells| && forall k :: 0 <= k < |cells| ==> lists[k] == cells[k].tokens
  {
    seq(|cells|, k requires 0 <= k < |cells| => cells[k].tokens)
  }

  /** The grids of the listed tables whose every cell has coordinates. */
  function Grids(blocks: seq<Block>, order: seq<nat>): seq<Grid> {
    if order == [] then []
    else
      var cells := CellsOf(blocks, order[|order| - 1]);
      Grids(blocks, order[..|order| - 1]) + (if Placed(cells) then [GridOf(cells)] else [])
  }

  /** The tokens of every cell of the listed tables. */
  function CellLists(blocks: seq<Block>, order: seq<nat>): seq<seq<Token>> {
    if order == [] then []
    else CellLists(blocks, order[..|order| - 1]) + TokensOf(CellsOf(blocks, order[|order| - 1]))
  }

  method BuildTables(blocks: seq<Block>, tables: map<nat, seq<Block>>, order: seq<nat>)
    returns (grids: seq<Grid>, cellLists: seq<seq<Token>>)
    requires Filed(blocks, tables, order)
    ensures grids == Grids(blocks, order)
    ensures cellLists == CellLists(blocks, order)
  {
    grids, cellLists := [], [];
    for i := 0 to |order|
      invariant grids == Grids(blocks, order[..i])
      invariant cellLists == CellLists(blocks, order[..i])
    {
      OneMoreTable(blocks, tables, order, i);
      hide Filed, Grids, CellLists, CellsOf, GridOf, Placed, TokensOf;
      var cells := tables[order[i]];
      cellLists := cellLists + TokensOf(cells);
      if Placed(cells) {
        var grid := BuildGrid(cells);
        grids := grids + [grid];
      }
    }
    assert order[..|order|] == order;
  }

  lemma OneMoreTable(blocks: seq<Block>, tables: map<nat, seq<Block>>, order: seq<nat>, i: nat)
    requires Filed(blocks, tables, order) && i < |order|
    ensures order[i] in tables
    ensures
      var cells := tables[order[i]];
      && Grids(blocks, order[..i + 1]) == Grids(blocks, order[..i]) + (if Placed(cells) then [GridOf(cells)] else [])
      && CellLists(blocks, order[..i + 1]) == CellLists(blocks, order[..i]) + TokensOf(cells)
  {
    hide CellsOf, GridOf, Placed, TokensOf;
    assert order[i] in order && order[..i + 1][..i] == order[..i];
  }

  lemma {:induction false} CellIsListed(blocks: seq<Block>, order: seq<nat>, j: nat, k: nat)
    requires j < |order| && k < |CellsOf(blocks, order[j])|
    ensures CellsOf(blocks, order[j])[k].tokens in CellLists(blocks, order)
  {
    hide CellsOf;
    if j < |order| - 1 {
      CellIsListed(blocks, order[..|order| - 1], j, k);
    } else {
      var added := TokensOf(CellsOf(blocks, order[j]));
      assert added[k] in added;
    }
  }

  lemma {:induction false} ListedIsCell(blocks: seq<Block>, order: seq<nat>, k: nat) returns (b: Block)
    requires k < |CellLists(blocks, order)|
    ensures b in blocks && b.Cell? && b.tokens == CellLists(blocks, order)[k]
  {
    var front := order[..|order| - 1];
    if k < |CellLists(blocks, front)| {
      b := ListedIsCell(blocks, front, k);
    } else {
      var cells := CellsOf(blocks, order[|order| - 1]);
      b := cells[k - |CellLists(blocks, front)|];
      assert b in cells;
    }
  }

  lemma CellListsAgree(needle: seq<Token>, blocks: seq<Block>, tables: map<nat, seq<Block>>, order: seq<nat>)
    requires Filed(blocks, tables, order)
    ensures InSome(needle, CellLists(blocks, order)) <==> InCell(needle, blocks)
  {
    hide CellLists, Within, CellsOf;
    var lists := CellLists(blocks, order);
    if needle != [] && InSome(needle, lists) {
      var k :| 0 <= k < |lists| && Within(needle, lists[k]);
      var b := ListedIsCell(blocks, order, k);
    }
    if needle != [] && InCell(needle, blocks) {
      var b :| b in blocks && b.Cell? && Within(needle, b.tokens);
      var cells := CellsOf(blocks, b.table);
      assert b in cells;
      var k :| 0 <= k < |cells| && cells[k] == b;
      assert b.table in order;
      var j :| 0 <= j < |order| && order[j] == b.table;
      CellIsListed(blocks, order, j, k);
    }
  }

  lemma {:induction false} GridIsListed(blocks: seq<Block>, order: seq<nat>, j: nat)
    requires j < |order| && Placed(CellsOf(blocks, order[j]))
    ensures GridOf(CellsOf(blocks, order[j])) in Grids(blocks, order)
  {
    hide CellsOf, GridOf, Placed;
    if j < |order| - 1 {
      GridIsListed(blocks, order[..|order| - 1], j);
    }
  }

  lemma {:induction false} ListedIsGrid(blocks: seq<Block>, order: seq<nat>, k: nat) returns (t: nat)
    requires k < |Grids(blocks, order)|
    ensures Placed(CellsOf(blocks, t)) && GridOf(CellsOf(blocks, t)) == Grids(blocks, order)[k]
  {
    hide CellsOf, GridOf, Placed;
    var front := order[..|order| - 1];
    if k < |Grids(blocks, front)| {
      t := ListedIsGrid(blocks, front, k);
    } else {
      t := order[|order| - 1];
    }
  }

  method AnyTableReads(suffix: seq<Token>, grids: seq<Grid>) returns (found: bool)
    ensures found <==> suffix != [] && exists g :: g in grids && ReadsRectangle(g, suffix)
  {
    hide ReadsRectangle;
    for k := 0 to |grids|
      invariant suffix != [] ==> forall a :: 0 <= a < k ==> !ReadsRectangle(grids[a], suffix)
    {
      var hit := SuffixFromTableRectangle(suffix, grids[k]);
      if hit {
        return true;
      }
    }
    return false;
  }

  lemma EmptyTableReadsNothing(r1: int, r2: int, c1: int, c2: int)
    ensures RowMajor(map[], r1, r2, c1, c2) == []
  {
    RowMajorIsReadRows(map[], [], [], r1, r2, c1, c2);
  }

  lemma GridsAgree(suffix: seq<Token>, blocks: seq<Block>, tables: map<nat, seq<Block>>, order: seq<nat>)
    requires suffix != [] && Filed(blocks, tables, order)
    ensures (exists g :: g in Grids(blocks, order) && ReadsRectangle(g, suffix)) <==> InSomeTable(blocks, suffix)
  {
    hide CellsOf, Grids, RowMajor, Placed, GridOf, ReadsRectangle, TableReads;
    var grids := Grids(blocks, order);
    if InSomeTable(blocks, suffix) {
      var t :| TableReads(blocks, t, suffix);
      GridReadsIff(blocks, t, suffix);
      assert t in order by {
        ReadingTableHasCells(blocks, t, suffix);
      }
      var j :| 0 <= j < |order| && order[j] == t;
      GridIsListed(blocks, order, j);
    }
    if g :| g in grids && ReadsRectangle(g, suffix) {
      var k :| 0 <= k < |grids| && grids[k] == g;
      var t := ListedIsGrid(blocks, order, k);
      GridReadsIff(blocks, t, suffix);
    }
  }

  lemma ReadingTableHasCells(blocks: seq<Block>, t: nat, suffix: seq<Token>)
    requires suffix != [] && GridReads(blocks, t, suffix)
    ensures CellsOf(blocks, t) != []
  {
    var cells := CellsOf(blocks, t);
    if cells == [] {
      var r1, r2, c1, c2 :| RowMajor(GridOf(cells), r1, r2, c1, c2) == suffix;
      EmptyTableReadsNothing(r1, r2, c1, c2);
    }
  }

  // ----- the whole check -----

  lemma NoLaterSplit(excerpt: seq<Token>, blocks: seq<Block>, split: nat)
    requires split <= |excerpt| && !InText(excerpt[..split], blocks)
    ensures forall s :: split <= s <= |excerpt| ==> !SplitsAt(excerpt, blocks, s)
  {
    forall s | split <= s <= |excerpt|
      ensures !SplitsAt(excerpt, blocks, s)
    {
      if InText(excerpt[..s], blocks) {
        InTextShrinks(excerpt, blocks, split, s);
      }
    }
  }

  lemma NoSplit(excerpt: seq<Token>, blocks: seq<Block>)
    requires forall s :: 0 <= s <= |excerpt| ==> !SplitsAt(excerpt, blocks, s)
    ensures !Splits(excerpt, blocks)
  {
    hide SplitsAt;
  }

  lemma SplitFound(excerpt: seq<Token>, blocks: seq<Block>, split: nat)
    requires split <= |excerpt| && InText(excerpt[..split], blocks)
    requires split == |excerpt| || InSomeTable(blocks, excerpt[split..])
    ensures Splits(excerpt, blocks)
  {
    hide InText, InSomeTable;
    assert SplitsAt(excerpt, blocks, split);
  }

  lemma NotSplit(excerpt: seq<Token>, blocks: seq<Block>, split: nat)
    requires split < |excerpt| && !InSomeTable(blocks, excerpt[split..])
    ensures !SplitsAt(excerpt, blocks, split)
  {
  }

  method FindSplit(
    excerpt: seq<Token>, texts: seq<seq<Token>>, grids: seq<Grid>,
    ghost blocks: seq<Block>, ghost tables: map<nat, seq<Block>>, ghost order: seq<nat>)
    returns (found: bool)
    requires excerpt != [] && Filed(blocks, tables, order)
    requires texts == TextLists(blocks) && grids == Grids(blocks, order)
    ensures found <==> Splits(excerpt, blocks)
  {
    hide *;
    for split := 0 to |excerpt| + 1
      invariant forall s :: 0 <= s < split ==> !SplitsAt(excerpt, blocks, s)
    {
      var prefix, suffix := excerpt[..split], excerpt[split..];
      TextListsAgree(prefix, blocks);
      var contiguous := ContiguousInAnyBlock(prefix, texts);
      if !contiguous {
        NoLaterSplit(excerpt, blocks, split);
        NoSplit(excerpt, blocks);
        return false;
      }
      if suffix == [] {
        SplitFound(excerpt, blocks, split);
        return true;
      }
      var read := AnyTableReads(suffix, grids);
      GridsAgree(suffix, blocks, tables, order);
      if read {
        SplitFound(excerpt, blocks, split);
        return true;
      }
      NotSplit(excerpt, blocks, split);
    }
    NoSplit(excerpt, blocks);
    return false;
  }

  /** The search over splits stops at the first prefix no text block holds, and
      the rectangle search cuts off long rectangles; neither changes the answer. */
  method IsExcerptGrounded(excerpt: seq<Token>, blocks: seq<Block>) returns (grounded: bool)
    ensures grounded <==> Grounded(excerpt, blocks)
  {
    hide CellsOf, Within, InSome, InCell, Splits, Filed, Grids, CellLists;
    if excerpt == [] {
      return false;
    }
    var texts, tables, order := FileBlocks(blocks);
    var grids, cellLists := BuildTables(blocks, tables, order);
    CellListsAgree(excerpt, blocks, tables, order);
    var inCell := ContiguousInAnyBlock(excerpt, cellLists);
    if inCell {
      return true;
    }
    grounded := FindSplit(excerpt, texts, grids, blocks, tables, order);
  }

}
