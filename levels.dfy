/**
 * The fixed level layouts and the block grid a layout expands to.
 * A layout is a list of rows of digit characters: '0' is an empty cell,
 * any other digit a block whose palette slot is `(digit - 1) mod 6`.
 * The grid is centred horizontally using the longest row.
 */
module Levels {
  import opened World

  const LEVELS: seq<seq<string>> := [
    [
      "1111111111",
      "1222222221",
      "1233333321",
      "1222222221",
      "1111111111"
    ],
    [
      "1000000001",
      "0111111110",
      "0012222100",
      "0003330000",
      "0003330000",
      "0012222100",
      "0111111110",
      "1000000001"
    ],
    [
      "1111111111",
      "0000000000",
      "2222222222",
      "0000000000",
      "3333333333",
      "0000000000",
      "4444444444"
    ]
  ]

  /** The layout played at a level index; indices wrap around the table. */
  function Layout(index: int): seq<string> {
    LEVELS[index % |LEVELS|]
  }

  /** Level indices wrap around the table of three layouts. */
  lemma LayoutWraps(index: int)
    ensures Layout(index + |LEVELS|) == Layout(index)
    ensures 0 <= index < |LEVELS| ==> Layout(index) == LEVELS[index]
  {
  }

  /** Length of the longest row. */
  function MaxLen(rows: seq<string>): nat
    requires |rows| > 0
  {
    if |rows| == 1 then |rows[0]|
    else
      var rest := MaxLen(rows[1..]);
      if |rows[0]| >= rest then |rows[0]| else rest
  }

  /** `MaxLen` is the largest row length: it bounds every row and is some row's length. */
  lemma {:induction false} MaxLenIsMax(rows: seq<string>)
    requires |rows| > 0
    ensures forall r :: 0 <= r < |rows| ==> |rows[r]| <= MaxLen(rows)
    ensures exists r :: 0 <= r < |rows| && |rows[r]| == MaxLen(rows)
  {
    if |rows| == 1 {
      assert |rows[0]| == MaxLen(rows);
    } else {
      MaxLenIsMax(rows[1..]);
      var r' :| 0 <= r' < |rows[1..]| && |rows[1..][r']| == MaxLen(rows[1..]);
      assert |rows[r' + 1]| == MaxLen(rows[1..]);
      assert forall r :: 1 <= r < |rows| ==> rows[r] == rows[1..][r - 1];
      if |rows[0]| >= MaxLen(rows[1..]) {
        assert |rows[0]| == MaxLen(rows);
      } else {
        assert |rows[r' + 1]| == MaxLen(rows);
      }
    }
  }

  /** Left edge of the first column, so that the widest row is centred (floor division). */
  function StartX(rows: seq<string>): int
    requires |rows| > 0
  {
    var cols := MaxLen(rows);
    (WIDTH - (cols * BLOCK_WIDTH + (cols - 1) * BLOCK_PADDING)) / 2
  }

  /** Numeric value of a digit character. */
  function Digit(ch: char): int {
    ch as int - '0' as int
  }

  /** Palette slot of a cell character: `(digit - 1)` modulo the palette size. */
  function ColourIndex(ch: char): (k: int)
    ensures 0 <= k < PALETTE_SIZE
    ensures '1' <= ch <= '6' ==> k == Digit(ch) - 1
    ensures '7' <= ch <= '9' ==> k == Digit(ch) - 7
  {
    (Digit(ch) - 1) % PALETTE_SIZE
  }

  /** The block of the cell at row `r`, column `c`. */
  function CellBlock(startX: int, r: int, c: int, ch: char): Block {
    Block(Rect(startX + c * (BLOCK_WIDTH + BLOCK_PADDING),
               TOP_OFFSET + r * (BLOCK_HEIGHT + BLOCK_PADDING),
               BLOCK_WIDTH, BLOCK_HEIGHT),
          ColourIndex(ch), true)
  }

  function Cell(startX: int, r: int, c: int, ch: char): seq<Block> {
    if ch == '0' then [] else [CellBlock(startX, r, c, ch)]
  }

  /** Blocks of one row, in column order (defined the way the loader appends them). */
  function RowBlocks(startX: int, r: int, row: string): seq<Block>
  {
    if |row| == 0 then []
    else RowBlocks(startX, r, row[..|row| - 1]) + Cell(startX, r, |row| - 1, row[|row| - 1])
  }

  /** Blocks of a whole layout, in row-major order. */
  function GridBlocks(startX: int, rows: seq<string>): seq<Block>
  {
    if |rows| == 0 then []
    else GridBlocks(startX, rows[..|rows| - 1]) + RowBlocks(startX, |rows| - 1, rows[|rows| - 1])
  }

  /** The block list a level index loads. */
  function LevelBlocks(index: int): seq<Block> {
    var rows := Layout(index);
    GridBlocks(StartX(rows), rows)
  }

  /** A row's blocks grow cell by cell, as the loader's inner loop appends them. */
  lemma RowStep(startX: int, r: int, row: string, c: int)
    requires 0 <= c < |row|
    ensures RowBlocks(startX, r, row[..c + 1]) == RowBlocks(startX, r, row[..c]) + Cell(startX, r, c, row[c])
  {
    assert row[..c + 1][..c] == row[..c];
  }

  /** A grid's blocks grow row by row, as the loader's outer loop appends them. */
  lemma GridStep(startX: int, rows: seq<string>, r: int)
    requires 0 <= r < |rows|
    ensures GridBlocks(startX, rows[..r + 1]) == GridBlocks(startX, rows[..r]) + RowBlocks(startX, r, rows[r])
  {
    assert rows[..r + 1][..r] == rows[..r];
  }

  /** Number of non-'0' cells of a row, counted from the front. */
  function Occupied(row: string): nat {
    if |row| == 0 then 0 else (if row[0] == '0' then 0 else 1) + Occupied(row[1..])
  }

  /** Number of non-'0' cells of a layout, counted from the front. */
  function OccupiedCells(rows: seq<string>): nat {
    if |rows| == 0 then 0 else Occupied(rows[0]) + OccupiedCells(rows[1..])
  }

  /** `a` comes strictly before `b` in row-major order of grid positions. */
  predicate Before(a: Rect, b: Rect) {
    a.y < b.y || (a.y == b.y && a.x < b.x)
  }

  predicate RowMajor(bs: seq<Block>) {
    forall i, j :: 0 <= i < j < |bs| ==> Before(bs[i].rect, bs[j].rect)
  }

  // ---------------------------------------------------------------------
  // Counting

  lemma {:induction false} OccupiedSnoc(row: string, ch: char)
    ensures Occupied(row + [ch]) == Occupied(row) + (if ch == '0' then 0 else 1)
  {
    if |row| > 0 {
      assert (row + [ch])[1..] == row[1..] + [ch];
      OccupiedSnoc(row[1..], ch);
    } else {
      assert (row + [ch])[1..] == [];
    }
  }

  lemma {:induction false} OccupiedCellsSnoc(rows: seq<string>, row: string)
    ensures OccupiedCells(rows + [row]) == OccupiedCells(rows) + Occupied(row)
  {
    if |rows| > 0 {
      assert (rows + [row])[1..] == rows[1..] + [row];
      OccupiedCellsSnoc(rows[1..], row);
    } else {
      assert (rows + [row])[1..] == [];
    }
  }

  lemma {:induction false} RowCount(startX: int, r: int, row: string)
    ensures |RowBlocks(startX, r, row)| == Occupied(row)
  {
    if |row| > 0 {
      var n := |row| - 1;
      RowCount(startX, r, row[..n]);
      OccupiedSnoc(row[..n], row[n]);
      assert row[..n] + [row[n]] == row;
    }
  }

  /** The loader makes exactly one block per non-'0' cell. */
  lemma {:induction false} GridCount(startX: int, rows: seq<string>)
    ensures |GridBlocks(startX, rows)| == OccupiedCells(rows)
  {
    if |rows| > 0 {
      var n := |rows| - 1;
      GridCount(startX, rows[..n]);
      RowCount(startX, n, rows[n]);
      OccupiedCellsSnoc(rows[..n], rows[n]);
      assert rows[..n] + [rows[n]] == rows;
    }
  }

  // ---------------------------------------------------------------------
  // Completeness and soundness: the blocks are exactly the non-'0' cells

  lemma {:induction false} RowComplete(startX: int, r: int, row: string, c: int)
    requires 0 <= c < |row| && row[c] != '0'
    ensures CellBlock(startX, r, c, row[c]) in RowBlocks(startX, r, row)
  {
    var n := |row| - 1;
    if c < n {
      RowComplete(startX, r, row[..n], c);
    }
  }

  /** Every non-'0' cell at `(r, c)` yields its block, placed on the grid. */
  lemma {:induction false} GridComplete(startX: int, rows: seq<string>, r: int, c: int)
    requires 0 <= r < |rows| && 0 <= c < |rows[r]| && rows[r][c] != '0'
    ensures CellBlock(startX, r, c, rows[r][c]) in GridBlocks(startX, rows)
  {
    var n := |rows| - 1;
    if r < n {
      GridComplete(startX, rows[..n], r, c);
    } else {
      RowComplete(startX, r, rows[r], c);
    }
  }

  lemma {:induction false} RowSound(startX: int, r: int, row: string, k: int)
    requires 0 <= k < |RowBlocks(startX, r, row)|
    ensures exists c :: 0 <= c < |row| && row[c] != '0' && RowBlocks(startX, r, row)[k] == CellBlock(startX, r, c, row[c])
  {
    var n := |row| - 1;
    var prefix := RowBlocks(startX, r, row[..n]);
    if k < |prefix| {
      RowSound(startX, r, row[..n], k);
      var c :| 0 <= c < |row[..n]| && row[..n][c] != '0' && prefix[k] == CellBlock(startX, r, c, row[..n][c]);
      assert row[c] == row[..n][c];
    } else {
      assert RowBlocks(startX, r, row)[k] == CellBlock(startX, r, n, row[n]);
    }
  }

  /** Every loaded block is the block of some non-'0' cell. */
  lemma {:induction false} GridSound(startX: int, rows: seq<string>, k: int)
    requires 0 <= k < |GridBlocks(startX, rows)|
    ensures exists r, c :: 0 <= r < |rows| && 0 <= c < |rows[r]| && rows[r][c] != '0' &&
                           GridBlocks(startX, rows)[k] == CellBlock(startX, r, c, rows[r][c])
  {
    var n := |rows| - 1;
    var prefix := GridBlocks(startX, rows[..n]);
    if k < |prefix| {
      GridSound(startX, rows[..n], k);
      var r, c :| 0 <= r < |rows[..n]| && 0 <= c < |rows[..n][r]| && rows[..n][r][c] != '0' &&
                  prefix[k] == CellBlock(startX, r, c, rows[..n][r][c]);
      assert rows[r] == rows[..n][r];
    } else {
      RowSound(startX, n, rows[n], k - |prefix|);
    }
  }

  // ---------------------------------------------------------------------
  // Row-major order

  lemma {:induction false} RowPlacement(startX: int, r: int, row: string)
    ensures forall b :: b in RowBlocks(startX, r, row) ==>
      b.rect.y == TOP_OFFSET + r * (BLOCK_HEIGHT + BLOCK_PADDING) &&
      startX <= b.rect.x < startX + |row| * (BLOCK_WIDTH + BLOCK_PADDING)
    ensures forall i, j :: 0 <= i < j < |RowBlocks(startX, r, row)| ==>
      RowBlocks(startX, r, row)[i].rect.x < RowBlocks(startX, r, row)[j].rect.x
  {
    if |row| > 0 {
      RowPlacement(startX, r, row[..|row| - 1]);
    }
  }

  lemma {:induction false} GridPlacement(startX: int, rows: seq<string>)
    ensures forall b :: b in GridBlocks(startX, rows) ==>
      b.rect.y < TOP_OFFSET + |rows| * (BLOCK_HEIGHT + BLOCK_PADDING)
    ensures RowMajor(GridBlocks(startX, rows))
  {
    if |rows| > 0 {
      var n := |rows| - 1;
      var prefix := GridBlocks(startX, rows[..n]);
      var last := RowBlocks(startX, n, rows[n]);
      GridPlacement(startX, rows[..n]);
      RowPlacement(startX, n, rows[n]);
      var all := prefix + last;
      forall i, j | 0 <= i < j < |all| ensures Before(all[i].rect, all[j].rect) {
        if j < |prefix| {
        } else if i < |prefix| {
          assert all[i] in prefix && all[j] in last;
        } else {
          assert all[i] == last[i - |prefix|] && all[j] == last[j - |prefix|];
        }
      }
    }
  }

  // ---------------------------------------------------------------------
  // Facts about the loader on the fixed table

  /** Every layout row is ten cells wide, so the grid starts at x = 73. */
  lemma LevelStartX(index: int)
    ensures forall r :: 0 <= r < |Layout(index)| ==> |Layout(index)[r]| == 10
    ensures MaxLen(Layout(index)) == 10
    ensures StartX(Layout(index)) == 73
  {
    var rows := Layout(index);
    assert forall r :: 0 <= r < |rows| ==> |rows[r]| == 10;
  }

  /** Every layout has a block in its top-left cell, so every level loads at least one block. */
  lemma LevelNonEmpty(index: int)
    ensures |LevelBlocks(index)| > 0
  {
    var rows := Layout(index);
    assert rows[0][0] == '1';
    GridComplete(StartX(rows), rows, 0, 0);
  }

  /**
   * The blocks of a grid are exactly its non-'0' cells: one per cell, at the
   * cell's grid position, in row-major order.
   */
  lemma GridShape(startX: int, rows: seq<string>)
    ensures |GridBlocks(startX, rows)| == OccupiedCells(rows)
    ensures RowMajor(GridBlocks(startX, rows))
    ensures forall k :: 0 <= k < |GridBlocks(startX, rows)| ==>
      (exists r, c :: 0 <= r < |rows| && 0 <= c < |rows[r]| && rows[r][c] != '0' &&
         GridBlocks(startX, rows)[k] == CellBlock(startX, r, c, rows[r][c]))
    ensures forall r, c :: 0 <= r < |rows| && 0 <= c < |rows[r]| && rows[r][c] != '0' ==>
      CellBlock(startX, r, c, rows[r][c]) in GridBlocks(startX, rows)
  {
    GridCount(startX, rows);
    GridPlacement(startX, rows);
    forall k | 0 <= k < |GridBlocks(startX, rows)|
      ensures exists r, c :: 0 <= r < |rows| && 0 <= c < |rows[r]| && rows[r][c] != '0' &&
                             GridBlocks(startX, rows)[k] == CellBlock(startX, r, c, rows[r][c])
    {
      GridSound(startX, rows, k);
      var r, c :| 0 <= r < |rows| && 0 <= c < |rows[r]| && rows[r][c] != '0' &&
                  GridBlocks(startX, rows)[k] == CellBlock(startX, r, c, rows[r][c]);
    }
    forall r, c | 0 <= r < |rows| && 0 <= c < |rows[r]| && rows[r][c] != '0'
      ensures CellBlock(startX, r, c, rows[r][c]) in GridBlocks(startX, rows)
    {
      GridComplete(startX, rows, r, c);
    }
  }

  /** Every block of a grid is alive, 70 by 25, with a palette slot in range. */
  lemma GridWellFormed(startX: int, rows: seq<string>)
    ensures forall b :: b in GridBlocks(startX, rows) ==>
      b.alive && b.rect.w == BLOCK_WIDTH && b.rect.h == BLOCK_HEIGHT && 0 <= b.colour < PALETTE_SIZE
  {
    forall b | b in GridBlocks(startX, rows)
      ensures b.alive && b.rect.w == BLOCK_WIDTH && b.rect.h == BLOCK_HEIGHT && 0 <= b.colour < PALETTE_SIZE
    {
      var k :| 0 <= k < |GridBlocks(startX, rows)| && GridBlocks(startX, rows)[k] == b;
      GridSound(startX, rows, k);
    }
  }

  /** A freshly loaded level is non-empty and all of its blocks are alive. */
  lemma LevelLive(index: int)
    ensures |LevelBlocks(index)| > 0
    ensures forall i :: 0 <= i < |LevelBlocks(index)| ==> LevelBlocks(index)[i].alive
  {
    LevelNonEmpty(index);
    var rows := Layout(index);
    GridWellFormed(StartX(rows), rows);
  }
}
