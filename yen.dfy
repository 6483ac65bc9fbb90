/**
 * The YEN text form of a game (gamey/src/core/game.rs, `TryFrom<YEN>` and
 * `From<&GameY>`).  The layout lists the board row by row from the top
 * corner, rows separated by '/', row `r` holding `r + 1` characters: 'B'
 * for a stone of player 0, 'R' for player 1, '.' for an empty cell.
 *
 * Loading is specified by `ParseLayout` (the moves, or the first error in
 * reading order) and `LayoutBoard` (the board the moves build); printing
 * by `PrintLayout`.  The lemmas connect the two directions.
 */
module Yen {
  import opened Wrappers
  import opened Topology
  import opened Coords
  import opened Triangular
  import opened Masks
  import opened Groups
  import opened Engine
  import opened Game

  /** The notation: board size, player to move, player symbols, layout. */
  datatype YEN = YEN(size: nat, turn: nat, players: seq<char>, layout: string)

  // ------------------------------------------------------------ rows

  /** `layout.split('/')`: the text between separators, always at least one piece. */
  function Split(s: string): (rows: seq<string>)
    ensures |rows| >= 1
    ensures forall k :: 0 <= k < |rows| ==> '/' !in rows[k]
    decreases |s|
  {
    if |s| == 0 then [""]
    else
      var rest := Split(s[1..]);
      if s[0] == '/' then [""] + rest
      else [[s[0]] + rest[0]] + rest[1..]
  }

  /** The pieces put back together with '/' between them. */
  function Join(rows: seq<string>): string
    requires |rows| >= 1
    decreases |rows|
  {
    if |rows| == 1 then rows[0] else rows[0] + "/" + Join(rows[1..])
  }

  /** Splitting loses nothing: joining the pieces gives the text back. */
  lemma {:induction false} JoinSplit(s: string)
    ensures Join(Split(s)) == s
    decreases |s|
  {
    if |s| > 0 {
      JoinSplit(s[1..]);
      var rest := Split(s[1..]);
      if s[0] == '/' {
        assert ([""] + rest)[1..] == rest;
      } else {
        var rows := [[s[0]] + rest[0]] + rest[1..];
        if |rest| > 1 {
          assert rows[1..] == rest[1..];
        }
      }
      assert s == [s[0]] + s[1..];
    }
  }

  /** A text without separators is one piece. */
  lemma {:induction false} SplitNoSeparator(r: string)
    requires '/' !in r
    ensures Split(r) == [r]
    decreases |r|
  {
    if |r| > 0 {
      SplitNoSeparator(r[1..]);
      assert r == [r[0]] + r[1..];
    }
  }

  /** A separator after a piece without separators starts a new piece. */
  lemma {:induction false} SplitAfterPiece(r: string, t: string)
    requires '/' !in r
    ensures Split(r + "/" + t) == [r] + Split(t)
    decreases |r|
  {
    var s := r + "/" + t;
    if |r| == 0 {
      assert s[1..] == t;
    } else {
      assert s[1..] == r[1..] + "/" + t;
      SplitAfterPiece(r[1..], t);
      assert r == [r[0]] + r[1..];
    }
  }

  /** Pieces without separators survive joining and splitting again. */
  lemma {:induction false} SplitJoin(rows: seq<string>)
    requires |rows| >= 1
    requires forall k :: 0 <= k < |rows| ==> '/' !in rows[k]
    ensures Split(Join(rows)) == rows
    decreases |rows|
  {
    if |rows| == 1 {
      SplitNoSeparator(rows[0]);
    } else {
      SplitJoin(rows[1..]);
      SplitAfterPiece(rows[0], Join(rows[1..]));
      assert rows == [rows[0]] + rows[1..];
    }
  }

  /** Joining one more piece adds a separator and the piece at the end. */
  lemma {:induction false} JoinSnoc(rows: seq<string>, row: string)
    requires |rows| >= 1
    ensures Join(rows + [row]) == Join(rows) + "/" + row
    decreases |rows|
  {
    var all := rows + [row];
    if |rows| == 1 {
      assert all[1..] == [row];
    } else {
      assert all[1..] == rows[1..] + [row];
      JoinSnoc(rows[1..], row);
    }
  }

  // ------------------------------------------------------------ cells

  /** The character printed for a cell: 'B' for player 0, 'R' for player 1, '.' otherwise. */
  function CellChar(cell: Option<PlayerId>): (ch: char)
    ensures ch == 'B' <==> cell == Some(0)
    ensures ch == 'R' <==> cell == Some(1)
    ensures ch != '/'
  {
    match cell
    case Some(p) => if p == 0 then 'B' else if p == 1 then 'R' else '.'
    case None => '.'
  }

  /** The characters a layout may hold in a cell. */
  predicate ValidChar(ch: char)
  {
    ch == 'B' || ch == 'R' || ch == '.'
  }

  /** The occupant a layout character stands for. */
  function Decode(ch: char): (cell: Option<PlayerId>)
    ensures cell.Some? ==> cell.value <= 1
    ensures ValidChar(ch) ==> CellChar(cell) == ch
  {
    if ch == 'B' then Some(0) else if ch == 'R' then Some(1) else None
  }

  /** Printing then reading a cell keeps stones of players 0 and 1 and empties the rest. */
  lemma DecodeCellChar(cell: Option<PlayerId>)
    ensures ValidChar(CellChar(cell))
    ensures Decode(CellChar(cell)) == if cell.Some? && cell.value <= 1 then cell else None
  {
  }

  // ------------------------------------------------------------ parsing

  /** The coordinates of column `col` of row `row`, as `try_from` computes them. */
  function CoordsAt(size: nat, row: nat, col: nat): (c: Coordinates)
    requires col <= row < size
    ensures c.x + c.y + c.z + 1 == size  // the cell is on the board
    ensures c.x < size && c.y == col
  {
    var x := size - 1 - row;
    Coordinates(x, col, size - 1 - x - col)
  }

  /** The cell of column `col` of row `row` has index `Tri(row) + col`, which is on the board. */
  lemma CoordsAtIndex(size: nat, row: nat, col: nat)
    requires col <= row < size
    ensures ToIndex(CoordsAt(size, row, col), size) == Tri(row) + col && Tri(row) + col < Tri(size)
  {
    TriOrdered(row, size);
  }

  /** The moves one layout character asks for at `coords`, or the error for a bad character. */
  function CellMove(ch: char, coords: Coordinates, row: nat, col: nat): (r: Result<seq<Movement>, GameYError>)
    ensures r.Ok? <==> ValidChar(ch)
    ensures r.Ok? ==> r.value == if Decode(ch).Some? then [Placement(Decode(ch).value, coords)] else []
    ensures r.Err? ==> r.error == InvalidCharInLayout(ch, row, col)
  {
    match ch
    case 'B' => Ok([Placement(0, coords)])
    case 'R' => Ok([Placement(1, coords)])
    case '.' => Ok([])
    case _ => Err(InvalidCharInLayout(ch, row, col))
  }

  /** Every move is a placement the game accepts as in range. */
  ghost predicate AllInRange(moves: seq<Movement>, size: nat)
  {
    forall k :: 0 <= k < |moves| ==> InRange(moves[k], size)
  }

  /** A concatenation of moves is in range exactly when both parts are. */
  lemma AllInRangeAppend(a: seq<Movement>, b: seq<Movement>, size: nat)
    ensures AllInRange(a + b, size) <==> AllInRange(a, size) && AllInRange(b, size)
  {
    if AllInRange(a + b, size) {
      forall k | 0 <= k < |a| ensures InRange(a[k], size) {
        assert a[k] == (a + b)[k];
      }
      forall k | 0 <= k < |b| ensures InRange(b[k], size) {
        assert b[k] == (a + b)[|a| + k];
      }
    }
    if AllInRange(a, size) && AllInRange(b, size) {
      forall k | 0 <= k < |a + b| ensures InRange((a + b)[k], size) {
        if k < |a| {
          assert (a + b)[k] == a[k];
        } else {
          assert (a + b)[k] == b[k - |a|];
        }
      }
    }
  }

  /** The moves of the first `n` characters of row `row`, or the first bad character. */
  function RowMoves(size: nat, row: nat, cells: string, n: nat): (r: Result<seq<Movement>, GameYError>)
    requires row < size && |cells| == row + 1 && n <= |cells|
    ensures r.Ok? ==> AllInRange(r.value, size)
    decreases n
  {
    if n == 0 then Ok([])
    else
      match RowMoves(size, row, cells, n - 1)
      case Err(e) => Err(e)
      case Ok(ms) =>
        CoordsAtIndex(size, row, n - 1);
        match CellMove(cells[n - 1], CoordsAt(size, row, n - 1), row, n - 1)
        case Err(e) => Err(e)
        case Ok(m) => Ok(ms + m)
  }

  /** The moves of the first `n` rows, or the first row of the wrong length or bad character. */
  function RowsMoves(size: nat, rows: seq<string>, n: nat): (r: Result<seq<Movement>, GameYError>)
    requires |rows| == size && n <= size
    ensures r.Ok? ==> AllInRange(r.value, size)
    decreases n
  {
    if n == 0 then Ok([])
    else
      match RowsMoves(size, rows, n - 1)
      case Err(e) => Err(e)
      case Ok(ms) =>
        if |rows[n - 1]| != n then Err(InvalidYENLayoutLine(n, |rows[n - 1]|, n - 1))
        else
          match RowMoves(size, n - 1, rows[n - 1], n)
          case Err(e) => Err(e)
          case Ok(ms') => Ok(ms + ms')
  }

  /** What loading a layout does: the moves it replays, or the first error met. */
  function ParseLayout(size: nat, layout: string): (r: Result<seq<Movement>, GameYError>)
    ensures r.Ok? ==> AllInRange(r.value, size)
    ensures |Split(layout)| != size ==> r == Err(InvalidYENLayout(size, |Split(layout)|))
  {
    var rows := Split(layout);
    if |rows| != size then Err(InvalidYENLayout(size, |rows|))
    else RowsMoves(size, rows, size)
  }

  /** `size` rows, row `r` of `r + 1` valid characters. */
  ghost predicate WellFormed(size: nat, rows: seq<string>)
  {
    && |rows| == size
    && forall r :: 0 <= r < size ==>
         |rows[r]| == r + 1 && forall c :: 0 <= c < |rows[r]| ==> ValidChar(rows[r][c])
  }

  lemma {:induction false} RowMovesOk(size: nat, row: nat, cells: string, n: nat)
    requires row < size && |cells| == row + 1 && n <= |cells|
    ensures RowMoves(size, row, cells, n).Ok? <==> forall c :: 0 <= c < n ==> ValidChar(cells[c])
    decreases n
  {
    if n > 0 {
      RowMovesOk(size, row, cells, n - 1);
    }
  }

  lemma {:induction false} RowsMovesOk(size: nat, rows: seq<string>, n: nat)
    requires |rows| == size && n <= size
    ensures RowsMoves(size, rows, n).Ok? <==>
      forall r :: 0 <= r < n ==>
        |rows[r]| == r + 1 && forall c :: 0 <= c < |rows[r]| ==> ValidChar(rows[r][c])
    decreases n
  {
    if n > 0 {
      RowsMovesOk(size, rows, n - 1);
      if |rows[n - 1]| == n {
        RowMovesOk(size, n - 1, rows[n - 1], n);
      }
    }
  }

  /** A layout loads exactly when it has `size` rows of the right lengths and only 'B', 'R' and '.'. */
  lemma ParseLayoutOk(size: nat, layout: string)
    ensures ParseLayout(size, layout).Ok? <==> WellFormed(size, Split(layout))
  {
    if |Split(layout)| == size {
      RowsMovesOk(size, Split(layout), size);
    }
  }

  /** No layout loads as a size-0 game: even the empty layout is one (empty) row. */
  lemma SizeZeroRefused(layout: string)
    ensures ParseLayout(0, layout) == Err(InvalidYENLayout(0, |Split(layout)|))
  {
  }

  /** A failed row stays failed: the error of the first bad row is the error of the layout. */
  lemma {:induction false} RowMovesErrorStays(size: nat, row: nat, cells: string, n: nat, m: nat)
    requires row < size && |cells| == row + 1 && n <= m <= |cells|
    requires RowMoves(size, row, cells, n).Err?
    ensures RowMoves(size, row, cells, m) == RowMoves(size, row, cells, n)
    decreases m - n
  {
    if n < m {
      RowMovesErrorStays(size, row, cells, n, m - 1);
    }
  }

  lemma {:induction false} RowsMovesErrorStays(size: nat, rows: seq<string>, n: nat, m: nat)
    requires |rows| == size && n <= m <= size
    requires RowsMoves(size, rows, n).Err?
    ensures RowsMoves(size, rows, m) == RowsMoves(size, rows, n)
    decreases m - n
  {
    if n < m {
      RowsMovesErrorStays(size, rows, n, m - 1);
    }
  }

  /** The character a layout holds for cell `i`, '.' where the layout has none. */
  function CharAt(rows: seq<string>, size: nat, i: nat): char
    requires i < Tri(size)
  {
    var c := FromIndex(i, size);
    var r := size - 1 - c.x;
    if r < |rows| && c.y < |rows[r]| then rows[r][c.y] else '.'
  }

  /** The board a layout describes, cell by cell. */
  function LayoutBoard(size: nat, rows: seq<string>): (board: Board)
    ensures |board| == Tri(size)
  {
    seq(Tri(size), i requires 0 <= i < Tri(size) => Decode(CharAt(rows, size, i)))
  }

  /** The board after loading the first `n` cells of a layout. */
  function PartialLayout(size: nat, rows: seq<string>, n: nat): (board: Board)
    ensures |board| == Tri(size)
  {
    seq(Tri(size), i requires 0 <= i < Tri(size) => if i < n then Decode(CharAt(rows, size, i)) else None)
  }

  /** Loading cell `(row, col)` fills the next cell of the partial board, which was empty. */
  lemma PartialStep(size: nat, rows: seq<string>, row: nat, col: nat)
    requires |rows| == size && row < size && |rows[row]| == row + 1 && col <= row
    ensures Tri(row) + col < Tri(size)
    ensures PartialLayout(size, rows, Tri(row) + col)[Tri(row) + col] == None
    ensures PartialLayout(size, rows, Tri(row) + col)[Tri(row) + col := Decode(rows[row][col])]
         == PartialLayout(size, rows, Tri(row) + (col + 1))
  {
    RowColumnIndex(row, col, size);
    assert CharAt(rows, size, Tri(row) + col) == rows[row][col];
  }

  // ------------------------------------------------------------ printing

  /** The printer puts a separator after cell `idx`: it is the last cell of a row that is not the last. */
  ghost predicate EndsRow(idx: nat, size: nat)
  {
    exists r :: 0 <= r && r + 1 < size && idx == Tri(r) + r
  }

  /** The test `from` makes on the coordinates of a cell is `EndsRow`. */
  lemma EndsRowCoords(idx: nat, size: nat)
    requires idx < Tri(size)
    ensures EndsRow(idx, size) <==> FromIndex(idx, size).z == 0 && FromIndex(idx, size).x > 0
  {
    var c := FromIndex(idx, size);
    FromIndexFacts(idx, size);
    EndsRowAt(size - 1 - c.x, c.y, size);
  }

  /** The text the printer has produced after the first `n` cells. */
  ghost function PrintUpTo(board: Board, size: nat, n: nat): string
    requires |board| == Tri(size) && n <= Tri(size)
  {
    if n == 0 then ""
    else PrintUpTo(board, size, n - 1) + [CellChar(board[n - 1])] + (if EndsRow(n - 1, size) then "/" else "")
  }

  /** The layout printed for a board. */
  ghost function PrintLayout(board: Board, size: nat): string
    requires |board| == Tri(size)
  {
    PrintUpTo(board, size, Tri(size))
  }

  lemma RowInBoard(r: nat, size: nat)
    requires r < size
    ensures Tri(r) + r < Tri(size)
  {
    TriOrdered(r, size);
  }

  /** The characters of row `r` of a board. */
  function RowOf(board: Board, size: nat, r: nat): (row: string)
    requires |board| == Tri(size) && r < size
    ensures |row| == r + 1 && Tri(r) + r < Tri(size)
    ensures forall c :: 0 <= c <= r ==> Tri(r) + c < Tri(size) && row[c] == CellChar(board[Tri(r) + c])
  {
    RowInBoard(r, size);
    seq(r + 1, c requires 0 <= c <= r => CellChar(board[Tri(r) + c]))
  }

  /** All rows of a board, top corner first. */
  function RowStrings(board: Board, size: nat): (rows: seq<string>)
    requires |board| == Tri(size)
    ensures |rows| == size && forall r :: 0 <= r < size ==> rows[r] == RowOf(board, size, r)
  {
    seq(size, r requires 0 <= r < size => RowOf(board, size, r))
  }

  /** One more cell: its character, then a separator if it ends a row. */
  lemma PrintNext(board: Board, size: nat, i: nat)
    requires |board| == Tri(size) && i < Tri(size)
    ensures PrintUpTo(board, size, i + 1)
         == PrintUpTo(board, size, i) + [CellChar(board[i])] + (if EndsRow(i, size) then "/" else "")
  {
  }

  /** The separator comes after the last cell of every row but the last. */
  lemma EndsRowAt(r: nat, c: nat, size: nat)
    requires c <= r < size
    ensures Tri(r) + c < Tri(size)
    ensures EndsRow(Tri(r) + c, size) <==> c == r && r + 1 < size
  {
    RowInBoard(r, size);
    if EndsRow(Tri(r) + c, size) {
      var r' :| 0 <= r' && r' + 1 < size && Tri(r) + c == Tri(r') + r';
      TriUnique(r, c, r', r');
    }
  }

  /** Appending a cell's text to the printed prefix of its row. */
  lemma AppendCell(p: string, row: string, c: nat, sep: string)
    requires c < |row|
    ensures p + row[..c] + [row[c]] + sep == p + row[..c + 1] + sep
  {
    assert row[..c] + [row[c]] == row[..c + 1];
    assert p + row[..c] + [row[c]] == p + (row[..c] + [row[c]]);
  }

  /** Inside a row the printer writes the cells one after another, without separators. */
  lemma {:induction false} PrintRowPrefix(board: Board, size: nat, r: nat, c: nat)
    requires |board| == Tri(size) && r < size && c <= r
    ensures Tri(r) + c < Tri(size)
    ensures PrintUpTo(board, size, Tri(r) + c) == PrintUpTo(board, size, Tri(r)) + RowOf(board, size, r)[..c]
    decreases c
  {
    RowInBoard(r, size);
    if c > 0 {
      PrintRowPrefix(board, size, r, c - 1);
      EndsRowAt(r, c - 1, size);
      PrintNext(board, size, Tri(r) + (c - 1));
      AppendCell(PrintUpTo(board, size, Tri(r)), RowOf(board, size, r), c - 1, "");
    }
  }

  /** A whole row is printed, then a separator unless it is the last row. */
  lemma PrintRowStep(board: Board, size: nat, r: nat)
    requires |board| == Tri(size) && r < size
    ensures Tri(r + 1) <= Tri(size)
    ensures PrintUpTo(board, size, Tri(r + 1))
         == PrintUpTo(board, size, Tri(r)) + RowOf(board, size, r) + (if r + 1 < size then "/" else "")
  {
    var row := RowOf(board, size, r);
    PrintRowPrefix(board, size, r, r);
    EndsRowAt(r, r, size);
    PrintNext(board, size, Tri(r) + r);
    TriStep(r);
    AppendCell(PrintUpTo(board, size, Tri(r)), row, r, if r + 1 < size then "/" else "");
    assert row[..r + 1] == row;
  }

  /** After `r` whole rows the printer has written them joined by '/', and a '/' if more follow. */
  lemma {:induction false} PrintRows(board: Board, size: nat, r: nat)
    requires |board| == Tri(size) && 1 <= r <= size
    ensures Tri(r) <= Tri(size)
    ensures PrintUpTo(board, size, Tri(r))
         == Join(RowStrings(board, size)[..r]) + (if r < size then "/" else "")
    decreases r
  {
    var rows := RowStrings(board, size);
    PrintRowStep(board, size, r - 1);
    if r == 1 {
      assert rows[..1] == [RowOf(board, size, 0)];
    } else {
      PrintRows(board, size, r - 1);
      assert rows[..r] == rows[..r - 1] + [RowOf(board, size, r - 1)];
      JoinSnoc(rows[..r - 1], RowOf(board, size, r - 1));
    }
  }

  /** The printed layout is the rows of the board joined by '/'. */
  lemma PrintIsJoin(board: Board, size: nat)
    requires |board| == Tri(size) && size >= 1
    ensures PrintLayout(board, size) == Join(RowStrings(board, size))
  {
    PrintRows(board, size, size);
    assert RowStrings(board, size)[..size] == RowStrings(board, size);
  }

  /** A printed row holds only cell characters, and no separator. */
  lemma RowChars(board: Board, size: nat, r: nat)
    requires |board| == Tri(size) && r < size
    ensures '/' !in RowOf(board, size, r)
    ensures forall c :: 0 <= c < |RowOf(board, size, r)| ==> ValidChar(RowOf(board, size, r)[c])
  {
    var row := RowOf(board, size, r);
    RowInBoard(r, size);
    forall c | 0 <= c < |row|
      ensures row[c] != '/' && ValidChar(row[c])
    {
      DecodeCellChar(board[Tri(r) + c]);
    }
  }

  /** The printed layout has `size` rows, row `r` of `r + 1` cell characters. */
  lemma PrintedShape(board: Board, size: nat)
    requires |board| == Tri(size) && size >= 1
    ensures Split(PrintLayout(board, size)) == RowStrings(board, size)
    ensures WellFormed(size, Split(PrintLayout(board, size)))
  {
    var rows := RowStrings(board, size);
    PrintIsJoin(board, size);
    forall r | 0 <= r < size
      ensures '/' !in rows[r] && |rows[r]| == r + 1
      ensures forall c :: 0 <= c < |rows[r]| ==> ValidChar(rows[r][c])
    {
      RowChars(board, size, r);
    }
    SplitJoin(rows);
  }

  /** The printer writes one character per cell and one '/' between consecutive rows. */
  lemma {:induction false} PrintedLengthUpTo(board: Board, size: nat, r: nat)
    requires |board| == Tri(size) && r <= size
    ensures Tri(r) <= Tri(size)
    ensures |PrintUpTo(board, size, Tri(r))| == Tri(r) + (if r == size && r > 0 then r - 1 else r)
    decreases r
  {
    if r > 0 {
      PrintRowStep(board, size, r - 1);
      PrintedLengthUpTo(board, size, r - 1);
    }
  }

  lemma PrintedLength(board: Board, size: nat)
    requires |board| == Tri(size) && size >= 1
    ensures |PrintLayout(board, size)| == Tri(size) + size - 1
  {
    PrintedLengthUpTo(board, size, size);
  }

  // ------------------------------------------------------------ round trips

  /** Stones of players other than 0 and 1 have no character and print as empty. */
  function Normalize(board: Board): (b: Board)
    ensures |b| == |board|
    ensures forall i :: 0 <= i < |board| && board[i].Some? && board[i].value <= 1 ==> b[i] == board[i]
    ensures forall i :: 0 <= i < |board| && (board[i].None? || board[i].value > 1) ==> b[i].None?
  {
    seq(|board|, i requires 0 <= i < |board| => Decode(CellChar(board[i])))
  }

  /** Row `r` of the board a well-formed layout describes prints as row `r` of the layout. */
  lemma LayoutRow(size: nat, rows: seq<string>, r: nat)
    requires WellFormed(size, rows) && r < size
    ensures RowOf(LayoutBoard(size, rows), size, r) == rows[r]
  {
    var b := LayoutBoard(size, rows);
    forall c | 0 <= c <= r
      ensures RowOf(b, size, r)[c] == rows[r][c]
    {
      RowColumnIndex(r, c, size);
      assert CharAt(rows, size, Tri(r) + c) == rows[r][c];
      assert ValidChar(rows[r][c]);
    }
  }

  /** A layout that loads prints back unchanged. */
  lemma ParseThenPrint(size: nat, layout: string)
    requires ParseLayout(size, layout).Ok?
    ensures PrintLayout(LayoutBoard(size, Split(layout)), size) == layout
  {
    var rows := Split(layout);
    ParseLayoutOk(size, layout);
    var b := LayoutBoard(size, rows);
    PrintIsJoin(b, size);
    forall r | 0 <= r < size
      ensures RowStrings(b, size)[r] == rows[r]
    {
      LayoutRow(size, rows, r);
    }
    assert RowStrings(b, size) == rows;
    JoinSplit(layout);
  }

  /** A printed layout of a game of size at least 1 loads, as the board with only players 0 and 1 kept. */
  lemma PrintThenParse(board: Board, size: nat)
    requires |board| == Tri(size) && size >= 1
    ensures ParseLayout(size, PrintLayout(board, size)).Ok?
    ensures LayoutBoard(size, Split(PrintLayout(board, size))) == Normalize(board)
  {
    PrintedShape(board, size);
    ParseLayoutOk(size, PrintLayout(board, size));
    var rows := RowStrings(board, size);
    forall i | 0 <= i < Tri(size)
      ensures Decode(CharAt(rows, size, i)) == Normalize(board)[i]
    {
      var c := FromIndex(i, size);
      FromIndexFacts(i, size);
      assert CharAt(rows, size, i) == RowOf(board, size, size - 1 - c.x)[c.y];
    }
  }

  /** Printing, loading and printing again gives the same layout. */
  lemma PrintParsePrint(board: Board, size: nat)
    requires |board| == Tri(size) && size >= 1
    ensures PrintLayout(Normalize(board), size) == PrintLayout(board, size)
  {
    PrintThenParse(board, size);
    ParseThenPrint(size, PrintLayout(board, size));
  }

  // ------------------------------------------------------------ conversions

  /** Replaying one more move plays it on the state the earlier moves reached. */
  lemma ReplaySnoc(g: GameState, done: seq<Movement>, m: Movement)
    requires |g.board| == Tri(g.size) && AllInRange(done, g.size) && InRange(m, g.size)
    requires Replay(g, done).Ok?
    ensures AllInRange(done + [m], g.size)
    ensures Replay(g, done + [m]) == Play(Replay(g, done).value, m)
  {
    assert (done + [m])[..|done|] == done;
  }

  /** Once every cell is loaded, the partial board is the layout's board. */
  lemma PartialComplete(size: nat, rows: seq<string>)
    ensures PartialLayout(size, rows, Tri(size)) == LayoutBoard(size, rows)
  {
  }

  /**
   * `GameY::try_from(YEN)`: replay the layout's stones on a fresh game, row
   * by row, stopping at the first row of the wrong length or the first
   * character other than 'B', 'R' and '.'.  The turn and the player symbols
   * of the notation are not read.
   */
  method FromYen(yen: YEN) returns (r: Result<GameY, GameYError>)
    ensures r.Ok? <==> ParseLayout(yen.size, yen.layout).Ok?
    ensures r.Err? ==> r.error == ParseLayout(yen.size, yen.layout).error
    ensures r.Ok? ==> fresh(r.value) && fresh(r.value.engine) && r.value.Valid() && r.value.boardSize == yen.size
    ensures r.Ok? ==> r.value.engine.state == LayoutBoard(yen.size, Split(yen.layout))
    ensures r.Ok? ==> Replay(NewState(yen.size), ParseLayout(yen.size, yen.layout).value) == Ok(r.value.Abs())
  {
    var size := yen.size;
    var game := new GameY(size);
    var rows := Split(yen.layout);
    if |rows| != size {
      return Err(InvalidYENLayout(size, |rows|));
    }
    assert ParseLayout(size, yen.layout) == RowsMoves(size, rows, size);
    ghost var moves: seq<Movement> := [];
    assert Tri(0) == 0;
    for row := 0 to size
      invariant fresh(game) && fresh(game.engine)
      invariant RowsLoaded(game, rows, row, moves)
    {
      var cells := rows[row];
      if |cells| != row + 1 {
        RowFails(size, rows, row, moves);
        return Err(InvalidYENLayoutLine(row + 1, |cells|, row));
      }
      var loaded := LoadRow(game, rows, row, moves);
      if loaded.Err? {
        RowFails(size, rows, row, moves);
        return Err(loaded.error);
      }
      moves := moves + RowMoves(size, row, cells, row + 1).value;
    }
    PartialComplete(size, rows);
    return Ok(game);
  }

  /** A row of the wrong length, or with a bad character, is the error of the whole layout. */
  lemma RowFails(size: nat, rows: seq<string>, row: nat, moves: seq<Movement>)
    requires |rows| == size && row < size && RowsMoves(size, rows, row) == Ok(moves)
    ensures |rows[row]| != row + 1 ==> RowsMoves(size, rows, size) == Err(InvalidYENLayoutLine(row + 1, |rows[row]|, row))
    ensures |rows[row]| == row + 1 && RowMoves(size, row, rows[row], row + 1).Err? ==>
      RowsMoves(size, rows, size) == Err(RowMoves(size, row, rows[row], row + 1).error)
  {
    if |rows[row]| != row + 1 || RowMoves(size, row, rows[row], row + 1).Err? {
      RowsMovesErrorStays(size, rows, row + 1, size);
    }
  }

  /** The loader after the first `row` rows: their moves replay to the game, whose board holds their cells. */
  ghost predicate RowsLoaded(game: GameY, rows: seq<string>, row: nat, moves: seq<Movement>)
    reads game, game.engine
  {
    && game.Valid() && |rows| == game.boardSize && row <= |rows|
    && RowsMoves(game.boardSize, rows, row) == Ok(moves)
    && Replay(NewState(game.boardSize), moves) == Ok(game.Abs())
    && game.engine.state == PartialLayout(game.boardSize, rows, Tri(row))
  }

  /**
   * The loader part-way through row `row`: the first `col` cells of the row
   * are valid, their moves replay to the game, and the board holds every
   * cell up to them.
   */
  ghost predicate RowLoaded(game: GameY, rows: seq<string>, row: nat, col: nat, moves: seq<Movement>)
    reads game, game.engine
  {
    && game.Valid() && |rows| == game.boardSize && row < |rows| && |rows[row]| == row + 1 && col <= row + 1
    && AllInRange(moves, game.boardSize)
    && RowMoves(game.boardSize, row, rows[row], col).Ok?
    && Replay(NewState(game.boardSize), moves + RowMoves(game.boardSize, row, rows[row], col).value) == Ok(game.Abs())
    && game.engine.state == PartialLayout(game.boardSize, rows, Tri(row) + col)
  }

  /** Before the first cell of a row, the loader state of the earlier rows is the row's starting state. */
  lemma RowStart(game: GameY, rows: seq<string>, row: nat, moves: seq<Movement>)
    requires RowsLoaded(game, rows, row, moves) && row < |rows| && |rows[row]| == row + 1
    ensures RowLoaded(game, rows, row, 0, moves)
  {
    assert moves + [] == moves;
    assert Tri(row) + 0 == Tri(row);
  }

  /** After the last cell of a row, the loader has loaded one more row. */
  lemma RowEnd(game: GameY, rows: seq<string>, row: nat, moves: seq<Movement>)
    requires RowLoaded(game, rows, row, row + 1, moves) && RowsMoves(game.boardSize, rows, row) == Ok(moves)
    ensures RowsLoaded(game, rows, row + 1, moves + RowMoves(game.boardSize, row, rows[row], row + 1).value)
  {
    TriStep(row);
    assert Tri(row) + (row + 1) == Tri(row + 1);
  }

  /** One more column of a row adds that cell's move after the moves already loaded. */
  lemma RowMovesStep(size: nat, row: nat, cells: string, col: nat, moves: seq<Movement>, done: seq<Movement>, cell: seq<Movement>)
    requires row < size && |cells| == row + 1 && col <= row
    requires RowMoves(size, row, cells, col) == Ok(done)
    requires CellMove(cells[col], CoordsAt(size, row, col), row, col) == Ok(cell)
    ensures RowMoves(size, row, cells, col + 1) == Ok(done + cell)
    ensures moves + RowMoves(size, row, cells, col + 1).value == moves + done + cell
  {
  }

  /**
   * After the cell in column `col` is stored, the loader has loaded one more
   * cell of the row: the row's moves grow by that cell's move and the board
   * by that cell's stone.
   */
  lemma ColumnLoaded(game: GameY, rows: seq<string>, row: nat, col: nat, coords: Coordinates, moves: seq<Movement>, done: seq<Movement>, before: Board)
    requires game.Valid() && |rows| == game.boardSize && row < |rows| && |rows[row]| == row + 1 && col <= row
    requires AllInRange(moves, game.boardSize)
    requires RowMoves(game.boardSize, row, rows[row], col) == Ok(done)
    requires coords == CoordsAt(game.boardSize, row, col) && CellMove(rows[row][col], coords, row, col).Ok?
    requires AllInRange((moves + done) + CellMove(rows[row][col], coords, row, col).value, game.boardSize)
    requires Replay(NewState(game.boardSize), (moves + done) + CellMove(rows[row][col], coords, row, col).value)
          == Ok(game.Abs())
    requires before == PartialLayout(game.boardSize, rows, Tri(row) + col) && Tri(row) + col < |before|
    requires game.engine.state == before[Tri(row) + col := Decode(rows[row][col])]
    ensures RowLoaded(game, rows, row, col + 1, moves)
  {
    PartialStep(game.boardSize, rows, row, col);
    RowMovesStep(game.boardSize, row, rows[row], col, moves, done, CellMove(rows[row][col], coords, row, col).value);
  }

  /** The cells of row `row`, loaded left to right (the inner loop of `try_from`). */
  method LoadRow(game: GameY, rows: seq<string>, row: nat, ghost moves: seq<Movement>) returns (r: Result<(), GameYError>)
    requires RowsLoaded(game, rows, row, moves) && row < |rows| && |rows[row]| == row + 1
    modifies game, game.engine
    ensures game.Valid()
    ensures r.Ok? <==> RowMoves(game.boardSize, row, rows[row], row + 1).Ok?
    ensures r.Err? ==> r.error == RowMoves(game.boardSize, row, rows[row], row + 1).error
    ensures r.Ok? ==> RowsLoaded(game, rows, row + 1, moves + RowMoves(game.boardSize, row, rows[row], row + 1).value)
  {
    RowStart(game, rows, row, moves);
    for col := 0 to row + 1
      invariant RowLoaded(game, rows, row, col, moves)
    {
      var loaded := LoadColumn(game, rows, row, col, moves);
      if loaded.Err? {
        return loaded;
      }
    }
    RowEnd(game, rows, row, moves);
    r := Ok(());
  }

  /** One step of the inner loop of `try_from`: the cell in column `col` of row `row`. */
  method LoadColumn(game: GameY, rows: seq<string>, row: nat, col: nat, ghost moves: seq<Movement>) returns (r: Result<(), GameYError>)
    requires RowLoaded(game, rows, row, col, moves) && col <= row
    modifies game, game.engine
    ensures game.Valid()
    ensures r.Ok? <==> RowMoves(game.boardSize, row, rows[row], col + 1).Ok?
    ensures r.Err? ==> RowMoves(game.boardSize, row, rows[row], row + 1) == Err(r.error)
    ensures r.Ok? ==> RowLoaded(game, rows, row, col + 1, moves)
  {
    var size := game.boardSize;
    var coords := CoordsAt(size, row, col);
    CoordsAtIndex(size, row, col);
    var step := CellMove(rows[row][col], coords, row, col);
    if step.Err? {
      RowMovesErrorStays(size, row, rows[row], col + 1, row + 1);
      return Err(InvalidCharInLayout(rows[row][col], row, col));
    }
    ghost var done := RowMoves(size, row, rows[row], col).value;
    ghost var before := game.engine.state;
    PartialStep(size, rows, row, col);
    AllInRangeAppend(moves, done, size);
    LoadCell(game, rows[row][col], coords, Tri(row) + col, row, col, moves + done);
    ColumnLoaded(game, rows, row, col, coords, moves, done, before);
    r := Ok(());
  }

  /**
   * One cell of `try_from`: 'B' and 'R' add a stone of player 0 or 1 with
   * `add_move`, '.' adds nothing.  The cell is still empty, so `add_move`
   * cannot fail.
   */
  method LoadCell(game: GameY, ch: char, coords: Coordinates, ghost idx: nat, ghost row: nat, ghost col: nat, ghost done: seq<Movement>)
    requires game.Valid() && ValidChar(ch)
    requires coords.x < game.boardSize && idx == ToIndex(coords, game.boardSize) < Tri(game.boardSize)
    requires game.engine.state[idx] == None
    requires AllInRange(done, game.boardSize)
    requires Replay(NewState(game.boardSize), done) == Ok(game.Abs())
    modifies game, game.engine
    ensures game.Valid()
    ensures AllInRange(done + CellMove(ch, coords, row, col).value, game.boardSize)
    ensures Replay(NewState(game.boardSize), done + CellMove(ch, coords, row, col).value) == Ok(game.Abs())
    ensures game.engine.state == old(game.engine.state)[idx := Decode(ch)]
  {
    match ch {
      case 'B' =>
        ReplaySnoc(NewState(game.boardSize), done, Placement(0, coords));
        var res := game.AddMove(Placement(0, coords));
        if res.Err? {
          assert false;
        }
      case 'R' =>
        ReplaySnoc(NewState(game.boardSize), done, Placement(1, coords));
        var res := game.AddMove(Placement(1, coords));
        if res.Err? {
          assert false;
        }
      case '.' =>
        assert done + [] == done;
    }
  }

  /**
   * `YEN::from(&GameY)`: print the board cell by cell, with a '/' after
   * the last cell of every row but the last.  The turn is the player to
   * move, or once the game is over the winner's opponent.
   */
  method ToYen(game: GameY) returns (yen: YEN)
    requires |game.engine.state| == Tri(game.boardSize)
    ensures yen.size == game.boardSize && yen.players == ['B', 'R']
    ensures yen.layout == PrintLayout(game.engine.state, game.boardSize)
    ensures game.status.Ongoing? ==> yen.turn == game.status.nextPlayer
    ensures game.status.Finished? ==> yen.turn == OtherPlayer(game.status.winner)
  {
    var size := game.boardSize;
    var turn := match game.status
      case Finished(winner) => OtherPlayer(winner)
      case Ongoing(next) => next;
    var layout := "";
    var total := (size * (size + 1)) / 2;
    TriFormula(size);
    var players := ['B', 'R'];
    for idx := 0 to total
      invariant layout == PrintUpTo(game.engine.state, size, idx)
    {
      var player := game.engine.state[idx];
      layout := layout + [CellChar(player)];
      var coords := FromIndex(idx, size);
      EndsRowCoords(idx, size);
      if coords.z == 0 && coords.x > 0 {
        layout := layout + "/";
      }
    }
    yen := YEN(size, turn, players, layout);
  }

  // ------------------------------------------------------------ examples

  /** The top corner and the left cell of the bottom row of the side-2 board. */
  lemma SideTwoCells()
    ensures FromIndex(0, 2) == Coordinates(1, 0, 0)
    ensures FromIndex(1, 2) == Coordinates(0, 0, 1)
  {
  }

  /** The bottom-left cell of the side-2 board has two neighbours, the first of them the top corner. */
  lemma SideTwoNeighbors()
    ensures |NeighborIndices(2, 1)| == 2 && NeighborIndices(2, 1)[0] == 0
  {
    assert FromIndex(1, 2) == Coordinates(0, 0, 1);
    assert NeighborCoords(Coordinates(0, 0, 1)) == [Coordinates(1, 0, 0), Coordinates(0, 1, 0)];
  }

  /** On the side-2 board cell 0 is a neighbour of cell 1. */
  lemma SideTwoAdjacency()
    ensures |Build(2).adjacency| == 3 && 0 in Build(2).adjacency[1]
  {
    SideTwoNeighbors();
    assert Tri(2) == 3;
    assert Build(2).adjacency[1] == NeighborIndices(2, 1);
  }

  /** On the side-2 board cell 0 touches sides B and C, cell 1 sides A and B. */
  lemma SideTwoRegions()
    ensures Build(2).regions[0] == SIDE_B | SIDE_C
    ensures Build(2).regions[1] == SIDE_A | SIDE_B
  {
    SideTwoCells();
    assert Tri(2) == 3;
    assert Build(2).regions[0] == CellRegions(2, 0);
    assert Build(2).regions[1] == CellRegions(2, 1);
  }

  /** On the side-2 board the two left cells touch all three sides together. */
  lemma TwoStonesWin()
    ensures WinsAt(Build(2), [Some(0), Some(0), None], 1)
  {
    var t := Build(2);
    var b: Board := [Some(0), Some(0), None];
    SideTwoAdjacency(); SideTwoRegions();
    ConnectedRefl(t, b, 1);
    ConnectedStep(t, b, 1, 1, 0);
    var group := Component(t, b, 1);
    assert 0 in group && 1 in group;
    MaskOfMember(t.regions, group, 3, 0);
    MaskOfMember(t.regions, group, 3, 1);
  }

  /** A row of the right length whose moves are `ms'` extends the moves of the rows before it. */
  lemma RowsMovesNext(size: nat, rows: seq<string>, n: nat, ms: seq<Movement>, ms': seq<Movement>)
    requires |rows| == size && n < size && |rows[n]| == n + 1
    requires RowsMoves(size, rows, n) == Ok(ms) && RowMoves(size, n, rows[n], n + 1) == Ok(ms')
    ensures RowsMoves(size, rows, n + 1) == Ok(ms + ms')
  {
  }

  /** The layout "B/BB" on a side-2 board reads as three placements by player 0, top row first. */
  lemma FinishedLayout()
    ensures ParseLayout(2, "B/BB") ==
      Ok([Placement(0, Coordinates(1, 0, 0)), Placement(0, Coordinates(0, 0, 1)), Placement(0, Coordinates(0, 1, 0))])
  {
    assert Join(["B", "BB"]) == "B/BB";
    SplitJoin(["B", "BB"]);
    var m1 := Placement(0, Coordinates(1, 0, 0));
    var m2 := Placement(0, Coordinates(0, 0, 1));
    var m3 := Placement(0, Coordinates(0, 1, 0));
    assert CoordsAt(2, 0, 0) == Coordinates(1, 0, 0);
    assert CoordsAt(2, 1, 0) == Coordinates(0, 0, 1);
    assert CoordsAt(2, 1, 1) == Coordinates(0, 1, 0);
    assert RowMoves(2, 0, "B", 0) == Ok([]) && RowMoves(2, 1, "BB", 0) == Ok([]);
    assert RowMoves(2, 0, "B", 1) == Ok([] + [m1]);
    assert [] + [m1] == [m1];
    assert RowMoves(2, 1, "BB", 1) == Ok([] + [m2]);
    assert [] + [m2] == [m2];
    assert RowMoves(2, 1, "BB", 2) == Ok([m2] + [m3]);
    assert RowsMoves(2, ["B", "BB"], 1) == Ok([] + [m1]);
    assert RowsMoves(2, ["B", "BB"], 1) == Ok([m1]);
    assert [m2] + [m3] == [m2, m3];
    assert ["B", "BB"][1] == "BB";
    RowsMovesNext(2, ["B", "BB"], 1, [m1], [m2, m3]);
    assert [m1] + [m2, m3] == [m1, m2, m3];
    assert Split("B/BB") == ["B", "BB"];
  }

  /** A placement on an empty cell fills it and lets the engine's win test decide the status. */
  lemma PlacedStatus(g: GameState, player: PlayerId, coords: Coordinates)
    requires |g.board| == Tri(g.size) && InRange(Placement(player, coords), g.size)
    requires g.board[ToIndex(coords, g.size)].None?
    ensures Play(g, Placement(player, coords)).Ok?
    ensures Play(g, Placement(player, coords)).value.board == g.board[ToIndex(coords, g.size) := Some(player)]
    ensures Play(g, Placement(player, coords)).value.status ==
      StatusAfterPlacement(g.status, player,
        WinsAt(Build(g.size), g.board[ToIndex(coords, g.size) := Some(player)], ToIndex(coords, g.size)))
  {
  }

  /**
   * Two stones of one player on two empty cells of a game in progress that
   * together connect all three sides finish the game with that player as winner.
   */
  lemma TwoPlacementsWin(g: GameState, player: PlayerId, c1: Coordinates, c2: Coordinates)
    requires |g.board| == Tri(g.size) && InRange(Placement(player, c1), g.size) && InRange(Placement(player, c2), g.size)
    requires !CheckGameOver(g.status)
    requires ToIndex(c1, g.size) != ToIndex(c2, g.size)
    requires g.board[ToIndex(c1, g.size)].None? && g.board[ToIndex(c2, g.size)].None?
    requires WinsAt(Build(g.size), g.board[ToIndex(c1, g.size) := Some(player)][ToIndex(c2, g.size) := Some(player)],
                    ToIndex(c2, g.size))
    ensures Replay(g, [Placement(player, c1), Placement(player, c2)]).Ok?
    ensures Replay(g, [Placement(player, c1), Placement(player, c2)]).value.board ==
      g.board[ToIndex(c1, g.size) := Some(player)][ToIndex(c2, g.size) := Some(player)]
    ensures Replay(g, [Placement(player, c1), Placement(player, c2)]).value.status == Finished(player)
  {
    var m1 := Placement(player, c1);
    var m2 := Placement(player, c2);
    assert [] + [m1] == [m1] && [m1] + [m2] == [m1, m2];
    PlacedStatus(g, player, c1);
    PlacedStatus(Play(g, m1).value, player, c2);
    ReplaySnoc(g, [], m1);
    ReplaySnoc(g, [m1], m2);
  }

  /** The empty side-2 board, and the same board after stones of player 0 on cells 0 and 1. */
  lemma SideTwoBoard()
    ensures Tri(2) == 3 && NewState(2).board[0] == None && NewState(2).board[1] == None
    ensures NewState(2).board[0 := Some(0)][1 := Some(0)] == [Some(0), Some(0), None]
  {
  }

  /** The indices of the three cells of the side-2 board, top row first. */
  lemma SideTwoIndices()
    ensures ToIndex(Coordinates(1, 0, 0), 2) == 0
    ensures ToIndex(Coordinates(0, 0, 1), 2) == 1
    ensures ToIndex(Coordinates(0, 1, 0), 2) == 2
  {
    assert Tri(0) == 0 && Tri(1) == 1;
  }

  /** Stones of player 0 on cells 0 and 1 of a new side-2 game: both cells are free and the second stone wins. */
  lemma SideTwoOpening()
    ensures var g := NewState(2);
      var i1 := ToIndex(Coordinates(1, 0, 0), g.size);
      var i2 := ToIndex(Coordinates(0, 0, 1), g.size);
      && |g.board| == Tri(g.size) && !CheckGameOver(g.status)
      && InRange(Placement(0, Coordinates(1, 0, 0)), g.size) && InRange(Placement(0, Coordinates(0, 0, 1)), g.size)
      && i1 != i2 && g.board[i1].None? && g.board[i2].None?
      && g.board[i1 := Some(0)][i2 := Some(0)] == [Some(0), Some(0), None]
      && WinsAt(Build(g.size), g.board[i1 := Some(0)][i2 := Some(0)], i2)
  {
    assert NewState(2).size == 2;
    SideTwoBoard();
    SideTwoIndices();
    TwoStonesWin();
  }

  /** The first two of those placements already connect all three sides for player 0. */
  lemma FinishedAfterTwo()
    ensures Replay(NewState(2), [Placement(0, Coordinates(1, 0, 0)), Placement(0, Coordinates(0, 0, 1))]).Ok?
    ensures Replay(NewState(2), [Placement(0, Coordinates(1, 0, 0)), Placement(0, Coordinates(0, 0, 1))]).value.board
      == [Some(0), Some(0), None]
    ensures Replay(NewState(2), [Placement(0, Coordinates(1, 0, 0)), Placement(0, Coordinates(0, 0, 1))]).value.status
      == Finished(0)
  {
    SideTwoOpening();
    TwoPlacementsWin(NewState(2), 0, Coordinates(1, 0, 0), Coordinates(0, 0, 1));
  }

  /** Once a replay has finished the game, a further stone on an empty cell is accepted and changes no status. */
  lemma PlaceAfterFinish(g: GameState, ms: seq<Movement>, player: PlayerId, coords: Coordinates)
    requires |g.board| == Tri(g.size) && AllInRange(ms, g.size) && InRange(Placement(player, coords), g.size)
    requires Replay(g, ms).Ok? && CheckGameOver(Replay(g, ms).value.status)
    requires Replay(g, ms).value.board[ToIndex(coords, g.size)].None?
    ensures AllInRange(ms + [Placement(player, coords)], g.size)
    ensures Replay(g, ms + [Placement(player, coords)]).Ok?
    ensures Replay(g, ms + [Placement(player, coords)]).value.status == Replay(g, ms).value.status
  {
    ReplaySnoc(g, ms, Placement(player, coords));
    PlacedStatus(Replay(g, ms).value, player, coords);
  }

  /** All three placements of "B/BB" replay on a new side-2 game, which player 0 has won after the second. */
  lemma FinishedThree()
    ensures AllInRange([Placement(0, Coordinates(1, 0, 0)), Placement(0, Coordinates(0, 0, 1)), Placement(0, Coordinates(0, 1, 0))], 2)
    ensures Replay(NewState(2),
      [Placement(0, Coordinates(1, 0, 0)), Placement(0, Coordinates(0, 0, 1)), Placement(0, Coordinates(0, 1, 0))]).Ok?
    ensures Replay(NewState(2),
      [Placement(0, Coordinates(1, 0, 0)), Placement(0, Coordinates(0, 0, 1)), Placement(0, Coordinates(0, 1, 0))]).value.status
      == Finished(0)
  {
    FinishedAfterTwo();
    SideTwoIndices();
    NewStateConsistent(2);
    PlaceAfterFinish(NewState(2), [Placement(0, Coordinates(1, 0, 0)), Placement(0, Coordinates(0, 0, 1))],
                     0, Coordinates(0, 1, 0));
    assert [Placement(0, Coordinates(1, 0, 0)), Placement(0, Coordinates(0, 0, 1))] + [Placement(0, Coordinates(0, 1, 0))]
        == [Placement(0, Coordinates(1, 0, 0)), Placement(0, Coordinates(0, 0, 1)), Placement(0, Coordinates(0, 1, 0))];
  }

  /** Loading "B/BB" on a side-2 board gives a game player 0 has already won. */
  lemma LoadFinishedExample()
    ensures ParseLayout(2, "B/BB") ==
      Ok([Placement(0, Coordinates(1, 0, 0)), Placement(0, Coordinates(0, 0, 1)), Placement(0, Coordinates(0, 1, 0))])
    ensures Replay(NewState(2), ParseLayout(2, "B/BB").value).Ok?
    ensures Replay(NewState(2), ParseLayout(2, "B/BB").value).value.status == Finished(0)
  {
    FinishedLayout();
    FinishedThree();
  }
}
