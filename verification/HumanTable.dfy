/** Aligned tables (internal/cli/render.go). */
module HumanTable {
  import opened Prelude
  import opened TerminalText
  import opened Styling

  // ---------------------------------------------------------------------------
  // Rows
  // ---------------------------------------------------------------------------

  function Spaces(n: int): (r: string)
    ensures |r| == if n <= 0 then 0 else n
    ensures EscFree(r) && forall i :: 0 <= i < |r| ==> r[i] == ' '
  {
    if n <= 0 then "" else " " + Spaces(n - 1)
  }

  /** Columns to fill after a cell: up to the column's width, and two more. */
  function Padding(u: Unicode, width: nat, cell: string): int {
    (width as int) - (Width(u, cell) as int) + 2
  }

  /** The row text up to where cell j starts. */
  function Before(u: Unicode, indent: string, cells: seq<string>, widths: seq<nat>, j: nat): string
    requires |cells| == |widths| && j <= |cells|
  {
    if j == 0 then indent
    else Before(u, indent, cells, widths, j - 1) + cells[j - 1] + Spaces(Padding(u, widths[j - 1], cells[j - 1]))
  }

  function RowText(u: Unicode, indent: string, cells: seq<string>, widths: seq<nat>): string
    requires |cells| == |widths|
  {
    if cells == [] then indent + "\n"
    else Before(u, indent, cells, widths, |cells| - 1) + cells[|cells| - 1] + "\n"
  }

  /** The row, and its pieces: every cell and, unless it is the last one, the spaces
      up to two columns behind its column's width. */
  method WriteTableRow(u: Unicode, indent: string, cells: seq<string>, widths: seq<nat>) returns (row: string, ghost pieces: seq<string>)
    requires |cells| == |widths|
    ensures row == RowText(u, indent, cells, widths)
    ensures row == indent + Concat(pieces) + "\n" && |pieces| == |cells|
    ensures forall j :: 0 <= j < |cells| - 1 ==>
              pieces[j] == cells[j] + Spaces((widths[j] as int) - (Width(u, cells[j]) as int) + 2)
    ensures cells != [] ==> pieces[|cells| - 1] == cells[|cells| - 1]
  {
    hide Width;
    hide Spaces;
    row, pieces := indent, [];
    for index := 0 to |cells|
      invariant cells != [] ==> index < |cells|
      invariant row == Before(u, indent, cells, widths, index)
      invariant row == indent + Concat(pieces) && |pieces| == index
      invariant forall j :: 0 <= j < index ==>
                  pieces[j] == cells[j] + Spaces((widths[j] as int) - (Width(u, cells[j]) as int) + 2)
    {
      var cell := cells[index];
      if index == |cells| - 1 {
        OneMorePiece(indent, pieces, cell, "");
        pieces := pieces + [cell];
        return row + cell + "\n", pieces;
      }
      row := row + cell;
      var measured: int := DisplayWidth(u, cell);
      var padding := (widths[index] as int) - measured + 2;
      OneMorePiece(indent, pieces, cell, Spaces(padding));
      row := row + Spaces(padding);
      pieces := pieces + [cell + Spaces(padding)];
    }
    row := row + "\n";
  }

  lemma OneMorePiece(indent: string, pieces: seq<string>, cell: string, spaces: string)
    ensures indent + Concat(pieces) + cell + spaces == indent + Concat(pieces + [cell + spaces])
    ensures cell + "" == cell
  {
    ConcatLast(pieces, cell + spaces);
    hide Concat;
    Regroup(indent + Concat(pieces), cell, spaces);
    Regroup(indent, Concat(pieces), cell + spaces);
  }

  function AllRows(u: Unicode, indent: string, rows: seq<seq<string>>, widths: seq<nat>): string
    requires forall r :: r in rows ==> |r| == |widths|
  {
    if rows == [] then ""
    else AllRows(u, indent, rows[..|rows| - 1], widths) + RowText(u, indent, rows[|rows| - 1], widths)
  }

  method WriteRows(u: Unicode, indent: string, rows: seq<seq<string>>, widths: seq<nat>) returns (output: string)
    requires forall r :: r in rows ==> |r| == |widths|
    ensures output == AllRows(u, indent, rows, widths)
  {
    hide RowText;
    output := "";
    for k := 0 to |rows|
      invariant output == AllRows(u, indent, rows[..k], widths)
    {
      var row, _ := WriteTableRow(u, indent, rows[k], widths);
      assert rows[..k + 1][..k] == rows[..k];
      output := output + row;
    }
    assert rows[..|rows|] == rows;
  }

  // ---------------------------------------------------------------------------
  // Column widths
  // ---------------------------------------------------------------------------

  /** The widest cell of column j, starting from a given width. */
  function ColumnWidth(u: Unicode, rows: seq<seq<string>>, j: nat, start: nat): (w: nat)
    requires forall r :: r in rows ==> j < |r|
    ensures w >= start && forall r :: r in rows ==> Width(u, r[j]) <= w
    ensures w == start || exists r :: r in rows && Width(u, r[j]) == w
  {
    if rows == [] then start
    else
      var last := rows[|rows| - 1];
      var w := ColumnWidth(u, rows[..|rows| - 1], j, start);
      assert forall r :: r in rows ==> r in rows[..|rows| - 1] || r == last;
      Max(w, Width(u, last[j]))
  }

  function HeaderWidth(u: Unicode, headers: seq<string>, showHeader: bool, j: nat): nat
    requires j < |headers|
  {
    if showHeader then Width(u, headers[j]) else 0
  }

  /** The widths fit the header, if shown, and every row, and nothing wider. */
  ghost predicate AreWidths(u: Unicode, headers: seq<string>, showHeader: bool, rows: seq<seq<string>>, widths: seq<nat>)
    requires forall r :: r in rows ==> |r| == |headers|
  {
    && |widths| == |headers|
    && forall j :: 0 <= j < |headers| ==> widths[j] == ColumnWidth(u, rows, j, HeaderWidth(u, headers, showHeader, j))
  }

  method MeasureColumns(u: Unicode, headers: seq<string>, showHeader: bool, rows: seq<seq<string>>) returns (widths: seq<nat>)
    requires forall r :: r in rows ==> |r| == |headers|
    ensures AreWidths(u, headers, showHeader, rows, widths)
    ensures |widths| == |headers|
    ensures forall j :: 0 <= j < |headers| ==>
              && (forall r :: r in rows ==> Width(u, r[j]) <= widths[j])
              && (showHeader ==> Width(u, headers[j]) <= widths[j])
    ensures forall j :: 0 <= j < |headers| ==>
              || widths[j] == 0
              || (showHeader && widths[j] == Width(u, headers[j]))
              || exists r :: r in rows && Width(u, r[j]) == widths[j]
  {
    hide Width;
    widths := seq(|headers|, _ => 0);
    if showHeader {
      for index := 0 to |headers|
        invariant |widths| == |headers|
        invariant forall j :: 0 <= j < index ==> widths[j] == Width(u, headers[j])
      {
        var measured := DisplayWidth(u, headers[index]);
        widths := widths[index := measured];
      }
    }
    assert AreWidths(u, headers, showHeader, rows[..0], widths);
    hide AreWidths;
    for k := 0 to |rows|
      invariant |widths| == |headers| && AreWidths(u, headers, showHeader, rows[..k], widths)
    {
      assert rows[k] in rows;
      ghost var before := widths;
      widths := MeasureRow(u, rows[k], widths);
      WidthsWithRow(u, headers, showHeader, rows, k, before, widths);
    }
    assert rows[..|rows|] == rows;
    WidthsExactly(u, headers, showHeader, rows, widths);
  }

  /** The widths fit everything shown, and something shown has each of them. */
  lemma WidthsExactly(u: Unicode, headers: seq<string>, showHeader: bool, rows: seq<seq<string>>, widths: seq<nat>)
    requires forall r :: r in rows ==> |r| == |headers|
    requires AreWidths(u, headers, showHeader, rows, widths)
    ensures |widths| == |headers|
    ensures forall j :: 0 <= j < |headers| ==>
              && (forall r :: r in rows ==> Width(u, r[j]) <= widths[j])
              && (showHeader ==> Width(u, headers[j]) <= widths[j])
    ensures forall j :: 0 <= j < |headers| ==>
              || widths[j] == 0
              || (showHeader && widths[j] == Width(u, headers[j]))
              || exists r :: r in rows && Width(u, r[j]) == widths[j]
  {
    hide Width;
  }

  /** The inner loop: row k widens the columns it does not fit. */
  method MeasureRow(u: Unicode, row: seq<string>, before: seq<nat>) returns (widths: seq<nat>)
    requires |row| == |before|
    ensures |widths| == |before| && forall j :: 0 <= j < |row| ==> widths[j] == Max(before[j], Width(u, row[j]))
  {
    hide Width;
    widths := before;
    for index := 0 to |row|
      invariant |widths| == |before|
      invariant forall j :: index <= j < |row| ==> widths[j] == before[j]
      invariant forall j :: 0 <= j < index ==> widths[j] == Max(before[j], Width(u, row[j]))
    {
      var measured := DisplayWidth(u, row[index]);
      if measured > widths[index] {
        widths := widths[index := measured];
      }
    }
  }

  /** One more row: every column is as wide as before, or as the row's cell. */
  lemma {:induction false} WidthsWithRow(u: Unicode, headers: seq<string>, showHeader: bool, rows: seq<seq<string>>, k: nat, before: seq<nat>, widths: seq<nat>)
    requires forall r :: r in rows ==> |r| == |headers|
    requires k < |rows| && AreWidths(u, headers, showHeader, rows[..k], before)
    requires |widths| == |headers| && forall j :: 0 <= j < |headers| ==> widths[j] == Max(before[j], Width(u, rows[k][j]))
    ensures AreWidths(u, headers, showHeader, rows[..k + 1], widths)
  {
    hide Width;
    var more := rows[..k + 1];
    assert more[..k] == rows[..k] && more[k] == rows[k];
    hide ColumnWidth;
    hide Max;
    forall j | 0 <= j < |headers|
      ensures widths[j] == ColumnWidth(u, more, j, HeaderWidth(u, headers, showHeader, j))
    {
      ColumnStep(u, more, j, HeaderWidth(u, headers, showHeader, j));
    }
  }

  lemma {:induction false} ColumnStep(u: Unicode, rows: seq<seq<string>>, j: nat, start: nat)
    requires rows != [] && forall r :: r in rows ==> j < |r|
    ensures var n := |rows| - 1;
      ColumnWidth(u, rows, j, start) == Max(ColumnWidth(u, rows[..n], j, start), Width(u, rows[n][j]))
  {
    hide Width;
  }

  /** What all rows are: the lines of the rows, each once and in order. */
  lemma {:induction false} RowLines(u: Unicode, indent: string, rows: seq<seq<string>>, widths: seq<nat>, n: nat) returns (lines: seq<string>)
    requires n <= |rows| && forall r :: r in rows ==> |r| == |widths|
    ensures |lines| == n && forall k :: 0 <= k < n ==> lines[k] == RowText(u, indent, rows[k], widths)
    ensures AllRows(u, indent, rows[..n], widths) == Concat(lines)
    decreases n
  {
    lines := [];
    hide RowText;
    if n > 0 {
      AllRowsStep(u, indent, rows, widths, n - 1);
      hide AllRows;
      lines := RowLines(u, indent, rows, widths, n - 1);
      var last := RowText(u, indent, rows[n - 1], widths);
      ConcatLast(lines, last);
      hide Concat;
      lines := lines + [last];
    }
  }

  lemma {:induction false} AllRowsStep(u: Unicode, indent: string, rows: seq<seq<string>>, widths: seq<nat>, k: nat)
    requires k < |rows| && forall r :: r in rows ==> |r| == |widths|
    ensures AllRows(u, indent, rows[..k + 1], widths) ==
            AllRows(u, indent, rows[..k], widths) + RowText(u, indent, rows[k], widths)
  {
    hide RowText;
    assert rows[..k + 1][..k] == rows[..k];
  }

  class Table {
    const clean: string -> string    // cell sanitiser and trimmer
    const style: Style
    const showHeader: bool
    var headers: seq<string>
    var rows: seq<seq<string>>
    var indent: string

    ghost predicate Valid()
      reads this
    {
      forall r :: r in rows ==> |r| == |headers|
    }

    constructor Styled(clean: string -> string, style: Style, headers: seq<string>)
      ensures Valid() && rows == [] && indent == "" && showHeader
      ensures this.clean == clean && this.style == style
      ensures |this.headers| == |headers| && forall j :: 0 <= j < |headers| ==> this.headers[j] == clean(headers[j])
    {
      this.clean, this.style, showHeader := clean, style, true;
      this.headers := seq(|headers|, j requires 0 <= j < |headers| => clean(headers[j]));
      rows, indent := [], "";
    }

    constructor Rows(clean: string -> string, columns: int)
      ensures Valid() && rows == [] && indent == "" && !showHeader && this.clean == clean
      ensures |headers| == if columns < 0 then 0 else columns
    {
      this.clean, style, showHeader := clean, Style(false), false;
      headers := seq(if columns < 0 then 0 else columns, _ => "");
      rows, indent := [], "";
    }

    /** Adds a row: missing cells are empty, surplus cells are dropped. */
    method Add(cells: seq<string>)
      requires Valid()
      modifies this`rows
      ensures Valid() && |rows| == |old(rows)| + 1 && rows[..|old(rows)|] == old(rows)
      ensures var row := rows[|old(rows)|];
        forall j :: 0 <= j < |headers| ==> row[j] == if j < |cells| then clean(cells[j]) else ""
    {
      var row := seq(|headers|, j => if 0 <= j < |cells| then clean(cells[j]) else "");
      rows := rows + [row];
    }

    method Indent(prefix: string)
      requires Valid()
      modifies this`indent
      ensures Valid() && indent == prefix
    {
      indent := prefix;
    }

    function Painted(): (r: seq<string>)
      reads this
      ensures |r| == |headers| && forall j :: 0 <= j < |r| ==> r[j] == style.Paint(Header, headers[j])
    {
      var texts, s := headers, style;
      seq(|texts|, j requires 0 <= j < |texts| => s.Paint(Header, texts[j]))
    }

    /** The header row, if shown, then every row, all with the same widths. */
    method Render(u: Unicode) returns (output: string, widths: seq<nat>, ghost lines: seq<string>)
      requires Valid()
      // the lines of the rows, each once and in order, behind that of the headers
      ensures headers != [] ==>
        && |widths| == |headers| && |lines| == |rows|
        && (forall k :: 0 <= k < |rows| ==> lines[k] == RowText(u, indent, rows[k], widths))
        && output == (if showHeader then RowText(u, indent, Painted(), widths) else "") + Concat(lines)
      ensures headers == [] ==> output == "" && widths == []
      ensures headers != [] ==> AreWidths(u, headers, showHeader, rows, widths)
      ensures headers != [] ==>
        output == (if showHeader then RowText(u, indent, Painted(), widths) else "") + AllRows(u, indent, rows, widths)
    {
      if |headers| == 0 {
        return "", [], [];
      }
      widths := MeasureColumns(u, headers, showHeader, rows);
      output := "";
      if showHeader {
        var header, _ := WriteTableRow(u, indent, Painted(), widths);
        output := header;
      }
      var body := WriteRows(u, indent, rows, widths);
      lines := RowLines(u, indent, rows, widths, |rows|);
      assert rows[..|rows|] == rows;
      output := output + body;
    }
  }

  // ---------------------------------------------------------------------------
  // Alignment
  // ---------------------------------------------------------------------------

  /** The display column where cell j starts. */
  function ColumnStart(u: Unicode, indent: string, widths: seq<nat>, j: nat): nat
    requires j <= |widths|
  {
    if j == 0 then Width(u, indent) else ColumnStart(u, indent, widths, j - 1) + widths[j - 1] + 2
  }

  lemma {:induction false} SpacesWidth(u: Unicode, n: int)
    requires u.Standard()
    ensures Width(u, Spaces(n)) == if n <= 0 then 0 else n
  {
    if n > 0 {
      SpacesWidth(u, n - 1);
      assert Spaces(n)[1..] == Spaces(n - 1);
    }
  }

  /** Cells no wider than their columns, free of dangling control sequences. */
  ghost predicate FitColumns(u: Unicode, cells: seq<string>, widths: seq<nat>) {
    && |cells| == |widths|
    && forall j :: 0 <= j < |cells| ==> Closed(cells[j]) && Width(u, cells[j]) <= widths[j]
  }

  /** Every row starts cell j in the same column, whatever its cells are, and each
      cell ends at least two columns before the next one starts. */
  lemma {:induction false} CellsAlign(u: Unicode, indent: string, cells: seq<string>, widths: seq<nat>, j: nat)
    requires u.Standard() && Closed(indent) && FitColumns(u, cells, widths) && j <= |cells|
    ensures Closed(Before(u, indent, cells, widths, j))
    ensures Width(u, Before(u, indent, cells, widths, j)) == ColumnStart(u, indent, widths, j)
    ensures j < |cells| ==>
      Width(u, Before(u, indent, cells, widths, j) + cells[j]) + 2 <= ColumnStart(u, indent, widths, j + 1)
    decreases j
  {
    hide Width;
    hide Closed;
    if j > 0 {
      CellsAlign(u, indent, cells, widths, j - 1);
      var front, cell := Before(u, indent, cells, widths, j - 1), cells[j - 1];
      var pad := Spaces(Padding(u, widths[j - 1], cell));
      SpacesWidth(u, Padding(u, widths[j - 1], cell));
      EscFreeIsClosed(pad);
      ClosedAppend(u, front, cell);
      ClosedConcat(front, cell);
      ClosedAppend(u, front + cell, pad);
      ClosedConcat(front + cell, pad);
    }
    if j < |cells| {
      ClosedAppend(u, Before(u, indent, cells, widths, j), cells[j]);
    }
  }

  /** Each row is what stands before cell j, cell j, and the rest. */
  lemma {:induction false} CellInRow(u: Unicode, indent: string, cells: seq<string>, widths: seq<nat>, j: nat)
    requires |cells| == |widths| && j < |cells|
    ensures Before(u, indent, cells, widths, j) + cells[j] <= RowText(u, indent, cells, widths)
    decreases |cells| - j
  {
    var n := |cells| - 1;
    if j < n {
      CellInRow(u, indent, cells, widths, j + 1);
    }
  }

  /** Painting neither widens nor opens a cell, and stripping removes it. */
  lemma {:induction false} PaintedCell(u: Unicode, style: Style, text: string)
    requires EscFree(text)
    ensures Closed(style.Paint(Header, text))
    ensures Width(u, style.Paint(Header, text)) == Width(u, text)
    ensures Strip(style.Paint(Header, text)) == text
  {
    EscFreeIsClosed(text);
    if style.enabled && text != "" {
      hide Cells;
      hide Active;
      var code := CodeOf(Header);
      CodeCells(Header, []);
      CodeWidth(u);
      SequenceAlone(RESET, []);
      hide Closed;
      hide Strip;
      hide Width;
      ClosedAppend(u, code, text);
      ClosedConcat(code, text);
      ClosedAppend(u, code + text, RESET);
      ClosedConcat(code + text, RESET);
      assert "" + text + "" == text;
    }
  }

  lemma CodeWidth(u: Unicode)
    ensures Width(u, CodeOf(Header)) == 0 && Strip(CodeOf(Header)) == ""
    ensures Width(u, RESET) == 0 && Strip(RESET) == ""
  {
    SequenceAlone(BOLD, []);
    SequenceAlone(CYAN, []);
    SequenceAlone(RESET, []);
    ClosedAppend(u, BOLD, CYAN);
    assert CodeOf(Header) == BOLD + CYAN;
  }

  /** One painted cell with its padding, behind closed text. */
  lemma {:induction false} StrippedCell(u: Unicode, style: Style, front: string, text: string, width: nat)
    requires EscFree(text) && Closed(front)
    ensures var cell := style.Paint(Header, text);
      var row := front + cell + Spaces(Padding(u, width, cell));
      Closed(row) && Strip(row) == Strip(front) + text + Spaces(Padding(u, width, text))
  {
    var cell := style.Paint(Header, text);
    PaintedCell(u, style, text);
    hide Style.Paint;
    var pad := Spaces(Padding(u, width, cell));
    EscFreeIsClosed(pad);
    hide Closed;
    hide Strip;
    hide Width;
    AppendClosed(u, front, cell);
    AppendClosed(u, front + cell, pad);
  }

  lemma {:induction false} StrippedBefore(u: Unicode, style: Style, indent: string, plain: seq<string>, painted: seq<string>, widths: seq<nat>, j: nat)
    requires |plain| == |painted| == |widths| && j <= |plain| && EscFree(indent)
    requires forall i :: 0 <= i < |plain| ==> EscFree(plain[i]) && painted[i] == style.Paint(Header, plain[i])
    ensures Closed(Before(u, indent, painted, widths, j))
    ensures Strip(Before(u, indent, painted, widths, j)) == Before(u, indent, plain, widths, j)
    decreases j
  {
    EscFreeIsClosed(indent);
    hide Closed;
    hide Strip;
    hide Width;
    hide Style.Paint;
    if j > 0 {
      StrippedBefore(u, style, indent, plain, painted, widths, j - 1);
      StrippedCell(u, style, Before(u, indent, painted, widths, j - 1), plain[j - 1], widths[j - 1]);
    }
  }

  lemma AppendClosed(u: Unicode, a: string, b: string)
    requires Closed(a) && Closed(b)
    ensures Closed(a + b) && Strip(a + b) == Strip(a) + Strip(b)
  {
    ClosedAppend(u, a, b);
    ClosedConcat(a, b);
  }

  /** Colour changes nothing but colour: stripping a row of painted headers gives
      the row of plain ones. */
  lemma {:induction false} StrippedRow(u: Unicode, style: Style, indent: string, plain: seq<string>, painted: seq<string>, widths: seq<nat>)
    requires |plain| == |painted| == |widths| && EscFree(indent)
    requires forall i :: 0 <= i < |plain| ==> EscFree(plain[i]) && painted[i] == style.Paint(Header, plain[i])
    ensures Strip(RowText(u, indent, painted, widths)) == RowText(u, indent, plain, widths)
  {
    EscFreeIsClosed("\n");
    EscFreeIsClosed(indent);
    hide Style.Paint;
    hide Closed;
    hide Strip;
    hide Width;
    hide Before;
    RowEnd(u, indent, plain, widths);
    RowEnd(u, indent, painted, widths);
    hide RowText;
    if plain == [] {
      AppendClosed(u, indent, "\n");
    } else {
      var n := |plain| - 1;
      var front := Before(u, indent, painted, widths, n);
      StrippedBefore(u, style, indent, plain, painted, widths, n);
      StrippedLast(u, style, front, plain[n]);
    }
  }

  lemma {:induction false} RowEnd(u: Unicode, indent: string, cells: seq<string>, widths: seq<nat>)
    requires |cells| == |widths|
    ensures cells == [] ==> RowText(u, indent, cells, widths) == indent + "\n"
    ensures cells != [] ==>
      var n := |cells| - 1;
      RowText(u, indent, cells, widths) == Before(u, indent, cells, widths, n) + cells[n] + "\n"
  {
  }

  lemma {:induction false} StrippedLast(u: Unicode, style: Style, front: string, text: string)
    requires EscFree(text) && Closed(front)
    ensures Strip(front + style.Paint(Header, text) + "\n") == Strip(front) + text + "\n"
  {
    var cell := style.Paint(Header, text);
    PaintedCell(u, style, text);
    EscFreeIsClosed("\n");
    hide Style.Paint;
    hide Closed;
    hide Strip;
    hide Width;
    AppendClosed(u, front, cell);
    AppendClosed(u, front + cell, "\n");
  }

  /** The indent only stands before the row. */
  lemma {:induction false} IndentShifts(u: Unicode, indent: string, cells: seq<string>, widths: seq<nat>)
    requires |cells| == |widths|
    ensures RowText(u, indent, cells, widths) == indent + RowText(u, "", cells, widths)
  {
    if cells == [] {
      assert "" + "\n" == "\n";
    } else {
      IndentShiftsBefore(u, indent, cells, widths, |cells| - 1);
    }
  }

  lemma {:induction false} IndentShiftsBefore(u: Unicode, indent: string, cells: seq<string>, widths: seq<nat>, j: nat)
    requires |cells| == |widths| && j <= |cells|
    ensures Before(u, indent, cells, widths, j) == indent + Before(u, "", cells, widths, j)
    decreases j
  {
    if j > 0 {
      IndentShiftsBefore(u, indent, cells, widths, j - 1);
    }
  }

  /** All rows of a rendered table, the painted header included, fit the widths. */
  lemma RenderedRowsFit(u: Unicode, table: Table, widths: seq<nat>, row: seq<string>)
    requires table.Valid() && AreWidths(u, table.headers, table.showHeader, table.rows, widths)
    requires forall r :: r in table.rows ==> forall j :: 0 <= j < |r| ==> EscFree(r[j])
    requires forall j :: 0 <= j < |table.headers| ==> EscFree(table.headers[j])
    requires row in table.rows || (table.showHeader && row == table.Painted())
    ensures FitColumns(u, row, widths)
  {
    hide Width;
    hide Closed;
    hide Style.Paint;
    forall j | 0 <= j < |row|
      ensures Closed(row[j]) && Width(u, row[j]) <= widths[j]
    {
      if row in table.rows {
        EscFreeIsClosed(row[j]);
      } else {
        PaintedCell(u, table.style, table.headers[j]);
      }
    }
  }
}
