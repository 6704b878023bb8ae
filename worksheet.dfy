/**
 * The openpyxl worksheet as the scrapers use it: a sequence of rows of
 * cell texts, row 1 first. An empty string stands for an empty cell
 * (`None`). Row and column numbers in method parameters are 1-based as in
 * openpyxl; sequence indices are 0-based.
 */
module Worksheets {
  import opened Text

  type Row = seq<string>

  /** The 14 column names both link-file tools write as row 1. */
  const Headers: Row := [
    "Job Title", "Category", "Location", "Cooperation Type",
    "Work Experience", "Salary", "Languages", "Skills",
    "Gender", "Military Status", "Education Level",
    "Job Description", "Company Introduction", "URL"
  ]

  function Max(a: nat, b: nat): nat {
    if a < b then b else a
  }

  /** `ws.max_column`: the widest row, and at least 1 for an empty sheet. */
  function Columns(rows: seq<Row>): (n: nat)
    ensures n >= 1
    ensures forall r :: 0 <= r < |rows| ==> |rows[r]| <= n
  {
    if rows == [] then 1 else Max(Columns(rows[..|rows| - 1]), |rows[|rows| - 1]|)
  }

  /** Unless it is the minimum of 1, `max_column` is the width of some row. */
  lemma {:induction false} ColumnsAttained(rows: seq<Row>)
    ensures Columns(rows) == 1 || exists r :: 0 <= r < |rows| && |rows[r]| == Columns(rows)
    decreases |rows|
  {
    if rows != [] {
      var init := rows[..|rows| - 1];
      ColumnsAttained(init);
      if Columns(init) >= |rows[|rows| - 1]| && Columns(init) != 1 {
        var r :| 0 <= r < |init| && |init[r]| == Columns(init);
        assert rows[r] == init[r];
      }
    }
  }

  /** The text of the cell at 0-based row `r` and column `c`; "" where no cell was written. */
  function Cell(rows: seq<Row>, r: nat, c: nat): string {
    if r < |rows| && c < |rows[r]| then rows[r][c] else ""
  }

  /**
   * `row[-1]` of a row produced by `iter_rows`: rows are read padded to
   * `max_column`, so the last entry is the cell in the sheet's last column.
   */
  function LastCell(rows: seq<Row>, r: nat): string {
    Cell(rows, r, Columns(rows) - 1)
  }

  /** Row `r` as `iter_rows(values_only=True)` yields it: padded to `max_column`. */
  function Padded(rows: seq<Row>, r: nat): (row: Row)
    ensures |row| == Columns(rows)
    ensures forall c :: 0 <= c < |row| ==> row[c] == Cell(rows, r, c)
  {
    seq(Columns(rows), c requires 0 <= c < Columns(rows) => Cell(rows, r, c))
  }

  /** The rows from row 2 on, as `iter_rows(min_row=2, values_only=True)` yields them. */
  function DataRows(rows: seq<Row>): (data: seq<Row>)
    ensures |data| == if |rows| == 0 then 0 else |rows| - 1
    ensures forall k :: 0 <= k < |data| ==> data[k] == Padded(rows, k + 1)
  {
    if |rows| <= 1 then [] else seq(|rows| - 1, k requires 0 <= k < |rows| - 1 => Padded(rows, k + 1))
  }

  /**
   * The non-empty last-column cells of rows 2 up to (excluding) 0-based
   * row `hi`, unstripped, in row order.
   */
  function RawLinks(rows: seq<Row>, hi: nat): (links: seq<string>)
    ensures |links| <= hi
    ensures forall k :: 0 <= k < |links| ==> links[k] != ""
    decreases hi
  {
    if hi <= 1 then []
    else RawLinks(rows, hi - 1) + (if LastCell(rows, hi - 1) != "" then [LastCell(rows, hi - 1)] else [])
  }

  /** A link is collected exactly when some data row below `hi` holds it, non-empty, in its last column. */
  lemma {:induction false} RawLinksMembers(rows: seq<Row>, hi: nat, x: string)
    ensures x in RawLinks(rows, hi) <==> x != "" && exists r :: 1 <= r < hi && LastCell(rows, r) == x
    decreases hi
  {
    if hi > 1 {
      RawLinksMembers(rows, hi - 1, x);
      if x != "" && LastCell(rows, hi - 1) == x {
        assert x in RawLinks(rows, hi);
      }
      if x in RawLinks(rows, hi) && x !in RawLinks(rows, hi - 1) {
        assert LastCell(rows, hi - 1) == x;
      }
    }
  }

  /** Only the last cells of data rows below `hi` decide the links collected below it. */
  lemma {:induction false} RawLinksPrefix(rows: seq<Row>, other: seq<Row>, hi: nat)
    requires forall r :: 1 <= r < hi ==> LastCell(rows, r) == LastCell(other, r)
    ensures RawLinks(rows, hi) == RawLinks(other, hi)
    decreases hi
  {
    if hi > 1 {
      RawLinksPrefix(rows, other, hi - 1);
    }
  }

  /** `str(x).strip()` applied to every element, in order. */
  function StripAll(xs: seq<string>): (ys: seq<string>)
    ensures |ys| == |xs|
    ensures forall k :: 0 <= k < |xs| ==> ys[k] == Strip(xs[k])
  {
    seq(|xs|, k requires 0 <= k < |xs| => Strip(xs[k]))
  }

  /** The elements of a concatenation are those of its two parts. */
  lemma {:induction false} ElementsAppend(a: seq<string>, b: seq<string>)
    ensures (set x | x in a + b) == (set x | x in a) + (set x | x in b)
  {
    assert forall x :: x in a + b <==> x in a || x in b;
  }

  lemma StripAllAppend(a: seq<string>, b: seq<string>)
    ensures StripAll(a + b) == StripAll(a) + StripAll(b)
  {
  }

  /** The rows after `ws.cell(row=r, column=c, value=v)` (1-based `r`, `c`): missing rows and cells are created empty. */
  function WithCell(rows: seq<Row>, r: nat, c: nat, v: string): (res: seq<Row>)
    requires r >= 1 && c >= 1
    ensures |res| == Max(|rows|, r)
    ensures |res[r - 1]| == Max(if r - 1 < |rows| then |rows[r - 1]| else 0, c)
    ensures forall k :: 0 <= k < |rows| && k != r - 1 ==> res[k] == rows[k]
  {
    var old_row := if r - 1 < |rows| then rows[r - 1] else [];
    var row := seq(Max(|old_row|, c), k requires 0 <= k < Max(|old_row|, c) =>
      if k == c - 1 then v else if k < |old_row| then old_row[k] else "");
    seq(Max(|rows|, r), k requires 0 <= k < Max(|rows|, r) =>
      if k == r - 1 then row else if k < |rows| then rows[k] else [])
  }

  /** Writing a cell sets that cell and leaves every other cell's text as it was. */
  lemma WithCellCells(rows: seq<Row>, r: nat, c: nat, v: string, r': nat, c': nat)
    requires r >= 1 && c >= 1
    ensures Cell(WithCell(rows, r, c, v), r', c') == if r' == r - 1 && c' == c - 1 then v else Cell(rows, r', c')
  {
  }

  /** A worksheet the program changes in place. */
  class Sheet {
    var rows: seq<Row>

    constructor (initial: seq<Row>)
      ensures rows == initial
    {
      rows := initial;
    }

    /** `ws.append(row)`: the row goes after every existing row. */
    method Append(row: Row)
      modifies this
      ensures rows == old(rows) + [row]
    {
      rows := rows + [row];
    }

    /**
     * `ws.insert_rows(idx)`: rows `idx` and below move down by one, leaving
     * an empty row at `idx`; at or past the end nothing moves.
     */
    method InsertRow(idx: nat)
      requires idx >= 1
      modifies this
      ensures idx - 1 < |old(rows)| ==> rows == old(rows)[..idx - 1] + [[]] + old(rows)[idx - 1..]
      ensures idx - 1 >= |old(rows)| ==> rows == old(rows)
    {
      if idx - 1 < |rows| {
        rows := rows[..idx - 1] + [[]] + rows[idx - 1..];
      }
    }

    /** `ws.cell(row=r, column=c, value=v)`. */
    method SetCell(r: nat, c: nat, v: string)
      requires r >= 1 && c >= 1
      modifies this
      ensures rows == WithCell(old(rows), r, c, v)
    {
      rows := WithCell(rows, r, c, v);
    }
  }
}
