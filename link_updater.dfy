/**
 * The link-file updater (Updater_table.py): its spreadsheet helpers
 * (`ExcelHandler`) and the per-link loop of `run_processing`, which copies
 * an old output file into a new one, then scrapes every input link and
 * inserts one row per link above the copied rows, aborting on the first
 * link that is already known.
 *
 * Files are passed in as their rows (`None` when the file does not
 * exist); the browser is an extractor oracle and the stop button a flag
 * read before each link.
 */
module LinkUpdater {
  import opened Wrappers
  import opened Text
  import opened Worksheets

  /** A scraped record: field name to text, as `extract_job_data` returns it. */
  type Record = map<string, string>

  const NotApplicable: string := "N/A"
  const NotExtracted: string := "داده استخراج نشد"
  const UrlField: string := "URL"

  /** The header names are pairwise distinct, and "URL" is the last. */
  lemma {:induction false} HeadersDistinct()
    ensures forall i, j :: 0 <= i < j < |Headers| ==> Headers[i] != Headers[j]
    ensures Headers[|Headers| - 1] == UrlField
  {
  }

  /** `data.get(name, "N/A")`. */
  function FieldOr(data: Record, name: string): string {
    if name in data then data[name] else NotApplicable
  }

  // ---------------------------------------------------------------------
  // Row shapes

  /** `append_data`'s new row: one cell per header, "N/A" for a missing field. */
  function ShapeRow(data: Record): (row: Row)
    ensures |row| == |Headers|
  {
    seq(|Headers|, k requires 0 <= k < |Headers| => FieldOr(data, Headers[k]))
  }

  /** The record a row of the output file stands for: each header names the cell below it. */
  function RecordOf(row: Row): (data: Record)
    requires |row| == |Headers|
    ensures data.Keys == set h | h in Headers
  {
    map k | 0 <= k < |Headers| :: Headers[k] := row[k]
  }

  /** Reading a row as a record and shaping it again gives back the row. */
  lemma {:induction false} ShapeRowRecordOf(row: Row)
    requires |row| == |Headers|
    ensures ShapeRow(RecordOf(row)) == row
  {
    HeadersDistinct();
    var data := RecordOf(row);
    forall k | 0 <= k < |Headers|
      ensures ShapeRow(data)[k] == row[k]
    {
      assert Headers[k] in data;
      assert data[Headers[k]] == row[k];
    }
  }

  /** Shaping a record keeps every header's value and fills "N/A" for the headers it lacks. */
  lemma {:induction false} RecordOfShapeRow(data: Record, h: string)
    requires h in Headers
    ensures RecordOf(ShapeRow(data))[h] == if h in data then data[h] else NotApplicable
  {
    HeadersDistinct();
    var k :| 0 <= k < |Headers| && Headers[k] == h;
    assert RecordOf(ShapeRow(data))[Headers[k]] == ShapeRow(data)[k];
  }

  /**
   * The row `run_processing` writes for `link`: the 13 fields before "URL",
   * "N/A" when missing, and then the link itself.
   */
  function RecordRow(data: Record, link: string): (row: Row)
    ensures |row| == |Headers| && row[|Headers| - 1] == link
  {
    seq(|Headers|, k requires 0 <= k < |Headers| =>
      if k == |Headers| - 1 then link else FieldOr(data, Headers[k]))
  }

  /** The inline writer and `append_data` agree once the record's URL is the link. */
  lemma {:induction false} RecordRowIsShape(data: Record, link: string)
    ensures RecordRow(data, link) == ShapeRow(data[UrlField := link])
  {
    HeadersDistinct();
  }

  /** The record written when no attempt yields data: every field marked, URL the link. */
  function Placeholder(link: string): (data: Record)
    ensures data.Keys == set h | h in Headers
    ensures forall h :: h in data ==> data[h] == if h == UrlField then link else NotExtracted
  {
    map h | h in Headers :: if h == UrlField then link else NotExtracted
  }

  /** The placeholder row is 13 "not extracted" marks and the link. */
  lemma {:induction false} PlaceholderRow(link: string)
    ensures RecordRow(Placeholder(link), link) == seq(|Headers| - 1, _ => NotExtracted) + [link]
  {
    HeadersDistinct();
    var row := RecordRow(Placeholder(link), link);
    forall k | 0 <= k < |Headers| - 1
      ensures row[k] == NotExtracted
    {
      assert Headers[k] in Placeholder(link);
    }
  }

  // ---------------------------------------------------------------------
  // Extraction with retries

  /**
   * The browser: attempt `k` (1-based) at scraping `link` gives a record, or
   * `None` when the attempt raised.
   */
  type Extractor = (string, nat) -> Option<Record>

  const MaxAttempts: nat := 3

  /** `if data:` — a record counts only when it is non-empty. */
  predicate Truthy(r: Option<Record>) {
    r.Some? && r.value != map[]
  }

  /**
   * The first attempt from `k` on that yields data; `MaxAttempts + 1` when
   * none of the attempts up to `MaxAttempts` does.
   */
  function FirstSuccess(extract: Extractor, link: string, k: nat): (j: nat)
    requires 1 <= k
    ensures k <= j <= MaxAttempts + 1 || (j == k && k > MaxAttempts)
    ensures forall i :: k <= i < j ==> !Truthy(extract(link, i))
    ensures j <= MaxAttempts ==> Truthy(extract(link, j))
    decreases MaxAttempts + 1 - k
  {
    if k > MaxAttempts then k
    else if Truthy(extract(link, k)) then k
    else FirstSuccess(extract, link, k + 1)
  }

  /** The record used for `link`: the first data an attempt yields, else the placeholder. */
  function DataFor(extract: Extractor, link: string): Record {
    var j := FirstSuccess(extract, link, 1);
    if j <= MaxAttempts then extract(link, j).value else Placeholder(link)
  }

  /**
   * The retry loop of `run_processing`: up to three attempts, stopping at
   * the first that yields data. A raising attempt leaves `data` as it was.
   */
  method ExtractWithRetry(extract: Extractor, link: string) returns (data: Option<Record>, attempts: nat)
    ensures 1 <= attempts <= MaxAttempts
    ensures Truthy(data) <==> FirstSuccess(extract, link, 1) <= MaxAttempts
    ensures Truthy(data) ==> attempts == FirstSuccess(extract, link, 1) && data == extract(link, attempts)
    ensures !Truthy(data) ==> attempts == MaxAttempts
  {
    data, attempts := None, 0;
    while attempts < MaxAttempts
      invariant attempts <= MaxAttempts
      invariant forall i :: 1 <= i <= attempts ==> !Truthy(extract(link, i))
      invariant !Truthy(data)
    {
      attempts := attempts + 1;
      var result := extract(link, attempts);
      if result.Some? {
        data := result;
        if Truthy(data) {
          return;
        }
      }
    }
  }

  /** The row written for `link`. */
  function RowFor(extract: Extractor, link: string): (row: Row)
    ensures |row| == |Headers| && row[|Headers| - 1] == link
  {
    RecordRow(DataFor(extract, link), link)
  }

  function WrittenRows(extract: Extractor, links: seq<string>): (rows: seq<Row>)
    ensures |rows| == |links|
    ensures forall i :: 0 <= i < |links| ==> rows[i] == RowFor(extract, links[i])
  {
    seq(|links|, i requires 0 <= i < |links| => RowFor(extract, links[i]))
  }

  // ---------------------------------------------------------------------
  // Reading links

  /** The links `read_input_links` returns: the stripped non-empty last cells of rows 2 on. */
  function InputLinks(rows: seq<Row>): seq<string> {
    StripAll(RawLinks(rows, |rows|))
  }

  /** The stripped non-empty last cells of the data rows below 0-based row `hi`, as a set. */
  function LinksBelow(rows: seq<Row>, hi: nat): set<string> {
    set x | x in StripAll(RawLinks(rows, hi))
  }

  /** The links `get_existing_links` collects. */
  function LinkSet(rows: seq<Row>): set<string> {
    LinksBelow(rows, |rows|)
  }

  /** One more data row adds its stripped last cell, when that is non-empty. */
  lemma {:induction false} LinksBelowStep(rows: seq<Row>, i: nat)
    requires i >= 1
    ensures LinksBelow(rows, i + 1) == LinksBelow(rows, i) + if LastCell(rows, i) != "" then {Strip(LastCell(rows, i))} else {}
  {
    var cell, raw := LastCell(rows, i), RawLinks(rows, i);
    var added := if cell != "" then [cell] else [];
    assert RawLinks(rows, i + 1) == raw + added;
    StripAllAppend(raw, added);
    ElementsAppend(StripAll(raw), StripAll(added));
    assert StripAll(added) == if cell != "" then [Strip(cell)] else [];
  }

  /** Every known link is the stripped, non-empty last cell of some data row. */
  lemma {:induction false} LinkSetSound(rows: seq<Row>, x: string)
    requires x in LinkSet(rows)
    ensures exists r :: 1 <= r < |rows| && LastCell(rows, r) != "" && Strip(LastCell(rows, r)) == x
  {
    var raw := RawLinks(rows, |rows|);
    var k :| 0 <= k < |raw| && Strip(raw[k]) == x;
    RawLinksMembers(rows, |rows|, raw[k]);
  }

  /** The stripped, non-empty last cell of every data row is a known link. */
  lemma {:induction false} LinkSetComplete(rows: seq<Row>, r: nat)
    requires 1 <= r < |rows| && LastCell(rows, r) != ""
    ensures Strip(LastCell(rows, r)) in LinkSet(rows)
  {
    var raw := RawLinks(rows, |rows|);
    RawLinksMembers(rows, |rows|, LastCell(rows, r));
    var k :| 0 <= k < |raw| && raw[k] == LastCell(rows, r);
    assert InputLinks(rows)[k] == Strip(LastCell(rows, r));
  }

  /** A link is known exactly when some data row holds it, stripped, in a non-empty last cell. */
  lemma {:induction false} LinkSetMembers(rows: seq<Row>, x: string)
    ensures x in LinkSet(rows) <==>
      exists r :: 1 <= r < |rows| && LastCell(rows, r) != "" && Strip(LastCell(rows, r)) == x
  {
    if x in LinkSet(rows) {
      LinkSetSound(rows, x);
    }
    if exists r :: 1 <= r < |rows| && LastCell(rows, r) != "" && Strip(LastCell(rows, r)) == x {
      var r :| 1 <= r < |rows| && LastCell(rows, r) != "" && Strip(LastCell(rows, r)) == x;
      LinkSetComplete(rows, r);
    }
  }

  /** One more data row appends its stripped last cell, when that is non-empty. */
  lemma {:induction false} InputLinksStep(rows: seq<Row>, i: nat)
    requires i >= 1
    ensures StripAll(RawLinks(rows, i + 1)) ==
      StripAll(RawLinks(rows, i)) + if LastCell(rows, i) != "" then [Strip(LastCell(rows, i))] else []
  {
    var cell, raw := LastCell(rows, i), RawLinks(rows, i);
    var added := if cell != "" then [cell] else [];
    assert RawLinks(rows, i + 1) == raw + added;
    StripAllAppend(raw, added);
    assert StripAll(added) == if cell != "" then [Strip(cell)] else [];
  }

  datatype ReadError = InputNotFound

  /** `read_input_links`: the link column of the input file, or an error when it is missing. */
  method ReadInputLinks(file: Option<seq<Row>>) returns (r: Result<seq<string>, ReadError>)
    ensures r.Failure? <==> file.None?
    ensures r.Success? ==> r.value == InputLinks(file.value)
  {
    if file.None? {
      return Failure(InputNotFound);
    }
    var rows := file.value;
    var links: seq<string> := [];
    var i := 1;
    while i < |rows|
      invariant 1 <= i <= if |rows| == 0 then 1 else |rows|
      invariant links == StripAll(RawLinks(rows, i))
    {
      InputLinksStep(rows, i);
      var cell := LastCell(rows, i);
      if cell != "" {
        links := links + [Strip(cell)];
      }
      i := i + 1;
    }
    if |rows| == 0 {
      assert RawLinks(rows, i) == [] == RawLinks(rows, |rows|);
    }
    return Success(links);
  }

  /** `get_existing_links`: the set of links in the file, empty when it is missing. */
  method GetExistingLinks(file: Option<seq<Row>>) returns (links: set<string>)
    ensures file.None? ==> links == {}
    ensures file.Some? ==> links == LinkSet(file.value)
  {
    links := {};
    if file.None? {
      return;
    }
    var rows := file.value;
    var i := 1;
    while i < |rows|
      invariant 1 <= i <= if |rows| == 0 then 1 else |rows|
      invariant links == LinksBelow(rows, i)
    {
      LinksBelowStep(rows, i);
      var cell := LastCell(rows, i);
      if cell != "" {
        links := links + {Strip(cell)};
      }
      i := i + 1;
    }
    if |rows| == 0 {
      assert RawLinks(rows, i) == [] == RawLinks(rows, |rows|);
    }
  }

  // ---------------------------------------------------------------------
  // Writing the output file

  /** `append_data`: the shaped row goes after every existing row. */
  method AppendData(sheet: Sheet, data: Record)
    modifies sheet
    ensures sheet.rows == old(sheet.rows) + [ShapeRow(data)]
  {
    sheet.Append(ShapeRow(data));
  }

  /**
   * `copy_existing_data_to_new_file`: a new sheet holding the header row and
   * then the source's rows from row 2 on; nothing when the source is missing.
   */
  method CopyExistingData(source: Option<seq<Row>>) returns (target: Option<Sheet>)
    ensures target.None? <==> source.None?
    ensures target.Some? ==> fresh(target.value) && target.value.rows == [Headers] + DataRows(source.value)
  {
    if source.None? {
      return None;
    }
    var sheet := new Sheet([Headers]);
    var data := DataRows(source.value);
    for k := 0 to |data|
      invariant sheet.rows == [Headers] + data[..k]
    {
      sheet.Append(data[k]);
      assert data[..k + 1] == data[..k] + [data[k]];
    }
    assert data[..|data|] == data;
    return Some(sheet);
  }

  /** The copy is as wide as the source when the source is at least as wide as the header row. */
  lemma {:induction false} CopyColumns(source: seq<Row>)
    requires Columns(source) >= |Headers| && |source| >= 2
    ensures Columns([Headers] + DataRows(source)) == Columns(source)
  {
    var target := [Headers] + DataRows(source);
    var n := Columns(source);
    assert |target[1]| == n;
    forall r | 0 <= r < |target|
      ensures |target[r]| <= n
    {
    }
    ColumnsAttained(target);
  }

  /** The copy's link column holds the source's links, in order. */
  lemma {:induction false} CopyKeepsRawLinks(source: seq<Row>)
    requires Columns(source) >= |Headers|
    ensures RawLinks([Headers] + DataRows(source), |source|) == RawLinks(source, |source|)
  {
    var target := [Headers] + DataRows(source);
    if |source| >= 2 {
      CopyColumns(source);
      CopyLastCells(source);
      RawLinksPrefix(target, source, |source|);
    }
  }

  /** The copy's data rows end in the source's last cells. */
  lemma {:induction false} CopyLastCells(source: seq<Row>)
    requires Columns(source) >= |Headers| && |source| >= 2
    ensures forall r :: 1 <= r < |source| ==> LastCell([Headers] + DataRows(source), r) == LastCell(source, r)
  {
    CopyColumns(source);
    var target, n := [Headers] + DataRows(source), Columns(source);
    forall r | 1 <= r < |source|
      ensures LastCell(target, r) == LastCell(source, r)
    {
      CopyRow(source, r);
      assert Cell(target, r, n - 1) == Padded(source, r)[n - 1];
    }
  }

  /** Row `r` of the copy is row `r` of the source, padded. */
  lemma {:induction false} CopyRow(source: seq<Row>, r: nat)
    requires 1 <= r < |source|
    ensures ([Headers] + DataRows(source))[r] == Padded(source, r)
  {
    assert ([Headers] + DataRows(source))[r] == DataRows(source)[r - 1];
  }

  /**
   * The copy keeps the links of the source when the source is at least as
   * wide as the header row, so that its last column is still the last one.
   */
  lemma {:induction false} CopyKeepsLinks(source: seq<Row>)
    requires Columns(source) >= |Headers|
    ensures LinkSet([Headers] + DataRows(source)) == LinkSet(source)
  {
    CopyKeepsRawLinks(source);
    assert |[Headers] + DataRows(source)| == |source|;
  }

  function Blank(n: nat): (rows: seq<Row>)
    ensures |rows| == n && forall k :: 0 <= k < n ==> rows[k] == []
  {
    seq(n, _ => [])
  }

  /** `base` with 0-based row `r - 1` replaced by `row`, padded with empty rows up to it. */
  function Framed(base: seq<Row>, r: nat, row: Row): (res: seq<Row>)
    requires r >= 1
    ensures |res| == Max(|base|, r) && res[r - 1] == row
  {
    seq(Max(|base|, r), k requires 0 <= k < Max(|base|, r) =>
      if k == r - 1 then row else if k < |base| then base[k] else [])
  }

  lemma {:induction false} FramedFirst(base: seq<Row>, r: nat, row: Row)
    requires r >= 1 && |row| >= 1 && (r - 1 < |base| ==> base[r - 1] == [])
    ensures WithCell(base, r, 1, row[0]) == Framed(base, r, row[..1])
  {
    var a := WithCell(base, r, 1, row[0]);
    var b := Framed(base, r, row[..1]);
    assert |a| == |b|;
    forall k | 0 <= k < |a|
      ensures a[k] == b[k]
    {
      if k == r - 1 {
        assert |a[k]| == 1;
      }
    }
  }

  lemma {:induction false} FramedStep(base: seq<Row>, r: nat, row: Row, c: nat)
    requires r >= 1 && 1 <= c < |row|
    ensures WithCell(Framed(base, r, row[..c]), r, c + 1, row[c]) == Framed(base, r, row[..c + 1])
  {
    var a := WithCell(Framed(base, r, row[..c]), r, c + 1, row[c]);
    var b := Framed(base, r, row[..c + 1]);
    assert |a| == |b|;
    forall k | 0 <= k < |a|
      ensures a[k] == b[k]
    {
    }
  }

  /** Where the framed row ends up relative to the rows before `insert_rows`. */
  lemma {:induction false} FramedInserted(o: seq<Row>, base: seq<Row>, r: nat, row: Row)
    requires r >= 1
    requires r - 1 < |o| ==> base == o[..r - 1] + [[]] + o[r - 1..]
    requires r - 1 >= |o| ==> base == o
    ensures r - 1 <= |o| ==> Framed(base, r, row) == o[..r - 1] + [row] + o[r - 1..]
    ensures r - 1 > |o| ==> Framed(base, r, row) == o + Blank(r - 1 - |o|) + [row]
  {
    var f := Framed(base, r, row);
    if r - 1 <= |o| {
      var g := o[..r - 1] + [row] + o[r - 1..];
      assert |f| == |g|;
      forall k | 0 <= k < |f|
        ensures f[k] == g[k]
      {
      }
    } else {
      var g := o + Blank(r - 1 - |o|) + [row];
      assert |f| == |g|;
      forall k | 0 <= k < |f|
        ensures f[k] == g[k]
      {
      }
    }
  }

  /** The cells of `row` written one by one, left to right, into the empty row `r`. */
  method WriteCells(sheet: Sheet, r: nat, row: Row)
    requires r >= 1 && |row| >= 1
    requires r - 1 < |sheet.rows| ==> sheet.rows[r - 1] == []
    modifies sheet
    ensures sheet.rows == Framed(old(sheet.rows), r, row)
  {
    ghost var base := sheet.rows;
    sheet.SetCell(r, 1, row[0]);
    FramedFirst(base, r, row);
    for c := 1 to |row|
      invariant sheet.rows == Framed(base, r, row[..c])
    {
      FramedStep(base, r, row, c);
      sheet.SetCell(r, c + 1, row[c]);
    }
    assert row[..|row|] == row;
  }

  /**
   * The row write of `run_processing`: `insert_rows(r)`, then the row's
   * cells one by one into row `r`. The row lands at row `r`, rows from `r`
   * on move down, and a row past the end is reached through empty rows.
   */
  method PlaceRecord(sheet: Sheet, r: nat, row: Row)
    requires r >= 1 && |row| >= 1
    modifies sheet
    ensures r - 1 <= |old(sheet.rows)| ==> sheet.rows == old(sheet.rows)[..r - 1] + [row] + old(sheet.rows)[r - 1..]
    ensures r - 1 > |old(sheet.rows)| ==> sheet.rows == old(sheet.rows) + Blank(r - 1 - |old(sheet.rows)|) + [row]
  {
    sheet.InsertRow(r);
    ghost var base := sheet.rows;
    WriteCells(sheet, r, row);
    FramedInserted(old(sheet.rows), base, r, row);
  }

  // ---------------------------------------------------------------------
  // The per-link loop

  datatype Outcome = CopyFailed | BrowserFailed | InputUnreadable | NoLinks | StoppedAt(index: nat) | DuplicateAt(index: nat) | Finished

  /** Inserting the next row at the moving row keeps new rows in order above the copied ones. */
  lemma {:induction false} InsertBelowWritten(head: seq<Row>, written: seq<Row>, copied: seq<Row>, row: Row)
    ensures var rows := head + written + copied;
      rows[..|head + written|] + [row] + rows[|head + written|..] == head + (written + [row]) + copied
  {
    var rows := head + written + copied;
    assert rows[..|head + written|] == head + written;
    assert rows[|head + written|..] == copied;
  }

  lemma {:induction false} WrittenRowsStep(extract: Extractor, links: seq<string>, i: nat)
    requires i < |links|
    ensures WrittenRows(extract, links[..i + 1]) == WrittenRows(extract, links[..i]) + [RowFor(extract, links[i])]
  {
    assert links[..i + 1][..i] == links[..i];
  }

  /**
   * One written link: the record (or its placeholder) is extracted and its
   * row placed at `current_row`, just below the rows written so far.
   */
  method WriteLink(sheet: Sheet, ghost head: seq<Row>, ghost copied: seq<Row>, extract: Extractor, links: seq<string>, i: nat, currentRow: nat)
    requires i < |links| && currentRow == |head| + i + 1
    requires sheet.rows == head + WrittenRows(extract, links[..i]) + copied
    modifies sheet
    ensures sheet.rows == head + WrittenRows(extract, links[..i + 1]) + copied
  {
    var link := links[i];
    var data, attempts := ExtractWithRetry(extract, link);
    var record := if Truthy(data) then data.value else Placeholder(link);
    assert record == DataFor(extract, link);
    ghost var written := WrittenRows(extract, links[..i]);
    InsertBelowWritten(head, written, copied, RecordRow(record, link));
    WrittenRowsStep(extract, links, i);
    PlaceRecord(sheet, currentRow, RecordRow(record, link));
  }

  /** The links among the first `n`. */
  function Elems(links: seq<string>, n: nat): set<string>
    requires n <= |links|
  {
    set j | 0 <= j < n :: links[j]
  }

  lemma {:induction false} ElemsStep(links: seq<string>, n: nat)
    requires n < |links|
    ensures Elems(links, n + 1) == Elems(links, n) + {links[n]}
  {
  }

  /**
   * The first `n` links passed the checks of the loop: the stop flag was
   * clear before each, and none was known, neither from the old file nor
   * as an earlier link.
   */
  predicate Accepted(links: seq<string>, existing: set<string>, stop: nat -> bool, n: nat)
    requires n <= |links|
  {
    n == 0 || (Accepted(links, existing, stop, n - 1) && !stop(n - 1)
               && links[n - 1] !in existing && links[n - 1] !in Elems(links, n - 1))
  }

  /** Accepted links were each checked with the stop flag clear, were unknown beforehand, and are pairwise distinct. */
  lemma {:induction false} AcceptedLinks(links: seq<string>, existing: set<string>, stop: nat -> bool, n: nat)
    requires n <= |links| && Accepted(links, existing, stop, n)
    ensures forall j :: 0 <= j < n ==> !stop(j) && links[j] !in existing
    ensures forall i, j :: 0 <= i < j < n ==> links[i] != links[j]
  {
    if n > 0 {
      AcceptedLinks(links, existing, stop, n - 1);
      forall i | 0 <= i < n - 1
        ensures links[i] != links[n - 1]
      {
        assert links[i] in Elems(links, n - 1);
      }
    }
  }

  /**
   * The loop of `run_processing` over a sheet whose row 1 is the header:
   * before each link the stop flag is read and a known link aborts the run;
   * otherwise the link's row is inserted at `current_row`, which starts at
   * row 2 and moves down one row per written link, and the link becomes
   * known. So the written links are pairwise distinct and none was known
   * beforehand.
   */
  method ProcessLinks(sheet: Sheet, links: seq<string>, existing: set<string>, extract: Extractor, stop: nat -> bool)
    returns (outcome: Outcome, written: nat)
    requires |sheet.rows| >= 1
    modifies sheet
    ensures written <= |links|
    ensures sheet.rows == old(sheet.rows)[..1] + WrittenRows(extract, links[..written]) + old(sheet.rows)[1..]
    ensures outcome == Finished || outcome == StoppedAt(written) || outcome == DuplicateAt(written)
    ensures outcome == Finished ==> written == |links|
    ensures outcome == StoppedAt(written) ==> written < |links| && stop(written)
    ensures outcome == DuplicateAt(written) ==>
      written < |links| && !stop(written) && (links[written] in existing || links[written] in links[..written])
    ensures Accepted(links, existing, stop, written)
  {
    ghost var head, copied := sheet.rows[..1], sheet.rows[1..];
    assert sheet.rows == head + [] + copied;
    var known := existing;
    var currentRow := 2;
    written := 0;
    while written < |links|
      invariant written <= |links| && currentRow == written + 2
      invariant known == existing + Elems(links, written)
      invariant sheet.rows == head + WrittenRows(extract, links[..written]) + copied
      invariant Accepted(links, existing, stop, written)
    {
      if stop(written) {
        outcome := StoppedAt(written);
        return;
      }
      var link := links[written];
      if link in known {
        outcome := DuplicateAt(written);
        if link !in existing {
          var j :| 0 <= j < written && links[j] == link;
          assert links[..written][j] == link;
        }
        return;
      }
      WriteLink(sheet, head, copied, extract, links, written, currentRow);
      currentRow := currentRow + 1;
      ElemsStep(links, written);
      known := known + {link};
      written := written + 1;
    }
    outcome := Finished;
  }

  /**
   * `run_processing` in "Immediate" mode: copy the old output into a new
   * file, start the browser, read the input links, collect the old file's
   * links, then one pass of the per-link loop.
   */
  method RunProcessing(oldOutput: Option<seq<Row>>, input: Option<seq<Row>>, browserOk: bool,
                       extract: Extractor, stop: nat -> bool)
    returns (outcome: Outcome, output: Option<seq<Row>>, links: seq<string>, written: nat)
    ensures outcome == CopyFailed <==> oldOutput.None?
    ensures output.None? <==> oldOutput.None?
    ensures outcome == BrowserFailed <==> oldOutput.Some? && !browserOk
    ensures outcome == InputUnreadable <==> oldOutput.Some? && browserOk && input.None?
    ensures links == if oldOutput.Some? && browserOk && input.Some? then InputLinks(input.value) else []
    ensures outcome == NoLinks <==> oldOutput.Some? && browserOk && input.Some? && links == []
    ensures oldOutput.Some? && browserOk && input.Some? && links != [] ==>
      outcome.Finished? || outcome.StoppedAt? || outcome.DuplicateAt?
    ensures written <= |links|
    ensures oldOutput.Some? ==>
      output == Some([Headers] + WrittenRows(extract, links[..written]) + DataRows(oldOutput.value))
    ensures outcome == Finished ==> written == |links|
    ensures outcome.StoppedAt? ==> outcome.index == written < |links| && stop(written)
    ensures outcome.DuplicateAt? ==>
      && oldOutput.Some? && outcome.index == written < |links| && !stop(written)
      && (links[written] in LinkSet(oldOutput.value) || links[written] in links[..written])
    ensures oldOutput.Some? ==> forall j :: 0 <= j < written ==> !stop(j) && links[j] !in LinkSet(oldOutput.value)
    ensures forall i, j :: 0 <= i < j < written ==> links[i] != links[j]
  {
    links, written := [], 0;
    var target := CopyExistingData(oldOutput);
    if target.None? {
      return CopyFailed, None, links, written;
    }
    var sheet := target.value;
    output := Some(sheet.rows);
    assert [Headers] + WrittenRows(extract, links[..written]) + DataRows(oldOutput.value) == sheet.rows by {
      assert WrittenRows(extract, links[..written]) == [];
    }
    if !browserOk {
      outcome := BrowserFailed;
      return;
    }
    var read := ReadInputLinks(input);
    if read.Failure? {
      outcome := InputUnreadable;
      return;
    }
    links := read.value;
    if links == [] {
      outcome := NoLinks;
      return;
    }
    var existing := GetExistingLinks(oldOutput);
    outcome, written := ProcessLinks(sheet, links, existing, extract, stop);
    AcceptedLinks(links, existing, stop, written);
    output := Some(sheet.rows);
  }
}
