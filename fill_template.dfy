/**
 * The `/fill-template` route (`immersion.py`): it reads the students from
 * an uploaded workbook, extends the template's row formatting when there
 * are more students than preformatted rows, writes one numbered row per
 * student from row 10 on, sizes columns A to F to their longest value and
 * sends the filled template back.
 *
 * A worksheet is modelled by three maps: cell values, cell styles (a cell
 * has a style exactly when it is in the map) and column widths keyed by
 * column number (`get_column_letter` is one-to-one on 1..6).
 */
module FillTemplate {
  import opened Wrappers

  /** A cell value as openpyxl returns it: `None`, a string or an integer. */
  datatype Cell = Blank | Str(s: string) | Int(n: int)

  /** Python truthiness of a cell value. */
  predicate Truthy(c: Cell) {
    match c
    case Blank => false
    case Str(s) => s != ""
    case Int(n) => n != 0
  }

  /** The six style parts the route copies, each as an opaque identifier. */
  datatype Style = Style(font: nat, border: nat, fill: nat, numberFormat: nat, protection: nat, alignment: nat)

  type Pos = (int, int)

  /** The value at (row, column); an absent cell reads as `None`. */
  function ValueAt(cells: map<Pos, Cell>, p: Pos): Cell {
    if p in cells then cells[p] else Blank
  }

  /** The style at (row, column), if the cell has one. */
  function StyleAt(styles: map<Pos, Style>, p: Pos): Option<Style> {
    if p in styles then Some(styles[p]) else None
  }

  /** The width set for a column, if any. */
  function WidthAt(widths: map<int, int>, col: int): Option<int> {
    if col in widths then Some(widths[col]) else None
  }

  const StartRow: int := 10
  const MaxColumns: int := 10
  const DownloadName: string := "TESDA_Filled_Template.xlsx"

  // ================================================================ extraction

  /** One student as the route keeps it. */
  datatype Entry = Entry(lastName: Cell, firstName: Cell, middleName: Cell, strand: Cell, department: Cell)

  /** `any(row)`. */
  predicate AnyTruthy(row: seq<Cell>) {
    exists k :: 0 <= k < |row| && Truthy(row[k])
  }

  /** `row[k] if len(row) > k else ""`. */
  function Column(row: seq<Cell>, k: nat): Cell {
    if |row| > k then row[k] else Str("")
  }

  function EntryOf(row: seq<Cell>): Entry {
    Entry(Column(row, 0), Column(row, 1), Column(row, 2), Column(row, 3), Column(row, 4))
  }

  /** The entries of the rows below the header: one per row with a truthy cell, in order. */
  function Extracted(rows: seq<seq<Cell>>): seq<Entry> {
    if rows == [] then []
    else Extracted(rows[..|rows| - 1]) + (if AnyTruthy(rows[|rows| - 1]) then [EntryOf(rows[|rows| - 1])] else [])
  }

  /** The extraction loop. */
  method ExtractEntries(rows: seq<seq<Cell>>) returns (data: seq<Entry>)
    ensures data == Extracted(rows)
  {
    data := [];
    var i := 0;
    while i < |rows|
      invariant 0 <= i <= |rows|
      invariant data == Extracted(rows[..i])
    {
      assert rows[..i + 1][..i] == rows[..i];
      var row := rows[i];
      if AnyTruthy(row) {
        data := data + [EntryOf(row)];
      }
      i := i + 1;
    }
    assert rows[..i] == rows;
  }

  /** Extraction goes row by row: the entries of two blocks of rows are those of each block, in order. */
  lemma {:induction false} ExtractedConcat(a: seq<seq<Cell>>, b: seq<seq<Cell>>)
    ensures Extracted(a + b) == Extracted(a) + Extracted(b)
    decreases |b|
  {
    if b == [] {
      assert a + b == a;
    } else {
      var n := |b|;
      assert (a + b)[..|a + b| - 1] == a + b[..n - 1];
      ExtractedConcat(a, b[..n - 1]);
    }
  }

  /** There are never more entries than rows. */
  lemma {:induction false} ExtractedAtMostRows(rows: seq<seq<Cell>>)
    ensures |Extracted(rows)| <= |rows|
  {
    if rows != [] {
      ExtractedAtMostRows(rows[..|rows| - 1]);
    }
  }

  /** Rows whose cells are all falsy give no entry. */
  lemma {:induction false} ExtractedBlankRows(rows: seq<seq<Cell>>)
    requires forall i :: 0 <= i < |rows| ==> !AnyTruthy(rows[i])
    ensures Extracted(rows) == []
  {
    if rows != [] {
      var init := rows[..|rows| - 1];
      assert forall i :: 0 <= i < |init| ==> init[i] == rows[i];
      ExtractedBlankRows(init);
    }
  }

  /** When every row has a truthy cell, there is exactly one entry per row, in order. */
  lemma {:induction false} ExtractedFullRows(rows: seq<seq<Cell>>)
    requires forall i :: 0 <= i < |rows| ==> AnyTruthy(rows[i])
    ensures |Extracted(rows)| == |rows|
    ensures forall i :: 0 <= i < |rows| ==> Extracted(rows)[i] == EntryOf(rows[i])
  {
    if rows != [] {
      var n := |rows|;
      var init := rows[..n - 1];
      assert forall i :: 0 <= i < |init| ==> AnyTruthy(init[i]) by {
        forall i | 0 <= i < |init| ensures AnyTruthy(init[i]) {
          assert init[i] == rows[i];
        }
      }
      ExtractedFullRows(init);
      assert AnyTruthy(rows[n - 1]);
      var e := Extracted(rows);
      assert e == Extracted(init) + [EntryOf(rows[n - 1])];
      forall i | 0 <= i < n
        ensures e[i] == EntryOf(rows[i])
      {
        if i < n - 1 {
          assert init[i] == rows[i];
        }
      }
    }
  }

  // ================================================================ the template's preformatted rows

  /** Row `r` of the template counts as preformatted: column 2 holds a truthy value or has a style. */
  predicate Marked(cells: map<Pos, Cell>, styles: map<Pos, Style>, r: int) {
    Truthy(ValueAt(cells, (r, 2))) || (r, 2) in styles
  }

  /** `preformatted_rows` over the rows `lo..hi`. */
  function Preformatted(cells: map<Pos, Cell>, styles: map<Pos, Style>, lo: int, hi: int): seq<int>
    decreases if lo > hi then 0 else hi - lo + 1
  {
    if lo > hi then []
    else (if Marked(cells, styles, lo) then [lo] else []) + Preformatted(cells, styles, lo + 1, hi)
  }

  predicate Increasing(s: seq<int>) {
    forall i, j :: 0 <= i < j < |s| ==> s[i] < s[j]
  }

  /** The preformatted rows are exactly the marked rows of `lo..hi`, in increasing order. */
  lemma {:induction false} PreformattedSpec(cells: map<Pos, Cell>, styles: map<Pos, Style>, lo: int, hi: int)
    ensures Increasing(Preformatted(cells, styles, lo, hi))
    ensures forall r :: r in Preformatted(cells, styles, lo, hi) <==> lo <= r <= hi && Marked(cells, styles, r)
    decreases if lo > hi then 0 else hi - lo + 1
  {
    if lo <= hi {
      var rest := Preformatted(cells, styles, lo + 1, hi);
      PreformattedSpec(cells, styles, lo + 1, hi);
      assert forall i :: 0 <= i < |rest| ==> rest[i] in rest;
    }
  }

  /** In an increasing sequence of rows from `lo` on, the last one is at least `lo + |s| - 1`. */
  lemma {:induction false} LastAtLeast(s: seq<int>, lo: int)
    requires |s| > 0 && Increasing(s)
    requires forall i :: 0 <= i < |s| ==> lo <= s[i]
    ensures s[|s| - 1] >= lo + |s| - 1
  {
    if |s| > 1 {
      var init := s[..|s| - 1];
      LastAtLeast(init, lo);
      assert init[|init| - 1] == s[|s| - 2];
    }
  }

  /**
   * When the template has preformatted rows but fewer than the students,
   * the rows whose formatting is extended (those after the last
   * preformatted row, one per missing row) reach at least the last student's row.
   */
  lemma ExtensionReachesLastEntry(cells: map<Pos, Cell>, styles: map<Pos, Style>, maxRow: int, n: nat)
    requires var pre := Preformatted(cells, styles, StartRow, maxRow); 0 < |pre| < n
    ensures var pre := Preformatted(cells, styles, StartRow, maxRow);
      pre[|pre| - 1] + (n - |pre|) >= StartRow + n - 1
  {
    var pre := Preformatted(cells, styles, StartRow, maxRow);
    PreformattedSpec(cells, styles, StartRow, maxRow);
    assert forall i :: 0 <= i < |pre| ==> pre[i] in pre;
    LastAtLeast(pre, StartRow);
  }

  // ================================================================ extending the formatting

  /** The style of `p` once rows `last + 1 .. last + extra` have taken the styles of row `last`, columns 1..10. */
  function Extended(styles: map<Pos, Style>, last: int, extra: int, p: Pos): Option<Style> {
    if last < p.0 <= last + extra && 1 <= p.1 <= MaxColumns && (last, p.1) in styles
    then Some(styles[(last, p.1)])
    else StyleAt(styles, p)
  }

  /**
   * Every extended row carries, in each of columns 1..10, the style of the
   * last preformatted row wherever that one has a style; cells of other
   * rows and columns, and cells whose source has no style, keep theirs.
   */
  lemma ExtendedSpec(styles: map<Pos, Style>, last: int, extra: int)
    ensures forall r, c :: last < r <= last + extra && 1 <= c <= MaxColumns && (last, c) in styles ==>
      Extended(styles, last, extra, (r, c)) == StyleAt(styles, (last, c))
    ensures forall p: Pos :: !(last < p.0 <= last + extra && 1 <= p.1 <= MaxColumns) ==>
      Extended(styles, last, extra, p) == StyleAt(styles, p)
    ensures forall c :: Extended(styles, last, extra, (last, c)) == StyleAt(styles, (last, c))
  {
  }

  // ================================================================ writing the students

  /** The longest text openpyxl keeps in a cell. */
  const MaxTextLength: int := 32767

  /** A character openpyxl refuses in a cell: a C0 control other than tab, line feed and carriage return. */
  predicate IllegalChar(ch: char) {
    var n := ch as int;
    n <= 8 || n == 11 || n == 12 || 14 <= n <= 31
  }

  /** What a cell keeps of a value: openpyxl cuts text to its first 32767 characters. */
  function Stored(v: Cell): Cell {
    match v
    case Str(s) => if |s| > MaxTextLength then Str(s[..MaxTextLength]) else v
    case _ => v
  }

  /** A value openpyxl accepts: anything but text whose kept part holds an illegal character. */
  predicate Legal(v: Cell) {
    match Stored(v)
    case Str(s) => forall i :: 0 <= i < |s| ==> !IllegalChar(s[i])
    case _ => true
  }

  /**
   * Text is kept whole up to 32767 characters and cut to its first 32767
   * after that; numbers and `None` are kept as they are; cutting keeps
   * truthiness, and a value is checked on the part that is kept.
   */
  lemma StoredSpec(v: Cell)
    ensures v.Str? ==> Stored(v).Str? && Stored(v).s <= v.s && |Stored(v).s| <= MaxTextLength
    ensures v.Str? && |v.s| <= MaxTextLength ==> Stored(v) == v
    ensures v.Str? && |v.s| > MaxTextLength ==> |Stored(v).s| == MaxTextLength
    ensures !v.Str? ==> Stored(v) == v && Legal(v)
    ensures Truthy(Stored(v)) <==> Truthy(v)
    ensures Stored(Stored(v)) == Stored(v)
  {
  }

  /** Tabs and line breaks are accepted; a bell or an escape character is refused, even after other text. */
  lemma LegalExamples()
    ensures Legal(Str("a\tb\nc\r"))
    ensures !Legal(Str([7 as char])) && !Legal(Str("Dela Cruz" + [27 as char]))
  {
    var bad := "Dela Cruz" + [27 as char];
    assert Stored(Str(bad)) == Str(bad) && IllegalChar(bad[9]);
    var bell := [7 as char];
    assert Stored(Str(bell)) == Str(bell) && IllegalChar(bell[0]);
  }

  /** `ws.cell(row, col, value=v)` with a value openpyxl accepts: `None` leaves the cell, anything else is stored. */
  function Written(cells: map<Pos, Cell>, r: int, c: int, v: Cell): (w: map<Pos, Cell>)
    ensures forall p :: ValueAt(w, p) == if p == (r, c) && v != Blank then Stored(v) else ValueAt(cells, p)
  {
    if v == Blank then cells else cells[(r, c) := Stored(v)]
  }

  /** The value an entry gives column `c` (2..6). */
  function FieldOf(e: Entry, c: int): Cell {
    if c == 2 then e.lastName
    else if c == 3 then e.firstName
    else if c == 4 then e.middleName
    else if c == 5 then e.strand
    else if c == 6 then e.department
    else Blank
  }

  /** openpyxl accepts all five of an entry's values. */
  predicate EntryLegal(e: Entry) {
    Legal(e.lastName) && Legal(e.firstName) && Legal(e.middleName) && Legal(e.strand) && Legal(e.department)
  }

  /** Student `idx` (0-based) written on row `StartRow + idx`. */
  function PlaceRow(cells: map<Pos, Cell>, idx: int, e: Entry): map<Pos, Cell> {
    var r := StartRow + idx;
    Written(Written(Written(Written(Written(Written(cells, r, 1, Int(idx + 1)),
      r, 2, e.lastName), r, 3, e.firstName), r, 4, e.middleName), r, 5, e.strand), r, 6, e.department)
  }

  /** The cells after writing every entry. */
  function Placed(cells: map<Pos, Cell>, data: seq<Entry>): map<Pos, Cell> {
    if data == [] then cells
    else PlaceRow(Placed(cells, data[..|data| - 1]), |data| - 1, data[|data| - 1])
  }

  /** What a cell holds once the entries are written. */
  function PlacedValue(cells: map<Pos, Cell>, data: seq<Entry>, p: Pos): Cell {
    if StartRow <= p.0 < StartRow + |data| && p.1 == 1 then Int(p.0 - StartRow + 1)
    else if StartRow <= p.0 < StartRow + |data| && 2 <= p.1 <= 6 && FieldOf(data[p.0 - StartRow], p.1) != Blank
    then Stored(FieldOf(data[p.0 - StartRow], p.1))
    else ValueAt(cells, p)
  }

  /**
   * Row `StartRow + idx` holds the number `idx + 1` in column 1 and the
   * entry's five values in columns 2..6, text cut to 32767 characters,
   * except that a `None` value leaves the template's cell; every other cell
   * keeps its value.
   */
  lemma {:induction false} PlacedSpec(cells: map<Pos, Cell>, data: seq<Entry>)
    ensures forall p :: ValueAt(Placed(cells, data), p) == PlacedValue(cells, data, p)
  {
    if data != [] {
      var init := data[..|data| - 1];
      PlacedSpec(cells, init);
      forall p
        ensures ValueAt(Placed(cells, data), p) == PlacedValue(cells, data, p)
      {
        if StartRow <= p.0 < StartRow + |init| {
          assert data[p.0 - StartRow] == init[p.0 - StartRow];
        }
      }
    }
  }

  // ================================================================ column widths

  /** `len(str(n))` for a natural number. */
  function Digits(n: nat): (d: nat)
    ensures d >= 1
  {
    if n < 10 then 1 else 1 + Digits(n / 10)
  }

  /** `len(str(v))`; the `None` case is never measured, since only truthy values are. */
  function TextLength(c: Cell): nat {
    match c
    case Blank => 4
    case Str(s) => |s|
    case Int(n) => if n < 0 then 1 + Digits(-n) else Digits(n)
  }

  /** The longest text among the truthy values of column `col`, rows `lo .. hi - 1` (0 when there is none). */
  function MaxLength(cells: map<Pos, Cell>, col: int, lo: int, hi: int): nat
    decreases hi - lo
  {
    if hi <= lo then 0
    else
      var v := ValueAt(cells, (hi - 1, col));
      var m := MaxLength(cells, col, lo, hi - 1);
      if Truthy(v) && TextLength(v) > m then TextLength(v) else m
  }

  /** The width of column `col` after the loop: the longest text plus 2. */
  function ColumnWidth(cells: map<Pos, Cell>, col: int, n: int): int {
    MaxLength(cells, col, StartRow, StartRow + n) + 2
  }

  /** `MaxLength` is the maximum: no truthy value is longer, and when it is not 0 some truthy value has that length. */
  lemma {:induction false} MaxLengthSpec(cells: map<Pos, Cell>, col: int, lo: int, hi: int)
    ensures forall r :: lo <= r < hi && Truthy(ValueAt(cells, (r, col))) ==>
      TextLength(ValueAt(cells, (r, col))) <= MaxLength(cells, col, lo, hi)
    ensures MaxLength(cells, col, lo, hi) != 0 ==>
      exists r :: lo <= r < hi && Truthy(ValueAt(cells, (r, col))) &&
        TextLength(ValueAt(cells, (r, col))) == MaxLength(cells, col, lo, hi)
    decreases hi - lo
  {
    if lo < hi {
      MaxLengthSpec(cells, col, lo, hi - 1);
    }
  }

  lemma {:induction false} DigitsMonotone(a: nat, b: nat)
    requires a <= b
    ensures Digits(a) <= Digits(b)
  {
    if a >= 10 {
      DigitsMonotone(a / 10, b / 10);
    }
  }

  /** A column numbered 1..k from row 10 down is as wide as `k`'s decimal text. */
  lemma {:induction false} NumberedColumnLength(m: map<Pos, Cell>, k: nat)
    requires forall r :: StartRow <= r < StartRow + k ==> ValueAt(m, (r, 1)) == Int(r - StartRow + 1)
    ensures MaxLength(m, 1, StartRow, StartRow + k) == if k == 0 then 0 else Digits(k)
  {
    if k > 0 {
      NumberedColumnLength(m, k - 1);
      if k > 1 {
        DigitsMonotone(k - 1, k);
      }
    }
  }

  /** Once the entries are written, column 1 (the numbers 1..n) is as wide as `n`'s decimal text. */
  lemma NumberColumnLength(cells: map<Pos, Cell>, data: seq<Entry>)
    ensures MaxLength(Placed(cells, data), 1, StartRow, StartRow + |data|) == if data == [] then 0 else Digits(|data|)
  {
    var m := Placed(cells, data);
    PlacedSpec(cells, data);
    NumberedColumnLength(m, |data|);
  }

  // ================================================================ the route

  /** The uploaded file: its name and, when the stream is a readable workbook, the active sheet's rows from row 2 on. */
  datatype Upload = Upload(filename: string, rows: Option<seq<seq<Cell>>>)

  /** A JSON error with a status code; an exception caught by the route (status 500 with its text); or the filled file. */
  datatype Response = Json(status: nat, error: string) | Failed | Sent(downloadName: string)

  /** The template worksheet as loaded. */
  class Worksheet {
    var cells: map<Pos, Cell>
    var styles: map<Pos, Style>
    var widths: map<int, int>
    /** `ws_template.max_row` when the template is loaded. */
    const maxRow: int

    constructor (cells: map<Pos, Cell>, styles: map<Pos, Style>, widths: map<int, int>, maxRow: int)
      ensures this.cells == cells && this.styles == styles && this.widths == widths && this.maxRow == maxRow
    {
      this.cells := cells;
      this.styles := styles;
      this.widths := widths;
      this.maxRow := maxRow;
    }

    /** The formatting loop: rows `last + 1 .. last + extra` take row `last`'s styles, columns 1..10. */
    method ExtendFormatting(last: int, extra: int)
      modifies this
      ensures forall p :: StyleAt(styles, p) == Extended(old(styles), last, extra, p)
      ensures cells == old(cells) && widths == old(widths)
    {
      var i := 1;
      while i <= extra
        invariant 1 <= i <= if extra < 1 then 1 else extra + 1
        invariant cells == old(cells) && widths == old(widths)
        invariant forall p :: StyleAt(styles, p) == Extended(old(styles), last, i - 1, p)
      {
        var col := 1;
        while col <= MaxColumns
          invariant 1 <= col <= MaxColumns + 1
          invariant cells == old(cells) && widths == old(widths)
          invariant forall p ::
            StyleAt(styles, p) == (if p.0 == last + i && 1 <= p.1 < col then Extended(old(styles), last, i, p)
             else Extended(old(styles), last, i - 1, p))
        {
          assert StyleAt(styles, (last, col)) == StyleAt(old(styles), (last, col));
          if (last, col) in styles {
            styles := styles[(last + i, col) := styles[(last, col)]];
          }
          col := col + 1;
        }
        i := i + 1;
      }
    }

    /**
     * The loop writing the entries from row 10 on. A value openpyxl refuses
     * raises, which ends the loop with `failed`; otherwise every entry is
     * written.
     */
    method PlaceEntries(data: seq<Entry>) returns (failed: bool)
      modifies this
      ensures failed <==> exists j :: 0 <= j < |data| && !EntryLegal(data[j])
      ensures !failed ==> cells == Placed(old(cells), data)
      ensures styles == old(styles) && widths == old(widths)
    {
      for idx := 0 to |data|
        invariant cells == Placed(old(cells), data[..idx])
        invariant forall j :: 0 <= j < idx ==> EntryLegal(data[j])
        invariant styles == old(styles) && widths == old(widths)
      {
        assert data[..idx + 1][..idx] == data[..idx];
        var entry := data[idx];
        var row := StartRow + idx;
        if !EntryLegal(entry) {
          return true;
        }
        cells := Written(cells, row, 1, Int(idx + 1));
        cells := Written(cells, row, 2, entry.lastName);
        cells := Written(cells, row, 3, entry.firstName);
        cells := Written(cells, row, 4, entry.middleName);
        cells := Written(cells, row, 5, entry.strand);
        cells := Written(cells, row, 6, entry.department);
      }
      assert data[..|data|] == data;
      return false;
    }

    /** The width loop: columns 1..6 get the longest truthy text of rows `10 .. 10 + n - 1`, plus 2. */
    method AdjustWidths(n: nat)
      modifies this
      ensures forall c ::
        WidthAt(widths, c) == (if 1 <= c <= 6 then Some(ColumnWidth(cells, c, n)) else WidthAt(old(widths), c))
      ensures cells == old(cells) && styles == old(styles)
    {
      for col := 1 to 7
        invariant cells == old(cells) && styles == old(styles)
        invariant forall c ::
          WidthAt(widths, c) == (if 1 <= c < col then Some(ColumnWidth(cells, c, n)) else WidthAt(old(widths), c))
      {
        var maxLength := 0;
        for row := StartRow to StartRow + n
          invariant maxLength == MaxLength(cells, col, StartRow, row)
        {
          var v := ValueAt(cells, (row, col));
          if Truthy(v) {
            if TextLength(v) > maxLength {
              maxLength := TextLength(v);
            }
          }
        }
        widths := widths[col := maxLength + 2];
      }
    }
  }

  /** The response and, for a sent file, what the filled template holds. */
  ghost predicate Filled(ws: Worksheet, data: seq<Entry>, cells0: map<Pos, Cell>, styles0: map<Pos, Style>,
                   widths0: map<int, int>)
    reads ws
  {
    var pre := Preformatted(cells0, styles0, StartRow, ws.maxRow);
    var extra := |data| - |pre|;
    ws.cells == Placed(cells0, data)
    && (forall p :: StyleAt(ws.styles, p) ==
          if extra > 0 && pre != [] then Extended(styles0, pre[|pre| - 1], extra, p) else StyleAt(styles0, p))
    && (forall c :: WidthAt(ws.widths, c) ==
          if 1 <= c <= 6 then Some(ColumnWidth(ws.cells, c, |data|)) else WidthAt(widths0, c))
  }

  /**
   * `fill_template`: 400 without a file part or with an empty file name;
   * 500 (the exception's text) for an unreadable upload; 500 naming the path
   * when the template is missing; 500 (an index error) when students
   * outnumber preformatted rows and the template has none; 500 (openpyxl's
   * error) when a student's text holds a character a cell refuses; otherwise
   * the filled template, sent as `TESDA_Filled_Template.xlsx`.
   */
  method FillTemplate(file: Option<Upload>, templateFound: bool, templatePath: string, ws: Worksheet)
    returns (response: Response)
    modifies ws
    ensures file.None? ==> response == Json(400, "No file part in the request") && unchanged(ws)
    ensures file.Some? && file.value.filename == "" ==> response == Json(400, "No selected file") && unchanged(ws)
    ensures file.Some? && file.value.filename != "" && file.value.rows.None? ==> response == Failed && unchanged(ws)
    ensures file.Some? && file.value.filename != "" && file.value.rows.Some? && !templateFound ==>
      response == Json(500, "Template not found at " + templatePath) && unchanged(ws)
    ensures file.Some? && file.value.filename != "" && file.value.rows.Some? && templateFound ==>
      var data := Extracted(file.value.rows.value);
      var pre := Preformatted(old(ws.cells), old(ws.styles), StartRow, ws.maxRow);
      if |data| > |pre| && pre == [] then response == Failed && unchanged(ws)
      else if exists j :: 0 <= j < |data| && !EntryLegal(data[j]) then response == Failed
      else response == Sent(DownloadName) && Filled(ws, data, old(ws.cells), old(ws.styles), old(ws.widths))
  {
    if file.None? {
      return Json(400, "No file part in the request");
    }
    var upload := file.value;
    if upload.filename == "" {
      return Json(400, "No selected file");
    }
    if upload.rows.None? {
      return Failed;
    }
    var data := ExtractEntries(upload.rows.value);
    if !templateFound {
      return Json(500, "Template not found at " + templatePath);
    }
    var preformatted := Preformatted(ws.cells, ws.styles, StartRow, ws.maxRow);
    var templateRows := |preformatted|;
    var extraRowsNeeded := |data| - templateRows;
    if extraRowsNeeded > 0 {
      if templateRows == 0 {
        return Failed;
      }
      var lastTemplateRow := preformatted[templateRows - 1];
      ws.ExtendFormatting(lastTemplateRow, extraRowsNeeded);
    }
    var failed := ws.PlaceEntries(data);
    if failed {
      return Failed;
    }
    ws.AdjustWidths(|data|);
    response := Sent(DownloadName);
  }
}
