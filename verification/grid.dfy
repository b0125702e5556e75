/**
 * The record loop: for every CSV record build its two cells (text and QR code,
 * in the configured order) and pack them into table rows of `columns` labels,
 * flushing a row whenever the 1-based record counter is a multiple of
 * `columns`, and the leftover cells as a short last row.
 */
module Grid {
  import opened Wrappers
  import opened Errors
  import opened Strings
  import opened Label

  /** A table cell; the rendered graphics are opaque, so a cell keeps what it shows. */
  datatype Cell = Text(html: string) | Qr(payload: string, side: int)

  /** The text block and the QR payload of one record. */
  datatype Content = Content(text: string, payload: string)

  /** A record's content: the payload is built first, then the text block. */
  function ContentOf(record: Record, csvType: string, fields: seq<string>): (r: Result<Content, Error>)
    ensures r.Success? <==> IdKey(csvType) in record && TextBlock(record, fields).Success?
    ensures IdKey(csvType) !in record ==> r == Failure(MissingKey(IdKey(csvType)))
    ensures IdKey(csvType) in record && TextBlock(record, fields).Failure? ==>
      r == Failure(TextBlock(record, fields).error)
    ensures r.Success? ==>
      r.value.payload == Payload(record, csvType).value && r.value.text == TextBlock(record, fields).value
  {
    match Payload(record, csvType)
    case Failure(e) => Failure(e)
    case Success(url) =>
      match TextBlock(record, fields)
      case Failure(e) => Failure(e)
      case Success(text) => Success(Content(text, url))
  }

  /** The contents of all records in order, or the error of the first record that fails. */
  function ContentsOf(records: seq<Record>, csvType: string, fields: seq<string>): Result<seq<Content>, Error>
  {
    if records == [] then Success([])
    else
      var last := |records| - 1;
      match ContentsOf(records[..last], csvType, fields)
      case Failure(e) => Failure(e)
      case Success(cs) =>
        match ContentOf(records[last], csvType, fields)
        case Failure(e) => Failure(e)
        case Success(c) => Success(cs + [c])
  }

  /**
   * On success there is one content per record, each the record's own; on
   * failure the error is that of the first record that fails.
   */
  lemma ContentsOfSpec(records: seq<Record>, csvType: string, fields: seq<string>)
    ensures var r := ContentsOf(records, csvType, fields);
      r.Success? ==> (|r.value| == |records| &&
        forall i :: 0 <= i < |records| ==> ContentOf(records[i], csvType, fields) == Success(r.value[i]))
    ensures var r := ContentsOf(records, csvType, fields);
      r.Failure? ==>
        exists i :: 0 <= i < |records| && ContentOf(records[i], csvType, fields) == Failure(r.error) &&
          forall j :: 0 <= j < i ==> ContentOf(records[j], csvType, fields).Success?
  {
    ContentsOfSuccess(records, csvType, fields);
    ContentsOfFailure(records, csvType, fields);
  }

  lemma {:induction false} ContentsOfSuccess(records: seq<Record>, csvType: string, fields: seq<string>)
    ensures var r := ContentsOf(records, csvType, fields);
      r.Success? ==> (|r.value| == |records| &&
        forall i :: 0 <= i < |records| ==> ContentOf(records[i], csvType, fields) == Success(r.value[i]))
  {
    if records != [] {
      var last := |records| - 1;
      var init := records[..last];
      ContentsOfSuccess(init, csvType, fields);
      var r := ContentsOf(records, csvType, fields);
      if r.Success? {
        var cs := ContentsOf(init, csvType, fields).value;
        assert forall j :: 0 <= j < last ==> init[j] == records[j] && r.value[j] == cs[j];
      }
    }
  }

  lemma {:induction false} ContentsOfFailure(records: seq<Record>, csvType: string, fields: seq<string>)
    ensures var r := ContentsOf(records, csvType, fields);
      r.Failure? ==>
        exists i :: 0 <= i < |records| && ContentOf(records[i], csvType, fields) == Failure(r.error) &&
          forall j :: 0 <= j < i ==> ContentOf(records[j], csvType, fields).Success?
  {
    if records != [] {
      var last := |records| - 1;
      var init := records[..last];
      ContentsOfFailure(init, csvType, fields);
      ContentsOfSuccess(init, csvType, fields);
      assert forall j :: 0 <= j < last ==> init[j] == records[j];
    }
  }

  lemma {:induction false} ContentsPrefixFailure(records: seq<Record>, csvType: string, fields: seq<string>, k: nat)
    requires k <= |records| && ContentsOf(records[..k], csvType, fields).Failure?
    ensures ContentsOf(records, csvType, fields) == ContentsOf(records[..k], csvType, fields)
    decreases |records| - k
  {
    if k < |records| {
      assert records[..k + 1][..k] == records[..k];
      ContentsPrefixFailure(records, csvType, fields, k + 1);
    } else {
      assert records[..k] == records;
    }
  }

  /** The two cells of one label: text then code, or code then text when swapped. */
  function Cells(c: Content, swap: bool, side: int): (r: seq<Cell>)
    ensures |r| == 2 && Text(c.text) in r && Qr(c.payload, side) in r
    ensures r[0].Qr? <==> swap
  {
    if swap then [Qr(c.payload, side), Text(c.text)] else [Text(c.text), Qr(c.payload, side)]
  }

  /** The cells of all labels, two per label, in record order. */
  function CellsOf(contents: seq<Content>, swap: bool, side: int): (r: seq<Cell>)
    ensures |r| == 2 * |contents|
  {
    if contents == [] then []
    else
      var last := |contents| - 1;
      CellsOf(contents[..last], swap, side) + Cells(contents[last], swap, side)
  }

  /** The i-th label's cells sit at positions 2i and 2i + 1. */
  lemma {:induction false} CellsOfAt(contents: seq<Content>, swap: bool, side: int, i: nat)
    requires i < |contents|
    ensures CellsOf(contents, swap, side)[2 * i] == Cells(contents[i], swap, side)[0]
    ensures CellsOf(contents, swap, side)[2 * i + 1] == Cells(contents[i], swap, side)[1]
  {
    var last := |contents| - 1;
    if i < last {
      CellsOfAt(contents[..last], swap, side, i);
    }
  }

  lemma CellsOfSnoc(contents: seq<Content>, c: Content, swap: bool, side: int)
    ensures CellsOf(contents + [c], swap, side) == CellsOf(contents, swap, side) + Cells(c, swap, side)
  {
    assert (contents + [c])[..|contents|] == contents;
  }

  /** Swapping the columns exchanges the two cells of every label and nothing else. */
  lemma SwapExchangesCells(contents: seq<Content>, side: int, i: nat)
    requires i < |contents|
    ensures CellsOf(contents, true, side)[2 * i] == CellsOf(contents, false, side)[2 * i + 1]
    ensures CellsOf(contents, true, side)[2 * i + 1] == CellsOf(contents, false, side)[2 * i]
  {
    CellsOfAt(contents, true, side, i);
    CellsOfAt(contents, false, side, i);
  }

  function Flatten<T>(rows: seq<seq<T>>): seq<T>
  {
    if rows == [] then [] else rows[0] + Flatten(rows[1..])
  }

  lemma {:induction false} FlattenAppend<T>(a: seq<seq<T>>, b: seq<seq<T>>)
    ensures Flatten(a + b) == Flatten(a) + Flatten(b)
  {
    if a == [] {
      assert a + b == b;
    } else {
      assert (a + b)[1..] == a[1..] + b;
      FlattenAppend(a[1..], b);
    }
  }

  /** Every row but the last holds m cells; the last holds between 1 and m. */
  predicate WellPacked<T>(rows: seq<seq<T>>, m: nat)
  {
    (forall j :: 0 <= j < |rows| - 1 ==> |rows[j]| == m) &&
    (rows != [] ==> 0 < |rows[|rows| - 1]| <= m)
  }

  /** Rows of m cells taken from the front, the remainder as a short last row. */
  function Chunks<T>(s: seq<T>, m: nat): (rows: seq<seq<T>>)
    requires m > 0
    ensures Flatten(rows) == s
    ensures WellPacked(rows, m)
    decreases |s|
  {
    if s == [] then []
    else if |s| <= m then [s]
    else [s[..m]] + Chunks(s[m..], m)
  }

  /** Chunks is the only well-packed way to cut a sequence into rows of m. */
  lemma {:induction false} ChunksUnique<T>(rows: seq<seq<T>>, m: nat)
    requires m > 0 && WellPacked(rows, m)
    ensures Chunks(Flatten(rows), m) == rows
  {
    if |rows| == 1 {
      assert Flatten(rows) == rows[0];
    } else if |rows| > 1 {
      var rest := rows[1..];
      assert WellPacked(rest, m);
      assert |rest[0]| > 0;
      assert Flatten(rest) != [];
      var s := Flatten(rows);
      assert s == rows[0] + Flatten(rest);
      assert s[..m] == rows[0];
      assert s[m..] == Flatten(rest);
      ChunksUnique(rest, m);
    }
  }

  /** The cells of well-packed rows: full rows of m, then the last row. */
  lemma {:induction false} FlattenLength<T>(rows: seq<seq<T>>, m: nat)
    requires rows != [] && WellPacked(rows, m)
    ensures |Flatten(rows)| == (|rows| - 1) * m + |rows[|rows| - 1]|
  {
    if |rows| > 1 {
      var rest := rows[1..];
      assert WellPacked(rest, m);
      FlattenLength(rest, m);
      assert Flatten(rows) == rows[0] + Flatten(rest);
      assert |rows[0]| == m && rest[|rest| - 1] == rows[|rows| - 1];
      MulStep(|rest| - 1, m);
    }
  }

  function Abs(c: int): nat { if c < 0 then -c else c }

  /** One more factor of m adds m. */
  lemma MulStep(a: int, m: int)
    ensures (a + 1) * m == a * m + m
  {
  }

  /** a rows of 2k cells hold the cells of a rows of k labels. */
  lemma TwoRows(a: int, k: int)
    ensures a * (2 * k) == 2 * (k * a)
  {
  }

  lemma {:induction false} MulGrows(d: nat, m: nat)
    requires d >= 1
    ensures d * m >= m
  {
    if d > 1 {
      MulGrows(d - 1, m);
      assert d * m == (d - 1) * m + m;
    }
  }

  /** Quotient and remainder are determined by a == q * m + r with 0 <= r < m. */
  lemma DivModUnique(a: int, m: int, q: int, r: int)
    requires m > 0 && a == q * m + r && 0 <= r < m
    ensures a / m == q && a % m == r
  {
    var q', r' := a / m, a % m;
    assert a == q' * m + r';
    assert (q - q') * m == r' - r;
    assert (q' - q) * m == r - r';
    if q > q' {
      MulGrows(q - q', m);
      assert false;
    } else if q < q' {
      MulGrows(q' - q, m);
      assert false;
    }
  }

  /** A zero remainder by c is a zero remainder by |c|, as in Python's `%`. */
  lemma ModAbs(a: int, c: int)
    requires c != 0
    ensures a % c == a % Abs(c)
  {
    if c < 0 {
      assert a == (a / c) * c + a % c;
      DivModUnique(a, Abs(c), -(a / c), a % c);
    }
  }

  /** After the t-th label of a row, `counter % columns == 0` exactly when the row is full. */
  lemma FlushStep(q: nat, t: int, columns: int)
    requires columns != 0 && 1 <= t <= Abs(columns)
    ensures (Abs(columns) * q + t) % columns == 0 <==> t == Abs(columns)
  {
    var k := Abs(columns);
    ModAbs(k * q + t, columns);
    if t == k {
      DivModUnique(k * q + t, k, q + 1, 0);
    } else {
      DivModUnique(k * q + t, k, q, t);
    }
  }

  /**
   * The table the record loop produces: the records' cells in rows of
   * 2 * |columns| cells. `counter % columns` with zero columns raises once the
   * first record's label is built; no records give no rows.
   */
  function Packed(records: seq<Record>, csvType: string, fields: seq<string>, swap: bool, columns: int, side: int)
    : Result<seq<seq<Cell>>, Error>
  {
    if records == [] then Success([])
    else if columns == 0 then
      match ContentOf(records[0], csvType, fields)
      case Failure(e) => Failure(e)
      case Success(_) => Failure(ZeroDivision)
    else
      match ContentsOf(records, csvType, fields)
      case Failure(e) => Failure(e)
      case Success(contents) => Success(Chunks(CellsOf(contents, swap, side), 2 * Abs(columns)))
  }

  /**
   * The packing state after i records: the flushed rows and the pending queue
   * together hold the cells so far, flushed rows are full, the queue is short.
   */
  predicate PackState(data: seq<seq<Cell>>, queue: seq<Cell>, cells: seq<Cell>, columns: int, i: int)
  {
    Flatten(data) + queue == cells &&
    (forall j :: 0 <= j < |data| ==> |data[j]| == 2 * Abs(columns)) &&
    |queue| < 2 * Abs(columns) && |queue| % 2 == 0 &&
    |cells| == 2 * i
  }

  /** Rows of m cells each hold |rows| * m cells. */
  lemma {:induction false} FlattenFullRows<T>(rows: seq<seq<T>>, m: nat)
    requires forall j :: 0 <= j < |rows| ==> |rows[j]| == m
    ensures |Flatten(rows)| == |rows| * m
  {
    if rows != [] {
      FlattenFullRows(rows[1..], m);
      MulStep(|rows| - 1, m);
    }
  }

  /** One more label's two cells: the row is flushed exactly when the counter is a multiple of columns. */
  lemma PackStep(data: seq<seq<Cell>>, queue: seq<Cell>, cells: seq<Cell>, columns: int, i: int, two: seq<Cell>)
    requires columns != 0 && |two| == 2
    requires PackState(data, queue, cells, columns, i)
    ensures var full := |queue + two| == 2 * Abs(columns);
      ((i + 1) % columns == 0 <==> full) &&
      (full ==> PackState(data + [queue + two], [], cells + two, columns, i + 1)) &&
      (!full ==> PackState(data, queue + two, cells + two, columns, i + 1))
  {
    var k := Abs(columns);
    var q := queue + two;
    FlattenFullRows(data, 2 * k);
    TwoRows(|data|, k);
    assert i == k * |data| + |queue| / 2;
    FlushStep(|data|, |q| / 2, columns);
    if |q| == 2 * k {
      FlattenAppend(data, [q]);
      assert Flatten([q]) == q;
    }
  }

  /** The record loop of the script, with its `counter` and `tmpqueue`. */
  method PackLabels(records: seq<Record>, csvType: string, fields: seq<string>, swap: bool, columns: int, side: int)
    returns (r: Result<seq<seq<Cell>>, Error>)
    ensures r == Packed(records, csvType, fields, swap, columns, side)
  {
    var data: seq<seq<Cell>> := [];
    var tmpqueue: seq<Cell> := [];
    var counter := 1;
    var i := 0;
    ghost var contents: seq<Content> := [];
    while i < |records|
      invariant 0 <= i <= |records| && counter == i + 1
      invariant ContentsOf(records[..i], csvType, fields) == Success(contents)
      invariant columns == 0 ==> i == 0 && data == [] && tmpqueue == [] && contents == []
      invariant columns != 0 ==> PackState(data, tmpqueue, CellsOf(contents, swap, side), columns, i)
    {
      var record := records[i];
      var url := Payload(record, csvType);
      if url.Failure? {
        PackedFailure(records, csvType, fields, swap, columns, side, i, contents);
        return Failure(url.error);
      }
      var text := BuildText(record, fields);
      if text.Failure? {
        PackedFailure(records, csvType, fields, swap, columns, side, i, contents);
        return Failure(text.error);
      }
      var qrhtml := Text(text.value);
      var qrimage := Qr(url.value, side);
      ghost var before := tmpqueue;
      tmpqueue := tmpqueue + (if swap then [qrimage, qrhtml] else [qrhtml, qrimage]);
      ghost var c := Content(text.value, url.value);
      assert ContentOf(record, csvType, fields) == Success(c);
      assert tmpqueue == before + Cells(c, swap, side);
      if columns == 0 {
        ZeroColumns(records, csvType, fields, swap, columns, side, c);
        return Failure(ZeroDivision);
      }
      LabelStep(records, csvType, fields, swap, columns, side, i, contents, c, data, before);
      contents := contents + [c];
      if counter % columns == 0 {
        data := data + [tmpqueue];
        tmpqueue := [];
      }
      counter := counter + 1;
      i := i + 1;
    }
    PackedSuccess(records, csvType, fields, swap, columns, side, contents, data, tmpqueue);
    if tmpqueue != [] {
      data := data + [tmpqueue];
    }
    r := Success(data);
  }

  /** One more record whose content is built: the contents and the cells grow by it. */
  lemma ContentsStep(records: seq<Record>, csvType: string, fields: seq<string>, i: nat,
                     contents: seq<Content>, c: Content, swap: bool, side: int)
    requires i < |records|
    requires ContentsOf(records[..i], csvType, fields) == Success(contents)
    requires ContentOf(records[i], csvType, fields) == Success(c)
    ensures ContentsOf(records[..i + 1], csvType, fields) == Success(contents + [c])
    ensures CellsOf(contents + [c], swap, side) == CellsOf(contents, swap, side) + Cells(c, swap, side)
  {
    assert records[..i + 1][..i] == records[..i];
    CellsOfSnoc(contents, c, swap, side);
  }

  /** One iteration of the record loop: the contents grow by one and the packing state is kept. */
  lemma LabelStep(records: seq<Record>, csvType: string, fields: seq<string>, swap: bool, columns: int, side: int,
                  i: nat, contents: seq<Content>, c: Content, data: seq<seq<Cell>>, queue: seq<Cell>)
    requires i < |records| && columns != 0
    requires ContentsOf(records[..i], csvType, fields) == Success(contents)
    requires ContentOf(records[i], csvType, fields) == Success(c)
    requires PackState(data, queue, CellsOf(contents, swap, side), columns, i)
    ensures ContentsOf(records[..i + 1], csvType, fields) == Success(contents + [c])
    ensures var q := queue + Cells(c, swap, side);
      var cells := CellsOf(contents + [c], swap, side);
      ((i + 1) % columns == 0 ==> PackState(data + [q], [], cells, columns, i + 1)) &&
      ((i + 1) % columns != 0 ==> PackState(data, q, cells, columns, i + 1))
  {
    ContentsStep(records, csvType, fields, i, contents, c, swap, side);
    PackStep(data, queue, CellsOf(contents, swap, side), columns, i, Cells(c, swap, side));
  }

  /** With zero columns the first label is built and then the modulo by zero raises. */
  lemma ZeroColumns(records: seq<Record>, csvType: string, fields: seq<string>, swap: bool, columns: int, side: int,
                    c: Content)
    requires columns == 0 && records != [] && ContentOf(records[0], csvType, fields) == Success(c)
    ensures Packed(records, csvType, fields, swap, columns, side) == Failure(ZeroDivision)
  {
  }

  /** A record whose content fails ends the loop with that record's error. */
  lemma PackedFailure(records: seq<Record>, csvType: string, fields: seq<string>, swap: bool, columns: int, side: int,
                      i: nat, contents: seq<Content>)
    requires i < |records| && (columns == 0 ==> i == 0)
    requires ContentsOf(records[..i], csvType, fields) == Success(contents)
    requires ContentOf(records[i], csvType, fields).Failure?
    ensures Packed(records, csvType, fields, swap, columns, side) == Failure(ContentOf(records[i], csvType, fields).error)
  {
    assert records[..i + 1][..i] == records[..i];
    ContentsPrefixFailure(records, csvType, fields, i + 1);
  }

  /** The final flush of a non-empty queue leaves exactly the chunks of all cells. */
  lemma PackFinish(data: seq<seq<Cell>>, queue: seq<Cell>, cells: seq<Cell>, columns: int, i: int)
    requires columns != 0 && PackState(data, queue, cells, columns, i)
    ensures Chunks(cells, 2 * Abs(columns)) == if queue != [] then data + [queue] else data
  {
    var k := Abs(columns);
    var rows := if queue != [] then data + [queue] else data;
    if queue != [] {
      FlattenAppend(data, [queue]);
      assert Flatten([queue]) == queue;
    } else {
      assert Flatten(data) == cells;
    }
    assert Flatten(rows) == cells;
    assert WellPacked(rows, 2 * k);
    ChunksUnique(rows, 2 * k);
  }

  /** Once every record is in, the rows plus the final flush are the packed table. */
  lemma PackedSuccess(records: seq<Record>, csvType: string, fields: seq<string>, swap: bool, columns: int, side: int,
                      contents: seq<Content>, data: seq<seq<Cell>>, queue: seq<Cell>)
    requires ContentsOf(records[..|records|], csvType, fields) == Success(contents)
    requires columns == 0 ==> records == [] && data == [] && queue == []
    requires columns != 0 ==> PackState(data, queue, CellsOf(contents, swap, side), columns, |records|)
    ensures Packed(records, csvType, fields, swap, columns, side) ==
      Success(if queue != [] then data + [queue] else data)
  {
    assert records[..|records|] == records;
    if columns != 0 {
      PackFinish(data, queue, CellsOf(contents, swap, side), columns, |records|);
      if records == [] {
        assert Chunks(CellsOf(contents, swap, side), 2 * Abs(columns)) == [];
      }
    }
  }

  /** A packed table holds two cells per record, in rows of 2|c|. */
  lemma PackedCells(records: seq<Record>, csvType: string, fields: seq<string>, swap: bool, columns: int, side: int)
    requires records != []
    requires Packed(records, csvType, fields, swap, columns, side).Success?
    ensures var rows := Packed(records, csvType, fields, swap, columns, side).value;
      columns != 0 && |Flatten(rows)| == 2 * |records| && WellPacked(rows, 2 * Abs(columns))
  {
    ContentsOfSpec(records, csvType, fields);
  }

  /**
   * Shape of the packed table for n > 0 records and c columns: every row but
   * the last holds 2|c| cells, the last is not empty, there are ceil(n/|c|)
   * rows, and the last row is full exactly when |c| divides n.
   */
  lemma PackedShape(records: seq<Record>, csvType: string, fields: seq<string>, swap: bool, columns: int, side: int)
    requires records != []
    requires Packed(records, csvType, fields, swap, columns, side).Success?
    ensures var rows := Packed(records, csvType, fields, swap, columns, side).value;
      var n, k := |records|, Abs(columns);
      k > 0 && rows != [] &&
      (forall j :: 0 <= j < |rows| - 1 ==> |rows[j]| == 2 * k) &&
      0 < |rows[|rows| - 1]| <= 2 * k &&
      (|rows| - 1) * k < n <= |rows| * k &&
      |rows| == (n + k - 1) / k &&
      (|rows[|rows| - 1]| == 2 * k <==> n % k == 0)
  {
    var rows := Packed(records, csvType, fields, swap, columns, side).value;
    var k := Abs(columns);
    PackedCells(records, csvType, fields, swap, columns, side);
    FlattenLength(rows, 2 * k);
    RowCount(|records|, k, |rows|, |rows[|rows| - 1]|);
  }

  /** The arithmetic behind PackedShape: 2n cells in rows of 2k, the last holding `last`. */
  lemma RowCount(n: int, k: int, rows: int, last: int)
    requires k > 0 && n > 0 && rows >= 1 && 0 < last <= 2 * k
    requires 2 * n == (rows - 1) * (2 * k) + last
    ensures (rows - 1) * k < n <= rows * k
    ensures rows == (n + k - 1) / k
    ensures last == 2 * k <==> n % k == 0
  {
    assert (rows - 1) * (2 * k) == 2 * ((rows - 1) * k);
    assert rows * k == (rows - 1) * k + k;
    var half := n - (rows - 1) * k;
    assert last == 2 * half;
    DivModUnique(n + k - 1, k, rows, half - 1);
    if last == 2 * k {
      DivModUnique(n, k, rows, 0);
    } else {
      DivModUnique(n, k, rows - 1, half);
    }
  }

  /**
   * Reading the packed table row by row gives every record's two cells in
   * record order: text then code, or code then text when swapped.
   */
  lemma PackedOrder(records: seq<Record>, csvType: string, fields: seq<string>, swap: bool, columns: int, side: int, i: nat)
    requires i < |records|
    requires Packed(records, csvType, fields, swap, columns, side).Success?
    ensures ContentOf(records[i], csvType, fields).Success?
    ensures var cells := Flatten(Packed(records, csvType, fields, swap, columns, side).value);
      var c := ContentOf(records[i], csvType, fields).value;
      |cells| == 2 * |records| &&
      cells[2 * i] == (if swap then Qr(c.payload, side) else Text(c.text)) &&
      cells[2 * i + 1] == (if swap then Text(c.text) else Qr(c.payload, side))
  {
    ContentsOfSpec(records, csvType, fields);
    var contents := ContentsOf(records, csvType, fields).value;
    CellsOfAt(contents, swap, side, i);
  }

  /** Seven labels in three columns: rows of three, three and one label (two cells each). */
  lemma SevenInThree(records: seq<Record>, csvType: string, fields: seq<string>, swap: bool, side: int)
    requires |records| == 7 && Packed(records, csvType, fields, swap, 3, side).Success?
    ensures var rows := Packed(records, csvType, fields, swap, 3, side).value;
      |rows| == 3 && |rows[0]| == 6 && |rows[1]| == 6 && |rows[2]| == 2
  {
    var rows := Packed(records, csvType, fields, swap, 3, side).value;
    PackedShape(records, csvType, fields, swap, 3, side);
    PackedOrder(records, csvType, fields, swap, 3, side, 0);
    FlattenLength(rows, 6);
  }

  /** Eight labels in four columns: exactly two full rows, no short trailing row. */
  lemma EightInFour(records: seq<Record>, csvType: string, fields: seq<string>, swap: bool, side: int)
    requires |records| == 8 && Packed(records, csvType, fields, swap, 4, side).Success?
    ensures var rows := Packed(records, csvType, fields, swap, 4, side).value;
      |rows| == 2 && |rows[0]| == 8 && |rows[1]| == 8
  {
    PackedShape(records, csvType, fields, swap, 4, side);
  }
}
