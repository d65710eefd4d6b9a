/** The import matrix (`create_matrix` in modules.py): a header row, then one
    row of values per record in header order, each serialized record followed
    by one placeholder serial-number row per unit of its quantity. */
module ImportMatrix {
  import opened Common
  import opened Records
  import opened ErrorLogs

  const MatrixCreationError: string := "matrix_creation_error"
  const MatrixSource: string := "modules.py:create_matrix"
  const SerialPrefix: string := "FAKE_SN_"

  /** The column names a record answers to: the import columns and `SnFlag`. */
  predicate IsColumn(h: string) {
    h in ImportHeaders || h == "SnFlag"
  }

  /** `row[header]` succeeds exactly on the record's columns. */
  lemma FieldDefined(r: CycleRecord, h: string)
    ensures Field(r, h).Some? <==> IsColumn(h)
  {
  }

  predicate AllColumns(headers: seq<string>) {
    forall c :: 0 <= c < |headers| ==> IsColumn(headers[c])
  }

  /** Row 0: the header names themselves. */
  function HeaderRow(headers: seq<string>): (row: Row)
    ensures |row| == |headers|
    ensures forall c :: 0 <= c < |row| ==> row[c] == Text(headers[c])
  {
    seq(|headers|, c requires 0 <= c < |headers| => Text(headers[c]))
  }

  /** A record's values, one per header, in header order. */
  function ValueRow(r: CycleRecord, headers: seq<string>): (row: Row)
    requires AllColumns(headers)
    ensures |row| == |headers|
    ensures forall c :: 0 <= c < |row| ==> Some(row[c]) == Field(r, headers[c])
  {
    seq(|headers|, c requires 0 <= c < |headers| => FieldDefined(r, headers[c]); Field(r, headers[c]).value)
  }

  /** The serial written into placeholder row `i` (counted from 1). */
  function PlaceholderSerial(part: string, i: nat): string {
    SerialPrefix + part + "-" + NatToDecimal(i)
  }

  /** Placeholder row `i`: its serial, then `width - 1` empty cells. */
  function PlaceholderRow(part: string, i: nat, width: nat): (row: Row)
    requires width >= 1
    ensures |row| == width && row[0] == Text(PlaceholderSerial(part, i))
    ensures forall c :: 1 <= c < width ==> row[c] == Text("")
  {
    [Text(PlaceholderSerial(part, i))] + seq(width - 1, _ => Text(""))
  }

  /** Placeholder rows `1..n` for one record. */
  function Placeholders(part: string, n: nat, width: nat): (rows: seq<Row>)
    requires width >= 1
    ensures |rows| == n
    ensures forall i :: 0 <= i < n ==> rows[i] == PlaceholderRow(part, i + 1, width)
  {
    if n == 0 then [] else Placeholders(part, n - 1, width) + [PlaceholderRow(part, n, width)]
  }

  /** Only a serialized record has its `Qty` passed through `int()`, so only
      there can an unreadable quantity raise. */
  predicate QtyReadable(r: CycleRecord) {
    r.snFlag == Serialized ==> PyIntOf(r.qty).Some?
  }

  predicate AllQtyReadable(data: seq<CycleRecord>) {
    forall j :: 0 <= j < |data| ==> QtyReadable(data[j])
  }

  /** How many placeholder rows a record gets: `int(Qty)` when it is
      serialized and that is positive (`range` of it is empty otherwise). */
  function PlaceholderCount(r: CycleRecord): nat {
    if r.snFlag != Serialized then 0
    else match PyIntOf(r.qty)
      case Some(n) => if n > 0 then n else 0
      case None => 0
  }

  /** The sum of `PlaceholderCount` over the records. */
  function SerialCount(data: seq<CycleRecord>): nat {
    if data == [] then 0 else SerialCount(data[..|data| - 1]) + PlaceholderCount(data[|data| - 1])
  }

  /** What one record appends: its value row, then its placeholder rows. */
  function RecordRows(r: CycleRecord, headers: seq<string>): (rows: seq<Row>)
    requires |headers| >= 1 && AllColumns(headers)
    ensures |rows| == 1 + PlaceholderCount(r)
  {
    [ValueRow(r, headers)] + Placeholders(r.partNumber, PlaceholderCount(r), |headers|)
  }

  /** The rows after the header row, record by record. */
  function Body(data: seq<CycleRecord>, headers: seq<string>): seq<Row>
    requires |headers| >= 1 && AllColumns(headers)
  {
    Concat(Chunks(data, headers))
  }

  /** Each record's rows, as one chunk per record. */
  function Chunks(data: seq<CycleRecord>, headers: seq<string>): (c: seq<seq<Row>>)
    requires |headers| >= 1 && AllColumns(headers)
    ensures |c| == |data|
    ensures forall j :: 0 <= j < |c| ==> c[j] == RecordRows(data[j], headers)
  {
    seq(|data|, j requires 0 <= j < |data| => RecordRows(data[j], headers))
  }

  /** The chunks joined end to end. */
  function Concat<T>(chunks: seq<seq<T>>): seq<T> {
    if |chunks| == 0 then [] else Concat(chunks[..|chunks| - 1]) + chunks[|chunks| - 1]
  }

  /** `create_matrix`: nothing for empty headers or data; nothing plus a
      logged `matrix_creation_error` when a header is not a record column or
      a serialized record's quantity is not a number; otherwise the header
      row followed by the body. */
  function CreateMatrix(headers: seq<string>, data: seq<CycleRecord>, log: ErrorLog, now: Time)
    : (r: (Option<Matrix>, ErrorLog))
    ensures headers == [] || data == [] ==> r == (None, log)
    ensures headers != [] && data != [] && (!AllColumns(headers) || !AllQtyReadable(data)) ==>
              && r.0 == None
              && Appended(log, r.1, MatrixCreationError)
    ensures r.0.Some? <==> headers != [] && data != [] && AllColumns(headers) && AllQtyReadable(data)
    ensures r.0.Some? ==> r.1 == log && |r.0.value| >= 1 && r.0.value[0] == HeaderRow(headers)
  {
    if headers == [] || data == [] then (None, log)
    else if !AllColumns(headers) then
      (None, LogSystemError(log, MatrixCreationError, "Failed to create matrix: missing column",
                            MatrixSource, now))
    else if !AllQtyReadable(data) then
      (None, LogSystemError(log, MatrixCreationError, "Failed to create matrix: invalid Qty",
                            MatrixSource, now))
    else (Some([HeaderRow(headers)] + Body(data, headers)), log)
  }

  // ---------------------------------------------------------------------
  // Shape of the matrix
  // ---------------------------------------------------------------------

  /** Chunk `k` sits, whole, right after everything in the chunks before
      it. */
  lemma {:induction false} ConcatSlice<T>(chunks: seq<seq<T>>, k: int)
    requires 0 <= k < |chunks|
    ensures var at := |Concat(chunks[..k])|;
            && at + |chunks[k]| <= |Concat(chunks)|
            && Concat(chunks)[at..at + |chunks[k]|] == chunks[k]
    decreases |chunks|
  {
    var n := |chunks| - 1;
    var init := chunks[..n];
    var a := Concat(init);
    assert Concat(chunks) == a + chunks[n];
    if k < n {
      ConcatSlice(init, k);
      assert init[..k] == chunks[..k];
      var at := |Concat(chunks[..k])|;
      assert (a + chunks[n])[at..at + |chunks[k]|] == a[at..at + |chunks[k]|];
    } else {
      assert chunks[..k] == init;
      assert (a + chunks[n])[|a|..|a| + |chunks[n]|] == chunks[n];
    }
  }

  /** Every element of the joined chunks comes from one chunk. */
  lemma {:induction false} ConcatFrom<T>(chunks: seq<seq<T>>, x: T)
    requires x in Concat(chunks)
    ensures exists k :: 0 <= k < |chunks| && x in chunks[k]
    decreases |chunks|
  {
    var n := |chunks| - 1;
    var init := chunks[..n];
    if x in Concat(init) {
      ConcatFrom(init, x);
      var k :| 0 <= k < |init| && x in init[k];
      assert chunks[k] == init[k];
    } else {
      assert x in chunks[n];
    }
  }

  /** Dropping the last record drops the last chunk. */
  lemma ChunksPrefix(data: seq<CycleRecord>, headers: seq<string>, k: int)
    requires |headers| >= 1 && AllColumns(headers)
    requires 0 <= k <= |data|
    ensures Chunks(data, headers)[..k] == Chunks(data[..k], headers)
  {
  }

  /** The body has one row per record plus one per placeholder. */
  lemma {:induction false} BodyLength(data: seq<CycleRecord>, headers: seq<string>)
    requires |headers| >= 1 && AllColumns(headers)
    ensures |Body(data, headers)| == |data| + SerialCount(data)
    decreases |data|
  {
    if data != [] {
      var n := |data| - 1;
      BodyLength(data[..n], headers);
      ChunksPrefix(data, headers, n);
    }
  }

  /** Every body row is as wide as the header row. */
  lemma BodyRectangular(data: seq<CycleRecord>, headers: seq<string>)
    requires |headers| >= 1 && AllColumns(headers)
    ensures forall j :: 0 <= j < |Body(data, headers)| ==> |Body(data, headers)[j]| == |headers|
  {
    var c := Chunks(data, headers);
    var b := Body(data, headers);
    forall j | 0 <= j < |b| ensures |b[j]| == |headers| {
      var row := b[j];
      assert row in Concat(c);
      ConcatFrom(c, row);
      var k :| 0 <= k < |c| && row in c[k];
      RecordRowsWidth(data[k], headers);
    }
  }

  /** A record's own rows: its value row, then placeholder rows `1..Qty`,
      all `|headers|` wide. */
  lemma RecordRowsContent(r: CycleRecord, headers: seq<string>)
    requires |headers| >= 1 && AllColumns(headers)
    ensures var rr := RecordRows(r, headers);
            && rr[0] == ValueRow(r, headers)
            && forall i :: 1 <= i <= PlaceholderCount(r) ==> rr[i] == PlaceholderRow(r.partNumber, i, |headers|)
  {
    var rr := RecordRows(r, headers);
    var ps := Placeholders(r.partNumber, PlaceholderCount(r), |headers|);
    assert rr == [ValueRow(r, headers)] + ps;
    forall i | 1 <= i <= PlaceholderCount(r) ensures rr[i] == PlaceholderRow(r.partNumber, i, |headers|) {
      assert rr[i] == ps[i - 1];
    }
  }

  lemma RecordRowsWidth(r: CycleRecord, headers: seq<string>)
    requires |headers| >= 1 && AllColumns(headers)
    ensures forall row :: row in RecordRows(r, headers) ==> |row| == |headers|
  {
    RecordRowsContent(r, headers);
    var rr := RecordRows(r, headers);
    forall row | row in rr ensures |row| == |headers| {
      var i :| 0 <= i < |rr| && rr[i] == row;
    }
  }

  /** Where record `k`'s rows sit in the body: right after the rows of the
      records before it. */
  lemma RecordRowsAt(data: seq<CycleRecord>, headers: seq<string>, k: int)
    requires |headers| >= 1 && AllColumns(headers)
    requires 0 <= k < |data|
    ensures var at := k + SerialCount(data[..k]);
            var rr := RecordRows(data[k], headers);
            && at + |rr| <= |Body(data, headers)|
            && Body(data, headers)[at..at + |rr|] == rr
  {
    ChunksPrefix(data, headers, k);
    BodyLength(data[..k], headers);
    ConcatSlice(Chunks(data, headers), k);
  }

  /** The matrix has `1 + |data| + SerialCount(data)` rows, all
      `|headers|` wide. */
  lemma MatrixShape(headers: seq<string>, data: seq<CycleRecord>, log: ErrorLog, now: Time)
    requires CreateMatrix(headers, data, log, now).0.Some?
    ensures var m := CreateMatrix(headers, data, log, now).0.value;
            && |m| == 1 + |data| + SerialCount(data)
            && forall k :: 0 <= k < |m| ==> |m[k]| == |headers|
  {
    BodyLength(data, headers);
    BodyRectangular(data, headers);
    var m := CreateMatrix(headers, data, log, now).0.value;
    forall k | 1 <= k < |m| ensures |m[k]| == |headers| {
      assert m[k] == Body(data, headers)[k - 1];
    }
  }

  /** Record `k`'s rows start at `1 + k + SerialCount(data[..k])`: its value
      row (its fields in header order), then its placeholder rows `1..Qty`. */
  lemma RecordPlacement(headers: seq<string>, data: seq<CycleRecord>, log: ErrorLog, now: Time, m: Matrix, k: int)
    requires CreateMatrix(headers, data, log, now).0 == Some(m)
    requires 0 <= k < |data|
    ensures var at := 1 + k + SerialCount(data[..k]);
            && at + |RecordRows(data[k], headers)| <= |m|
            && m[at..at + |RecordRows(data[k], headers)|] == RecordRows(data[k], headers)
  {
    MatrixBody(headers, data, log, now);
    BodyPlacement(data, headers, m, k);
  }

  /** The same placement for any header row followed by the body. */
  lemma BodyPlacement(data: seq<CycleRecord>, headers: seq<string>, m: Matrix, k: int)
    requires |headers| >= 1 && AllColumns(headers)
    requires m == [HeaderRow(headers)] + Body(data, headers)
    requires 0 <= k < |data|
    ensures var at := 1 + k + SerialCount(data[..k]);
            && at + |RecordRows(data[k], headers)| <= |m|
            && m[at..at + |RecordRows(data[k], headers)|] == RecordRows(data[k], headers)
  {
    var x := k + SerialCount(data[..k]);
    var rr := RecordRows(data[k], headers);
    RecordRowsAt(data, headers, k);
    SliceAfterHead(m, HeaderRow(headers), Body(data, headers), x, x + |rr|, rr);
  }

  /** A created matrix is the header row followed by the body. */
  lemma MatrixBody(headers: seq<string>, data: seq<CycleRecord>, log: ErrorLog, now: Time)
    requires CreateMatrix(headers, data, log, now).0.Some?
    ensures |headers| >= 1 && AllColumns(headers)
    ensures CreateMatrix(headers, data, log, now).0.value == [HeaderRow(headers)] + Body(data, headers)
  {
  }

  /** Slicing past a head element is slicing the tail. */
  lemma SliceAfterHead<T>(m: seq<T>, h: T, b: seq<T>, x: int, y: int, v: seq<T>)
    requires m == [h] + b
    requires 0 <= x <= y <= |b| && b[x..y] == v
    ensures 1 + y <= |m| && m[1 + x..1 + y] == v
  {
    assert m[1..] == b;
  }

  /** The placeholder serials of one record are pairwise distinct. */
  lemma PlaceholderSerialsDistinct(part: string, i: nat, j: nat)
    requires i != j
    ensures PlaceholderSerial(part, i) != PlaceholderSerial(part, j)
  {
    DecimalInjective(i, j);
    var a := PlaceholderSerial(part, i);
    var b := PlaceholderSerial(part, j);
    var pre := SerialPrefix + part + "-";
    assert a == pre + NatToDecimal(i) && b == pre + NatToDecimal(j);
    assert a[|pre|..] == NatToDecimal(i);
    assert b[|pre|..] == NatToDecimal(j);
  }

  /** `sn_created = len(matrix) - len(records) - 1` counts exactly the
      placeholder rows. */
  lemma SnCreatedCountsPlaceholders(headers: seq<string>, data: seq<CycleRecord>, log: ErrorLog, now: Time)
    requires CreateMatrix(headers, data, log, now).0.Some?
    ensures |CreateMatrix(headers, data, log, now).0.value| - |data| - 1 == SerialCount(data)
  {
    MatrixShape(headers, data, log, now);
  }
}
