/** The rows the reconciliation engine works on: one ERP inventory row per
    part (the columns of the QOH and cycle-out queries, which are also the
    columns of the cycle-count import), and the cells of an import matrix. */
module Records {
  import opened Common

  /** The `SnFlag` column as the engine reads it: `== 1` (or `True`) is
      serialized, `== 0` (or `False`) is bulk, anything else (a null from
      the query) matches neither test. */
  datatype SnFlag = Serialized | NonSerialized | Unflagged

  /** One ERP inventory row. `partNumber == ""` stands for both an empty and
      a null part number: the engine only tests it for truthiness. */
  datatype CycleRecord = CycleRecord(
    partNumber: string,
    snFlag: SnFlag,
    location: string,
    qty: ErpNumber,
    note: string,
    lotNumber: string,
    revisionLevel: string,
    expirationDate: string)

  /** One cell of an import matrix: the engine copies row values verbatim,
      so a quantity cell holds the number exactly as the ERP returned it. */
  datatype Cell = Text(text: string) | Number(number: ErpNumber) | Flag(flag: SnFlag)

  type Row = seq<Cell>
  type Matrix = seq<Row>

  /** The column list both sync paths hand to the matrix builder. */
  const ImportHeaders: seq<string> := [
    "PartNumber", "Location", "Qty", "Note",
    "Tracking-Lot Number", "Tracking-Revision Level", "Tracking-Expiration Date"]

  /** `row[header]`: the value under a column name, or None for a column the
      row does not carry (Python's KeyError). */
  function Field(r: CycleRecord, header: string): (v: Option<Cell>)
    ensures header in ImportHeaders ==> v.Some?
    ensures header == "PartNumber" ==> v == Some(Text(r.partNumber))
    ensures header == "Qty" ==> v == Some(Number(r.qty))
  {
    if header == "PartNumber" then Some(Text(r.partNumber))
    else if header == "SnFlag" then Some(Flag(r.snFlag))
    else if header == "Location" then Some(Text(r.location))
    else if header == "Qty" then Some(Number(r.qty))
    else if header == "Note" then Some(Text(r.note))
    else if header == "Tracking-Lot Number" then Some(Text(r.lotNumber))
    else if header == "Tracking-Revision Level" then Some(Text(r.revisionLevel))
    else if header == "Tracking-Expiration Date" then Some(Text(r.expirationDate))
    else None
  }

  /** The part numbers of a row list, ignoring empty ones. */
  function PartSet(rs: seq<CycleRecord>): (ps: set<string>)
    ensures forall i :: 0 <= i < |rs| && rs[i].partNumber != "" ==> rs[i].partNumber in ps
    ensures forall p :: p in ps ==> p != "" && exists i :: 0 <= i < |rs| && rs[i].partNumber == p
  {
    set i | 0 <= i < |rs| && rs[i].partNumber != "" :: rs[i].partNumber
  }

  /** Why an ERP call produced no result: a non-OK reply or failed login
      (`CallFailure`), or any other exception on the way. */
  datatype ErpFault = CallFailure(reason: string) | ErpError(reason: string)

  /** What a logged-in query returns: the fault, or the `data` rows (an empty
      list also stands for a null `data`). */
  datatype QueryReply<T> = QueryFailed(fault: ErpFault) | QueryRows(rows: seq<T>)

  /** True when the reply carries at least one row (the truthiness test the
      engine applies to `result.get('data')`). */
  predicate HasRows<T>(reply: QueryReply<T>) {
    reply.QueryRows? && |reply.rows| > 0
  }
}
