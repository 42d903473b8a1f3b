/** The bulk import of art records from a spreadsheet: the records, the column
    check, the per-row validation and the row-by-row merge into the custom codes,
    given as functions; `Catalogue.Store.BulkUpload` is proved to compute them. */
module BulkImport {
  import opened Validation
  import opened Messages

  datatype Option<T> = None | Some(value: T)

  /** One spreadsheet row: column name to the cell's text. */
  type Row = map<string, string>

  datatype Dimensions = Dimensions(length: string, width: string, sizeCategory: string)

  datatype Details = Details(media: string, year: string, series: string,
                             secondarySeries: string, dimensions: Dimensions)

  /** A custom record: image url and art details. */
  datatype Record = Record(url: string, details: Details)

  /** What the import reports: either the column check failed and nothing was
      read, or every row was processed. */
  datatype Report =
    | SchemaError
    | Completed(added: nat, skipped: nat, messages: seq<Message>)

  /** The state of the import after some rows: the custom codes so far, the two
      counters and the messages in row order. */
  datatype Batch = Batch(store: map<string, Record>, added: nat, skipped: nat,
                         messages: seq<Message>)

  const RequiredColumns: set<string> :=
    {"code", "url", "media", "year", "series", "length", "width", "size_category"}

  /** A spreadsheet read as a data frame: every row has exactly its columns. */
  predicate IsFrame(columns: set<string>, rows: seq<Row>) {
    forall i :: 0 <= i < |rows| ==> rows[i].Keys == columns
  }

  /** The text of a cell, "" when the sheet has no such column. Once the
      column check has passed, every required column is present, so this is
      `row[column]` for those and `row.get(column, '')` for the optional
      secondary series. */
  function Cell(row: Row, column: string): string {
    if column in row then row[column] else ""
  }

  /** Every key of the custom codes is an 11-digit code. */
  predicate ValidStore(store: map<string, Record>) {
    forall k :: k in store ==> ValidCode(k)
  }

  /** `store` keeps every entry of `prior` with its value. */
  predicate Extends(prior: map<string, Record>, store: map<string, Record>) {
    forall k :: k in prior ==> k in store && store[k] == prior[k]
  }

  function CodeOf(row: Row): string {
    Strip(Cell(row, "code"))
  }

  /** The first check the row fails, in the order code, url, year; `None`
      when it passes all three. */
  function Validate(row: Row): Option<Problem> {
    if !ValidCode(CodeOf(row)) then Some(InvalidCode)
    else if Strip(Cell(row, "url")) == "" then Some(MissingUrl)
    else if !ValidYear(Strip(Cell(row, "year"))) then Some(BadYear)
    else None
  }

  /** The columns a record is read from, in the order of its fields. */
  const RecordColumns: seq<string> :=
    ["url", "media", "year", "series", "secondary_series", "length", "width", "size_category"]

  /** The stripped text of each of `columns` in `row`, in order. */
  function StrippedCells(row: Row, columns: seq<string>): (r: seq<string>)
    ensures |r| == |columns|
  {
    if columns == [] then [] else [Strip(Cell(row, columns[0]))] + StrippedCells(row, columns[1..])
  }

  lemma {:induction false} StrippedCellsAt(row: Row, columns: seq<string>)
    ensures forall i :: 0 <= i < |columns| ==>
              StrippedCells(row, columns)[i] == Strip(Cell(row, columns[i]))
  {
    if columns != [] {
      StrippedCellsAt(row, columns[1..]);
    }
  }

  /** The record a row becomes: its url and details, every cell stripped. */
  function BuildRecord(row: Row): Record {
    var v := StrippedCells(row, RecordColumns);
    Record(v[0], Details(v[1], v[2], v[3], v[4], Dimensions(v[5], v[6], v[7])))
  }

  /** A skipped row: one more skipped and its message, for spreadsheet row
      `idx + 2`. */
  function Skip(b: Batch, idx: nat, p: Problem): Batch {
    b.(skipped := b.skipped + 1, messages := b.messages + [Message(idx + 2, p)])
  }

  /** An added row: its record stored under its code, one more added. */
  function Insert(b: Batch, code: string, r: Record): Batch {
    b.(store := b.store[code := r], added := b.added + 1)
  }

  /** Whether a row is added to the custom codes `store` (`None`) or skipped,
      and why: the three checks first, then an existing code. */
  function Outcome(store: map<string, Record>, row: Row): Option<Problem>
  {
    match Validate(row)
    case Some(p) => Some(p)
    case None => if CodeOf(row) in store then Some(CodeExists) else None
  }

  /** Processing the row at data index `idx` (spreadsheet row `idx + 2`). */
  function Step(b: Batch, row: Row, idx: nat): Batch
  {
    match Outcome(b.store, row)
    case Some(p) => Skip(b, idx, p)
    case None => Insert(b, CodeOf(row), BuildRecord(row))
  }

  /** The import loop after its first `n` rows, in order, starting from the
      custom codes `store`. */
  function Run(store: map<string, Record>, rows: seq<Row>, n: nat): Batch
    requires n <= |rows|
  {
    if n == 0 then Batch(store, 0, 0, [])
    else Step(Run(store, rows, n - 1), rows[n - 1], n - 1)
  }

  /** The import loop over all of `rows`. */
  function RunRows(store: map<string, Record>, rows: seq<Row>): Batch {
    Run(store, rows, |rows|)
  }

  /** What happens to row `i` of the sheet: `None` when it is added, otherwise
      the problem its message reports. */
  function Fate(store: map<string, Record>, rows: seq<Row>, i: nat): Option<Problem>
    requires i < |rows|
  {
    Outcome(Run(store, rows, i).store, rows[i])
  }

  /** A row passes the three checks and its code was not a custom code before
      the import. */
  predicate IsNewCode(store: map<string, Record>, row: Row)
  {
    Validate(row).None? && CodeOf(row) !in store
  }

  /** The distinct codes of the valid rows among the first `n` that were not
      custom codes before the import, regardless of order or repetition. */
  function NewCodes(store: map<string, Record>, rows: seq<Row>, n: nat): set<string>
    requires n <= |rows|
  {
    set i | 0 <= i < n && IsNewCode(store, rows[i]) :: CodeOf(rows[i])
  }
}
