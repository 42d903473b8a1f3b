/** The custom codes the catalogue keeps in memory, and the bulk upload that
    merges a spreadsheet into them and saves them once. */
module Catalogue {
  import opened Validation
  import opened Messages
  import opened BulkImport
  import opened ImportProperties

  /** The whole upload as a function of the custom codes before it: the column
      check, then every row; the report and the custom codes it leaves. */
  function Import(store: map<string, Record>, columns: set<string>, rows: seq<Row>)
    : (r: (Report, map<string, Record>))
    ensures r.0.SchemaError? <==> !(RequiredColumns <= columns)
    ensures r.0.SchemaError? ==> r.1 == store
    ensures r.0.Completed? ==>
              && r.0.added + r.0.skipped == |rows|
              && |r.0.messages| == r.0.skipped
              && Extends(store, r.1)
              && r.1.Keys == store.Keys + NewCodes(store, rows, |rows|)
              && r.0.added == |NewCodes(store, rows, |rows|)|
  {
    if !(RequiredColumns <= columns) then (SchemaError, store)
    else
      RunAccounting(store, rows, |rows|);
      RunExtends(store, rows, |rows|);
      RunKeys(store, rows, |rows|);
      AddedCountsNewCodes(store, rows);
      var b := RunRows(store, rows);
      (Completed(b.added, b.skipped, b.messages), b.store)
  }

  /** One row of a sheet that passed the column check, read the way the
      upload reads it: cells by direct lookup, the checks in order. */
  lemma StepOfFrameRow(b: Batch, row: Row, idx: nat)
    requires RequiredColumns <= row.Keys
    ensures Step(b, row, idx) ==
              var code := Strip(row["code"]);
              if !ValidCode(code) then Skip(b, idx, InvalidCode)
              else if Strip(row["url"]) == "" then Skip(b, idx, MissingUrl)
              else if !ValidYear(Strip(row["year"])) then Skip(b, idx, BadYear)
              else if code in b.store then Skip(b, idx, CodeExists)
              else Insert(b, code, Record(Strip(row["url"]), Details(
                     Strip(row["media"]), Strip(row["year"]), Strip(row["series"]),
                     Strip(if "secondary_series" in row then row["secondary_series"] else ""),
                     Dimensions(Strip(row["length"]), Strip(row["width"]),
                                Strip(row["size_category"])))))
  {
    BuildRecordFields(row);
  }

  class Store {
    /** The user-defined records, code to record. */
    var customCodes: map<string, Record>
    /** The mappings handed to the persistence layer, one per save, in order. */
    ghost var saved: seq<map<string, Record>>

    /** A store holding the records loaded at start-up; nothing saved yet. */
    constructor (loaded: map<string, Record>)
      ensures customCodes == loaded && saved == []
    {
      customCodes := loaded;
      saved := [];
    }

    /** Bulk upload of a spreadsheet read as `columns` and `rows`. A sheet that
        lacks a required column is rejected whole: nothing changes and nothing
        is saved. Otherwise every row is checked and merged in order, and the
        custom codes are saved exactly once, after the last row. */
    method BulkUpload(columns: set<string>, rows: seq<Row>) returns (report: Report)
      requires IsFrame(columns, rows)
      modifies this
      ensures (report, customCodes) == Import(old(customCodes), columns, rows)
      ensures report.SchemaError? ==> saved == old(saved)
      ensures report.Completed? ==> saved == old(saved) + [customCodes]
    {
      if !(RequiredColumns <= columns) {
        report := SchemaError;
        return;
      }
      var added: nat, skipped: nat := 0, 0;
      var messages: seq<Message> := [];
      for idx := 0 to |rows|
        invariant Run(old(customCodes), rows, idx) == Batch(customCodes, added, skipped, messages)
        invariant saved == old(saved)
      {
        var row := rows[idx];
        StepOfFrameRow(Batch(customCodes, added, skipped, messages), row, idx);
        var codeVal := Strip(row["code"]);
        var urlVal := Strip(row["url"]);
        var rowNumber := idx + 2;  // the header is spreadsheet row 1
        if !ValidCode(codeVal) {
          messages := messages + [Message(rowNumber, InvalidCode)];
          skipped := skipped + 1;
          continue;
        }
        if urlVal == "" {
          messages := messages + [Message(rowNumber, MissingUrl)];
          skipped := skipped + 1;
          continue;
        }
        if !ValidYear(Strip(row["year"])) {
          messages := messages + [Message(rowNumber, BadYear)];
          skipped := skipped + 1;
          continue;
        }
        var secondary := if "secondary_series" in row then row["secondary_series"] else "";
        var details := Details(
          Strip(row["media"]),
          Strip(row["year"]),
          Strip(row["series"]),
          Strip(secondary),
          Dimensions(Strip(row["length"]), Strip(row["width"]), Strip(row["size_category"])));
        if codeVal in customCodes {
          messages := messages + [Message(rowNumber, CodeExists)];
          skipped := skipped + 1;
        } else {
          customCodes := customCodes[codeVal := Record(urlVal, details)];
          added := added + 1;
        }
      }
      saved := saved + [customCodes];  // the single save, after the last row
      report := Completed(added, skipped, messages);
    }
  }
}
