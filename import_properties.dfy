/** What the bulk-import loop guarantees, proved about `BulkImport.RunRows`:
    row accounting, insert-only growth, the fate of each row, rejection of
    repeated codes within one sheet and the number of records added. */
module ImportProperties {
  import opened Validation
  import opened Messages
  import opened BulkImport

  /** Every message names a spreadsheet row in `lo .. hi`. */
  predicate RowsBetween(msgs: seq<Message>, lo: int, hi: int) {
    forall k :: 0 <= k < |msgs| ==> lo <= msgs[k].row <= hi
  }

  /** Messages are in strictly increasing row order. */
  predicate RowsIncreasing(msgs: seq<Message>) {
    forall k, l :: 0 <= k < l < |msgs| ==> msgs[k].row < msgs[l].row
  }

  /** No message names spreadsheet row `row`. */
  predicate Unreported(msgs: seq<Message>, row: int) {
    forall k :: 0 <= k < |msgs| ==> msgs[k].row != row
  }

  /** A code inserted by an import is an 11-digit code whose record has a
      url and a 4-digit year. */
  predicate Admissible(code: string, r: Record) {
    ValidCode(code) && r.url != "" && ValidYear(r.details.year)
  }

  /** Batch `c` continues batch `a`: the custom codes keep their entries, and
      the messages only gain entries for spreadsheet rows `lo .. hi`. */
  predicate Grows(a: Batch, c: Batch, lo: int, hi: int) {
    && Extends(a.store, c.store)
    && |a.messages| <= |c.messages|
    && c.messages[..|a.messages|] == a.messages
    && RowsBetween(c.messages[|a.messages|..], lo, hi)
  }

  // ---------------------------------------------------------------------------
  // One row

  /** The first failing check decides the message, and a row that passes them
      is skipped exactly when its code is already a custom code. */
  lemma OutcomeOrder(store: map<string, Record>, row: Row)
    ensures Outcome(store, row).None? <==>
              ValidCode(CodeOf(row)) && Strip(Cell(row, "url")) != ""
              && ValidYear(Strip(Cell(row, "year"))) && CodeOf(row) !in store
    ensures Outcome(store, row) == Some(InvalidCode) <==> !ValidCode(CodeOf(row))
    ensures Outcome(store, row) == Some(MissingUrl) <==>
              ValidCode(CodeOf(row)) && Strip(Cell(row, "url")) == ""
    ensures Outcome(store, row) == Some(BadYear) <==>
              ValidCode(CodeOf(row)) && Strip(Cell(row, "url")) != "" && !ValidYear(Strip(Cell(row, "year")))
    ensures Outcome(store, row) == Some(CodeExists) <==>
              Validate(row).None? && CodeOf(row) in store
  {
  }

  /** Each field of the record built from a row is the stripped cell of its
      column, so every field is stripped, and a sheet without a
      secondary-series column gives an empty secondary series. */
  lemma BuildRecordFields(row: Row)
    ensures BuildRecord(row) ==
              Record(Strip(Cell(row, "url")),
                     Details(Strip(Cell(row, "media")), Strip(Cell(row, "year")),
                             Strip(Cell(row, "series")), Strip(Cell(row, "secondary_series")),
                             Dimensions(Strip(Cell(row, "length")), Strip(Cell(row, "width")),
                                        Strip(Cell(row, "size_category")))))
    ensures var r := BuildRecord(row);
            && Trimmed(r.url) && Trimmed(r.details.media) && Trimmed(r.details.year)
            && Trimmed(r.details.series) && Trimmed(r.details.secondarySeries)
            && Trimmed(r.details.dimensions.length) && Trimmed(r.details.dimensions.width)
            && Trimmed(r.details.dimensions.sizeCategory)
    ensures "secondary_series" !in row ==> BuildRecord(row).details.secondarySeries == ""
  {
    StrippedCellsAt(row, RecordColumns);
    StripSpec(Cell(row, "url"));
    StripSpec(Cell(row, "media"));
    StripSpec(Cell(row, "year"));
    StripSpec(Cell(row, "series"));
    StripSpec(Cell(row, "secondary_series"));
    StripSpec(Cell(row, "length"));
    StripSpec(Cell(row, "width"));
    StripSpec(Cell(row, "size_category"));
  }

  lemma SkipGrows(b: Batch, idx: nat, p: Problem)
    ensures Grows(b, Skip(b, idx, p), idx + 2, idx + 2)
  {
    var c := Skip(b, idx, p);
    assert c.messages[..|b.messages|] == b.messages;
    assert c.messages[|b.messages|..] == [Message(idx + 2, p)];
  }

  lemma InsertGrows(b: Batch, code: string, r: Record, lo: int, hi: int)
    requires code !in b.store
    ensures Grows(b, Insert(b, code, r), lo, hi)
  {
    assert Insert(b, code, r).messages[|b.messages|..] == [];
  }

  /** One row either leaves the messages alone or appends one message for
      spreadsheet row `idx + 2`; it never drops or changes an entry. */
  lemma StepGrows(b: Batch, row: Row, idx: nat)
    ensures Grows(b, Step(b, row, idx), idx + 2, idx + 2)
    ensures |Step(b, row, idx).messages| <= |b.messages| + 1
  {
    match Outcome(b.store, row)
    case Some(p) => SkipGrows(b, idx, p);
    case None => InsertGrows(b, CodeOf(row), BuildRecord(row), idx + 2, idx + 2);
  }

  /** A batch that grew by messages for rows `lo .. mid`, then for rows
      `mid + 1 .. hi`, grew by messages for rows `lo .. hi`. */
  lemma GrowsChain(a: Batch, b: Batch, c: Batch, lo: int, mid: int, hi: int)
    requires lo <= mid + 1 && mid <= hi
    requires Grows(a, b, lo, mid) && Grows(b, c, mid + 1, hi)
    ensures Grows(a, c, lo, hi)
  {
    var n, m := |a.messages|, |b.messages|;
    assert c.messages[..n] == c.messages[..m][..n];
    assert c.messages[n..] == b.messages[n..] + c.messages[m..];
  }

  /** Growth by earlier rows followed by one more row. */
  lemma GrowsByStep(a: Batch, b: Batch, row: Row, idx: nat, lo: int)
    requires lo <= idx + 2
    requires Grows(a, b, lo, idx + 1)
    ensures Grows(a, Step(b, row, idx), lo, idx + 2)
  {
    StepGrows(b, row, idx);
    GrowsChain(a, b, Step(b, row, idx), lo, idx + 1, idx + 2);
  }

  // ---------------------------------------------------------------------------
  // The whole loop

  /** Every row is counted once, as added or as skipped, and every skipped row
      has exactly one message. */
  lemma {:induction false} RunAccounting(store: map<string, Record>, rows: seq<Row>, n: nat)
    requires n <= |rows|
    ensures Run(store, rows, n).added + Run(store, rows, n).skipped == n
    ensures |Run(store, rows, n).messages| == Run(store, rows, n).skipped
  {
    if n > 0 {
      RunAccounting(store, rows, n - 1);
    }
  }

  /** The import only inserts: every entry of the custom codes before it is
      still there with its record. */
  lemma {:induction false} RunExtends(store: map<string, Record>, rows: seq<Row>, n: nat)
    requires n <= |rows|
    ensures Extends(store, Run(store, rows, n).store)
  {
    if n > 0 {
      RunExtends(store, rows, n - 1);
    }
  }

  /** Each addition is a key that was not there: the custom codes grow by
      exactly the number added. */
  lemma {:induction false} RunSize(store: map<string, Record>, rows: seq<Row>, n: nat)
    requires n <= |rows|
    ensures |Run(store, rows, n).store| == |store| + Run(store, rows, n).added
  {
    if n > 0 {
      RunSize(store, rows, n - 1);
      StepSize(Run(store, rows, n - 1), rows[n - 1], n - 1);
    }
  }

  /** One row adds a key exactly when it counts as added. */
  lemma StepSize(b: Batch, row: Row, idx: nat)
    ensures |Step(b, row, idx).store| + b.added == |b.store| + Step(b, row, idx).added
  {
    match Outcome(b.store, row)
    case Some(p) =>
    case None =>
      assert CodeOf(row) !in b.store;
  }

  /** Every key the import adds passed the three checks. */
  lemma {:induction false} RunNewEntriesAdmissible(store: map<string, Record>, rows: seq<Row>, n: nat)
    requires n <= |rows|
    ensures forall k :: k in Run(store, rows, n).store && k !in store ==>
              Admissible(k, Run(store, rows, n).store[k])
  {
    if n > 0 {
      RunNewEntriesAdmissible(store, rows, n - 1);
      var b := Run(store, rows, n - 1);
      var row := rows[n - 1];
      if Outcome(b.store, row).None? {
        BuildRecordFields(row);
        assert Admissible(CodeOf(row), BuildRecord(row));
      }
    }
  }

  /** The custom-codes invariant (every key an 11-digit code) survives an
      import. */
  lemma ImportKeepsValidStore(store: map<string, Record>, rows: seq<Row>)
    requires ValidStore(store)
    ensures ValidStore(RunRows(store, rows).store)
  {
    RunNewEntriesAdmissible(store, rows, |rows|);
  }

  /** Messages appear in row order, one per row at most, and name spreadsheet
      rows 2 .. n + 1. */
  lemma {:induction false} MessageRows(store: map<string, Record>, rows: seq<Row>, n: nat)
    requires n <= |rows|
    ensures RowsBetween(Run(store, rows, n).messages, 2, n + 1)
    ensures RowsIncreasing(Run(store, rows, n).messages)
  {
    if n > 0 {
      MessageRows(store, rows, n - 1);
      StepKeepsRowOrder(Run(store, rows, n - 1), rows[n - 1], n - 1);
    }
  }

  /** One row appends at most its own message, after every earlier one. */
  lemma StepKeepsRowOrder(b: Batch, row: Row, idx: nat)
    requires RowsBetween(b.messages, 2, idx + 1) && RowsIncreasing(b.messages)
    ensures RowsBetween(Step(b, row, idx).messages, 2, idx + 2)
    ensures RowsIncreasing(Step(b, row, idx).messages)
  {
    match Outcome(b.store, row)
    case Some(p) =>
      var ms := b.messages + [Message(idx + 2, p)];
      assert Step(b, row, idx).messages == ms;
      assert forall k :: 0 <= k < |b.messages| ==> ms[k] == b.messages[k];
    case None =>
  }

  /** Later stages of the loop extend earlier ones: the custom codes keep
      their entries, and the messages gain only entries for later rows. */
  lemma {:induction false} RunGrows(store: map<string, Record>, rows: seq<Row>, i: nat, j: nat)
    requires i <= j <= |rows|
    ensures Grows(Run(store, rows, i), Run(store, rows, j), i + 2, j + 1)
  {
    var bi := Run(store, rows, i);
    if i < j {
      RunGrows(store, rows, i, j - 1);
      GrowsByStep(bi, Run(store, rows, j - 1), rows[j - 1], j - 1, i + 2);
    } else {
      assert bi.messages[|bi.messages|..] == [];
    }
  }

  /** What becomes of row `i`: a failed check or an existing code gives the
      message `Message(i + 2, problem)` and leaves the code's entry as it was;
      otherwise the row's record is stored under its code for good, no message
      names the row, and the code was not a custom code before the import. */
  lemma RowFate(store: map<string, Record>, rows: seq<Row>, i: nat)
    requires i < |rows|
    ensures Fate(store, rows, i).Some? ==>
              Message(i + 2, Fate(store, rows, i).value) in RunRows(store, rows).messages
    ensures Fate(store, rows, i) == Some(CodeExists) ==>
              CodeOf(rows[i]) in RunRows(store, rows).store
              && RunRows(store, rows).store[CodeOf(rows[i])]
                 == Run(store, rows, i).store[CodeOf(rows[i])]
    ensures Fate(store, rows, i).None? ==>
              && CodeOf(rows[i]) !in store
              && CodeOf(rows[i]) in RunRows(store, rows).store
              && RunRows(store, rows).store[CodeOf(rows[i])] == BuildRecord(rows[i])
              && Unreported(RunRows(store, rows).messages, i + 2)
  {
    RunGrows(store, rows, i + 1, |rows|);
    match Fate(store, rows, i)
    case Some(p) => SkipReported(store, rows, i, p);
    case None => InsertUnreported(store, rows, i);
  }

  lemma SkipReported(store: map<string, Record>, rows: seq<Row>, i: nat, p: Problem)
    requires i < |rows| && Fate(store, rows, i) == Some(p)
    requires Grows(Run(store, rows, i + 1), RunRows(store, rows), i + 3, |rows| + 1)
    ensures Message(i + 2, p) in RunRows(store, rows).messages
  {
    var after := Run(store, rows, i + 1);
    var all := RunRows(store, rows);
    assert after == Skip(Run(store, rows, i), i, p);
    var n := |after.messages|;
    assert all.messages[..n][n - 1] == Message(i + 2, p);
  }

  lemma InsertUnreported(store: map<string, Record>, rows: seq<Row>, i: nat)
    requires i < |rows| && Fate(store, rows, i).None?
    requires Grows(Run(store, rows, i + 1), RunRows(store, rows), i + 3, |rows| + 1)
    ensures CodeOf(rows[i]) !in store
    ensures Unreported(RunRows(store, rows).messages, i + 2)
  {
    var before := Run(store, rows, i);
    var all := RunRows(store, rows);
    assert Run(store, rows, i + 1).messages == before.messages;
    RunExtends(store, rows, i);
    MessageRows(store, rows, i);
    var n := |before.messages|;
    assert all.messages == before.messages + all.messages[n..];
    forall k | 0 <= k < |all.messages| ensures all.messages[k].row != i + 2 {
      if k < n {
        assert all.messages[k] == before.messages[k];
      } else {
        assert all.messages[k] == all.messages[n..][k - n];
      }
    }
  }

  /** Two valid rows with the same code: the later one is always skipped as an
      existing code, with its message. */
  lemma IntraBatchDuplicate(store: map<string, Record>, rows: seq<Row>, i: nat, j: nat)
    requires i < j < |rows|
    requires Validate(rows[i]).None? && Validate(rows[j]).None?
    requires CodeOf(rows[i]) == CodeOf(rows[j])
    ensures Fate(store, rows, j) == Some(CodeExists)
    ensures Message(j + 2, CodeExists) in RunRows(store, rows).messages
  {
    CodeAfterRow(store, rows, i);
    RunGrows(store, rows, i + 1, j);
    assert CodeOf(rows[j]) in Run(store, rows, j).store;
    RowFate(store, rows, j);
  }

  /** After a row that passes the three checks, its code is a custom code. */
  lemma CodeAfterRow(store: map<string, Record>, rows: seq<Row>, i: nat)
    requires i < |rows| && Validate(rows[i]).None?
    ensures CodeOf(rows[i]) in Run(store, rows, i + 1).store
  {
    StepKeepsValidCode(Run(store, rows, i), rows[i], i);
  }

  /** After a row that passes the three checks, its code is a custom code,
      whether it was added or already there. */
  lemma StepKeepsValidCode(b: Batch, row: Row, idx: nat)
    requires Validate(row).None?
    ensures CodeOf(row) in Step(b, row, idx).store
  {
  }

  /** The first valid row whose code was not a custom code before the import
      is the one added, and the final custom codes hold its record. */
  lemma FirstOccurrenceAdded(store: map<string, Record>, rows: seq<Row>, i: nat)
    requires i < |rows|
    requires IsNewCode(store, rows[i])
    requires forall k :: 0 <= k < i && IsNewCode(store, rows[k]) ==> CodeOf(rows[k]) != CodeOf(rows[i])
    ensures Fate(store, rows, i).None?
    ensures CodeOf(rows[i]) in RunRows(store, rows).store
    ensures RunRows(store, rows).store[CodeOf(rows[i])] == BuildRecord(rows[i])
  {
    RunKeys(store, rows, i);
    RowFate(store, rows, i);
  }

  lemma NewCodesStep(store: map<string, Record>, rows: seq<Row>, n: nat)
    requires 0 < n <= |rows|
    ensures NewCodes(store, rows, n)
            == NewCodes(store, rows, n - 1)
               + (if IsNewCode(store, rows[n - 1]) then {CodeOf(rows[n - 1])} else {})
  {
  }

  /** After the import the custom codes are the old ones plus the new valid
      codes of the sheet. */
  lemma {:induction false} RunKeys(store: map<string, Record>, rows: seq<Row>, n: nat)
    requires n <= |rows|
    ensures Run(store, rows, n).store.Keys == store.Keys + NewCodes(store, rows, n)
  {
    if n > 0 {
      RunKeys(store, rows, n - 1);
      NewCodesStep(store, rows, n);
    } else {
      assert NewCodes(store, rows, n) == {};
    }
  }

  /** The number added is the number of distinct new valid codes in the sheet:
      within one sheet only the first row with a code can be added. */
  lemma AddedCountsNewCodes(store: map<string, Record>, rows: seq<Row>)
    ensures RunRows(store, rows).added == |NewCodes(store, rows, |rows|)|
  {
    RunKeys(store, rows, |rows|);
    RunSize(store, rows, |rows|);
    var s := RunRows(store, rows).store;
    assert store.Keys * NewCodes(store, rows, |rows|) == {};
    assert |s.Keys| == |s|;
    assert |store.Keys| == |store|;
  }
}
