/** `insert_data_to_db` of IVR_Report_Scrub.py: the parsed report is either skipped (empty),
    appended to the database table under canonical column names, or its failure is reported
    and swallowed. Each outcome writes one audit entry and sends one mail. */
module Loader {
  import opened Options
  import opened Audit
  import Text

  /** A parsed cell; `None` is a missing value (pandas NaN). */
  type Cell = Option<string>
  type Row = seq<Cell>

  /** What `pd.read_csv` produced: the header line and the data rows. */
  datatype Table = Table(headers: seq<string>, rows: seq<Row>)

  /** Reading the file either yields a table or raises. */
  datatype ParseResult = Parsed(table: Table) | ParseError(error: string)

  /** The fixed source-header to column-name table of the loader (29 entries). */
  const RenameMap: map<string, string> := map[
    "Date" := "Date",
    "CLI" := "CLI",
    "DNIS" := "DNIS",
    "Location" := "Location",
    "CUCID" := "CUCID",
    "ApplicationIVR" := "ApplicationIVR",
    "Hour" := "Hour",
    "IVRStartTime" := "IVRStartTime",
    "IVREndTime" := "IVREndTime",
    "IVRDuration" := "IVRDuration",
    "IVR Billing Category" := "IVR_Billing_Category",
    "QueVDN" := "QueVDN",
    "Level" := "Level",
    "QueDuration" := "QueDuration",
    "QueStartTime" := "QueStartTime",
    "QueEndTime" := "QueEndTime",
    "AgentID" := "AgentID",
    "AgentStartTime" := "AgentStartTime",
    "AgentEndTime" := "AgentEndTime",
    "AgentDuration" := "AgentDuration",
    "ansholdtime" := "ansholdtime",
    "Agent Dispose" := "Agent_Dispose",
    "Total Time at agent" := "Total_Time_at_agent",
    "Agent Billing Category" := "Agent_Billing_Category",
    "TotalDuration" := "TotalDuration",
    "Traversal" := "Traversal",
    "FRL" := "FRL",
    "transferred" := "transferred",
    "disconnectedBy" := "disconnectedBy"
  ]

  /** The only source headers the table actually changes: those containing spaces. */
  const SpacedHeaders: set<string> :=
    {"IVR Billing Category", "Agent Dispose", "Total Time at agent", "Agent Billing Category"}

  /** The name one column ends up with. */
  function Canonical(h: string): string {
    if h in RenameMap then RenameMap[h] else h
  }

  /** `df.rename(columns={col: rename_map[col] for col in df.columns if col in rename_map})`. */
  function RenameHeaders(hs: seq<string>): (r: seq<string>)
    ensures |r| == |hs|
    ensures forall i :: 0 <= i < |hs| && hs[i] in RenameMap ==> r[i] == RenameMap[hs[i]]
    ensures forall i :: 0 <= i < |hs| && hs[i] !in RenameMap ==> r[i] == hs[i]
  {
    if hs == [] then [] else [Canonical(hs[0])] + RenameHeaders(hs[1..])
  }

  /** The table is the identity except on the four spaced headers, which get underscores, and
      no name it produces is renamed again. */
  lemma RenameMapShape()
    ensures forall k :: k in RenameMap && k !in SpacedHeaders ==> RenameMap[k] == k
    ensures SpacedHeaders <= RenameMap.Keys
    ensures RenameMap["IVR Billing Category"] == "IVR_Billing_Category"
    ensures RenameMap["Agent Dispose"] == "Agent_Dispose"
    ensures RenameMap["Total Time at agent"] == "Total_Time_at_agent"
    ensures RenameMap["Agent Billing Category"] == "Agent_Billing_Category"
    ensures forall k :: k in SpacedHeaders ==> RenameMap[k] !in RenameMap
  {
  }

  /** A column is renamed exactly when its header is one of the four spaced names. */
  lemma RenameChangesExactlySpaced(hs: seq<string>)
    ensures forall i :: 0 <= i < |hs| ==> (RenameHeaders(hs)[i] != hs[i] <==> hs[i] in SpacedHeaders)
  {
    RenameMapShape();
  }

  lemma CanonicalIdempotent(h: string)
    ensures Canonical(Canonical(h)) == Canonical(h)
  {
    RenameMapShape();
    if h in SpacedHeaders {
      assert Canonical(h) !in RenameMap;
    }
  }

  /** Renaming an already renamed header list changes nothing. */
  lemma RenameIdempotent(hs: seq<string>)
    ensures RenameHeaders(RenameHeaders(hs)) == RenameHeaders(hs)
  {
    var once := RenameHeaders(hs);
    var twice := RenameHeaders(once);
    forall i | 0 <= i < |hs|
      ensures twice[i] == once[i]
    {
      assert once[i] == Canonical(hs[i]);
      assert twice[i] == Canonical(once[i]);
      CanonicalIdempotent(hs[i]);
    }
  }

  /** A row with no value in any column. */
  predicate Blank(row: Row) {
    forall j :: 0 <= j < |row| ==> row[j].None?
  }

  /** `df.dropna(how="all")`: the rows holding at least one value, in their order. */
  function DropBlankRows(rows: seq<Row>): (r: seq<Row>)
    ensures |r| <= |rows|
    ensures forall i :: 0 <= i < |r| ==> !Blank(r[i]) && r[i] in rows
    ensures forall i :: 0 <= i < |rows| && !Blank(rows[i]) ==> rows[i] in r
    ensures |r| == |rows| <==> forall i :: 0 <= i < |rows| ==> !Blank(rows[i])
  {
    if rows == [] then []
    else if Blank(rows[0]) then DropBlankRows(rows[1..])
    else [rows[0]] + DropBlankRows(rows[1..])
  }

  /** Positions of the rows that hold at least one value. */
  function NonBlankPositions(rows: seq<Row>): set<int> {
    set i | 0 <= i < |rows| && !Blank(rows[i])
  }

  /** Dropping blank rows works piece by piece: the kept rows of a concatenation are the kept
      rows of each part, in order, each kept as often as it occurs. */
  lemma {:induction false} DropBlankRowsConcat(a: seq<Row>, b: seq<Row>)
    ensures DropBlankRows(a + b) == DropBlankRows(a) + DropBlankRows(b)
  {
    if a == [] {
      assert a + b == b;
    } else {
      assert (a + b)[0] == a[0];
      assert (a + b)[1..] == a[1..] + b;
      DropBlankRowsConcat(a[1..], b);
    }
  }

  /** The number of rows kept is the number of positions holding a non-blank row. */
  lemma {:induction false} DropBlankRowsCount(rows: seq<Row>)
    ensures |DropBlankRows(rows)| == |NonBlankPositions(rows)|
    decreases |rows|
  {
    if rows == [] {
      assert NonBlankPositions(rows) == {};
    } else {
      var n := |rows| - 1;
      var init := rows[..n];
      var last := rows[n];
      assert rows == init + [last];
      DropBlankRowsConcat(init, [last]);
      DropBlankRowsCount(init);
      assert [last][1..] == [];
      if Blank(last) {
        assert NonBlankPositions(rows) == NonBlankPositions(init);
      } else {
        assert NonBlankPositions(rows) == NonBlankPositions(init) + {n};
        assert n !in NonBlankPositions(init);
      }
    }
  }

  /** `DataFrame.empty`: no rows or no columns. Rows that are entirely missing still count. */
  predicate IsEmpty(t: Table) {
    |t.rows| == 0 || |t.headers| == 0
  }

  /** One row of the target table `ivrReport_DB`, under the column names it was written with. */
  datatype StoredRow = StoredRow(columns: seq<string>, cells: Row)

  /** The target table: rows are only ever appended. */
  datatype DbTable = DbTable(rows: seq<StoredRow>)

  /** What the database does with one bulk append (engine creation included). */
  datatype WriteOutcome = WriteOk | WriteFails(error: string)

  function StoredRows(columns: seq<string>, rows: seq<Row>): (r: seq<StoredRow>)
    ensures |r| == |rows|
    ensures forall i :: 0 <= i < |rows| ==> r[i] == StoredRow(columns, rows[i])
  {
    seq(|rows|, i requires 0 <= i < |rows| => StoredRow(columns, rows[i]))
  }

  /** `df.to_sql(..., if_exists='append', index=False)`. */
  function AppendRows(db: DbTable, columns: seq<string>, rows: seq<Row>): DbTable {
    DbTable(db.rows + StoredRows(columns, rows))
  }

  /** `after` keeps every row of `before`, in place, and may add rows after them. */
  predicate Grows(before: DbTable, after: DbTable) {
    |before.rows| <= |after.rows| && after.rows[..|before.rows|] == before.rows
  }

  const EmptyEntry := Entry(JobCode, "Info", Category, "Success", "IVR Dataframe is empty", "Success", "Dataframe Empty")
  const EmptySubject := "Info! IVR Dataframe is Empty"
  const EmptyBody := "There is no data into IVR Dataframe today"

  function InsertedEntry(inserted: nat): Entry {
    Entry(JobCode, "Success", Category, "Success",
      "IVR " + Text.NatToString(inserted) + " Data Successfully inserted into DB", "Success", "Data Inserted")
  }
  const InsertedSubject := "Success! IVR Data Process Completed"

  function InsertedBody(rowCount: nat, columnCount: nat, inserted: nat): string {
    "IVR Rows: " + Text.NatToString(rowCount) + " & Columns: " + Text.NatToString(columnCount)
      + " Data has been successfully downloaded and " + Text.NatToString(inserted)
      + " Data inserted into the database"
  }

  const FailedEntry := Entry(JobCode, "Warning", Category, "Failed", "Failed to insert IVR Data into DB", "Error", "Data Failed")
  const FailedSubject := "Failed! IVR Data insertion failed into DB"
  const FailedBodyPrefix := "Database Insertion Error: "

  datatype LoadOutcome = Skipped | Inserted(rows: nat) | Failed(error: string)

  /** What one call did: its outcome, the table afterwards and the effects in order. */
  datatype LoadResult = LoadResult(outcome: LoadOutcome, db: DbTable, events: seq<Event>)

  function Fail(db: DbTable, error: string): (r: LoadResult)
    ensures r.outcome == Failed(error) && r.db == db
    ensures Count(r.events, LogKind) == 1 && Count(r.events, EmailKind) == 1 && Count(r.events, AppendKind) == 0
    ensures Count(r.events, CloseKind) == 0 && Count(r.events, UiKind) == 0
  {
    var r := LoadResult(Failed(error), db, [Log(FailedEntry), Email(FailedSubject, FailedBodyPrefix + error)]);
    CountTwo(r.events[0], r.events[1], LogKind);
    CountTwo(r.events[0], r.events[1], EmailKind);
    CountTwo(r.events[0], r.events[1], AppendKind);
    CountTwo(r.events[0], r.events[1], CloseKind);
    CountTwo(r.events[0], r.events[1], UiKind);
    r
  }

  function Skip(db: DbTable): (r: LoadResult)
    ensures r.outcome == Skipped && r.db == db
    ensures Count(r.events, LogKind) == 1 && Count(r.events, EmailKind) == 1 && Count(r.events, AppendKind) == 0
    ensures Count(r.events, CloseKind) == 0 && Count(r.events, UiKind) == 0
  {
    var r := LoadResult(Skipped, db, [Log(EmptyEntry), Email(EmptySubject, EmptyBody)]);
    CountTwo(r.events[0], r.events[1], LogKind);
    CountTwo(r.events[0], r.events[1], EmailKind);
    CountTwo(r.events[0], r.events[1], AppendKind);
    CountTwo(r.events[0], r.events[1], CloseKind);
    CountTwo(r.events[0], r.events[1], UiKind);
    r
  }

  function Insert(t: Table, db: DbTable): (r: LoadResult)
    ensures r.outcome == Inserted(|t.rows|)
    ensures r.db == AppendRows(db, RenameHeaders(t.headers), t.rows)
    ensures Count(r.events, LogKind) == 1 && Count(r.events, EmailKind) == 1 && Count(r.events, AppendKind) == 1
    ensures Count(r.events, CloseKind) == 0 && Count(r.events, UiKind) == 0
  {
    var n := |t.rows|;
    var body := InsertedBody(|DropBlankRows(t.rows)|, |t.headers|, n);
    var r := LoadResult(Inserted(n), AppendRows(db, RenameHeaders(t.headers), t.rows),
      [Append(n), Log(InsertedEntry(n)), Email(InsertedSubject, body)]);
    CountThree(r.events[0], r.events[1], r.events[2], LogKind);
    CountThree(r.events[0], r.events[1], r.events[2], EmailKind);
    CountThree(r.events[0], r.events[1], r.events[2], AppendKind);
    CountThree(r.events[0], r.events[1], r.events[2], CloseKind);
    CountThree(r.events[0], r.events[1], r.events[2], UiKind);
    r
  }

  /** `insert_data_to_db(file_path)` given what reading that file produced and how the database
      answers. No outcome raises: errors end in `Failed`. */
  function InsertDataToDb(parsed: ParseResult, db: DbTable, write: WriteOutcome): (r: LoadResult)
    ensures Grows(db, r.db)
    ensures Count(r.events, LogKind) == 1 && Count(r.events, EmailKind) == 1
    ensures Count(r.events, AppendKind) == (if r.outcome.Inserted? then 1 else 0)
    ensures Count(r.events, CloseKind) == 0 && Count(r.events, UiKind) == 0
    ensures r.outcome.Skipped? <==> parsed.Parsed? && IsEmpty(parsed.table)
    ensures r.outcome.Inserted? <==> parsed.Parsed? && !IsEmpty(parsed.table) && write.WriteOk?
    ensures r.outcome.Inserted? ==>
      && r.outcome.rows == |parsed.table.rows|
      && |r.db.rows| == |db.rows| + |parsed.table.rows|
      && forall i :: 0 <= i < |parsed.table.rows| ==>
           r.db.rows[|db.rows| + i] == StoredRow(RenameHeaders(parsed.table.headers), parsed.table.rows[i])
    ensures !r.outcome.Inserted? ==> r.db == db
  {
    match parsed
    case ParseError(e) => Fail(db, e)
    case Parsed(t) =>
      if IsEmpty(t) then Skip(db)
      else
        match write
        case WriteFails(e) => Fail(db, e)
        case WriteOk =>
          var r := Insert(t, db);
          assert r.db.rows[..|db.rows|] == db.rows;
          r
  }

  /** Dropping blank rows from rows that are all blank leaves nothing. */
  lemma {:induction false} DropAllBlankRows(rows: seq<Row>)
    requires forall i :: 0 <= i < |rows| ==> Blank(rows[i])
    ensures DropBlankRows(rows) == []
  {
    if rows != [] {
      assert Blank(rows[0]);
      DropAllBlankRows(rows[1..]);
    }
  }

  /** An empty table is skipped: the database is untouched, one "Info" entry is written and one
      "Info!" mail is sent. */
  lemma EmptyTableIsSkipped(t: Table, db: DbTable, write: WriteOutcome)
    requires IsEmpty(t)
    ensures InsertDataToDb(Parsed(t), db, write) ==
      LoadResult(Skipped, db, [Log(EmptyEntry), Email("Info! IVR Dataframe is Empty", EmptyBody)])
    ensures EmptyEntry.severity == "Info"
  {
  }

  /** A non-empty table is appended whole, under the renamed headers, after every row already in
      the table; then one success entry is written and one success mail is sent. */
  lemma NonEmptyTableIsAppended(t: Table, db: DbTable)
    requires !IsEmpty(t)
    ensures var r := InsertDataToDb(Parsed(t), db, WriteOk);
      && r.db.rows == db.rows + StoredRows(RenameHeaders(t.headers), t.rows)
      && r.events == [ Append(|t.rows|), Log(InsertedEntry(|t.rows|)),
                       Email(InsertedSubject, InsertedBody(|DropBlankRows(t.rows)|, |t.headers|, |t.rows|)) ]
  {
  }

  /** A read error, or a database error on a non-empty table, leaves the table as it was, writes
      one "Warning"/"Failed" entry and sends one failure mail carrying the error text. */
  lemma FailureIsReportedAndSwallowed(parsed: ParseResult, db: DbTable, write: WriteOutcome)
    requires parsed.ParseError? || (!IsEmpty(parsed.table) && write.WriteFails?)
    ensures var e := if parsed.ParseError? then parsed.error else write.error;
      InsertDataToDb(parsed, db, write) ==
        LoadResult(Failed(e), db, [Log(FailedEntry), Email(FailedSubject, "Database Insertion Error: " + e)])
    ensures FailedEntry.severity == "Warning" && FailedEntry.outcome == "Failed"
  {
  }

  /** Loading the same file twice appends its rows twice: there is no deduplication. */
  lemma LoadTwiceAppendsTwice(t: Table, db: DbTable)
    requires !IsEmpty(t)
    ensures var once := InsertDataToDb(Parsed(t), db, WriteOk);
      var twice := InsertDataToDb(Parsed(t), once.db, WriteOk);
      && twice.db.rows == db.rows + StoredRows(RenameHeaders(t.headers), t.rows) + StoredRows(RenameHeaders(t.headers), t.rows)
      && |twice.db.rows| == |db.rows| + 2 * |t.rows|
  {
    NonEmptyTableIsAppended(t, db);
    NonEmptyTableIsAppended(t, InsertDataToDb(Parsed(t), db, WriteOk).db);
  }

  /** The row count the success mail reports counts the non-blank rows only: it never exceeds
      the number of rows appended, and equals it exactly when no row is blank. */
  lemma ReportedCountAtMostAppended(t: Table, db: DbTable)
    requires !IsEmpty(t)
    ensures var r := InsertDataToDb(Parsed(t), db, WriteOk);
      var k := |DropBlankRows(t.rows)|;
      && r.events[2] == Email(InsertedSubject, InsertedBody(k, |t.headers|, r.outcome.rows))
      && k == |NonBlankPositions(t.rows)|
      && k <= r.outcome.rows
      && (k == r.outcome.rows <==> forall i :: 0 <= i < |t.rows| ==> !Blank(t.rows[i]))
  {
    DropBlankRowsCount(t.rows);
  }

  /** The success mail opens with the two counts it reports. */
  lemma InsertedBodyOpening(rowCount: nat, columnCount: nat, inserted: nat)
    ensures Text.StartsWith(InsertedBody(rowCount, columnCount, inserted),
      "IVR Rows: " + Text.NatToString(rowCount) + " & Columns: " + Text.NatToString(columnCount))
  {
    var opening := "IVR Rows: " + Text.NatToString(rowCount) + " & Columns: " + Text.NatToString(columnCount);
    var rest := " Data has been successfully downloaded and " + Text.NatToString(inserted) + " Data inserted into the database";
    assert InsertedBody(rowCount, columnCount, inserted) == opening + rest;
  }

  /** A table whose rows are all blank is not empty: its rows are appended, and the success
      mail reports zero rows. */
  lemma AllBlankRowsAreStillAppended(t: Table, db: DbTable)
    requires |t.headers| > 0 && |t.rows| > 0
    requires forall i :: 0 <= i < |t.rows| ==> Blank(t.rows[i])
    ensures var r := InsertDataToDb(Parsed(t), db, WriteOk);
      && r.outcome == Inserted(|t.rows|)
      && Text.StartsWith(r.events[2].body, "IVR Rows: 0 & Columns: ")
  {
    NonEmptyTableIsAppended(t, db);
    var r := InsertDataToDb(Parsed(t), db, WriteOk);
    DropAllBlankRows(t.rows);
    assert r.events[2].body == InsertedBody(0, |t.headers|, |t.rows|);
    ZeroRowOpening(|t.headers|, |t.rows|);
  }

  /** Five complete rows under 27 headers are appended and reported as
      "IVR Rows: 5 & Columns: 27". */
  lemma FiveRowReport(t: Table, db: DbTable)
    requires |t.headers| == 27 && |t.rows| == 5
    requires forall i :: 0 <= i < |t.rows| ==> !Blank(t.rows[i])
    ensures var r := InsertDataToDb(Parsed(t), db, WriteOk);
      && r.outcome == Inserted(5)
      && |r.db.rows| == |db.rows| + 5
      && r.events[2].subject == "Success! IVR Data Process Completed"
      && Text.StartsWith(r.events[2].body, "IVR Rows: 5 & Columns: 27")
  {
    NonEmptyTableIsAppended(t, db);
    var r := InsertDataToDb(Parsed(t), db, WriteOk);
    assert |DropBlankRows(t.rows)| == 5;
    assert r.events[2].body == InsertedBody(5, 27, 5);
    InsertedBodyOpening(5, 27, 5);
    FiveRowOpening();
  }

  lemma ZeroRowOpening(columnCount: nat, inserted: nat)
    ensures Text.StartsWith(InsertedBody(0, columnCount, inserted), "IVR Rows: 0 & Columns: ")
  {
    var opening := "IVR Rows: " + Text.NatToString(0) + " & Columns: ";
    assert opening == "IVR Rows: 0 & Columns: ";
    var rest := Text.NatToString(columnCount) + " Data has been successfully downloaded and "
      + Text.NatToString(inserted) + " Data inserted into the database";
    assert InsertedBody(0, columnCount, inserted) == opening + rest;
  }

  lemma FiveRowOpening()
    ensures "IVR Rows: " + Text.NatToString(5) + " & Columns: " + Text.NatToString(27) == "IVR Rows: 5 & Columns: 27"
  {
    assert Text.NatToString(5) == "5";
    assert Text.NatToString(27) == "27" by {
      assert Text.NatToString(2) == "2";
      assert Text.NatToString(7) == "7";
    }
  }
}
