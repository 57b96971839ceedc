/** Tables, rows and the push payload check (`mobile/src/sync/schema.ts`, `mobile/src/sync/protocol.ts`). */
module SyncSchema {
  import opened Numerics

  datatype Value = Str(s: string) | Num(n: int) | Boolean(b: bool) | Json(text: string) | Undefined

  type Row = map<string, Value>

  function Get(row: Row, col: string): Value {
    if col in row then row[col] else Undefined
  }

  const TENANT_SCOPED: seq<string> := ["tenant_id", "_status", "_changed", "created_at", "updated_at"]

  const TABLES: seq<string> := ["sessions", "recordings", "shots", "shot_events", "consent_records"]

  function ColumnsForTable(table: string): Option<seq<string>> {
    match table
    case "sessions" =>
      Some(["server_id", "org_id", "athlete_user_id", "discipline", "started_at", "ended_at"] + TENANT_SCOPED)
    case "recordings" =>
      Some(["server_id", "session_id", "storage_uri", "sha256", "duration_ms", "upload_state",
            "camera_clock_offset_ms"] + TENANT_SCOPED)
    case "shots" =>
      Some(["server_id", "session_id", "monotonic_seq", "device_clock_ns", "server_clock_ns",
            "shot_kind"] + TENANT_SCOPED)
    case "shot_events" =>
      Some(["server_id", "shot_id", "event_kind", "monotonic_seq", "payload", "produced_at"] + TENANT_SCOPED)
    case "consent_records" =>
      Some(["server_id", "user_id", "purpose", "purpose_version", "granted", "granted_at", "revoked_at",
            "processing_basis", "joint_controller_org_ids", "joint_controller_agreement_ref"] + TENANT_SCOPED)
    case _ => None
  }

  /** The columns every table has. */
  const SHARED := {"server_id", "tenant_id", "_status", "_changed", "created_at", "updated_at"}

  /** Table by table, the valid columns: the shared ones and the table's own. No other table has any. */
  lemma ColumnsAre(table: string, own: set<string>)
    requires own == match table
                    case "sessions" => {"org_id", "athlete_user_id", "discipline", "started_at", "ended_at"}
                    case "recordings" => {"session_id", "storage_uri", "sha256", "duration_ms", "upload_state",
                                          "camera_clock_offset_ms"}
                    case "shots" => {"session_id", "monotonic_seq", "device_clock_ns", "server_clock_ns", "shot_kind"}
                    case "shot_events" => {"shot_id", "event_kind", "monotonic_seq", "payload", "produced_at"}
                    case "consent_records" => {"user_id", "purpose", "purpose_version", "granted", "granted_at",
                                               "revoked_at", "processing_basis", "joint_controller_org_ids",
                                               "joint_controller_agreement_ref"}
                    case _ => {}
    ensures ColumnsForTable(table).Some? <==> table in TABLES
    ensures ColumnsForTable(table).Some? ==> forall c :: c in ColumnsForTable(table).value <==> c in SHARED + own
  {
  }

  /** Everything but the server-authoritative table. */
  function PushableTables(): (r: seq<string>)
    ensures forall t :: t in r <==> t in TABLES && t != "consent_records"
    ensures forall i, j :: 0 <= i < j < |r| ==> r[i] != r[j]
  {
    ["sessions", "recordings", "shots", "shot_events"]
  }

  // ---- The payload ------------------------------------------------------------------------------------------

  /** A row of the payload under its local primary key. */
  datatype Entry = Entry(id: nat, row: Row)

  /** Rows of one table to create, rows to update and server ids to delete. */
  datatype Bucket = Bucket(table: string, created: seq<Entry>, updated: seq<Entry>, deleted: seq<string>)

  type Payload = seq<Bucket>

  datatype Offence = Offence(table: string, column: string)

  predicate RowOf(b: Bucket, row: Row) {
    (exists i :: 0 <= i < |b.created| && b.created[i].row == row)
    || (exists i :: 0 <= i < |b.updated| && b.updated[i].row == row)
  }

  const UNKNOWN_TABLE := "<unknown table>"

  /** A bucket of an unknown table, or a row column that its table does not have. */
  ghost predicate Offends(b: Bucket, e: Offence) {
    && e.table == b.table
    && match ColumnsForTable(b.table)
       case None => e.column == UNKNOWN_TABLE
       case Some(valid) => e.column !in valid && e.column != "id" && exists row :: RowOf(b, row) && e.column in row
  }

  method CheckRow(table: string, row: Row, valid: seq<string>) returns (errors: seq<Offence>)
    ensures forall e :: e in errors <==>
      e.table == table && e.column in row && e.column !in valid && e.column != "id"
  {
    errors := [];
    var columns := row.Keys;
    while columns != {}
      invariant columns <= row.Keys
      invariant forall e :: e in errors <==>
        e.table == table && e.column in row.Keys - columns && e.column !in valid && e.column != "id"
      decreases columns
    {
      var col :| col in columns;
      if col !in valid && col != "id" {
        errors := errors + [Offence(table, col)];
      }
      columns := columns - {col};
    }
  }

  lemma RowsOfBucket(b: Bucket, rows: seq<Row>, column: string)
    requires |rows| == |b.created| + |b.updated|
    requires forall i :: 0 <= i < |b.created| ==> rows[i] == b.created[i].row
    requires forall i :: 0 <= i < |b.updated| ==> rows[|b.created| + i] == b.updated[i].row
    ensures (exists j :: 0 <= j < |rows| && column in rows[j]) <==> (exists row :: RowOf(b, row) && column in row)
  {
    if row :| RowOf(b, row) && column in row {
      if i :| 0 <= i < |b.created| && b.created[i].row == row {
        assert column in rows[i];
      } else {
        var i :| 0 <= i < |b.updated| && b.updated[i].row == row;
        assert column in rows[|b.created| + i];
      }
    }
    if j :| 0 <= j < |rows| && column in rows[j] {
      assert j >= |b.created| ==> b.updated[j - |b.created|].row == rows[j];
      assert RowOf(b, rows[j]);
    }
  }

  method CheckBucket(b: Bucket, valid: seq<string>) returns (errors: seq<Offence>)
    requires ColumnsForTable(b.table) == Some(valid)
    ensures forall e :: e in errors <==> Offends(b, e)
  {
    errors := [];
    var rows := seq(|b.created|, i requires 0 <= i < |b.created| => b.created[i].row)
              + seq(|b.updated|, i requires 0 <= i < |b.updated| => b.updated[i].row);
    for i := 0 to |rows|
      invariant forall e :: e in errors <==>
        e.table == b.table && e.column !in valid && e.column != "id" && exists j :: 0 <= j < i && e.column in rows[j]
    {
      var more := CheckRow(b.table, rows[i], valid);
      errors := errors + more;
    }
    forall e ensures e in errors <==> Offends(b, e) {
      RowsOfBucket(b, rows, e.column);
    }
  }

  /** The offending (table, column) pairs of a payload: all of them and no others. */
  method ValidatePushPayload(payload: Payload) returns (errors: seq<Offence>)
    ensures forall e :: e in errors <==> exists i :: 0 <= i < |payload| && Offends(payload[i], e)
  {
    errors := [];
    for i := 0 to |payload|
      invariant forall e :: e in errors <==> exists j :: 0 <= j < i && Offends(payload[j], e)
    {
      var b := payload[i];
      match ColumnsForTable(b.table) {
        case None =>
          errors := errors + [Offence(b.table, UNKNOWN_TABLE)];
          assert forall e :: Offends(b, e) <==> e == Offence(b.table, UNKNOWN_TABLE);
        case Some(valid) =>
          var more := CheckBucket(b, valid);
          errors := errors + more;
      }
    }
  }

  ghost predicate Sendable(payload: Payload) {
    forall i, e :: 0 <= i < |payload| ==> !Offends(payload[i], e)
  }
}
