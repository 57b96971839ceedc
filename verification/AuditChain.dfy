/**
 The hash-chained audit log (`services/audit.py`). The digest and the canonical JSON encoder are
 parameters; nothing is assumed about collisions, the theorems name the collision instead.
 */
module AuditChain {
  import opened Numerics

  datatype EventInput = EventInput(
    eventType: string, actorPrincipal: string, tenantId: string, action: string, outcome: string,
    actorRole: Option<string>, targetResource: Option<string>, targetId: Option<string>,
    requestId: Option<string>, ipAddrHash: Option<string>, userAgentHash: Option<string>, extra: string)

  datatype Payload = Payload(eventId: string, input: EventInput, timestampNs: nat)

  datatype Row = Row(payload: Payload, prevHash: string, eventHash: string)

  datatype Crypto = Crypto(digest: string -> string, canonicalJson: Payload -> string)

  const DIGEST_LENGTH := 128

  /** Digests are hexadecimal strings of fixed length, and the canonical encoding loses nothing. */
  ghost predicate ValidCrypto(crypto: Crypto) {
    && (forall x :: |crypto.digest(x)| == DIGEST_LENGTH)
    && (forall p, q :: crypto.canonicalJson(p) == crypto.canonicalJson(q) ==> p == q)
  }

  function Genesis(): string {
    "blake2b:" + seq(DIGEST_LENGTH, _ => '0')
  }

  function Hash(crypto: Crypto, prev: string, payload: Payload): string {
    "blake2b:" + crypto.digest(prev + crypto.canonicalJson(payload))
  }

  function TenantRows(log: seq<Row>, tenant: string): seq<Row> {
    if log == [] then []
    else TenantRows(log[..|log| - 1], tenant)
         + (if log[|log| - 1].payload.input.tenantId == tenant then [log[|log| - 1]] else [])
  }

  function Time(row: Row): nat {
    row.payload.timestampNs
  }

  /** Position of the row with the latest timestamp (`ORDER BY timestamp_ns DESC LIMIT 1`). */
  function Latest(rows: seq<Row>): (k: nat)
    requires rows != []
    ensures k < |rows| && forall j :: 0 <= j < |rows| ==> Time(rows[j]) <= Time(rows[k])
  {
    var last := |rows| - 1;
    if last == 0 then 0
    else
      var k := Latest(rows[..last]);
      if Time(rows[last]) >= Time(rows[k]) then last else k
  }

  function LastHash(rows: seq<Row>): string {
    if rows == [] then Genesis() else rows[Latest(rows)].eventHash
  }

  function InsertByTime(row: Row, rows: seq<Row>): (r: seq<Row>)
    ensures |r| == |rows| + 1
  {
    if rows == [] || Time(row) < Time(rows[0]) then [row] + rows else [rows[0]] + InsertByTime(row, rows[1..])
  }

  /** `ORDER BY timestamp_ns ASC`. */
  function ByTime(rows: seq<Row>): (r: seq<Row>)
    ensures |r| == |rows|
  {
    if rows == [] then [] else InsertByTime(rows[|rows| - 1], ByTime(rows[..|rows| - 1]))
  }

  function PrevOf(rows: seq<Row>, k: nat): string
    requires k <= |rows|
  {
    if k == 0 then Genesis() else rows[k - 1].eventHash
  }

  predicate Link(crypto: Crypto, rows: seq<Row>, k: nat)
    requires k < |rows|
  {
    rows[k].prevHash == PrevOf(rows, k) && rows[k].eventHash == Hash(crypto, PrevOf(rows, k), rows[k].payload)
  }

  /** Prev/hash continuity along the given order. */
  ghost predicate ChainOk(crypto: Crypto, rows: seq<Row>) {
    forall k :: 0 <= k < |rows| ==> Link(crypto, rows, k)
  }

  ghost predicate Verifies(crypto: Crypto, log: seq<Row>, tenant: string) {
    ChainOk(crypto, ByTime(TenantRows(log, tenant)))
  }

  function NewRow(crypto: Crypto, log: seq<Row>, input: EventInput, eventId: string, now: nat): Row {
    var prev := LastHash(TenantRows(log, input.tenantId));
    var payload := Payload(eventId, input, now);
    Row(payload, prev, Hash(crypto, prev, payload))
  }

  class AuditEventWriter {
    const crypto: Crypto
    var log: seq<Row>

    constructor (crypto: Crypto)
      ensures this.crypto == crypto && log == []
    {
      this.crypto := crypto;
      log := [];
    }

    method Append(input: EventInput, eventId: string, now: nat) returns (row: Row)
      modifies this
      ensures row == NewRow(crypto, old(log), input, eventId, now)
      ensures log == old(log) + [row]
    {
      var prev := LastHash(TenantRows(log, input.tenantId));
      var payload := Payload(eventId, input, now);
      row := Row(payload, prev, Hash(crypto, prev, payload));
      log := log + [row];
    }

    method VerifyChain(tenant: string) returns (ok: bool)
      ensures ok <==> Verifies(crypto, log, tenant)
    {
      var events := ByTime(TenantRows(log, tenant));
      var prev := Genesis();
      for k := 0 to |events|
        invariant prev == PrevOf(events, k)
        invariant forall j :: 0 <= j < k ==> Link(crypto, events, j)
      {
        if events[k].prevHash != prev {
          assert !Link(crypto, events, k);
          return false;
        }
        if Hash(crypto, prev, events[k].payload) != events[k].eventHash {
          assert !Link(crypto, events, k);
          return false;
        }
        prev := events[k].eventHash;
      }
      return true;
    }
  }

  // ---- Runs -------------------------------------------------------------------------------------------

  datatype AppendCall = AppendCall(input: EventInput, eventId: string, now: nat)

  /** The log after a list of appends by any tenants, in any interleaving. */
  function LogOf(crypto: Crypto, calls: seq<AppendCall>): seq<Row> {
    if calls == [] then []
    else
      var log := LogOf(crypto, calls[..|calls| - 1]);
      var call := calls[|calls| - 1];
      log + [NewRow(crypto, log, call.input, call.eventId, call.now)]
  }

  /** The row tells what call k said, and is linked to a hash by the published formula. */
  ghost predicate Records(crypto: Crypto, row: Row, call: AppendCall) {
    && row.payload.eventId == call.eventId && row.payload.input == call.input && row.payload.timestampNs == call.now
    && row.eventHash == "blake2b:" + crypto.digest(row.prevHash + crypto.canonicalJson(row.payload))
  }

  /** Row j is the latest of its tenant among the first k rows of the log. */
  ghost predicate LatestBefore(log: seq<Row>, k: nat, j: nat, tenant: string)
    requires k <= |log|
  {
    && j < k && log[j].payload.input.tenantId == tenant
    && forall i :: 0 <= i < k && log[i].payload.input.tenantId == tenant ==> Time(log[i]) <= Time(log[j])
  }

  lemma {:induction false} TenantRowIn(log: seq<Row>, tenant: string, i: nat) returns (j: nat)
    requires i < |TenantRows(log, tenant)|
    ensures j < |log| && log[j] == TenantRows(log, tenant)[i] && log[j].payload.input.tenantId == tenant
  {
    var before := TenantRows(log[..|log| - 1], tenant);
    if i < |before| {
      j := TenantRowIn(log[..|log| - 1], tenant, i);
    } else {
      j := |log| - 1;
    }
  }

  lemma {:induction false} InTenantRows(log: seq<Row>, tenant: string, j: nat)
    requires j < |log| && log[j].payload.input.tenantId == tenant
    ensures log[j] in TenantRows(log, tenant)
  {
    if j < |log| - 1 {
      InTenantRows(log[..|log| - 1], tenant, j);
    }
  }

  /** Row k is linked to the genesis hash, or to a latest row its tenant had before it. */
  ghost predicate LinkFits(log: seq<Row>, k: nat)
    requires k < |log|
  {
    var tenant := log[k].payload.input.tenantId;
    if forall j :: 0 <= j < k ==> log[j].payload.input.tenantId != tenant
    then log[k].prevHash == "blake2b:" + seq(128, _ => '0')
    else exists j: nat :: LatestBefore(log, k, j, tenant) && log[k].prevHash == log[j].eventHash
  }

  lemma LinkStillFits(log: seq<Row>, row: Row, k: nat)
    requires k < |log| && LinkFits(log, k)
    ensures LinkFits(log + [row], k)
  {
    var more, tenant := log + [row], log[k].payload.input.tenantId;
    if j: nat :| LatestBefore(log, k, j, tenant) && log[k].prevHash == log[j].eventHash {
      assert LatestBefore(more, k, j, tenant);
    }
    assert forall j :: 0 <= j < k ==> more[j] == log[j];
  }

  lemma NextLinkFits(log: seq<Row>, row: Row)
    requires row.prevHash == LastHash(TenantRows(log, row.payload.input.tenantId))
    ensures LinkFits(log + [row], |log|)
  {
    var more, tenant := log + [row], row.payload.input.tenantId;
    var rows := TenantRows(log, tenant);
    if rows == [] {
      forall j | 0 <= j < |log| ensures log[j].payload.input.tenantId != tenant {
        if log[j].payload.input.tenantId == tenant {
          InTenantRows(log, tenant, j);
        }
      }
    } else {
      var j := TenantRowIn(log, tenant, Latest(rows));
      forall i | 0 <= i < |log| && log[i].payload.input.tenantId == tenant ensures Time(log[i]) <= Time(log[j]) {
        InTenantRows(log, tenant, i);
      }
      assert LatestBefore(more, |log|, j, tenant) && more[j] == log[j];
    }
  }

  /**
   Over every run the log holds one row per append, in order, telling what it was told; each row's hash is the
   digest of its link and its own encoding, and the link is the genesis hash or that of a latest earlier row of the
   same tenant.
   */
  lemma {:induction false} LogRecordsCalls(crypto: Crypto, calls: seq<AppendCall>, k: nat)
    requires k < |calls|
    ensures var log := LogOf(crypto, calls);
      |log| == |calls| && Records(crypto, log[k], calls[k]) && LinkFits(log, k)
  {
    var before := LogOf(crypto, calls[..|calls| - 1]);
    var row := LogSnoc(crypto, calls);
    LogLength(crypto, calls[..|calls| - 1]);
    if k < |calls| - 1 {
      LogRecordsCalls(crypto, calls[..|calls| - 1], k);
      LinkStillFits(before, row, k);
    } else {
      NextLinkFits(before, row);
    }
  }

  lemma LogSnoc(crypto: Crypto, calls: seq<AppendCall>) returns (row: Row)
    requires calls != []
    ensures var before, last := LogOf(crypto, calls[..|calls| - 1]), calls[|calls| - 1];
      && LogOf(crypto, calls) == before + [row] && Records(crypto, row, last)
      && row.prevHash == LastHash(TenantRows(before, row.payload.input.tenantId))
  {
    var last := calls[|calls| - 1];
    row := NewRow(crypto, LogOf(crypto, calls[..|calls| - 1]), last.input, last.eventId, last.now);
  }

  lemma {:induction false} LogLength(crypto: Crypto, calls: seq<AppendCall>)
    ensures |LogOf(crypto, calls)| == |calls|
  {
    if calls != [] {
      LogLength(crypto, calls[..|calls| - 1]);
    }
  }

  ghost predicate WrittenAt(crypto: Crypto, rows: seq<Row>, k: nat)
    requires k < |rows|
  {
    rows[k].prevHash == LastHash(rows[..k]) && rows[k].eventHash == Hash(crypto, rows[k].prevHash, rows[k].payload)
  }

  /** Each row of a tenant was linked to the latest row the tenant had at that moment. */
  ghost predicate Written(crypto: Crypto, rows: seq<Row>) {
    forall k :: 0 <= k < |rows| ==> WrittenAt(crypto, rows, k)
  }

  lemma WrittenAppend(crypto: Crypto, rows: seq<Row>, row: Row)
    requires Written(crypto, rows)
    requires row.prevHash == LastHash(rows) && row.eventHash == Hash(crypto, row.prevHash, row.payload)
    ensures Written(crypto, rows + [row])
  {
    var more := rows + [row];
    forall k | 0 <= k < |more| ensures WrittenAt(crypto, more, k) {
      if k < |rows| {
        assert more[..k] == rows[..k];
        assert WrittenAt(crypto, rows, k);
      } else {
        assert more[..k] == rows;
      }
    }
  }

  lemma TenantRowsAppend(log: seq<Row>, row: Row, tenant: string)
    ensures TenantRows(log + [row], tenant)
         == if row.payload.input.tenantId == tenant then TenantRows(log, tenant) + [row] else TenantRows(log, tenant)
  {
    assert (log + [row])[..|log|] == log;
  }

  /** Appends of other tenants are invisible, so every tenant's rows are written by the same rule. */
  lemma {:induction false} TenantsAreIsolated(crypto: Crypto, calls: seq<AppendCall>, tenant: string)
    ensures Written(crypto, TenantRows(LogOf(crypto, calls), tenant))
  {
    if calls != [] {
      var before := LogOf(crypto, calls[..|calls| - 1]);
      var call := calls[|calls| - 1];
      var row := NewRow(crypto, before, call.input, call.eventId, call.now);
      TenantsAreIsolated(crypto, calls[..|calls| - 1], tenant);
      TenantRowsAppend(before, row, tenant);
      if call.input.tenantId == tenant {
        WrittenAppend(crypto, TenantRows(before, tenant), row);
      }
    }
  }

  ghost predicate Increasing(rows: seq<Row>) {
    forall i, j :: 0 <= i < j < |rows| ==> Time(rows[i]) < Time(rows[j])
  }

  ghost predicate NonDecreasing(rows: seq<Row>) {
    forall i, j :: 0 <= i < j < |rows| ==> Time(rows[i]) <= Time(rows[j])
  }

  lemma {:induction false} InsertLast(row: Row, rows: seq<Row>)
    requires forall i :: 0 <= i < |rows| ==> Time(rows[i]) < Time(row)
    ensures InsertByTime(row, rows) == rows + [row]
  {
    if rows != [] {
      InsertLast(row, rows[1..]);
      assert [rows[0]] + (rows[1..] + [row]) == rows + [row];
    }
  }

  lemma {:induction false} IncreasingIsSorted(rows: seq<Row>)
    requires Increasing(rows)
    ensures ByTime(rows) == rows
  {
    if rows != [] {
      IncreasingIsSorted(rows[..|rows| - 1]);
      InsertLast(rows[|rows| - 1], rows[..|rows| - 1]);
    }
  }

  lemma LatestIsLast(rows: seq<Row>)
    requires rows != [] && Increasing(rows)
    ensures Latest(rows) == |rows| - 1
  {
  }

  lemma IncreasingVerifies(crypto: Crypto, rows: seq<Row>)
    requires Written(crypto, rows) && Increasing(rows)
    ensures ChainOk(crypto, ByTime(rows))
  {
    IncreasingIsSorted(rows);
    forall k | 0 <= k < |rows| ensures Link(crypto, rows, k) {
      IncreasingLink(crypto, rows, k);
    }
  }

  lemma IncreasingLink(crypto: Crypto, rows: seq<Row>, k: nat)
    requires Written(crypto, rows) && Increasing(rows) && k < |rows|
    ensures Link(crypto, rows, k)
  {
    assert WrittenAt(crypto, rows, k);
    if k > 0 {
      LatestIsLast(rows[..k]);
    }
  }

  /** With a clock that moves forward for each tenant, the log of any run verifies for every tenant. */
  lemma EveryRunVerifies(crypto: Crypto, calls: seq<AppendCall>, tenant: string)
    requires Increasing(TenantRows(LogOf(crypto, calls), tenant))
    ensures Verifies(crypto, LogOf(crypto, calls), tenant)
  {
    TenantsAreIsolated(crypto, calls, tenant);
    IncreasingVerifies(crypto, TenantRows(LogOf(crypto, calls), tenant));
  }

  // ---- The clock is what verification depends on ----------------------------------------------------

  lemma {:induction false} InsertKeeps(row: Row, rows: seq<Row>)
    requires NonDecreasing(rows)
    ensures NonDecreasing(InsertByTime(row, rows))
    ensures forall x :: x in InsertByTime(row, rows) <==> x == row || x in rows
  {
    if rows == [] || Time(row) < Time(rows[0]) {
    } else {
      InsertKeeps(row, rows[1..]);
      var rest := InsertByTime(row, rows[1..]);
      assert rows == [rows[0]] + rows[1..];
      forall k | 0 <= k < |rest| ensures Time(rows[0]) <= Time(rest[k]) {
        assert rest[k] in rest;
      }
    }
  }

  lemma {:induction false} ByTimeSorts(rows: seq<Row>)
    ensures NonDecreasing(ByTime(rows))
    ensures forall x :: x in ByTime(rows) <==> x in rows
  {
    if rows != [] {
      ByTimeSorts(rows[..|rows| - 1]);
      InsertKeeps(rows[|rows| - 1], ByTime(rows[..|rows| - 1]));
      assert rows == rows[..|rows| - 1] + [rows[|rows| - 1]];
    }
  }

  ghost predicate DistinctTimes(rows: seq<Row>) {
    forall i, j :: 0 <= i < j < |rows| ==> Time(rows[i]) != Time(rows[j])
  }

  /** The rows' own hashes do not collide, with each other or with the genesis value. */
  ghost predicate DistinctHashes(rows: seq<Row>) {
    && (forall i, j :: 0 <= i < j < |rows| ==> rows[i].eventHash != rows[j].eventHash)
    && (forall i :: 0 <= i < |rows| ==> rows[i].eventHash != Genesis())
  }

  ghost predicate Agree(rows: seq<Row>, sorted: seq<Row>, k: nat) {
    k <= |rows| == |sorted| && forall i :: 0 <= i < k ==> rows[i] == sorted[i]
  }

  /** A row that the chain accepts after the first k rows was written when exactly those k rows existed. */
  lemma LinkedRowComesNext(crypto: Crypto, rows: seq<Row>, sorted: seq<Row>, k: nat, j: nat)
    requires Written(crypto, rows) && DistinctHashes(rows) && Agree(rows, sorted, k)
    requires k <= j < |rows| && sorted[k] == rows[j] && Link(crypto, sorted, k)
    ensures k == 0 ==> j == 0
    ensures k > 0 ==> j > 0 && Latest(rows[..j]) == k - 1
  {
    assert WrittenAt(crypto, rows, j);
    if j > 0 {
      var m := Latest(rows[..j]);
      assert LastHash(rows[..j]) == rows[m].eventHash;
      if k > 0 {
        assert rows[m].eventHash == rows[k - 1].eventHash;
      }
    }
  }

  lemma NextRowAgrees(crypto: Crypto, rows: seq<Row>, sorted: seq<Row>, i: nat)
    requires Written(crypto, rows) && DistinctHashes(rows) && DistinctTimes(rows)
    requires Agree(rows, sorted, i) && i < |rows| && Increasing(sorted) && Link(crypto, sorted, i)
    requires sorted[i] in rows && rows[i] in sorted
    ensures rows[i] == sorted[i]
  {
    var j :| 0 <= j < |rows| && rows[j] == sorted[i];
    assert j >= i;
    LinkedRowComesNext(crypto, rows, sorted, i, j);
    if j > i {
      RestIsLater(rows, sorted, i);
      LatestBounds(rows, j, i);
    }
  }

  /** If the time-sorted rows form a chain, sorting changed nothing. */
  lemma {:induction false} ChainMeansInOrder(crypto: Crypto, rows: seq<Row>, k: nat)
    requires Written(crypto, rows) && DistinctHashes(rows) && DistinctTimes(rows)
    requires ChainOk(crypto, ByTime(rows)) && k <= |rows|
    ensures Agree(rows, ByTime(rows), k)
  {
    if k > 0 {
      ChainMeansInOrder(crypto, rows, k - 1);
      ByTimeSorts(rows);
      SortedIsStrict(rows);
      assert Link(crypto, ByTime(rows), k - 1);
      NextRowAgrees(crypto, rows, ByTime(rows), k - 1);
    }
  }

  lemma LatestBounds(rows: seq<Row>, j: nat, i: nat)
    requires i < j <= |rows|
    ensures Time(rows[i]) <= Time(rows[Latest(rows[..j])])
  {
    assert rows[..j][i] == rows[i];
  }

  /** Past the agreeing prefix every row is later than all of it. */
  lemma RestIsLater(rows: seq<Row>, sorted: seq<Row>, i: nat)
    requires Agree(rows, sorted, i) && 0 < i < |rows|
    requires DistinctTimes(rows) && Increasing(sorted) && rows[i] in sorted
    ensures Time(rows[i - 1]) < Time(rows[i])
  {
    var l :| 0 <= l < |sorted| && sorted[l] == rows[i];
    assert l >= i;
  }

  lemma {:induction false} SortedIsStrict(rows: seq<Row>)
    requires DistinctTimes(rows)
    ensures Increasing(ByTime(rows))
  {
    if rows != [] {
      var before, row := rows[..|rows| - 1], rows[|rows| - 1];
      SortedIsStrict(before);
      ByTimeSorts(before);
      forall x | x in ByTime(before) ensures Time(x) != Time(row) {
        assert x in before;
      }
      InsertStrict(row, ByTime(before));
    }
  }

  lemma {:induction false} InsertStrict(row: Row, rows: seq<Row>)
    requires Increasing(rows) && forall x :: x in rows ==> Time(x) != Time(row)
    ensures Increasing(InsertByTime(row, rows))
    ensures forall x :: x in InsertByTime(row, rows) ==> x == row || x in rows
  {
    if rows == [] || Time(row) < Time(rows[0]) {
    } else {
      assert rows[0] in rows;
      assert forall x :: x in rows[1..] ==> x in rows;
      InsertStrict(row, rows[1..]);
      var rest := InsertByTime(row, rows[1..]);
      forall k | 0 <= k < |rest| ensures Time(rows[0]) < Time(rest[k]) {
        assert rest[k] in rest;
      }
    }
  }

  /**
   A tenant's chain verifies exactly when its timestamps went strictly forward: one step back of the clock
   breaks verification of an untouched log (timestamps distinct, no hash collision in the log itself).
   */
  lemma VerifiesIffClockForward(crypto: Crypto, calls: seq<AppendCall>, tenant: string)
    requires DistinctTimes(TenantRows(LogOf(crypto, calls), tenant))
    requires DistinctHashes(TenantRows(LogOf(crypto, calls), tenant))
    ensures Verifies(crypto, LogOf(crypto, calls), tenant)
       <==> Increasing(TenantRows(LogOf(crypto, calls), tenant))
  {
    var rows := TenantRows(LogOf(crypto, calls), tenant);
    TenantsAreIsolated(crypto, calls, tenant);
    if Increasing(rows) {
      IncreasingVerifies(crypto, rows);
    }
    if Verifies(crypto, LogOf(crypto, calls), tenant) {
      ChainMeansInOrder(crypto, rows, |rows|);
      SortedIsStrict(rows);
      assert rows == ByTime(rows);
    }
  }

  // ---- Equal timestamps: any order the database may return ----------------------------------------------

  /** The row was linked to a latest row of its tenant, whichever of several with the same timestamp. */
  ghost predicate LinkedAt(crypto: Crypto, rows: seq<Row>, k: nat)
    requires k < |rows|
  {
    && rows[k].eventHash == Hash(crypto, rows[k].prevHash, rows[k].payload)
    && if k == 0 then rows[k].prevHash == Genesis()
       else exists j :: 0 <= j < k && rows[k].prevHash == rows[j].eventHash
                     && forall i :: 0 <= i < k ==> Time(rows[i]) <= Time(rows[j])
  }

  ghost predicate LinkedToLatest(crypto: Crypto, rows: seq<Row>) {
    forall k :: 0 <= k < |rows| ==> LinkedAt(crypto, rows, k)
  }

  lemma WrittenIsLinked(crypto: Crypto, rows: seq<Row>)
    requires Written(crypto, rows)
    ensures LinkedToLatest(crypto, rows)
  {
    forall k | 0 <= k < |rows| ensures LinkedAt(crypto, rows, k) {
      assert WrittenAt(crypto, rows, k);
      if k > 0 {
        var j := Latest(rows[..k]);
        assert rows[k].prevHash == rows[j].eventHash;
        forall i | 0 <= i < k ensures Time(rows[i]) <= Time(rows[j]) {
          LatestBounds(rows, k, i);
        }
      }
    }
  }

  lemma LinkedIsWritten(crypto: Crypto, rows: seq<Row>)
    requires LinkedToLatest(crypto, rows) && DistinctTimes(rows)
    ensures Written(crypto, rows)
  {
    forall k | 0 <= k < |rows| ensures WrittenAt(crypto, rows, k) {
      assert LinkedAt(crypto, rows, k);
      if k > 0 {
        var j :| 0 <= j < k && rows[k].prevHash == rows[j].eventHash
              && forall i :: 0 <= i < k ==> Time(rows[i]) <= Time(rows[j]);
        var l := Latest(rows[..k]);
        LatestBounds(rows, k, j);
        assert Time(rows[l]) == Time(rows[j]);
      }
    }
  }

  /** An order that `ORDER BY timestamp_ns ASC` may return: the same rows by time, equal times in any order. */
  ghost predicate IsTimeOrder(rows: seq<Row>, order: seq<Row>) {
    multiset(order) == multiset(rows) && NonDecreasing(order)
  }

  lemma {:induction false} InsertPermutes(row: Row, rows: seq<Row>)
    ensures multiset(InsertByTime(row, rows)) == multiset(rows) + multiset{row}
  {
    if rows == [] || Time(row) < Time(rows[0]) {
    } else {
      InsertPermutes(row, rows[1..]);
      assert rows == [rows[0]] + rows[1..];
    }
  }

  lemma ByTimeIsTimeOrder(rows: seq<Row>)
    ensures IsTimeOrder(rows, ByTime(rows))
  {
    ByTimeSorts(rows);
    ByTimePermutes(rows);
  }

  lemma {:induction false} ByTimePermutes(rows: seq<Row>)
    ensures multiset(ByTime(rows)) == multiset(rows)
  {
    if rows != [] {
      var before, last := rows[..|rows| - 1], rows[|rows| - 1];
      ByTimePermutes(before);
      InsertPermutes(last, ByTime(before));
      DropLast(rows);
      MultisetBack(multiset(before), multiset(rows), last);
    }
  }

  lemma SameMembers(rows: seq<Row>, order: seq<Row>, x: Row)
    requires multiset(order) == multiset(rows)
    ensures |order| == |rows| && (x in order <==> x in rows)
  {
    assert x in order <==> x in multiset(order);
    assert |multiset(order)| == |order| && |multiset(rows)| == |rows|;
  }

  lemma LastsAgree(rows: seq<Row>, order: seq<Row>)
    requires rows != [] && Increasing(rows) && IsTimeOrder(rows, order)
    ensures |order| == |rows| && order[|rows| - 1] == rows[|rows| - 1]
  {
    var n := |rows| - 1;
    SameMembers(rows, order, rows[n]);
    SameMembers(rows, order, order[n]);
    var j :| 0 <= j <= n && rows[j] == order[n];
    var i :| 0 <= i <= n && order[i] == rows[n];
  }

  lemma MultisetBack(before: multiset<Row>, all: multiset<Row>, last: Row)
    requires before == all - multiset{last} && last in all
    ensures before + multiset{last} == all
  {
  }

  lemma DropLast(rows: seq<Row>)
    requires rows != []
    ensures multiset(rows[..|rows| - 1]) == multiset(rows) - multiset{rows[|rows| - 1]}
  {
    assert rows == rows[..|rows| - 1] + [rows[|rows| - 1]];
  }

  lemma PrefixOrder(rows: seq<Row>, order: seq<Row>)
    requires rows != [] && Increasing(rows) && IsTimeOrder(rows, order)
    requires |order| == |rows| && order[|rows| - 1] == rows[|rows| - 1]
    ensures Increasing(rows[..|rows| - 1]) && IsTimeOrder(rows[..|rows| - 1], order[..|rows| - 1])
  {
    DropLast(rows);
    DropLast(order);
  }

  lemma FromPrefix(rows: seq<Row>, order: seq<Row>)
    requires rows != [] && |order| == |rows| && order[|rows| - 1] == rows[|rows| - 1]
    requires order[..|rows| - 1] == rows[..|rows| - 1]
    ensures order == rows
  {
    assert rows == rows[..|rows| - 1] + [rows[|rows| - 1]];
    assert order == order[..|rows| - 1] + [order[|rows| - 1]];
  }

  lemma NoRows(order: seq<Row>)
    requires multiset(order) == multiset([])
    ensures order == []
  {
    assert |multiset(order)| == |order|;
  }

  /** With strictly increasing timestamps there is only one order. */
  lemma {:induction false} OnlyOneOrder(rows: seq<Row>, order: seq<Row>)
    requires Increasing(rows) && IsTimeOrder(rows, order)
    ensures order == rows
  {
    if rows == [] {
      NoRows(order);
    } else {
      LastsAgree(rows, order);
      PrefixOrder(rows, order);
      OnlyOneOrder(rows[..|rows| - 1], order[..|rows| - 1]);
      FromPrefix(rows, order);
    }
  }

  lemma TwiceCounts(rows: seq<Row>, i: nat, j: nat)
    requires i < j < |rows| && rows[i] == rows[j]
    ensures multiset(rows)[rows[i]] >= 2
  {
    assert rows == rows[..j] + [rows[j]] + rows[j + 1..];
    assert rows[..j][i] == rows[i] && rows[i] in multiset(rows[..j]);
  }

  lemma {:induction false} OnceCounts(rows: seq<Row>, x: Row)
    requires DistinctHashes(rows)
    ensures multiset(rows)[x] <= 1
  {
    if rows != [] {
      var before, last := rows[..|rows| - 1], rows[|rows| - 1];
      OnceCounts(before, x);
      forall i | 0 <= i < |before| ensures before[i] != last {
        assert rows[i].eventHash != rows[|rows| - 1].eventHash;
      }
      assert rows == before + [last];
    }
  }

  lemma OrderKeepsDistinct(rows: seq<Row>, order: seq<Row>)
    requires DistinctHashes(rows) && IsTimeOrder(rows, order)
    ensures DistinctHashes(order)
  {
    forall i | 0 <= i < |order| ensures order[i].eventHash != Genesis() && order[i] in rows {
      SameMembers(rows, order, order[i]);
    }
    forall i, j | 0 <= i < j < |order| ensures order[i].eventHash != order[j].eventHash {
      if order[i].eventHash == order[j].eventHash {
        var a :| 0 <= a < |rows| && rows[a] == order[i];
        var b :| 0 <= b < |rows| && rows[b] == order[j];
        assert a == b;
        TwiceCounts(order, i, j);
        OnceCounts(rows, order[i]);
      }
    }
  }

  /** Rows p and p + 1 exchanged. */
  function Exchanged(rows: seq<Row>, p: nat): seq<Row>
    requires p + 1 < |rows|
  {
    rows[p := rows[p + 1]][p + 1 := rows[p]]
  }

  lemma ExchangeIsTimeOrder(rows: seq<Row>, order: seq<Row>, p: nat)
    requires IsTimeOrder(rows, order) && p + 1 < |order| && Time(order[p]) == Time(order[p + 1])
    ensures IsTimeOrder(rows, Exchanged(order, p))
  {
    var e := Exchanged(order, p);
    assert order == order[..p] + [order[p], order[p + 1]] + order[p + 2..];
    assert e == order[..p] + [order[p + 1], order[p]] + order[p + 2..];
    assert multiset([order[p], order[p + 1]]) == multiset([order[p + 1], order[p]]);
  }

  /** Of two neighbours and their exchange only one is a chain: the later row has one predecessor. */
  lemma TieBreaksSomeOrder(crypto: Crypto, order: seq<Row>, p: nat)
    requires DistinctHashes(order) && p + 1 < |order| && ChainOk(crypto, order)
    ensures !ChainOk(crypto, Exchanged(order, p))
  {
    var e := Exchanged(order, p);
    assert Link(crypto, order, p + 1);
    assert PrevOf(e, p) == PrevOf(order, p);
    assert PrevOf(order, p) != order[p].eventHash;
    assert !Link(crypto, e, p);
  }

  lemma {:induction false} TiesAreNeighbours(order: seq<Row>, i: nat, j: nat) returns (p: nat)
    requires NonDecreasing(order) && i < j < |order| && Time(order[i]) == Time(order[j])
    ensures p + 1 < |order| && Time(order[p]) == Time(order[p + 1])
  {
    p := i;
  }

  lemma NoTies(crypto: Crypto, rows: seq<Row>)
    requires DistinctHashes(rows)
    requires forall order :: IsTimeOrder(rows, order) ==> ChainOk(crypto, order)
    ensures DistinctTimes(rows)
  {
    var order := ByTime(rows);
    ByTimeIsTimeOrder(rows);
    OrderKeepsDistinct(rows, order);
    forall i, j | 0 <= i < j < |rows| ensures Time(rows[i]) != Time(rows[j]) {
      if Time(rows[i]) == Time(rows[j]) {
        SameMembers(rows, order, rows[i]);
        SameMembers(rows, order, rows[j]);
        var a :| 0 <= a < |order| && order[a] == rows[i];
        var b :| 0 <= b < |order| && order[b] == rows[j];
        assert rows[i].eventHash != rows[j].eventHash;
        var p := TiesAreNeighbours(order, Min(a, b), Max(a, b));
        ExchangeIsTimeOrder(rows, order, p);
        TieBreaksSomeOrder(crypto, order, p);
      }
    }
  }

  /**
   With equal timestamps allowed and whatever the database does with them, when appending and when verifying:
   the rows of a tenant verify in every order it may return exactly when the clock went strictly forward.
   */
  lemma VerifiesInEveryOrderIff(crypto: Crypto, rows: seq<Row>)
    requires LinkedToLatest(crypto, rows) && DistinctHashes(rows)
    ensures (forall order :: IsTimeOrder(rows, order) ==> ChainOk(crypto, order)) <==> Increasing(rows)
  {
    ByTimeIsTimeOrder(rows);
    if forall order :: IsTimeOrder(rows, order) ==> ChainOk(crypto, order) {
      NoTies(crypto, rows);
      LinkedIsWritten(crypto, rows);
      ChainMeansInOrder(crypto, rows, |rows|);
      SortedIsStrict(rows);
      assert rows == ByTime(rows);
    }
    if Increasing(rows) {
      LinkedIsWritten(crypto, rows);
      IncreasingVerifies(crypto, rows);
      IncreasingIsSorted(rows);
      forall order | IsTimeOrder(rows, order) ensures ChainOk(crypto, order) {
        OnlyOneOrder(rows, order);
      }
    }
  }

  /** In particular for the log of any run. */
  lemma LogVerifiesInEveryOrderIff(crypto: Crypto, calls: seq<AppendCall>, tenant: string)
    requires DistinctHashes(TenantRows(LogOf(crypto, calls), tenant))
    ensures var rows := TenantRows(LogOf(crypto, calls), tenant);
      (forall order :: IsTimeOrder(rows, order) ==> ChainOk(crypto, order)) <==> Increasing(rows)
  {
    TenantsAreIsolated(crypto, calls, tenant);
    WrittenIsLinked(crypto, TenantRows(LogOf(crypto, calls), tenant));
    VerifiesInEveryOrderIff(crypto, TenantRows(LogOf(crypto, calls), tenant));
  }

  // ---- Tamper evidence ----------------------------------------------------------------------------------

  ghost predicate HashLength(h: string) {
    |h| == 8 + DIGEST_LENGTH
  }

  /** What was fed to the digest for row k. */
  function Preimage(crypto: Crypto, rows: seq<Row>, k: nat): string
    requires k < |rows|
  {
    PrevOf(rows, k) + crypto.canonicalJson(rows[k].payload)
  }

  /** A digest collision between the inputs of two rows, one from each chain. */
  ghost predicate Collision(crypto: Crypto, a: seq<Row>, i: nat, b: seq<Row>, j: nat) {
    && i < |a| && j < |b| && Preimage(crypto, a, i) != Preimage(crypto, b, j)
    && crypto.digest(Preimage(crypto, a, i)) == crypto.digest(Preimage(crypto, b, j))
  }

  /** A row whose digest is the genesis value. */
  ghost predicate HitsGenesis(crypto: Crypto, a: seq<Row>, i: nat) {
    i < |a| && crypto.digest(Preimage(crypto, a, i)) == seq(DIGEST_LENGTH, _ => '0')
  }

  /** These two chains together exhibit a failure of the digest. */
  ghost predicate Broken(crypto: Crypto, a: seq<Row>, b: seq<Row>) {
    || (exists i, j :: Collision(crypto, a, i, b, j))
    || (exists i :: HitsGenesis(crypto, a, i))
    || (exists i :: HitsGenesis(crypto, b, i))
  }

  lemma PrevLength(crypto: Crypto, rows: seq<Row>, k: nat)
    requires ValidCrypto(crypto) && ChainOk(crypto, rows) && k <= |rows|
    ensures HashLength(PrevOf(rows, k))
  {
    if k > 0 {
      assert Link(crypto, rows, k - 1);
    }
  }

  lemma DigestOf(crypto: Crypto, rows: seq<Row>, k: nat)
    requires ChainOk(crypto, rows) && k < |rows|
    ensures |rows[k].eventHash| >= 8 && rows[k].eventHash[8..] == crypto.digest(Preimage(crypto, rows, k))
  {
    assert Link(crypto, rows, k);
  }

  lemma NotGenesis(crypto: Crypto, rows: seq<Row>, k: nat)
    requires ChainOk(crypto, rows) && k < |rows| && !HitsGenesis(crypto, rows, k)
    ensures rows[k].eventHash != Genesis()
  {
    DigestOf(crypto, rows, k);
    assert Genesis()[8..] == seq(DIGEST_LENGTH, _ => '0');
  }

  /** The previous hash has a fixed length, so concatenating it with the payload is unambiguous. */
  lemma SameHashSameRow(crypto: Crypto, a: seq<Row>, i: nat, b: seq<Row>, j: nat)
    requires ValidCrypto(crypto) && ChainOk(crypto, a) && ChainOk(crypto, b) && i < |a| && j < |b|
    requires a[i].eventHash == b[j].eventHash && !Collision(crypto, a, i, b, j)
    ensures PrevOf(a, i) == PrevOf(b, j) && a[i] == b[j]
  {
    DigestOf(crypto, a, i);
    DigestOf(crypto, b, j);
    PrevLength(crypto, a, i);
    PrevLength(crypto, b, j);
    var x, y, n := Preimage(crypto, a, i), Preimage(crypto, b, j), 8 + DIGEST_LENGTH;
    assert x[..n] == PrevOf(a, i) && y[..n] == PrevOf(b, j);
    assert x[n..] == crypto.canonicalJson(a[i].payload) && y[n..] == crypto.canonicalJson(b[j].payload);
    assert Link(crypto, a, i) && Link(crypto, b, j);
  }

  /** Walking both chains back from a common hash, row by row, until both reach genesis together. */
  lemma {:induction false} SameHeadSameChain(crypto: Crypto, a: seq<Row>, m: nat, b: seq<Row>, n: nat)
    requires ValidCrypto(crypto) && ChainOk(crypto, a) && ChainOk(crypto, b) && !Broken(crypto, a, b)
    requires m <= |a| && n <= |b| && PrevOf(a, m) == PrevOf(b, n)
    ensures m == n && a[..m] == b[..n]
    decreases m
  {
    if m > 0 {
      NotGenesis(crypto, a, m - 1);
    }
    if n > 0 {
      NotGenesis(crypto, b, n - 1);
    }
    if m > 0 && n > 0 {
      SameHashSameRow(crypto, a, m - 1, b, n - 1);
      SameHeadSameChain(crypto, a, m - 1, b, n - 1);
      assert a[..m] == a[..m - 1] + [a[m - 1]] && b[..n] == b[..n - 1] + [b[n - 1]];
    }
  }

  /**
   Tamper evidence: two chains that both verify and end in the same pinned head hash are the same sequence
   of rows, or their own rows exhibit a digest collision. So any edit, insertion, deletion or reordering
   before a pinned head is detected unless the digest itself was broken on the rows involved.
   */
  lemma TamperNeedsCollision(crypto: Crypto, original: seq<Row>, tampered: seq<Row>)
    requires ValidCrypto(crypto) && ChainOk(crypto, original) && ChainOk(crypto, tampered)
    requires PrevOf(original, |original|) == PrevOf(tampered, |tampered|)
    ensures original == tampered || Broken(crypto, original, tampered)
  {
    if !Broken(crypto, original, tampered) {
      SameHeadSameChain(crypto, original, |original|, tampered, |tampered|);
      assert original[..|original|] == original && tampered[..|tampered|] == tampered;
    }
  }
}
