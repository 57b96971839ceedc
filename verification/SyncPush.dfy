/** The push phase of `SyncEngine.syncOnce` (`mobile/src/sync/engine.ts`). */
module SyncPush {
  import opened SyncSchema
  import opened SyncStore

  /** A server id issued for a pushed local row. */
  datatype Issued = Issued(table: string, id: nat, sid: string)

  datatype Rejection = Rejection(table: string, id: nat, reason: string)

  datatype PushResult = PushResult(serverIds: seq<Issued>, rejected: seq<Rejection>, timestamp: string)

  // ---- The payload --------------------------------------------------------------------------------------------

  predicate IsCreate(row: Row) {
    Status(row) == CREATED
  }

  predicate IsUpdate(row: Row) {
    Status(row) == UPDATED && ServerIdOf(row) != ""
  }

  predicate IsDelete(row: Row) {
    Status(row) == DELETED && ServerIdOf(row) != ""
  }

  /** The dirty rows a push can name to the server. */
  predicate Addressable(row: Row) {
    IsCreate(row) || IsUpdate(row) || IsDelete(row)
  }

  function Creates(dirty: seq<Entry>): seq<Entry> {
    if dirty == [] then []
    else
      var last := dirty[|dirty| - 1];
      Creates(dirty[..|dirty| - 1]) + if IsCreate(last.row) then [last] else []
  }

  function Updates(dirty: seq<Entry>): seq<Entry> {
    if dirty == [] then []
    else
      var last := dirty[|dirty| - 1];
      Updates(dirty[..|dirty| - 1]) + if IsUpdate(last.row) then [last] else []
  }

  function Deletes(dirty: seq<Entry>): seq<string> {
    if dirty == [] then []
    else
      var last := dirty[|dirty| - 1];
      Deletes(dirty[..|dirty| - 1]) + if IsDelete(last.row) then [ServerIdOf(last.row)] else []
  }

  function BucketOf(table: string, dirty: seq<Entry>): Bucket {
    Bucket(table, Creates(dirty), Updates(dirty), Deletes(dirty))
  }

  /** The bucket is what some listing of the table's dirty rows gives. */
  ghost predicate Collected(st: Store, b: Bucket) {
    exists dirty :: ListsDirty(st, b.table, dirty) && dirty != [] && b == BucketOf(b.table, dirty)
  }

  ghost predicate HasDirty(st: Store, table: string) {
    exists key :: key in st.rows && key.table == table && Dirty(st.rows[key])
  }

  /** One bucket for each of `tables` that has dirty rows, in their order. */
  ghost predicate Gathers(st: Store, tables: seq<string>, payload: Payload) {
    if tables == [] then payload == []
    else if HasDirty(st, tables[|tables| - 1]) then
      && payload != [] && payload[|payload| - 1].table == tables[|tables| - 1] && Collected(st, payload[|payload| - 1])
      && Gathers(st, tables[..|tables| - 1], payload[..|payload| - 1])
    else Gathers(st, tables[..|tables| - 1], payload)
  }

  method SplitDirty(table: string, dirty: seq<Entry>) returns (b: Bucket)
    ensures b == BucketOf(table, dirty)
  {
    var created, updated, deleted := [], [], [];
    for i := 0 to |dirty|
      invariant created == Creates(dirty[..i]) && updated == Updates(dirty[..i]) && deleted == Deletes(dirty[..i])
    {
      var e := dirty[i];
      assert dirty[..i + 1][..i] == dirty[..i];
      if Status(e.row) == CREATED {
        created := created + [e];
      } else if Status(e.row) == UPDATED && ServerIdOf(e.row) != "" {
        updated := updated + [e];
      } else if Status(e.row) == DELETED && ServerIdOf(e.row) != "" {
        deleted := deleted + [ServerIdOf(e.row)];
      }
    }
    assert dirty[..|dirty|] == dirty;
    b := Bucket(table, created, updated, deleted);
  }

  lemma ListingShowsDirty(st: Store, table: string, dirty: seq<Entry>)
    requires ListsDirty(st, table, dirty)
    ensures dirty != [] <==> HasDirty(st, table)
  {
    if dirty != [] {
      assert dirty[0] in dirty;
      assert Key(table, dirty[0].id) in st.rows;
    }
    if key :| key in st.rows && key.table == table && Dirty(st.rows[key]) {
      assert Entry(key.id, st.rows[key]) in dirty;
    }
  }

  method GatherPayload(store: LocalStore) returns (payload: Payload)
    ensures Gathers(store.State(), PushableTables(), payload)
  {
    payload := [];
    var tables := PushableTables();
    for i := 0 to |tables|
      invariant Gathers(store.State(), tables[..i], payload)
    {
      assert tables[..i + 1][..i] == tables[..i];
      var dirty := store.CollectDirty(tables[i]);
      ListingShowsDirty(store.State(), tables[i], dirty);
      if dirty != [] {
        var b := SplitDirty(tables[i], dirty);
        ghost var before := payload;
        payload := payload + [b];
        assert payload[..|payload| - 1] == before;
      }
    }
    assert tables[..|tables|] == tables;
  }

  // ---- What the payload holds ---------------------------------------------------------------------------------

  lemma {:induction false} BucketMembers(table: string, dirty: seq<Entry>, e: Entry)
    ensures e in Creates(dirty) <==> e in dirty && IsCreate(e.row)
    ensures e in Updates(dirty) <==> e in dirty && IsUpdate(e.row)
  {
    if dirty != [] {
      BucketMembers(table, dirty[..|dirty| - 1], e);
      assert dirty == dirty[..|dirty| - 1] + [dirty[|dirty| - 1]];
    }
  }

  lemma {:induction false} BucketDistinct(dirty: seq<Entry>)
    requires DistinctIds(dirty)
    ensures DistinctIds(Creates(dirty)) && DistinctIds(Updates(dirty))
  {
    if dirty != [] {
      var before := dirty[..|dirty| - 1];
      BucketDistinct(before);
      forall e | e in Creates(before) || e in Updates(before) ensures e.id != dirty[|dirty| - 1].id {
        BucketMembers("", before, e);
      }
    }
  }

  ghost predicate NoDuplicates(sids: seq<string>) {
    forall i, j :: 0 <= i < j < |sids| ==> sids[i] != sids[j]
  }

  ghost predicate TombstonesDiffer(dirty: seq<Entry>) {
    forall i, j :: 0 <= i < j < |dirty| && IsDelete(dirty[i].row) && IsDelete(dirty[j].row) ==>
      ServerIdOf(dirty[i].row) != ServerIdOf(dirty[j].row)
  }

  lemma {:induction false} DeletesMembers(dirty: seq<Entry>, sid: string)
    ensures sid in Deletes(dirty) <==>
      exists i :: 0 <= i < |dirty| && IsDelete(dirty[i].row) && ServerIdOf(dirty[i].row) == sid
  {
    if dirty != [] {
      var before, last := dirty[..|dirty| - 1], dirty[|dirty| - 1];
      DeletesMembers(before, sid);
      if i :| 0 <= i < |dirty| && IsDelete(dirty[i].row) && ServerIdOf(dirty[i].row) == sid && i < |before| {
        assert before[i] == dirty[i];
      }
    }
  }

  lemma {:induction false} DeletesDistinct(dirty: seq<Entry>)
    requires TombstonesDiffer(dirty)
    ensures NoDuplicates(Deletes(dirty))
  {
    if dirty != [] {
      var before, last := dirty[..|dirty| - 1], dirty[|dirty| - 1];
      DeletesDistinct(before);
      DeletesMembers(before, ServerIdOf(last.row));
    }
  }

  /** Entry e is a row of the store. */
  ghost predicate Holds(st: Store, table: string, e: Entry) {
    Key(table, e.id) in st.rows && st.rows[Key(table, e.id)] == e.row
  }

  ghost predicate Tombstoned(st: Store, table: string, e: Entry, sid: string) {
    Holds(st, table, e) && IsDelete(e.row) && ServerIdOf(e.row) == sid
  }

  /** The bucket holds each addressable dirty row of its table exactly once, and nothing else. */
  ghost predicate Exact(st: Store, b: Bucket) {
    && DistinctIds(b.created) && DistinctIds(b.updated) && NoDuplicates(b.deleted)
    && (forall e :: e in b.created <==> Holds(st, b.table, e) && IsCreate(e.row))
    && (forall e :: e in b.updated <==> Holds(st, b.table, e) && IsUpdate(e.row))
    && (forall sid :: sid in b.deleted <==> exists e :: Tombstoned(st, b.table, e, sid))
  }

  lemma ListedTombstonesDiffer(st: Store, table: string, dirty: seq<Entry>)
    requires IndexComplete(st) && ListsDirty(st, table, dirty)
    ensures TombstonesDiffer(dirty)
  {
    forall i, j | 0 <= i < j < |dirty| && IsDelete(dirty[i].row) && IsDelete(dirty[j].row)
      ensures ServerIdOf(dirty[i].row) != ServerIdOf(dirty[j].row)
    {
      assert dirty[i] in dirty && dirty[j] in dirty;
      assert Key(table, dirty[i].id) in st.rows && Key(table, dirty[j].id) in st.rows;
    }
  }

  lemma CollectedIsExact(st: Store, b: Bucket)
    requires IndexComplete(st) && Collected(st, b)
    ensures Exact(st, b)
  {
    var dirty: seq<Entry> :| ListsDirty(st, b.table, dirty) && dirty != [] && b == BucketOf(b.table, dirty);
    BucketDistinct(dirty);
    ListedTombstonesDiffer(st, b.table, dirty);
    DeletesDistinct(dirty);
    forall e ensures e in b.created <==> Holds(st, b.table, e) && IsCreate(e.row)
             ensures e in b.updated <==> Holds(st, b.table, e) && IsUpdate(e.row) {
      BucketMembers(b.table, dirty, e);
    }
    forall sid ensures sid in b.deleted <==> exists e :: Tombstoned(st, b.table, e, sid) {
      DeletesMembers(dirty, sid);
      if sid in b.deleted {
        var i :| 0 <= i < |dirty| && IsDelete(dirty[i].row) && ServerIdOf(dirty[i].row) == sid;
        assert dirty[i] in dirty;
        assert Tombstoned(st, b.table, dirty[i], sid);
      }
      if e :| Tombstoned(st, b.table, e, sid) {
        assert e in dirty;
      }
    }
  }

  ghost predicate AllExact(st: Store, payload: Payload) {
    forall i :: 0 <= i < |payload| ==> Exact(st, payload[i])
  }

  ghost predicate HasBucket(payload: Payload, table: string) {
    exists i :: 0 <= i < |payload| && payload[i].table == table
  }

  ghost predicate OneBucketPerTable(payload: Payload) {
    forall i, j :: 0 <= i < j < |payload| ==> payload[i].table != payload[j].table
  }

  lemma HasBucketAppend(rest: Payload, b: Bucket, table: string)
    ensures HasBucket(rest + [b], table) <==> HasBucket(rest, table) || b.table == table
  {
    var payload := rest + [b];
    assert payload[|rest|] == b;
    if i :| 0 <= i < |rest| && rest[i].table == table {
      assert payload[i].table == table;
    }
  }

  lemma {:induction false} PayloadTables(st: Store, tables: seq<string>, payload: Payload, table: string)
    requires Gathers(st, tables, payload)
    ensures HasBucket(payload, table) <==> table in tables && HasDirty(st, table)
  {
    if tables != [] {
      var before, last := tables[..|tables| - 1], tables[|tables| - 1];
      if HasDirty(st, last) {
        var rest, b := payload[..|payload| - 1], payload[|payload| - 1];
        PayloadTables(st, before, rest, table);
        HasBucketAppend(rest, b, table);
        assert payload == rest + [b];
      } else {
        PayloadTables(st, before, payload, table);
      }
      assert tables == before + [last];
    }
  }

  lemma {:induction false} PayloadBuckets(st: Store, tables: seq<string>, payload: Payload)
    requires IndexComplete(st) && Gathers(st, tables, payload)
    ensures AllExact(st, payload)
  {
    if tables != [] {
      var before, last := tables[..|tables| - 1], tables[|tables| - 1];
      if HasDirty(st, last) {
        PayloadBuckets(st, before, payload[..|payload| - 1]);
        CollectedIsExact(st, payload[|payload| - 1]);
      } else {
        PayloadBuckets(st, before, payload);
      }
    }
  }

  ghost predicate Distinct(tables: seq<string>) {
    forall i, j :: 0 <= i < j < |tables| ==> tables[i] != tables[j]
  }

  lemma {:induction false} PayloadOnce(st: Store, tables: seq<string>, payload: Payload)
    requires Gathers(st, tables, payload) && Distinct(tables)
    ensures OneBucketPerTable(payload)
  {
    if tables != [] {
      var before, last := tables[..|tables| - 1], tables[|tables| - 1];
      if HasDirty(st, last) {
        var rest := payload[..|payload| - 1];
        PayloadOnce(st, before, rest);
        PayloadTables(st, before, rest, last);
        assert forall i :: 0 <= i < |rest| ==> payload[i] == rest[i];
      } else {
        PayloadOnce(st, before, payload);
      }
    }
  }

  /**
   The payload holds exactly the addressable dirty rows of the pushable tables, each once: one exact bucket
   for each such table that has dirty rows.
   */
  lemma PayloadIsExact(st: Store, payload: Payload, table: string)
    requires IndexComplete(st) && Gathers(st, PushableTables(), payload)
    ensures AllExact(st, payload) && OneBucketPerTable(payload)
    ensures HasBucket(payload, table) <==> table in PushableTables() && HasDirty(st, table)
  {
    PayloadBuckets(st, PushableTables(), payload);
    PayloadOnce(st, PushableTables(), payload);
    PayloadTables(st, PushableTables(), payload, table);
  }

  /** Consent records are never pushed. */
  lemma ConsentIsNeverPushed(st: Store, payload: Payload)
    requires IndexComplete(st) && Gathers(st, PushableTables(), payload)
    ensures !HasBucket(payload, "consent_records")
  {
    PayloadIsExact(st, payload, "consent_records");
  }

  // ---- After the push -----------------------------------------------------------------------------------------

  /** A pushed update to mark synced, or a pushed tombstone to drop. */
  datatype Receipt = Cleared(table: string, sid: string) | Removed(table: string, sid: string)

  function UpdateReceipts(table: string, updated: seq<Entry>): seq<Receipt> {
    seq(|updated|, i requires 0 <= i < |updated| => Cleared(table, ServerIdOf(updated[i].row)))
  }

  function DeleteReceipts(table: string, deleted: seq<string>): seq<Receipt> {
    seq(|deleted|, i requires 0 <= i < |deleted| => Removed(table, deleted[i]))
  }

  function BucketReceipts(b: Bucket): seq<Receipt> {
    UpdateReceipts(b.table, b.updated) + DeleteReceipts(b.table, b.deleted)
  }

  function Receipts(payload: Payload): seq<Receipt> {
    if payload == [] then [] else Receipts(payload[..|payload| - 1]) + BucketReceipts(payload[|payload| - 1])
  }

  function NameAll(st: Store, issued: seq<Issued>): Store {
    if issued == [] then st
    else
      var last := issued[|issued| - 1];
      Created(NameAll(st, issued[..|issued| - 1]), last.table, last.id, last.sid)
  }

  function Settle(st: Store, r: Receipt): Store {
    match r
    case Cleared(table, sid) => Updated(st, table, sid)
    case Removed(table, sid) => Deleted(st, table, sid)
  }

  function SettleAll(st: Store, receipts: seq<Receipt>): Store {
    if receipts == [] then st else Settle(SettleAll(st, receipts[..|receipts| - 1]), receipts[|receipts| - 1])
  }

  function Confirmed(st: Store, payload: Payload, result: PushResult): Store {
    var settled := SettleAll(NameAll(st, result.serverIds), Receipts(payload));
    if result.timestamp == "" then settled else settled.(cursor := result.timestamp)
  }

  predicate IsNamed(issued: seq<Issued>, key: Key) {
    exists i :: 0 <= i < |issued| && issued[i].table == key.table && issued[i].id == key.id
  }

  /** The server issued this id to another row of the store. */
  ghost predicate IssuedElsewhere(st: Store, issued: seq<Issued>, key: Key, sid: string) {
    exists i :: 0 <= i < |issued| && issued[i].table == key.table && issued[i].id != key.id
             && issued[i].sid == sid && Key(key.table, issued[i].id) in st.rows
  }

  ghost predicate Points(st: Store, key: Key, sid: string) {
    Ref(key.table, sid) in st.index && st.index[Ref(key.table, sid)] == key.id
  }

  /** The row is gone or synced. */
  ghost predicate Cleaned(st: Store, key: Key) {
    key in st.rows ==> !Dirty(st.rows[key])
  }

  /** Naming cleans the named rows, and another row is found under its id unless that id is issued again. */
  lemma {:induction false} NamingEffect(st: Store, issued: seq<Issued>, key: Key)
    requires key in st.rows
    ensures var after := NameAll(st, issued);
      && after.rows.Keys == st.rows.Keys
      && if IsNamed(issued, key) then Cleaned(after, key)
         else && after.rows[key] == st.rows[key]
              && forall sid :: sid != "" ==>
                   (Points(after, key, sid) <==> Points(st, key, sid) && !IssuedElsewhere(st, issued, key, sid))
  {
    if issued != [] {
      var before, last := issued[..|issued| - 1], issued[|issued| - 1];
      NamingEffect(st, before, key);
      NamedAppend(st, before, last, key);
      assert issued == before + [last];
      CreatedEffect(NameAll(st, before), last.table, last.id, last.sid, key);
    }
  }

  lemma CreatedEffect(st: Store, table: string, id: nat, sid: string, key: Key)
    requires key in st.rows
    ensures var after := Created(st, table, id, sid);
      && after.rows.Keys == st.rows.Keys
      && if Key(table, id) == key then Cleaned(after, key)
         else && after.rows[key] == st.rows[key]
              && forall s :: s != "" ==>
                   (Points(after, key, s) <==>
                    Points(st, key, s) && !(table == key.table && sid == s && Key(table, id) in st.rows))
  {
  }

  lemma NamedAppend(st: Store, before: seq<Issued>, last: Issued, key: Key)
    ensures IsNamed(before + [last], key) <==> IsNamed(before, key) || (last.table == key.table && last.id == key.id)
    ensures forall sid :: IssuedElsewhere(st, before + [last], key, sid) <==>
      || IssuedElsewhere(st, before, key, sid)
      || (last.table == key.table && last.id != key.id && last.sid == sid && Key(key.table, last.id) in st.rows)
  {
    var issued := before + [last];
    assert issued[|before|] == last;
    assert forall i :: 0 <= i < |before| ==> issued[i] == before[i];
  }

  ghost predicate Mentions(receipts: seq<Receipt>, table: string, sid: string) {
    Cleared(table, sid) in receipts || Removed(table, sid) in receipts
  }

  lemma SettleEffect(st: Store, r: Receipt, key: Key)
    requires key in st.rows
    ensures var after := Settle(st, r);
      if r.table == key.table && Points(st, key, r.sid) then Cleaned(after, key)
      else && key in after.rows && after.rows[key] == st.rows[key]
           && forall sid :: Points(after, key, sid) <==> Points(st, key, sid)
  {
  }

  lemma {:induction false} CleanedStays(st: Store, receipts: seq<Receipt>, key: Key)
    requires Cleaned(st, key)
    ensures Cleaned(SettleAll(st, receipts), key)
  {
    if receipts != [] {
      CleanedStays(st, receipts[..|receipts| - 1], key);
    }
  }

  /** A row that no receipt finds stays as it is. */
  lemma {:induction false} UnmentionedStays(st: Store, receipts: seq<Receipt>, key: Key)
    requires key in st.rows && forall sid :: Points(st, key, sid) ==> !Mentions(receipts, key.table, sid)
    ensures var after := SettleAll(st, receipts);
      && key in after.rows && after.rows[key] == st.rows[key]
      && forall sid :: Points(after, key, sid) ==> Points(st, key, sid)
  {
    if receipts != [] {
      var before, last := receipts[..|receipts| - 1], receipts[|receipts| - 1];
      assert receipts == before + [last];
      UnmentionedStays(st, before, key);
      assert Mentions(receipts, last.table, last.sid);
      SettleEffect(SettleAll(st, before), last, key);
    }
  }

  lemma {:induction false} MentionedIsCleaned(st: Store, receipts: seq<Receipt>, key: Key, sid: string)
    requires key in st.rows && Points(st, key, sid)
    ensures var after := SettleAll(st, receipts);
      Cleaned(after, key) || (key in after.rows && Points(after, key, sid) && !Mentions(receipts, key.table, sid))
  {
    if receipts != [] {
      var before, last := receipts[..|receipts| - 1], receipts[|receipts| - 1];
      assert receipts == before + [last];
      MentionedIsCleaned(st, before, key, sid);
      if Cleaned(SettleAll(st, before), key) {
        CleanedStays(SettleAll(st, before), [last], key);
      } else {
        SettleEffect(SettleAll(st, before), last, key);
      }
    }
  }

  lemma BucketMentions(b: Bucket, table: string, sid: string)
    ensures Mentions(BucketReceipts(b), table, sid) <==>
      b.table == table && (sid in b.deleted || exists e :: e in b.updated && ServerIdOf(e.row) == sid)
  {
    var receipts := BucketReceipts(b);
    if e :| b.table == table && e in b.updated && ServerIdOf(e.row) == sid {
      var i :| 0 <= i < |b.updated| && b.updated[i] == e;
      assert receipts[i] == Cleared(table, sid);
    }
    if b.table == table && sid in b.deleted {
      var i :| 0 <= i < |b.deleted| && b.deleted[i] == sid;
      assert receipts[|b.updated| + i] == Removed(table, sid);
    }
  }

  ghost predicate BucketMentioning(payload: Payload, table: string, sid: string) {
    exists i :: 0 <= i < |payload| && Mentions(BucketReceipts(payload[i]), table, sid)
  }

  lemma {:induction false} ReceiptsMention(payload: Payload, table: string, sid: string)
    ensures Mentions(Receipts(payload), table, sid) <==> BucketMentioning(payload, table, sid)
  {
    if payload != [] {
      var before, last := payload[..|payload| - 1], payload[|payload| - 1];
      ReceiptsMention(before, table, sid);
      assert forall i :: 0 <= i < |before| ==> payload[i] == before[i];
      if Mentions(BucketReceipts(last), table, sid) {
        assert BucketMentioning(payload, table, sid);
      }
      if i :| 0 <= i < |payload| && Mentions(BucketReceipts(payload[i]), table, sid) && i < |before| {
        assert BucketMentioning(before, table, sid);
      }
    }
  }

  lemma PushedRowIsMentioned(st: Store, payload: Payload, key: Key)
    requires Consistent(st) && Gathers(st, PushableTables(), payload)
    requires key in st.rows && key.table in PushableTables() && (IsUpdate(st.rows[key]) || IsDelete(st.rows[key]))
    ensures BucketMentioning(payload, key.table, ServerIdOf(st.rows[key]))
  {
    var row := st.rows[key];
    var sid, entry := ServerIdOf(row), Entry(key.id, row);
    PayloadIsExact(st, payload, key.table);
    assert HasDirty(st, key.table);
    var i :| 0 <= i < |payload| && payload[i].table == key.table;
    assert Exact(st, payload[i]) && Holds(st, key.table, entry);
    assert IsDelete(row) ==> Tombstoned(st, key.table, entry, sid);
    BucketMentions(payload[i], key.table, sid);
  }

  lemma MentionedRowIsPushed(st: Store, b: Bucket, key: Key)
    requires Consistent(st) && Exact(st, b) && key in st.rows && ServerIdOf(st.rows[key]) != ""
    requires Mentions(BucketReceipts(b), key.table, ServerIdOf(st.rows[key]))
    ensures IsUpdate(st.rows[key]) || IsDelete(st.rows[key])
  {
    var sid := ServerIdOf(st.rows[key]);
    BucketMentions(b, key.table, sid);
    if sid in b.deleted {
      var e :| Tombstoned(st, key.table, e, sid);
      assert Key(key.table, e.id) in st.rows;
    } else {
      var e :| e in b.updated && ServerIdOf(e.row) == sid;
      assert Key(key.table, e.id) in st.rows;
    }
  }

  /** The id of a row is settled by a receipt exactly when the row is a pushed update or tombstone. */
  lemma RowIsMentionedIff(st: Store, payload: Payload, key: Key)
    requires Consistent(st) && Gathers(st, PushableTables(), payload)
    requires key in st.rows && key.table in PushableTables() && ServerIdOf(st.rows[key]) != ""
    ensures Mentions(Receipts(payload), key.table, ServerIdOf(st.rows[key])) <==>
      IsUpdate(st.rows[key]) || IsDelete(st.rows[key])
  {
    var sid := ServerIdOf(st.rows[key]);
    ReceiptsMention(payload, key.table, sid);
    if BucketMentioning(payload, key.table, sid) {
      var i :| 0 <= i < |payload| && Mentions(BucketReceipts(payload[i]), key.table, sid);
      PayloadBuckets(st, PushableTables(), payload);
      MentionedRowIsPushed(st, payload[i], key);
    } else if IsUpdate(st.rows[key]) || IsDelete(st.rows[key]) {
      PushedRowIsMentioned(st, payload, key);
    }
  }

  /** The push leaves this dirty row pending. */
  ghost predicate LeftPending(st: Store, issued: seq<Issued>, key: Key)
    requires key in st.rows
  {
    && !IsNamed(issued, key)
    && (IsCreate(st.rows[key]) || IssuedElsewhere(st, issued, key, ServerIdOf(st.rows[key])))
  }

  lemma OnlyOwnId(st: Store, key: Key, sid: string)
    requires Consistent(st) && key in st.rows && Points(st, key, sid)
    ensures sid != "" && sid == ServerIdOf(st.rows[key])
  {
    assert Ref(key.table, sid) in st.index;
  }

  /**
   An addressable dirty row stays exactly as it is when it is a created row the server did not name, or an
   unnamed row whose server id was issued to another one; in every other case it is gone or synced. What the
   server rejected plays no part.
   */
  lemma RowStaysPendingIff(st: Store, payload: Payload, result: PushResult, key: Key)
    requires Consistent(st) && Gathers(st, PushableTables(), payload)
    requires key in st.rows && key.table in PushableTables() && Addressable(st.rows[key])
    ensures var after := Confirmed(st, payload, result);
      if LeftPending(st, result.serverIds, key) then key in after.rows && after.rows[key] == st.rows[key]
      else Cleaned(after, key)
  {
    var issued, receipts, sid := result.serverIds, Receipts(payload), ServerIdOf(st.rows[key]);
    var mid := NameAll(st, issued);
    NamingEffect(st, issued, key);
    if IsNamed(issued, key) {
      CleanedStays(mid, receipts, key);
    } else if LeftPending(st, issued, key) {
      forall s | Points(mid, key, s) ensures !Mentions(receipts, key.table, s) {
        PendingIsUnmentioned(st, payload, issued, key, s);
      }
      UnmentionedStays(mid, receipts, key);
    } else {
      RowIsMentionedIff(st, payload, key);
      MentionedIsCleaned(mid, receipts, key, sid);
    }
  }

  lemma NoEmptyId(st: Store, issued: seq<Issued>)
    requires forall ref :: ref in st.index ==> ref.serverId != ""
    ensures forall ref :: ref in NameAll(st, issued).index ==> ref.serverId != ""
  {
    if issued != [] {
      NoEmptyId(st, issued[..|issued| - 1]);
    }
  }

  lemma PendingIsUnmentioned(st: Store, payload: Payload, issued: seq<Issued>, key: Key, sid: string)
    requires Consistent(st) && Gathers(st, PushableTables(), payload)
    requires key in st.rows && key.table in PushableTables() && LeftPending(st, issued, key)
    requires Points(NameAll(st, issued), key, sid)
    ensures !Mentions(Receipts(payload), key.table, sid)
  {
    NoEmptyId(st, issued);
    NamingEffect(st, issued, key);
    OnlyOwnId(st, key, sid);
    RowIsMentionedIff(st, payload, key);
  }

  ghost predicate Pending(st: Store, key: Key) {
    key in st.rows && key.table in PushableTables() && Addressable(st.rows[key])
  }

  lemma {:induction false} SettlingOnlyCleans(st: Store, receipts: seq<Receipt>, key: Key)
    ensures var after := SettleAll(st, receipts);
      Cleaned(after, key) || (key in st.rows && key in after.rows && after.rows[key] == st.rows[key])
  {
    if receipts != [] {
      var before, last := SettleAll(st, receipts[..|receipts| - 1]), receipts[|receipts| - 1];
      SettlingOnlyCleans(st, receipts[..|receipts| - 1], key);
      if Cleaned(before, key) {
        CleanedStays(before, [last], key);
      } else {
        SettleEffect(before, last, key);
      }
    }
  }

  lemma {:induction false} NamingAddsNoRow(st: Store, issued: seq<Issued>)
    ensures NameAll(st, issued).rows.Keys == st.rows.Keys
  {
    if issued != [] {
      NamingAddsNoRow(st, issued[..|issued| - 1]);
    }
  }

  /** Confirming a push leaves a row as it was or cleans it, and adds none. */
  lemma ConfirmingOnlyCleans(st: Store, payload: Payload, result: PushResult, key: Key)
    ensures var after := Confirmed(st, payload, result);
      Cleaned(after, key) || (key in st.rows && key in after.rows && after.rows[key] == st.rows[key])
  {
    SettlingOnlyCleans(NameAll(st, result.serverIds), Receipts(payload), key);
    NamingAddsNoRow(st, result.serverIds);
    if key in st.rows {
      NamingEffect(st, result.serverIds, key);
    }
  }

  /**
   No addressable dirty row remains exactly when every created row was named and no id of an unnamed pushed
   row was issued to another row.
   */
  lemma NothingPendingIff(st: Store, payload: Payload, result: PushResult)
    requires Consistent(st) && Gathers(st, PushableTables(), payload)
    ensures (forall key :: !Pending(Confirmed(st, payload, result), key)) <==>
            (forall key :: Pending(st, key) ==> !LeftPending(st, result.serverIds, key))
  {
    var after := Confirmed(st, payload, result);
    forall key ensures Pending(after, key) <==> Pending(st, key) && LeftPending(st, result.serverIds, key) {
      ConfirmingOnlyCleans(st, payload, result, key);
      if Pending(st, key) {
        RowStaysPendingIff(st, payload, result, key);
      }
    }
  }

  lemma {:induction false} NamingKeepsCursor(st: Store, issued: seq<Issued>)
    ensures NameAll(st, issued).cursor == st.cursor
  {
    if issued != [] {
      NamingKeepsCursor(st, issued[..|issued| - 1]);
    }
  }

  lemma {:induction false} SettlingKeepsCursor(st: Store, receipts: seq<Receipt>)
    ensures SettleAll(st, receipts).cursor == st.cursor
  {
    if receipts != [] {
      SettlingKeepsCursor(st, receipts[..|receipts| - 1]);
    }
  }

  /** The cursor moves to the timestamp of the answer, if it has one, and stays where the pull put it otherwise. */
  lemma ConfirmedCursorIs(st: Store, payload: Payload, result: PushResult)
    ensures result.timestamp == "" ==> Confirmed(st, payload, result).cursor == st.cursor
    ensures result.timestamp != "" ==> Confirmed(st, payload, result).cursor == result.timestamp
  {
    SettlingKeepsCursor(NameAll(st, result.serverIds), Receipts(payload));
    NamingKeepsCursor(st, result.serverIds);
  }

  // ---- What a confirmed row holds -----------------------------------------------------------------------------

  /** The two rows agree on this column, if it is one the user edits. */
  predicate SameColumn(a: Row, b: Row, col: string) {
    col != "_status" && col != "_changed" && col != "server_id" ==> Get(a, col) == Get(b, col)
  }

  lemma CreatedKeepsColumns(st: Store, table: string, id: nat, sid: string, key: Key, col: string)
    requires key in st.rows
    ensures var after := Created(st, table, id, sid);
      key in after.rows && SameColumn(after.rows[key], st.rows[key], col)
  {
  }

  lemma SettleKeepsColumns(st: Store, r: Receipt, key: Key, col: string)
    requires key in Settle(st, r).rows
    ensures key in st.rows && SameColumn(Settle(st, r).rows[key], st.rows[key], col)
  {
  }

  lemma {:induction false} NamingKeepsColumns(st: Store, issued: seq<Issued>, key: Key, col: string)
    requires key in st.rows
    ensures key in NameAll(st, issued).rows && SameColumn(NameAll(st, issued).rows[key], st.rows[key], col)
  {
    if issued != [] {
      var before, last := issued[..|issued| - 1], issued[|issued| - 1];
      NamingKeepsColumns(st, before, key, col);
      CreatedKeepsColumns(NameAll(st, before), last.table, last.id, last.sid, key, col);
    }
  }

  lemma {:induction false} SettlingKeepsColumns(st: Store, receipts: seq<Receipt>, key: Key, col: string)
    requires key in SettleAll(st, receipts).rows
    ensures key in st.rows && SameColumn(SettleAll(st, receipts).rows[key], st.rows[key], col)
  {
    if receipts != [] {
      var before, last := receipts[..|receipts| - 1], receipts[|receipts| - 1];
      SettleKeepsColumns(SettleAll(st, before), last, key, col);
      SettlingKeepsColumns(st, before, key, col);
    }
  }

  /** Confirming a push never changes what the user wrote: a row that is still there has all its columns. */
  lemma ConfirmingKeepsColumns(st: Store, payload: Payload, result: PushResult, key: Key, col: string)
    requires key in Confirmed(st, payload, result).rows
    ensures key in st.rows && SameColumn(Confirmed(st, payload, result).rows[key], st.rows[key], col)
  {
    NamingAddsNoRow(st, result.serverIds);
    SettlingKeepsColumns(NameAll(st, result.serverIds), Receipts(payload), key, col);
    NamingKeepsColumns(st, result.serverIds, key, col);
  }

  /** The row is found under this id, carries it, and is synced. */
  predicate FoundAs(st: Store, key: Key, sid: string) {
    && Ref(key.table, sid) in st.index && st.index[Ref(key.table, sid)] == key.id && key in st.rows
    && Get(st.rows[key], "server_id") == Str(sid) && Get(st.rows[key], "_status") == Str("synced")
    && Get(st.rows[key], "_changed") == Undefined
  }

  lemma CreatedIsFound(st: Store, key: Key, sid: string)
    requires key in st.rows && sid != ""
    ensures FoundAs(Created(st, key.table, key.id, sid), key, sid)
  {
  }

  lemma CreatedSparesOthers(st: Store, x: Issued, key: Key, sid: string)
    requires FoundAs(st, key, sid) && (x.table != key.table || (x.id != key.id && x.sid != sid))
    ensures FoundAs(Created(st, x.table, x.id, x.sid), key, sid)
  {
  }

  /** A created row that the server named once is found under its new id afterwards, carries it and is synced. */
  lemma {:induction false} NamedRowIsFound(st: Store, issued: seq<Issued>, i: nat)
    requires FreshIds(st, issued) && i < |issued| && issued[i].sid != ""
    requires Key(issued[i].table, issued[i].id) in st.rows
    requires forall j :: 0 <= j < |issued| && j != i ==>
               issued[j].table != issued[i].table || issued[j].id != issued[i].id
    ensures FoundAs(NameAll(st, issued), Key(issued[i].table, issued[i].id), issued[i].sid)
  {
    var before, last := issued[..|issued| - 1], issued[|issued| - 1];
    var key := Key(issued[i].table, issued[i].id);
    if i == |before| {
      NamingAddsNoRow(st, before);
      CreatedIsFound(NameAll(st, before), key, last.sid);
    } else {
      assert before[i] == issued[i];
      NamedRowIsFound(st, before, i);
      CreatedSparesOthers(NameAll(st, before), last, key, issued[i].sid);
    }
  }

  // ---- Server ids stay unique -----------------------------------------------------------------------------------

  /** The server issues no id twice in a table and none that is already in use. */
  ghost predicate FreshIds(st: Store, issued: seq<Issued>) {
    && (forall i :: 0 <= i < |issued| ==> Ref(issued[i].table, issued[i].sid) !in st.index)
    && (forall i, j :: 0 <= i < j < |issued| ==> issued[i].table != issued[j].table || issued[i].sid != issued[j].sid)
  }

  ghost predicate InUse(st: Store, issued: seq<Issued>, ref: Ref) {
    ref in st.index || exists i :: 0 <= i < |issued| && ref == Ref(issued[i].table, issued[i].sid)
  }

  lemma CreatedKeepsSound(st: Store, table: string, id: nat, sid: string)
    requires IndexSound(st)
    ensures IndexSound(Created(st, table, id, sid))
  {
  }

  lemma CreatedKeepsComplete(st: Store, table: string, id: nat, sid: string)
    requires Consistent(st) && Ref(table, sid) !in st.index
    ensures IndexComplete(Created(st, table, id, sid))
  {
  }

  lemma {:induction false} NamingKeepsConsistent(st: Store, issued: seq<Issued>)
    requires Consistent(st) && FreshIds(st, issued)
    ensures Consistent(NameAll(st, issued))
    ensures forall ref :: ref in NameAll(st, issued).index ==> InUse(st, issued, ref)
  {
    if issued != [] {
      var before, last := issued[..|issued| - 1], issued[|issued| - 1];
      NamingKeepsConsistent(st, before);
      var mid := NameAll(st, before);
      assert Ref(last.table, last.sid) !in mid.index by {
        assert !InUse(st, before, Ref(last.table, last.sid));
      }
      CreatedKeepsSound(mid, last.table, last.id, last.sid);
      CreatedKeepsComplete(mid, last.table, last.id, last.sid);
      forall ref | ref in NameAll(st, issued).index ensures InUse(st, issued, ref) {
        assert ref in mid.index || ref == Ref(last.table, last.sid);
        if i :| 0 <= i < |before| && ref == Ref(before[i].table, before[i].sid) {
          assert issued[i] == before[i];
        }
      }
    }
  }

  lemma SettleKeepsConsistent(st: Store, r: Receipt)
    requires Consistent(st)
    ensures Consistent(Settle(st, r))
  {
  }

  lemma {:induction false} SettlingKeepsConsistent(st: Store, receipts: seq<Receipt>)
    requires Consistent(st)
    ensures Consistent(SettleAll(st, receipts))
  {
    if receipts != [] {
      SettlingKeepsConsistent(st, receipts[..|receipts| - 1]);
      SettleKeepsConsistent(SettleAll(st, receipts[..|receipts| - 1]), receipts[|receipts| - 1]);
    }
  }

  lemma ConfirmingKeepsConsistent(st: Store, payload: Payload, result: PushResult)
    requires Consistent(st) && FreshIds(st, result.serverIds)
    ensures Consistent(Confirmed(st, payload, result))
  {
    NamingKeepsConsistent(st, result.serverIds);
    SettlingKeepsConsistent(NameAll(st, result.serverIds), Receipts(payload));
  }
}
