/** `SyncEngine.syncOnce` (`mobile/src/sync/engine.ts`): pull, resolve, push, with a crash possible after any write. */
module SyncEngine {
  import opened Numerics
  import opened SyncSchema
  import opened SyncConflict
  import opened SyncStore
  import opened SyncPull
  import opened SyncPush

  /** `s` is the store after some first part of the changes. */
  ghost predicate Reaches(start: Store, items: seq<Item>, s: Store) {
    exists n :: 0 <= n <= |items| && s == ApplyItems(start, items[..n])
  }

  /** Everything written since position `from` is a partial pull. */
  ghost predicate Journaled(trace: seq<Store>, from: nat, start: Store, items: seq<Item>) {
    from <= |trace| && forall i :: from <= i < |trace| ==> Reaches(start, items, trace[i])
  }

  lemma ReachesMore(start: Store, items: seq<Item>, item: Item, s: Store)
    requires Reaches(start, items, s)
    ensures Reaches(start, items + [item], s)
  {
    var n :| 0 <= n <= |items| && s == ApplyItems(start, items[..n]);
    assert (items + [item])[..n] == items[..n];
  }

  /** The pull has applied these changes so far. */
  ghost predicate PullAt(st: Store, trace: seq<Store>, from: nat, start: Store, items: seq<Item>) {
    st == ApplyItems(start, items) && Journaled(trace, from, start, items)
  }

  lemma PullStep(st: Store, trace: seq<Store>, st': Store, trace': seq<Store>, from: nat, start: Store,
                 items: seq<Item>, item: Item)
    requires PullAt(st, trace, from, start, items)
    requires st' == ApplyItem(st, item) && (trace' == trace || trace' == trace + [st'])
    ensures PullAt(st', trace', from, start, items + [item])
  {
    var more := items + [item];
    assert more[..|more| - 1] == items && more[..|more|] == more;
    forall i | from <= i < |trace'| ensures Reaches(start, more, trace'[i]) {
      if i < |trace| {
        ReachesMore(start, items, item, trace[i]);
      }
    }
  }

  method ApplyPulledRow(store: LocalStore, table: string, p: Pulled)
    modifies store
    ensures store.State() == ApplyPut(old(store.State()), table, p)
    ensures store.trace == old(store.trace) || store.trace == old(store.trace) + [store.State()]
  {
    var local := store.FindByServerId(table, p.serverId);
    if local.None? {
      store.UpsertSynced(table, p.ToRow());
      return;
    }
    var changed := ParseChangedCols(Get(local.value, "_changed"));
    match ResolveConflict(table, local.value, p.ToRow(), changed) {
      case UseServer => store.UpsertSynced(table, p.ToRow());
      case MergeFields(patch) => store.UpsertSynced(table, patch);
      case UseLocal =>
      case Skip =>
    }
  }

  lemma PutsSnoc(done: seq<Item>, table: string, pulled: seq<Pulled>, i: nat)
    requires i < |pulled|
    ensures done + Puts(table, pulled[..i + 1]) == (done + Puts(table, pulled[..i])) + [Put(table, pulled[i])]
  {
  }

  lemma DropsSnoc(done: seq<Item>, table: string, sids: seq<string>, i: nat)
    requires i < |sids|
    ensures done + Drops(table, sids[..i + 1]) == (done + Drops(table, sids[..i])) + [Drop(table, sids[i])]
  {
  }

  method ApplyPulledRows(store: LocalStore, table: string, pulled: seq<Pulled>,
                         ghost from: nat, ghost start: Store, ghost done: seq<Item>)
    requires PullAt(store.State(), store.trace, from, start, done)
    modifies store
    ensures PullAt(store.State(), store.trace, from, start, done + Puts(table, pulled))
    ensures old(store.trace) <= store.trace
  {
    ghost var items := done;
    assert items == done + Puts(table, pulled[..0]);
    for i := 0 to |pulled|
      invariant items == done + Puts(table, pulled[..i])
      invariant PullAt(store.State(), store.trace, from, start, items)
      invariant old(store.trace) <= store.trace
    {
      ghost var st, trace := store.State(), store.trace;
      ApplyPulledRow(store, table, pulled[i]);
      PullStep(st, trace, store.State(), store.trace, from, start, items, Put(table, pulled[i]));
      PutsSnoc(done, table, pulled, i);
      items := items + [Put(table, pulled[i])];
    }
    assert pulled[..|pulled|] == pulled;
  }

  method ApplyTombstones(store: LocalStore, table: string, sids: seq<string>,
                         ghost from: nat, ghost start: Store, ghost done: seq<Item>)
    requires PullAt(store.State(), store.trace, from, start, done)
    modifies store
    ensures PullAt(store.State(), store.trace, from, start, done + Drops(table, sids))
    ensures old(store.trace) <= store.trace
  {
    ghost var items := done;
    assert items == done + Drops(table, sids[..0]);
    for i := 0 to |sids|
      invariant items == done + Drops(table, sids[..i])
      invariant PullAt(store.State(), store.trace, from, start, items)
      invariant old(store.trace) <= store.trace
    {
      ghost var st, trace := store.State(), store.trace;
      store.AcceptDelete(table, sids[i]);
      PullStep(st, trace, store.State(), store.trace, from, start, items, Drop(table, sids[i]));
      DropsSnoc(done, table, sids, i);
      items := items + [Drop(table, sids[i])];
    }
    assert sids[..|sids|] == sids;
  }

  lemma TableItemsInOrder(done: seq<Item>, b: TablePage)
    ensures done + Puts(b.table, b.created) + Puts(b.table, b.updated) + Drops(b.table, b.deleted)
         == done + TableItems(b)
  {
  }

  method PullTable(store: LocalStore, b: TablePage, ghost from: nat, ghost start: Store, ghost done: seq<Item>)
    requires PullAt(store.State(), store.trace, from, start, done)
    modifies store
    ensures PullAt(store.State(), store.trace, from, start, done + TableItems(b))
    ensures old(store.trace) <= store.trace
  {
    ghost var created := done + Puts(b.table, b.created);
    ApplyPulledRows(store, b.table, b.created, from, start, done);
    ApplyPulledRows(store, b.table, b.updated, from, start, created);
    ApplyTombstones(store, b.table, b.deleted, from, start, created + Puts(b.table, b.updated));
    TableItemsInOrder(done, b);
  }

  lemma ItemsSnoc(changes: seq<TablePage>, i: nat)
    requires i < |changes|
    ensures Items(changes[..i + 1]) == Items(changes[..i]) + TableItems(changes[i])
  {
    assert changes[..i + 1][..i] == changes[..i];
  }

  method PullPage(store: LocalStore, changes: seq<TablePage>)
    modifies store
    ensures PullAt(store.State(), store.trace, |old(store.trace)|, old(store.State()), Items(changes))
    ensures old(store.trace) <= store.trace
  {
    ghost var start, from, items := store.State(), |store.trace|, [];
    for i := 0 to |changes|
      invariant items == Items(changes[..i])
      invariant PullAt(store.State(), store.trace, from, start, items)
      invariant old(store.trace) <= store.trace
    {
      PullTable(store, changes[i], from, start, items);
      ItemsSnoc(changes, i);
      items := items + TableItems(changes[i]);
    }
    assert changes[..|changes|] == changes;
  }

  // ---- After the push -----------------------------------------------------------------------------------------

  /** From position `from` on every snapshot has this cursor. */
  ghost predicate CursorHolds(trace: seq<Store>, from: nat, cursor: string) {
    forall i :: from <= i < |trace| ==> trace[i].cursor == cursor
  }

  /** The same up to the last snapshot. */
  ghost predicate CursorHoldsBut(trace: seq<Store>, from: nat, cursor: string) {
    forall i :: from <= i < |trace| - 1 ==> trace[i].cursor == cursor
  }

  method AcceptIssued(store: LocalStore, issued: seq<Issued>)
    modifies store
    ensures store.State() == NameAll(old(store.State()), issued)
    ensures old(store.trace) <= store.trace && store.cursor == old(store.cursor)
    ensures CursorHolds(store.trace, |old(store.trace)|, old(store.cursor))
  {
    for i := 0 to |issued|
      invariant store.State() == NameAll(old(store.State()), issued[..i])
      invariant old(store.trace) <= store.trace && store.cursor == old(store.cursor)
      invariant CursorHolds(store.trace, |old(store.trace)|, old(store.cursor))
    {
      assert issued[..i + 1][..i] == issued[..i];
      store.AcceptCreate(issued[i].table, issued[i].id, issued[i].sid);
      assert store.State().cursor == store.cursor;
    }
    assert issued[..|issued|] == issued;
  }

  lemma {:induction false} SettleAppend(st: Store, a: seq<Receipt>, b: seq<Receipt>)
    ensures SettleAll(st, a + b) == SettleAll(SettleAll(st, a), b)
  {
    if b == [] {
      assert a + b == a;
    } else {
      SettleAppend(st, a, b[..|b| - 1]);
      assert (a + b)[..|a + b| - 1] == a + b[..|b| - 1];
    }
  }

  lemma SettleOne(st: Store, a: seq<Receipt>, r: Receipt)
    ensures SettleAll(st, a + [r]) == Settle(SettleAll(st, a), r)
  {
  }

  method AcceptUpdates(store: LocalStore, table: string, updated: seq<Entry>)
    modifies store
    ensures store.State() == SettleAll(old(store.State()), UpdateReceipts(table, updated))
    ensures old(store.trace) <= store.trace && store.cursor == old(store.cursor)
    ensures CursorHolds(store.trace, |old(store.trace)|, old(store.cursor))
  {
    for i := 0 to |updated|
      invariant store.State() == SettleAll(old(store.State()), UpdateReceipts(table, updated[..i]))
      invariant old(store.trace) <= store.trace && store.cursor == old(store.cursor)
      invariant CursorHolds(store.trace, |old(store.trace)|, old(store.cursor))
    {
      ghost var before, r := UpdateReceipts(table, updated[..i]), Cleared(table, ServerIdOf(updated[i].row));
      store.AcceptUpdate(table, ServerIdOf(updated[i].row));
      SettleOne(old(store.State()), before, r);
      assert UpdateReceipts(table, updated[..i + 1]) == before + [r];
      assert store.State().cursor == store.cursor;
    }
    assert updated[..|updated|] == updated;
  }

  method AcceptDeletes(store: LocalStore, table: string, deleted: seq<string>)
    modifies store
    ensures store.State() == SettleAll(old(store.State()), DeleteReceipts(table, deleted))
    ensures old(store.trace) <= store.trace && store.cursor == old(store.cursor)
    ensures CursorHolds(store.trace, |old(store.trace)|, old(store.cursor))
  {
    for i := 0 to |deleted|
      invariant store.State() == SettleAll(old(store.State()), DeleteReceipts(table, deleted[..i]))
      invariant old(store.trace) <= store.trace && store.cursor == old(store.cursor)
      invariant CursorHolds(store.trace, |old(store.trace)|, old(store.cursor))
    {
      ghost var before, r := DeleteReceipts(table, deleted[..i]), Removed(table, deleted[i]);
      store.AcceptDelete(table, deleted[i]);
      SettleOne(old(store.State()), before, r);
      assert DeleteReceipts(table, deleted[..i + 1]) == before + [r];
      assert store.State().cursor == store.cursor;
    }
    assert deleted[..|deleted|] == deleted;
  }

  method AcceptBucket(store: LocalStore, b: Bucket)
    modifies store
    ensures store.State() == SettleAll(old(store.State()), BucketReceipts(b))
    ensures old(store.trace) <= store.trace && store.cursor == old(store.cursor)
    ensures CursorHolds(store.trace, |old(store.trace)|, old(store.cursor))
  {
    SettleAppend(store.State(), UpdateReceipts(b.table, b.updated), DeleteReceipts(b.table, b.deleted));
    AcceptUpdates(store, b.table, b.updated);
    AcceptDeletes(store, b.table, b.deleted);
  }

  method AcceptPayload(store: LocalStore, payload: Payload)
    modifies store
    ensures store.State() == SettleAll(old(store.State()), Receipts(payload))
    ensures old(store.trace) <= store.trace && store.cursor == old(store.cursor)
    ensures CursorHolds(store.trace, |old(store.trace)|, old(store.cursor))
  {
    for i := 0 to |payload|
      invariant store.State() == SettleAll(old(store.State()), Receipts(payload[..i]))
      invariant old(store.trace) <= store.trace && store.cursor == old(store.cursor)
      invariant CursorHolds(store.trace, |old(store.trace)|, old(store.cursor))
    {
      assert payload[..i + 1][..i] == payload[..i];
      SettleAppend(old(store.State()), Receipts(payload[..i]), BucketReceipts(payload[i]));
      AcceptBucket(store, payload[i]);
    }
    assert payload[..|payload|] == payload;
  }

  // ---- One round ------------------------------------------------------------------------------------------------

  /** How a round ends; the first three are the exceptions it can throw. */
  datatype Ending = PullFailed | PayloadInvalid(errors: seq<Offence>) | PushFailed | Synced(result: PushResult)

  /** The store once the page is in and the cursor moved. */
  function PulledStore(st: Store, page: Page): Store {
    ApplyItems(st, Items(page.changes)).(cursor := page.timestamp)
  }

  /**
   What the writes of a round look like from outside: up to snapshot m the page is partly in and the cursor
   is the old one, at m the page is in and the cursor is its timestamp, and no later write takes either back.
   */
  ghost predicate RoundTrace(trace: seq<Store>, from: nat, m: nat, start: Store, page: Page) {
    && from <= m < |trace| && Journaled(trace[..m], from, start, Items(page.changes))
    && trace[m] == PulledStore(start, page)
    && forall i :: m <= i < |trace| - 1 ==> trace[i].cursor == page.timestamp
  }

  lemma RoundTraceGrows(trace: seq<Store>, trace': seq<Store>, from: nat, m: nat, start: Store, page: Page)
    requires RoundTrace(trace, from, m, start, page) && trace <= trace'
    requires forall i :: |trace| - 1 <= i < |trace'| - 1 ==> trace'[i].cursor == page.timestamp
    ensures RoundTrace(trace', from, m, start, page)
  {
    assert trace'[..m] == trace[..m];
  }

  method PullPhase(store: LocalStore, page: Page) returns (ghost m: nat)
    modifies store
    ensures store.State() == PulledStore(old(store.State()), page)
    ensures old(store.trace) <= store.trace && m == |store.trace| - 1
    ensures RoundTrace(store.trace, |old(store.trace)|, m, old(store.State()), page)
  {
    PullPage(store, page.changes);
    m := |store.trace|;
    ghost var trace := store.trace;
    store.SetCursor(page.timestamp);
    assert store.trace[..m] == trace;
  }

  /** What the answer to the payload makes of the pulled store. */
  ghost predicate Concludes(ending: Ending, payload: Payload, pulled: Store, timestamp: string,
                            push: Payload -> Option<PushResult>, after: Store) {
    && (ending.PayloadInvalid? <==> !Sendable(payload))
    && match ending
       case PullFailed => false
       case PayloadInvalid(errors) => after == pulled
       case PushFailed => payload != [] && push(payload).None? && after == pulled
       case Synced(result) =>
         && (if payload == [] then result == PushResult([], [], timestamp) else push(payload) == Some(result))
         && after == Confirmed(pulled, payload, result)
  }

  method AcceptResult(store: LocalStore, payload: Payload, result: PushResult)
    modifies store
    ensures store.State() == Confirmed(old(store.State()), payload, result)
    ensures old(store.trace) <= store.trace
    ensures CursorHoldsBut(store.trace, |old(store.trace)|, old(store.cursor))
  {
    AcceptIssued(store, result.serverIds);
    AcceptPayload(store, payload);
    if result.timestamp != "" {
      store.SetCursor(result.timestamp);
    }
  }

  method PushPhase(store: LocalStore, timestamp: string, push: Payload -> Option<PushResult>)
    returns (ending: Ending, payload: Payload)
    modifies store
    ensures Gathers(old(store.State()), PushableTables(), payload)
    ensures Concludes(ending, payload, old(store.State()), timestamp, push, store.State())
    ensures old(store.trace) <= store.trace
    ensures CursorHoldsBut(store.trace, |old(store.trace)|, old(store.cursor))
  {
    payload := GatherPayload(store);
    var errors := ValidatePushPayload(payload);
    if errors != [] {
      assert errors[0] in errors && !Sendable(payload);
      return PayloadInvalid(errors), payload;
    }
    forall i, e | 0 <= i < |payload| ensures !Offends(payload[i], e) {
      assert e !in errors;
    }
    var result := PushResult([], [], timestamp);
    if payload != [] {
      var answer := push(payload);
      if answer.None? {
        return PushFailed, payload;
      }
      result := answer.value;
    }
    AcceptResult(store, payload, result);
    ending := Synced(result);
  }

  method SyncOnce(store: LocalStore, pull: string -> Option<Page>, push: Payload -> Option<PushResult>)
    returns (ending: Ending, payload: Payload, ghost m: nat)
    modifies store
    ensures ending.PullFailed? <==> pull(old(store.cursor)).None?
    ensures ending.PullFailed? ==> store.State() == old(store.State()) && store.trace == old(store.trace)
    ensures old(store.trace) <= store.trace
    ensures !ending.PullFailed? ==>
      var page := pull(old(store.cursor)).value;
      var pulled := PulledStore(old(store.State()), page);
      && RoundTrace(store.trace, |old(store.trace)|, m, old(store.State()), page)
      && Gathers(pulled, PushableTables(), payload)
      && Concludes(ending, payload, pulled, page.timestamp, push, store.State())
  {
    var page := pull(store.cursor);
    if page.None? {
      return PullFailed, [], 0;
    }
    m := PullPhase(store, page.value);
    ghost var trace := store.trace;
    ending, payload := PushPhase(store, page.value.timestamp, push);
    RoundTraceGrows(trace, store.trace, |old(store.trace)|, m, old(store.State()), page.value);
  }

  // ---- Crashes --------------------------------------------------------------------------------------------------

  lemma {:induction false} PullKeepsCursor(st: Store, items: seq<Item>)
    ensures ApplyItems(st, items).cursor == st.cursor
  {
    if items != [] {
      PullKeepsCursor(st, items[..|items| - 1]);
    }
  }

  /**
   Wherever a round is cut off, a cursor other than the old one is never stored before the whole page is: the
   snapshot at which the page was in and the cursor its timestamp came first.
   */
  lemma CursorNeverAhead(trace: seq<Store>, from: nat, m: nat, start: Store, page: Page, i: nat)
    requires RoundTrace(trace, from, m, start, page) && from <= i < |trace| && trace[i].cursor != start.cursor
    ensures m <= i && trace[m] == PulledStore(start, page)
  {
    if i < m {
      assert Reaches(start, Items(page.changes), trace[..m][i]);
      var n :| 0 <= n <= |Items(page.changes)| && trace[i] == ApplyItems(start, Items(page.changes)[..n]);
      PullKeepsCursor(start, Items(page.changes)[..n]);
    }
  }

  /** Cut off before the cursor moved, the round is made good by pulling the same page again. */
  lemma CrashInPullIsHarmless(trace: seq<Store>, from: nat, m: nat, start: Store, page: Page, i: nat,
                              table: string, sid: string)
    requires RoundTrace(trace, from, m, start, page) && from <= i < m && IndexSound(start)
    requires sid != "" && table in TABLES && (ServerWins(table) || Settled(Find(start, table, sid)))
    ensures trace[i].cursor == start.cursor
    ensures Find(PulledStore(trace[i], page), table, sid) == Find(PulledStore(start, page), table, sid)
  {
    var items := Items(page.changes);
    assert Reaches(start, items, trace[..m][i]);
    var n :| 0 <= n <= |items| && trace[i] == ApplyItems(start, items[..n]);
    PullKeepsCursor(start, items[..n]);
    CrashedPullReplays(start, items, n, table, sid);
  }

  /**
   A dirty session row is the exception, and exactly then: cut off at snapshot i, which had applied the first
   n changes, the repeated pull loses its edit when the page ends in its merge and those changes override it.
   */
  lemma CrashInPullLosesEditIff(trace: seq<Store>, from: nat, m: nat, start: Store, page: Page, i: nat,
                                sid: string, local: Row)
    returns (n: nat)
    requires RoundTrace(trace, from, m, start, page) && from <= i < m && IndexSound(start)
    requires sid != "" && Find(start, SESSIONS, sid) == Some(local) && DirtyCols(local) != {}
    ensures n <= |Items(page.changes)| && trace[i] == ApplyItems(start, Items(page.changes)[..n])
    ensures Find(PulledStore(trace[i], page), SESSIONS, sid) != Find(PulledStore(start, page), SESSIONS, sid)
       <==> EndsInMerge(Items(page.changes), sid, local) && !Unchallenged(Items(page.changes)[..n], sid, local)
  {
    var items := Items(page.changes);
    assert Reaches(start, items, trace[..m][i]);
    n :| 0 <= n <= |items| && trace[i] == ApplyItems(start, items[..n]);
    CrashLosesEditIff(start, items, n, sid, local);
  }

  /** A round keeps server ids unique as long as the server issues unused ones. */
  lemma RoundKeepsConsistent(start: Store, page: Page, payload: Payload, result: PushResult)
    requires Consistent(start) && FreshIds(PulledStore(start, page), result.serverIds)
    ensures Consistent(PulledStore(start, page)) && Consistent(Confirmed(PulledStore(start, page), payload, result))
  {
    PullKeepsConsistent(start, Items(page.changes));
    ConfirmingKeepsConsistent(PulledStore(start, page), payload, result);
  }
}
