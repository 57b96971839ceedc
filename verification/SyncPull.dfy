/** The pull phase of `SyncEngine.syncOnce` (`mobile/src/sync/engine.ts`). */
module SyncPull {
  import opened Numerics
  import opened SyncSchema
  import opened SyncConflict
  import opened SyncStore

  /** A row as the server sends it: it always carries its server id. */
  datatype Pulled = Pulled(serverId: string, columns: Row) {
    function ToRow(): Row {
      columns["server_id" := Str(serverId)]
    }
  }

  datatype TablePage = TablePage(table: string, created: seq<Pulled>, updated: seq<Pulled>, deleted: seq<string>)

  datatype Page = Page(changes: seq<TablePage>, timestamp: string)

  /** One change of a page. */
  datatype Item = Put(table: string, pulled: Pulled) | Drop(table: string, sid: string)

  function IdOf(item: Item): string {
    match item
    case Put(_, p) => p.serverId
    case Drop(_, sid) => sid
  }

  predicate Touches(item: Item, table: string, sid: string) {
    item.table == table && IdOf(item) == sid
  }

  function Puts(table: string, pulled: seq<Pulled>): seq<Item> {
    seq(|pulled|, i requires 0 <= i < |pulled| => Put(table, pulled[i]))
  }

  function Drops(table: string, sids: seq<string>): seq<Item> {
    seq(|sids|, i requires 0 <= i < |sids| => Drop(table, sids[i]))
  }

  function TableItems(b: TablePage): seq<Item> {
    Puts(b.table, b.created) + Puts(b.table, b.updated) + Drops(b.table, b.deleted)
  }

  /** The changes of a page in the order they are applied. */
  function Items(changes: seq<TablePage>): seq<Item> {
    if changes == [] then [] else Items(changes[..|changes| - 1]) + TableItems(changes[|changes| - 1])
  }

  function Resolve(table: string, local: Row, p: Pulled): Resolution {
    ResolveConflict(table, local, p.ToRow(), ParseChangedCols(Get(local, "_changed")))
  }

  /** The row to write for a pulled row, given what is found under its id; None leaves things as they are. */
  function Outcome(found: Option<Row>, table: string, p: Pulled): Option<Row> {
    match found
    case None => Some(p.ToRow())
    case Some(local) =>
      match Resolve(table, local, p)
      case UseServer => Some(p.ToRow())
      case MergeFields(patch) => Some(patch)
      case UseLocal => None
      case Skip => None
  }

  function ApplyPut(st: Store, table: string, p: Pulled): Store {
    match Outcome(Find(st, table, p.serverId), table, p)
    case Some(row) => Upserted(st, table, row)
    case None => st
  }

  function ApplyItem(st: Store, item: Item): Store {
    match item
    case Put(table, p) => ApplyPut(st, table, p)
    case Drop(table, sid) => Deleted(st, table, sid)
  }

  function ApplyItems(st: Store, items: seq<Item>): Store {
    if items == [] then st else ApplyItem(ApplyItems(st, items[..|items| - 1]), items[|items| - 1])
  }

  lemma {:induction false} ApplyAppend(st: Store, a: seq<Item>, b: seq<Item>)
    ensures ApplyItems(st, a + b) == ApplyItems(ApplyItems(st, a), b)
  {
    if b == [] {
      assert a + b == a;
    } else {
      ApplyAppend(st, a, b[..|b| - 1]);
      assert (a + b)[..|a + b| - 1] == a + b[..|b| - 1];
    }
  }

  // ---- What becomes of one row -------------------------------------------------------------------------------

  /** What one change makes of the row found under its id. */
  function Fate(found: Option<Row>, item: Item): Option<Row> {
    match item
    case Drop(_, _) => None
    case Put(table, p) =>
      match Outcome(found, table, p)
      case Some(row) => Some(Clean(row))
      case None => found
  }

  /** The same for a run of changes, of which only those of that table and id matter. */
  function FateOf(items: seq<Item>, table: string, sid: string, found: Option<Row>): Option<Row> {
    if items == [] then found
    else
      var before, last := FateOf(items[..|items| - 1], table, sid, found), items[|items| - 1];
      if Touches(last, table, sid) then Fate(before, last) else before
  }

  lemma UpsertKeepsSound(st: Store, table: string, row: Row)
    requires IndexSound(st)
    ensures IndexSound(Upserted(st, table, row))
  {
  }

  lemma PutFrame(st: Store, table: string, row: Row, table': string, sid': string)
    requires IndexSound(st) && sid' != ""
    ensures Find(Upserted(st, table, row), table', sid') ==
      if Ref(table', sid') == Ref(table, ServerIdOf(row)) then Some(Clean(row)) else Find(st, table', sid')
  {
  }

  lemma DropFrame(st: Store, table: string, sid: string, table': string, sid': string)
    requires IndexSound(st)
    ensures IndexSound(Deleted(st, table, sid))
    ensures Find(Deleted(st, table, sid), table', sid') ==
      if Ref(table', sid') == Ref(table, sid) then None else Find(st, table', sid')
  {
  }

  ghost predicate Carries(found: Option<Row>, sid: string) {
    found.Some? ==> ServerIdOf(found.value) == sid && sid != ""
  }

  lemma FoundCarriesId(st: Store, table: string, sid: string)
    requires IndexSound(st)
    ensures Carries(Find(st, table, sid), sid)
  {
  }

  /** A resolution never changes the server id it was asked about. */
  lemma OutcomeKeepsId(found: Option<Row>, table: string, p: Pulled)
    requires Carries(found, p.serverId)
    ensures var row := Outcome(found, table, p); row.Some? ==> ServerIdOf(row.value) == p.serverId
  {
  }

  lemma ItemIsFate(st: Store, item: Item, table: string, sid: string)
    requires IndexSound(st) && sid != ""
    ensures IndexSound(ApplyItem(st, item))
    ensures Find(ApplyItem(st, item), table, sid) ==
      if Touches(item, table, sid) then Fate(Find(st, table, sid), item) else Find(st, table, sid)
  {
    match item
    case Drop(t, s) => DropFrame(st, t, s, table, sid);
    case Put(t, p) =>
      var found := Find(st, t, p.serverId);
      FoundCarriesId(st, t, p.serverId);
      OutcomeKeepsId(found, t, p);
      match Outcome(found, t, p) {
        case Some(row) =>
          UpsertKeepsSound(st, t, row);
          PutFrame(st, t, row, table, sid);
        case None =>
      }
  }

  /** The pull phase refines the fold of the page over each row by itself. */
  lemma {:induction false} PullIsFold(st: Store, items: seq<Item>, table: string, sid: string)
    requires IndexSound(st) && sid != ""
    ensures IndexSound(ApplyItems(st, items))
    ensures Find(ApplyItems(st, items), table, sid) == FateOf(items, table, sid, Find(st, table, sid))
  {
    if items != [] {
      var before := items[..|items| - 1];
      PullIsFold(st, before, table, sid);
      ItemIsFate(ApplyItems(st, before), items[|items| - 1], table, sid);
    }
  }

  // ---- Last writer wins -----------------------------------------------------------------------------------

  /** The last change of that row in the page. */
  function LastTouch(items: seq<Item>, table: string, sid: string): (r: Option<Item>)
    ensures r.Some? ==> Touches(r.value, table, sid)
  {
    if items == [] then None
    else if Touches(items[|items| - 1], table, sid) then Some(items[|items| - 1])
    else LastTouch(items[..|items| - 1], table, sid)
  }

  /** The server's last word on a row, as it was sent. */
  function LastWriter(items: seq<Item>, table: string, sid: string, found: Option<Row>): Option<Row> {
    match LastTouch(items, table, sid)
    case None => found
    case Some(Drop(_, _)) => None
    case Some(Put(_, p)) => Some(Clean(p.ToRow()))
  }

  /** No dirty columns: nothing a merge could keep. */
  predicate Settled(found: Option<Row>) {
    found.Some? ==> ParseChangedCols(Get(found.value, "_changed")) == {}
  }

  predicate ServerWins(table: string) {
    AppendOnly(table) || ServerAuthoritative(table)
  }

  lemma FateCarries(found: Option<Row>, item: Item)
    requires Carries(found, IdOf(item)) && IdOf(item) != ""
    ensures Carries(Fate(found, item), IdOf(item))
  {
    if item.Put? {
      OutcomeKeepsId(found, item.table, item.pulled);
    }
  }

  lemma {:induction false} FateOfCarries(items: seq<Item>, table: string, sid: string, found: Option<Row>)
    requires Carries(found, sid) && sid != ""
    ensures Carries(FateOf(items, table, sid, found), sid)
  {
    if items != [] {
      FateOfCarries(items[..|items| - 1], table, sid, found);
      if Touches(items[|items| - 1], table, sid) {
        FateCarries(FateOf(items[..|items| - 1], table, sid, found), items[|items| - 1]);
      }
    }
  }

  /**
   On the append-only and server-authoritative tables the last writer wins whatever the local row holds; on
   the others it does where nothing is dirty.
   */
  lemma {:induction false} FateIsLastWriter(items: seq<Item>, table: string, sid: string, found: Option<Row>)
    requires Carries(found, sid) && sid != "" && table in TABLES
    requires ServerWins(table) || Settled(found)
    ensures FateOf(items, table, sid, found) == LastWriter(items, table, sid, found)
    ensures Settled(found) ==> Settled(FateOf(items, table, sid, found))
  {
    if items != [] {
      var before := items[..|items| - 1];
      FateIsLastWriter(before, table, sid, found);
      FateOfCarries(before, table, sid, found);
    }
  }

  lemma {:induction false} UntouchedAfter(items: seq<Item>, item: Item, rest: seq<Item>, table: string, sid: string)
    requires Touches(item, table, sid) && forall i :: 0 <= i < |rest| ==> !Touches(rest[i], table, sid)
    ensures LastTouch(items + [item] + rest, table, sid) == Some(item)
  {
    var all := items + [item] + rest;
    if rest != [] {
      var last := |rest| - 1;
      UntouchedAfter(items, item, rest[..last], table, sid);
      assert all[..|all| - 1] == items + [item] + rest[..last];
    }
  }

  /** The row a change alone would leave: none after a delete, the pulled columns, synced, after an upsert. */
  ghost predicate LeftBy(item: Item, after: Option<Row>, col: string) {
    match item
    case Drop(_, _) => after == None
    case Put(_, p) =>
      && after.Some? && Get(after.value, "_status") == Str("synced") && Get(after.value, "_changed") == Undefined
      && Get(after.value, "server_id") == Str(p.serverId)
      && (col !in {"_status", "_changed", "server_id"} ==> Get(after.value, col) == Get(p.columns, col))
  }

  lemma PulledColumns(p: Pulled, col: string)
    ensures LeftBy(Put("", p), Some(Clean(p.ToRow())), col)
  {
  }

  lemma LastWord(items: seq<Item>, item: Item, table: string, sid: string, found: Option<Row>, col: string)
    requires LastTouch(items, table, sid) == Some(item)
    ensures LeftBy(item, LastWriter(items, table, sid, found), col)
  {
    if item.Put? {
      PulledColumns(item.pulled, col);
    }
  }

  /** On these tables, and on sessions without edited columns, the device has nothing of its own to keep. */
  predicate NothingToKeep(table: string, found: Option<Row>) {
    || table in {"recordings", "shots", "shot_events", "consent_records"}
    || (table == "sessions" && (found.Some? ==> ParseChangedCols(Get(found.value, "_changed")) == {}))
  }

  lemma NothingToKeepIsPolicy(table: string, found: Option<Row>)
    requires NothingToKeep(table, found)
    ensures table in TABLES && (ServerWins(table) || Settled(found))
  {
  }

  /**
   Table by table: of the rows of recordings, shots, shot events and consent records, and of session rows without
   edited columns, only the last change of a page counts, and it leaves the row as if it were the only one.
   */
  lemma LastChangeWins(st: Store, before: seq<Item>, item: Item, rest: seq<Item>, table: string, sid: string,
                       col: string)
    requires IndexSound(st) && sid != "" && item.table == table && IdOf(item) == sid
    requires forall i :: 0 <= i < |rest| && rest[i].table == table ==> IdOf(rest[i]) != sid
    requires NothingToKeep(table, Find(st, table, sid))
    ensures LeftBy(item, Find(ApplyItems(st, before + [item] + rest), table, sid), col)
  {
    var items, found := before + [item] + rest, Find(st, table, sid);
    FoundCarriesId(st, table, sid);
    PullIsFold(st, items, table, sid);
    NothingToKeepIsPolicy(table, found);
    FateIsLastWriter(items, table, sid, found);
    UntouchedAfter(before, item, rest, table, sid);
    LastWord(items, item, table, sid, found, col);
  }

  lemma {:induction false} LastTouchOfPrefix(items: seq<Item>, n: nat, table: string, sid: string)
    requires n <= |items| && LastTouch(items, table, sid).None?
    ensures LastTouch(items[..n], table, sid).None?
    decreases |items|
  {
    if n < |items| {
      LastTouchOfPrefix(items[..|items| - 1], n, table, sid);
      assert items[..|items| - 1][..n] == items[..n];
    } else {
      assert items[..n] == items;
    }
  }

  /**
   A pull cut off anywhere and started over from its first item leaves every such row as an undisturbed pull
   does; with n = |items|, replaying a page changes nothing.
   */
  lemma CrashedPullReplays(st: Store, items: seq<Item>, n: nat, table: string, sid: string)
    requires IndexSound(st) && n <= |items| && sid != "" && table in TABLES
    requires ServerWins(table) || Settled(Find(st, table, sid))
    ensures var after := Find(ApplyItems(ApplyItems(st, items[..n]), items), table, sid);
      after == Find(ApplyItems(st, items), table, sid) == LastWriter(items, table, sid, Find(st, table, sid))
  {
    var found, mid := Find(st, table, sid), ApplyItems(st, items[..n]);
    FoundCarriesId(st, table, sid);
    PullIsFold(st, items, table, sid);
    PullIsFold(st, items[..n], table, sid);
    FateIsLastWriter(items, table, sid, found);
    FateIsLastWriter(items[..n], table, sid, found);
    FoundCarriesId(mid, table, sid);
    PullIsFold(mid, items, table, sid);
    FateIsLastWriter(items, table, sid, Find(mid, table, sid));
    if LastTouch(items, table, sid).None? {
      LastTouchOfPrefix(items, n, table, sid);
    }
  }

  // ---- Sessions: field-level merge ------------------------------------------------------------------------

  const SESSIONS := "sessions"

  function DirtyCols(row: Row): set<string> {
    ParseChangedCols(Get(row, "_changed"))
  }

  /** The change removes the row or is not older than it. */
  predicate Overrides(item: Item, local: Row) {
    item.Drop? || ServerNotOlder(local, item.pulled.ToRow())
  }

  lemma MergeIsPatch(local: Row, p: Pulled)
    requires ServerIdOf(local) == p.serverId && DirtyCols(local) != {} && ServerNotOlder(local, p.ToRow())
    ensures Fate(Some(local), Put(SESSIONS, p)) == Some(Clean(Merge(local, p.ToRow(), DirtyCols(local))))
  {
  }

  /** The merge of this change: local values on exactly the dirty columns, the server's elsewhere, and clean. */
  lemma MergeTakesDirtyColumns(local: Row, p: Pulled, col: string)
    requires ServerIdOf(local) == p.serverId && DirtyCols(local) != {}
    requires ServerNotOlder(local, p.ToRow())
    ensures var after := Fate(Some(local), Put(SESSIONS, p));
      && after.Some? && !Dirty(after.value) && Settled(after)
      && (col !in {"_status", "_changed"} ==>
            Get(after.value, col) == Get(if col in DirtyCols(local) then local else p.ToRow(), col))
  {
    MergeIsPatch(local, p);
  }

  /** No change of this row in the page overrides it. */
  ghost predicate Unchallenged(items: seq<Item>, sid: string, local: Row) {
    forall i :: 0 <= i < |items| && Touches(items[i], SESSIONS, sid) ==> !Overrides(items[i], local)
  }

  lemma SessionStep(local: Row, item: Item)
    requires item.table == SESSIONS && DirtyCols(local) != {} && ServerIdOf(local) == IdOf(item) && IdOf(item) != ""
    ensures var after := Fate(Some(local), item);
      if Overrides(item, local) then after != Some(local) && Settled(after) else after == Some(local)
  {
    if item.Put? {
      var p := item.pulled;
      if ServerNotOlder(local, p.ToRow()) {
        MergeTakesDirtyColumns(local, p, "server_id");
      }
    }
  }

  lemma SettledStep(found: Option<Row>, item: Item)
    requires Settled(found) && item.table == SESSIONS && Carries(found, IdOf(item)) && IdOf(item) != ""
    ensures Settled(Fate(found, item))
    ensures Fate(found, item) == if item.Put? then Some(Clean(item.pulled.ToRow())) else None
  {
  }

  lemma UnchallengedSnoc(items: seq<Item>, sid: string, local: Row)
    requires items != []
    ensures var last := items[|items| - 1];
      Unchallenged(items, sid, local) <==>
        Unchallenged(items[..|items| - 1], sid, local) && (Touches(last, SESSIONS, sid) ==> !Overrides(last, local))
  {
    var before := items[..|items| - 1];
    assert forall i :: 0 <= i < |before| ==> before[i] == items[i];
  }

  /** A dirty row survives a page, untouched and still dirty, exactly when it is strictly newer than all of it. */
  lemma {:induction false} LocalEditSurvivesIff(items: seq<Item>, sid: string, local: Row)
    requires DirtyCols(local) != {} && ServerIdOf(local) == sid && sid != ""
    ensures var after := FateOf(items, SESSIONS, sid, Some(local));
      && (after == Some(local) <==> Unchallenged(items, sid, local))
      && (after != Some(local) ==> Settled(after))
  {
    if items != [] {
      var before, last := items[..|items| - 1], items[|items| - 1];
      LocalEditSurvivesIff(before, sid, local);
      FateOfCarries(before, SESSIONS, sid, Some(local));
      UnchallengedSnoc(items, sid, local);
      if Touches(last, SESSIONS, sid) {
        if Unchallenged(before, sid, local) {
          SessionStep(local, last);
        } else {
          SettledStep(FateOf(before, SESSIONS, sid, Some(local)), last);
        }
      }
    }
  }

  /** The merge writes the server's row: every dirty column already holds the server's value. */
  predicate MergeKeepsNothing(local: Row, p: Pulled) {
    forall c :: c in DirtyCols(local) - {"_status", "_changed"} ==>
      c in p.ToRow() && p.ToRow()[c] == Get(local, c)
  }

  lemma MergeIsServerRowIff(local: Row, p: Pulled)
    ensures Clean(Merge(local, p.ToRow(), DirtyCols(local))) == Clean(p.ToRow()) <==> MergeKeepsNothing(local, p)
  {
    var merged, server := Clean(Merge(local, p.ToRow(), DirtyCols(local))), Clean(p.ToRow());
    if MergeKeepsNothing(local, p) {
      assert forall c :: c in merged <==> c in server;
      assert forall c :: c in merged ==> merged[c] == server[c];
    } else {
      var c :| c in DirtyCols(local) - {"_status", "_changed"} && !(c in p.ToRow() && p.ToRow()[c] == Get(local, c));
      assert c in merged && merged[c] == Get(local, c);
      assert c !in server || server[c] == p.ToRow()[c];
    }
  }

  /** The page's last change of the row is the first to override it, and the merge keeps a local value. */
  predicate EndsInMerge(items: seq<Item>, sid: string, local: Row) {
    if items == [] then false
    else
      var before, last := items[..|items| - 1], items[|items| - 1];
      if !Touches(last, SESSIONS, sid) then EndsInMerge(before, sid, local)
      else
        && last.Put? && ServerNotOlder(local, last.pulled.ToRow()) && !MergeKeepsNothing(local, last.pulled)
        && forall i :: 0 <= i < |before| && Touches(before[i], SESSIONS, sid) ==> !Overrides(before[i], local)
  }

  lemma {:induction false} EndsInMergeIff(items: seq<Item>, sid: string, local: Row)
    requires DirtyCols(local) != {} && ServerIdOf(local) == sid && sid != ""
    ensures var after := FateOf(items, SESSIONS, sid, Some(local));
      EndsInMerge(items, sid, local) <==>
        !Unchallenged(items, sid, local) && after != LastWriter(items, SESSIONS, sid, Some(local))
  {
    if items != [] {
      var before, last := items[..|items| - 1], items[|items| - 1];
      UnchallengedSnoc(items, sid, local);
      if !Touches(last, SESSIONS, sid) {
        EndsInMergeIff(before, sid, local);
      } else {
        LocalEditSurvivesIff(before, sid, local);
        FateOfCarries(before, SESSIONS, sid, Some(local));
        if Unchallenged(before, sid, local) {
          LastMergeIff(items, sid, local);
        } else {
          SettledStep(FateOf(before, SESSIONS, sid, Some(local)), last);
        }
      }
    }
  }

  lemma LastMergeIff(items: seq<Item>, sid: string, local: Row)
    requires items != [] && DirtyCols(local) != {} && ServerIdOf(local) == sid && sid != ""
    requires var before, last := items[..|items| - 1], items[|items| - 1];
      Touches(last, SESSIONS, sid) && Unchallenged(before, sid, local)
      && FateOf(before, SESSIONS, sid, Some(local)) == Some(local)
    ensures var after, last := FateOf(items, SESSIONS, sid, Some(local)), items[|items| - 1];
      EndsInMerge(items, sid, local) <==>
        Overrides(last, local) && after != LastWriter(items, SESSIONS, sid, Some(local))
  {
    var last := items[|items| - 1];
    if last.Put? && ServerNotOlder(local, last.pulled.ToRow()) {
      MergeIsServerRowIff(local, last.pulled);
    }
  }

  lemma {:induction false} MergeIsKept(items: seq<Item>, sid: string, local: Row)
    requires DirtyCols(local) != {} && ServerIdOf(local) == sid && sid != "" && EndsInMerge(items, sid, local)
    ensures var last := LastTouch(items, SESSIONS, sid);
      && last.Some? && last.value.Put?
      && FateOf(items, SESSIONS, sid, Some(local))
         == Some(Clean(Merge(local, last.value.pulled.ToRow(), DirtyCols(local))))
  {
    var before, last := items[..|items| - 1], items[|items| - 1];
    if !Touches(last, SESSIONS, sid) {
      MergeIsKept(before, sid, local);
    } else {
      LocalEditSurvivesIff(before, sid, local);
    }
  }

  /**
   What a page makes of a dirty session row, in closed form: the row itself while it is strictly newer than
   all of the page, the merge with the last change where the page ends in a merge, and otherwise the server's
   last word.
   */
  lemma DirtyRowFate(items: seq<Item>, sid: string, local: Row)
    requires DirtyCols(local) != {} && ServerIdOf(local) == sid && sid != ""
    ensures EndsInMerge(items, sid, local) ==>
      LastTouch(items, SESSIONS, sid).Some? && LastTouch(items, SESSIONS, sid).value.Put?
    ensures FateOf(items, SESSIONS, sid, Some(local)) ==
      if Unchallenged(items, sid, local) then Some(local)
      else if EndsInMerge(items, sid, local) then
        Some(Clean(Merge(local, LastTouch(items, SESSIONS, sid).value.pulled.ToRow(), DirtyCols(local))))
      else LastWriter(items, SESSIONS, sid, Some(local))
  {
    LocalEditSurvivesIff(items, sid, local);
    EndsInMergeIff(items, sid, local);
    if EndsInMerge(items, sid, local) {
      MergeIsKept(items, sid, local);
    }
  }

  lemma {:induction false} UnchallengedTouch(items: seq<Item>, sid: string, local: Row)
    ensures LastTouch(items, SESSIONS, sid).None? ==> Unchallenged(items, sid, local)
  {
    if items != [] {
      UnchallengedTouch(items[..|items| - 1], sid, local);
    }
  }

  /**
   A pull cut off after n changes and started over gives a dirty session row another fate than an undisturbed
   one exactly when the page ends in a merge that keeps a local value and the row was overridden before the
   cut: by then it was clean, so the second pull takes the server's copy.
   */
  lemma CrashLosesEditIff(st: Store, items: seq<Item>, n: nat, sid: string, local: Row)
    requires IndexSound(st) && sid != "" && Find(st, SESSIONS, sid) == Some(local) && DirtyCols(local) != {}
    requires n <= |items|
    ensures Find(ApplyItems(ApplyItems(st, items[..n]), items), SESSIONS, sid) !=
            Find(ApplyItems(st, items), SESSIONS, sid)
       <==> EndsInMerge(items, sid, local) && !Unchallenged(items[..n], sid, local)
  {
    var mid := ApplyItems(st, items[..n]);
    FoundCarriesId(st, SESSIONS, sid);
    PullIsFold(st, items, SESSIONS, sid);
    PullIsFold(st, items[..n], SESSIONS, sid);
    PullIsFold(mid, items, SESSIONS, sid);
    LocalEditSurvivesIff(items[..n], sid, local);
    if !Unchallenged(items[..n], sid, local) {
      assert !Unchallenged(items, sid, local) by {
        var i :| 0 <= i < n && Touches(items[..n][i], SESSIONS, sid) && Overrides(items[..n][i], local);
        assert items[i] == items[..n][i];
      }
      EndsInMergeIff(items, sid, local);
      UnchallengedTouch(items, sid, local);
      FoundCarriesId(mid, SESSIONS, sid);
      FateIsLastWriter(items, SESSIONS, sid, Find(mid, SESSIONS, sid));
    }
  }

  /** In particular, replaying a whole page loses a local edit exactly when the page ended in a merge. */
  lemma ReplayLosesEditIff(st: Store, items: seq<Item>, sid: string, local: Row)
    requires IndexSound(st) && sid != "" && Find(st, SESSIONS, sid) == Some(local) && DirtyCols(local) != {}
    ensures var once := ApplyItems(st, items);
      Find(ApplyItems(once, items), SESSIONS, sid) != Find(once, SESSIONS, sid) <==> EndsInMerge(items, sid, local)
  {
    CrashLosesEditIff(st, items, |items|, sid, local);
    assert items[..|items|] == items;
    EndsInMergeIff(items, sid, local);
  }

  // ---- The same by the stamps ------------------------------------------------------------------------------

  /** A change of this session row that is a put with a numeric stamp. */
  ghost predicate StampedPut(item: Item) {
    item.Put? && Get(item.pulled.ToRow(), "updated_at").Num?
  }

  function Stamp(item: Item): int
    requires StampedPut(item)
  {
    Get(item.pulled.ToRow(), "updated_at").n
  }

  lemma StampDecides(local: Row, item: Item, l: int)
    requires StampedPut(item) && Get(local, "updated_at") == Num(l)
    ensures Overrides(item, local) <==> Stamp(item) >= l
  {
  }

  /** The unsynced edit of a session found in the store, stamped l. */
  ghost predicate StampedEdit(st: Store, sid: string, local: Row, l: int) {
    && IndexSound(st) && sid != "" && Find(st, "sessions", sid) == Some(local)
    && ParseChangedCols(Get(local, "_changed")) != {} && Get(local, "updated_at") == Num(l)
  }

  /**
   Last writer wins, by the numbers: over any page that only puts this session row, the edited row stays as it is
   if and only if every put of it is stamped earlier than the edit. Otherwise it ends up synced.
   */
  lemma EditSurvivesStampsIff(st: Store, items: seq<Item>, sid: string, local: Row, l: int)
    requires StampedEdit(st, sid, local, l)
    requires forall i :: 0 <= i < |items| && Touches(items[i], "sessions", sid) ==> StampedPut(items[i])
    ensures var after := Find(ApplyItems(st, items), "sessions", sid);
      && (after == Some(local) <==>
            forall i :: 0 <= i < |items| && Touches(items[i], "sessions", sid) ==> Stamp(items[i]) < l)
      && after.Some?
      && (after != Some(local) ==>
            Get(after.value, "_status") == Str("synced") && ParseChangedCols(Get(after.value, "_changed")) == {})
  {
    forall i | 0 <= i < |items| && Touches(items[i], "sessions", sid)
      ensures Overrides(items[i], local) <==> Stamp(items[i]) >= l
    {
      StampDecides(local, items[i], l);
    }
    FoundCarriesId(st, "sessions", sid);
    PullIsFold(st, items, "sessions", sid);
    LocalEditSurvivesIff(items, sid, local);
    PutsLeaveRow(items, sid, local);
  }

  lemma {:induction false} PutsLeaveRow(items: seq<Item>, sid: string, local: Row)
    requires forall i :: 0 <= i < |items| && Touches(items[i], SESSIONS, sid) ==> items[i].Put?
    ensures var after := FateOf(items, SESSIONS, sid, Some(local));
      after.Some? && (after == Some(local) || !Dirty(after.value))
  {
    if items != [] {
      PutsLeaveRow(items[..|items| - 1], sid, local);
    }
  }

  /** What a pulled session row stamped s makes of an edit stamped l. */
  ghost predicate Decided(local: Row, server: Row, after: Option<Row>, col: string) {
    var edited := ParseChangedCols(Get(local, "_changed"));
    match (Get(local, "updated_at"), Get(server, "updated_at"))
    case (Num(l), Num(s)) =>
      if s < l then after == Some(local)
      else
        && after.Some? && Get(after.value, "_status") == Str("synced") && Get(after.value, "_changed") == Undefined
        && (col != "_status" && col != "_changed" ==>
              Get(after.value, col) == Get(if col in edited then local else server, col))
    case _ => after == Some(local)
  }

  lemma FateIsDecided(local: Row, p: Pulled, col: string)
    requires ServerIdOf(local) == p.serverId && DirtyCols(local) != {}
    ensures Decided(local, p.ToRow(), Fate(Some(local), Put("sessions", p)), col)
  {
    if ServerNotOlder(local, p.ToRow()) {
      MergeTakesDirtyColumns(local, p, col);
      MergeIsPatch(local, p);
    }
  }

  lemma FateOfOne(item: Item, table: string, sid: string, found: Option<Row>)
    requires Touches(item, table, sid)
    ensures FateOf([item], table, sid, found) == Fate(found, item)
  {
    assert [item][..0] == [];
  }

  /**
   One pulled session row stamped s against an edit stamped l: earlier, it is ignored; otherwise the row becomes
   the pulled one with the edited columns put back, synced. Without a numeric stamp on both it is ignored.
   */
  lemma OnePutDecides(st: Store, p: Pulled, local: Row, col: string)
    requires IndexSound(st) && p.serverId != "" && Find(st, "sessions", p.serverId) == Some(local)
    requires ParseChangedCols(Get(local, "_changed")) != {}
    ensures Decided(local, p.ToRow(), Find(ApplyItems(st, [Put("sessions", p)]), "sessions", p.serverId), col)
  {
    var item := Put("sessions", p);
    FoundCarriesId(st, "sessions", p.serverId);
    PullIsFold(st, [item], "sessions", p.serverId);
    FateOfOne(item, "sessions", p.serverId, Some(local));
    FateIsDecided(local, p, col);
  }

  // ---- Rows the server has never seen ------------------------------------------------------------------------

  lemma UpsertKeepsComplete(st: Store, table: string, row: Row)
    requires Consistent(st)
    ensures IndexComplete(Upserted(st, table, row))
  {
  }

  lemma UpsertKeepsConsistent(st: Store, table: string, row: Row)
    requires Consistent(st)
    ensures Consistent(Upserted(st, table, row))
  {
    UpsertKeepsComplete(st, table, row);
    UpsertKeepsSound(st, table, row);
  }

  lemma DropKeepsConsistent(st: Store, table: string, sid: string)
    requires Consistent(st)
    ensures Consistent(Deleted(st, table, sid))
  {
  }

  /** Pulling keeps server ids unique and leaves the cursor alone. */
  lemma {:induction false} PullKeepsConsistent(st: Store, items: seq<Item>)
    requires Consistent(st)
    ensures Consistent(ApplyItems(st, items)) && ApplyItems(st, items).cursor == st.cursor
  {
    if items != [] {
      var before, last := ApplyItems(st, items[..|items| - 1]), items[|items| - 1];
      PullKeepsConsistent(st, items[..|items| - 1]);
      match last
      case Drop(t, s) => DropKeepsConsistent(before, t, s);
      case Put(t, p) =>
        match Outcome(Find(before, t, p.serverId), t, p) {
          case Some(row) => UpsertKeepsConsistent(before, t, row);
          case None =>
        }
    }
  }

  /** A row created on the device, which has no server id yet, is never touched by a pull. */
  lemma {:induction false} PullKeepsLocalCreates(st: Store, items: seq<Item>, key: Key)
    requires Consistent(st) && key in st.rows && ServerIdOf(st.rows[key]) == ""
    ensures key in ApplyItems(st, items).rows && ApplyItems(st, items).rows[key] == st.rows[key]
  {
    if items != [] {
      PullKeepsLocalCreates(st, items[..|items| - 1], key);
      PullKeepsConsistent(st, items[..|items| - 1]);
    }
  }
}
