/** Round after round, with crashes, against a server log that only grows (`mobile/src/sync/engine.ts`). */
module SyncRecovery {
  import opened Numerics
  import opened SyncSchema
  import opened SyncStore
  import opened SyncPull
  import opened SyncPush
  import opened SyncEngine

  // ---- What a page says about a row ---------------------------------------------------------------------------

  lemma {:induction false} LastTouchAppend(a: seq<Item>, b: seq<Item>, table: string, sid: string)
    ensures LastTouch(a + b, table, sid) ==
      if LastTouch(b, table, sid).Some? then LastTouch(b, table, sid) else LastTouch(a, table, sid)
  {
    if b == [] {
      assert a + b == a;
    } else {
      LastTouchAppend(a, b[..|b| - 1], table, sid);
      assert (a + b)[..|a + b| - 1] == a + b[..|b| - 1];
    }
  }

  function LastPulled(pulled: seq<Pulled>, sid: string): Option<Pulled> {
    if pulled == [] then None
    else if pulled[|pulled| - 1].serverId == sid then Some(pulled[|pulled| - 1])
    else LastPulled(pulled[..|pulled| - 1], sid)
  }

  /** What a bucket says about a row of its table: a delete outweighs an update, an update a create. */
  function BucketWord(b: TablePage, sid: string): Option<Item> {
    if sid in b.deleted then Some(Drop(b.table, sid))
    else
      match (LastPulled(b.updated, sid), LastPulled(b.created, sid))
      case (Some(p), _) => Some(Put(b.table, p))
      case (None, Some(p)) => Some(Put(b.table, p))
      case (None, None) => None
  }

  lemma {:induction false} LastOfPuts(table: string, pulled: seq<Pulled>, sid: string)
    ensures LastTouch(Puts(table, pulled), table, sid) ==
      match LastPulled(pulled, sid) case None => None case Some(p) => Some(Put(table, p))
  {
    if pulled != [] {
      LastOfPuts(table, pulled[..|pulled| - 1], sid);
      assert Puts(table, pulled)[..|pulled| - 1] == Puts(table, pulled[..|pulled| - 1]);
    }
  }

  lemma {:induction false} LastOfDrops(table: string, sids: seq<string>, sid: string)
    ensures LastTouch(Drops(table, sids), table, sid) == if sid in sids then Some(Drop(table, sid)) else None
  {
    if sids != [] {
      LastOfDrops(table, sids[..|sids| - 1], sid);
      assert Drops(table, sids)[..|sids| - 1] == Drops(table, sids[..|sids| - 1]);
      assert sids == sids[..|sids| - 1] + [sids[|sids| - 1]];
    }
  }

  lemma {:induction false} OtherTable(items: seq<Item>, table: string, sid: string)
    requires forall i :: 0 <= i < |items| ==> items[i].table != table
    ensures LastTouch(items, table, sid) == None
  {
    if items != [] {
      OtherTable(items[..|items| - 1], table, sid);
    }
  }

  lemma LastOfBucket(b: TablePage, table: string, sid: string)
    ensures LastTouch(TableItems(b), table, sid) == if b.table == table then BucketWord(b, sid) else None
  {
    var c, u, d := Puts(b.table, b.created), Puts(b.table, b.updated), Drops(b.table, b.deleted);
    if b.table == table {
      LastOfPuts(table, b.created, sid);
      LastOfPuts(table, b.updated, sid);
      LastOfDrops(table, b.deleted, sid);
      LastTouchAppend(c, u, table, sid);
      LastTouchAppend(c + u, d, table, sid);
    } else {
      OtherTable(TableItems(b), table, sid);
    }
  }

  /** What a page says about a row: what its last bucket for the table that mentions it says. */
  function PageWord(changes: seq<TablePage>, table: string, sid: string): Option<Item> {
    if changes == [] then None
    else
      var last := changes[|changes| - 1];
      if last.table == table && BucketWord(last, sid).Some? then BucketWord(last, sid)
      else PageWord(changes[..|changes| - 1], table, sid)
  }

  /** The engine applies creates, updates and deletes in that order; the last of them has the last word. */
  lemma {:induction false} PageWordIsLastTouch(changes: seq<TablePage>, table: string, sid: string)
    ensures LastTouch(Items(changes), table, sid) == PageWord(changes, table, sid)
  {
    if changes != [] {
      var before, last := changes[..|changes| - 1], changes[|changes| - 1];
      PageWordIsLastTouch(before, table, sid);
      LastOfBucket(last, table, sid);
      LastTouchAppend(Items(before), TableItems(last), table, sid);
    }
  }

  /** The page says of every row what this stretch of the server's log did to it last, and nothing of the others. */
  ghost predicate Summarises(changes: seq<TablePage>, stretch: seq<Item>) {
    forall table, sid :: PageWord(changes, table, sid) == LastTouch(stretch, table, sid)
  }

  // ---- Attempts -------------------------------------------------------------------------------------------------

  /**
   One pull: the server's log holds `upTo` changes and the page summarises those past the cursor. The first
   `applied` changes of the page are applied; the cursor moves only if the pull completes.
   */
  datatype Attempt = Attempt(upTo: nat, page: Page, applied: nat, completes: bool)

  /** The cursor as a position in the log, and how far the log has been seen. */
  datatype Progress = Progress(store: Store, position: nat, seen: nat)

  ghost predicate Possible(p: Progress, log: seq<Item>, a: Attempt) {
    && p.position <= p.seen <= a.upTo <= |log| && a.applied <= |Items(a.page.changes)|
    && (a.completes ==> a.applied == |Items(a.page.changes)|)
    && Summarises(a.page.changes, log[p.position..a.upTo])
  }

  function Applied(a: Attempt): seq<Item> {
    var items := Items(a.page.changes);
    if a.completes || a.applied > |items| then items else items[..a.applied]
  }

  function Pull(p: Progress, a: Attempt): Progress {
    if a.completes then Progress(PulledStore(p.store, a.page), a.upTo, a.upTo)
    else Progress(ApplyItems(p.store, Applied(a)), p.position, a.upTo)
  }

  /** Every snapshot of a round up to the move of the cursor is the end of such an attempt. */
  lemma RoundIsAttempt(trace: seq<Store>, from: nat, m: nat, start: Store, page: Page, i: nat, p: Progress, upTo: nat)
    returns (a: Attempt)
    requires RoundTrace(trace, from, m, start, page) && from <= i <= m && p.store == start
    ensures a.page == page && a.upTo == upTo && a.completes == (i == m)
    ensures a.applied <= |Items(page.changes)| && (a.completes ==> a.applied == |Items(page.changes)|)
    ensures Pull(p, a).store == trace[i]
  {
    var items := Items(page.changes);
    if i == m {
      a := Attempt(upTo, page, |items|, true);
    } else {
      assert Reaches(start, items, trace[..m][i]);
      var n :| 0 <= n <= |items| && trace[i] == ApplyItems(start, items[..n]);
      a := Attempt(upTo, page, n, false);
    }
  }

  /** All attempts in turn. */
  function PullAll(st: Store, attempts: seq<Attempt>): Progress {
    if attempts == [] then Progress(st, 0, 0)
    else Pull(PullAll(st, attempts[..|attempts| - 1]), attempts[|attempts| - 1])
  }

  ghost predicate AllPossible(st: Store, log: seq<Item>, attempts: seq<Attempt>) {
    forall k :: 0 <= k < |attempts| ==> Possible(PullAll(st, attempts[..k]), log, attempts[k])
  }

  // ---- Convergence ------------------------------------------------------------------------------------------------

  lemma WriterAppend(a: seq<Item>, b: seq<Item>, table: string, sid: string, found: Option<Row>, now: Option<Row>)
    ensures LastTouch(b, table, sid).None? ==>
      LastWriter(a + b, table, sid, found) == LastWriter(a, table, sid, found) && LastWriter(b, table, sid, now) == now
    ensures LastTouch(b, table, sid).Some? ==>
      LastWriter(a + b, table, sid, found) == LastWriter(b, table, sid, now)
  {
    LastTouchAppend(a, b, table, sid);
  }

  lemma LongerStretch(log: seq<Item>, i: nat, j: nat, k: nat, table: string, sid: string)
    requires i <= j <= k <= |log| && LastTouch(log[i..k], table, sid).None?
    ensures LastTouch(log[i..j], table, sid).None?
  {
    var long, short, rest := log[i..k], log[i..j], log[j..k];
    LastTouchAppend(short, rest, table, sid);
    assert long == short + rest;
  }

  /** A row that the seen part of the log past the cursor does not touch is as the changes pulled so far want it. */
  ghost predicate UpToDate(p: Progress, log: seq<Item>, covered: seq<Item>, table: string, sid: string,
                           found: Option<Row>)
    requires p.position <= p.seen <= |log|
  {
    LastTouch(log[p.position..p.seen], table, sid).None? ==>
      Find(p.store, table, sid) == LastWriter(covered, table, sid, found)
  }

  ghost predicate Tracked(p: Progress, log: seq<Item>, covered: seq<Item>, table: string, sid: string,
                          found: Option<Row>) {
    && IndexSound(p.store) && p.position <= p.seen <= |log| && UpToDate(p, log, covered, table, sid, found)
    && (Settled(found) ==> Settled(Find(p.store, table, sid)))
  }

  /** The changes pulled, completely, once the attempt is over. */
  function Extended(p: Progress, log: seq<Item>, covered: seq<Item>, a: Attempt): seq<Item> {
    if a.completes && p.position <= a.upTo <= |log| then covered + log[p.position..a.upTo] else covered
  }

  lemma PullApplies(st: Store, items: seq<Item>, table: string, sid: string)
    requires IndexSound(st) && sid != "" && table in TABLES
    requires ServerWins(table) || Settled(Find(st, table, sid))
    ensures IndexSound(ApplyItems(st, items))
    ensures Find(ApplyItems(st, items), table, sid) == LastWriter(items, table, sid, Find(st, table, sid))
    ensures Settled(Find(st, table, sid)) ==> Settled(Find(ApplyItems(st, items), table, sid))
  {
    var now := Find(st, table, sid);
    FoundCarriesId(st, table, sid);
    PullIsFold(st, items, table, sid);
    FateIsLastWriter(items, table, sid, now);
  }

  lemma AttemptStaysUpToDate(p: Progress, log: seq<Item>, covered: seq<Item>, a: Attempt, table: string, sid: string,
                             found: Option<Row>)
    requires Possible(p, log, a) && Tracked(p, log, covered, table, sid, found) && sid != "" && table in TABLES
    requires ServerWins(table) || Settled(found)
    ensures Tracked(Pull(p, a), log, Extended(p, log, covered, a), table, sid, found)
    ensures Find(Pull(p, a).store, table, sid) == LastWriter(Applied(a), table, sid, Find(p.store, table, sid))
  {
    PageWordIsLastTouch(a.page.changes, table, sid);
    if a.completes {
      CompletedStaysUpToDate(p, log, covered, a, table, sid, found);
    } else {
      CutStaysUpToDate(p, log, covered, a, table, sid, found);
    }
  }

  lemma CompletedStaysUpToDate(p: Progress, log: seq<Item>, covered: seq<Item>, a: Attempt, table: string,
                               sid: string, found: Option<Row>)
    requires Possible(p, log, a) && Tracked(p, log, covered, table, sid, found) && sid != "" && table in TABLES
    requires (ServerWins(table) || Settled(found)) && a.completes
    requires LastTouch(Items(a.page.changes), table, sid) == LastTouch(log[p.position..a.upTo], table, sid)
    ensures Tracked(Pull(p, a), log, covered + log[p.position..a.upTo], table, sid, found)
    ensures Find(Pull(p, a).store, table, sid) == LastWriter(Applied(a), table, sid, Find(p.store, table, sid))
  {
    PullApplies(p.store, Applied(a), table, sid);
    CompletedPull(p, log, covered, Items(a.page.changes), a.upTo, table, sid, found);
    assert log[a.upTo..a.upTo] == [];
  }

  lemma CutStaysUpToDate(p: Progress, log: seq<Item>, covered: seq<Item>, a: Attempt, table: string, sid: string,
                         found: Option<Row>)
    requires Possible(p, log, a) && Tracked(p, log, covered, table, sid, found) && sid != "" && table in TABLES
    requires (ServerWins(table) || Settled(found)) && !a.completes
    requires LastTouch(Items(a.page.changes), table, sid) == LastTouch(log[p.position..a.upTo], table, sid)
    ensures Tracked(Pull(p, a), log, covered, table, sid, found)
    ensures Find(Pull(p, a).store, table, sid) == LastWriter(Applied(a), table, sid, Find(p.store, table, sid))
  {
    PullApplies(p.store, Applied(a), table, sid);
    CutPull(p, log, covered, Items(a.page.changes), a.applied, a.upTo, table, sid, found);
  }

  lemma CutPull(p: Progress, log: seq<Item>, covered: seq<Item>, items: seq<Item>, applied: nat, upTo: nat,
                table: string, sid: string, found: Option<Row>)
    requires p.position <= p.seen <= upTo <= |log| && UpToDate(p, log, covered, table, sid, found)
    requires LastTouch(items, table, sid) == LastTouch(log[p.position..upTo], table, sid) && applied <= |items|
    ensures LastTouch(log[p.position..upTo], table, sid).None? ==>
      LastWriter(items[..applied], table, sid, Find(p.store, table, sid)) == LastWriter(covered, table, sid, found)
  {
    if LastTouch(items, table, sid).None? {
      LongerStretch(log, p.position, p.seen, upTo, table, sid);
      LastTouchOfPrefix(items, applied, table, sid);
    }
  }

  lemma CompletedPull(p: Progress, log: seq<Item>, covered: seq<Item>, items: seq<Item>, upTo: nat,
                      table: string, sid: string, found: Option<Row>)
    requires p.position <= p.seen <= upTo <= |log| && UpToDate(p, log, covered, table, sid, found)
    requires LastTouch(items, table, sid) == LastTouch(log[p.position..upTo], table, sid)
    ensures LastWriter(items, table, sid, Find(p.store, table, sid))
         == LastWriter(covered + log[p.position..upTo], table, sid, found)
  {
    var stretch := log[p.position..upTo];
    WriterAppend(covered, stretch, table, sid, found, Find(p.store, table, sid));
    if LastTouch(stretch, table, sid).None? {
      LongerStretch(log, p.position, p.seen, upTo, table, sid);
    }
  }

  lemma PulledPrefix(p: Progress, log: seq<Item>, a: Attempt, table: string, sid: string, found: Option<Row>)
    requires p.position <= a.upTo <= |log|
    ensures var q := Pull(p, a);
      && q.position <= |log| && Extended(p, log, log[..p.position], a) == log[..q.position]
      && (a.completes && Tracked(q, log, log[..q.position], table, sid, found) ==>
            Find(q.store, table, sid) == LastWriter(log[..q.position], table, sid, found))
  {
    if a.completes {
      assert log[..a.upTo] == log[..p.position] + log[p.position..a.upTo];
      assert log[a.upTo..a.upTo] == [];
    }
  }

  /**
   Convergence: however many rounds were cut off anywhere in their pull, after a completed one the row is
   exactly what the server's whole log up to the cursor makes of it, provided each page summarises its stretch
   of the log. In between, every row the server has left alone since the cursor is as it should be.
   */
  lemma {:induction false} PullsConverge(st: Store, log: seq<Item>, attempts: seq<Attempt>, table: string, sid: string)
    requires IndexSound(st) && sid != "" && table in TABLES
    requires ServerWins(table) || Settled(Find(st, table, sid))
    requires AllPossible(st, log, attempts)
    ensures var p := PullAll(st, attempts);
      && Tracked(p, log, log[..p.position], table, sid, Find(st, table, sid))
      && (attempts != [] && attempts[|attempts| - 1].completes ==>
            Find(p.store, table, sid) == LastWriter(log[..p.position], table, sid, Find(st, table, sid)))
  {
    if attempts != [] {
      var before, last := attempts[..|attempts| - 1], attempts[|attempts| - 1];
      OneAttemptLess(st, log, attempts);
      PullsConverge(st, log, before, table, sid);
      AttemptConverges(PullAll(st, before), log, last, table, sid, Find(st, table, sid));
    }
  }

  lemma OneAttemptLess(st: Store, log: seq<Item>, attempts: seq<Attempt>)
    requires attempts != [] && AllPossible(st, log, attempts)
    ensures AllPossible(st, log, attempts[..|attempts| - 1])
    ensures Possible(PullAll(st, attempts[..|attempts| - 1]), log, attempts[|attempts| - 1])
  {
    var before := attempts[..|attempts| - 1];
    forall k | 0 <= k < |before| ensures Possible(PullAll(st, before[..k]), log, before[k]) {
      assert before[..k] == attempts[..k];
    }
  }

  lemma AttemptConverges(p: Progress, log: seq<Item>, a: Attempt, table: string, sid: string, found: Option<Row>)
    requires Possible(p, log, a) && Tracked(p, log, log[..p.position], table, sid, found)
    requires sid != "" && table in TABLES && (ServerWins(table) || Settled(found))
    ensures var q := Pull(p, a);
      && q.position <= |log| && Tracked(q, log, log[..q.position], table, sid, found)
      && (a.completes ==> Find(q.store, table, sid) == LastWriter(log[..q.position], table, sid, found))
  {
    AttemptStaysUpToDate(p, log, log[..p.position], a, table, sid, found);
    PulledPrefix(p, log, a, table, sid, found);
  }

  // ---- Pushes between the pulls -----------------------------------------------------------------------------------

  /** A pull; a push that is answered when the log holds `at` changes; or a push cut off while it is confirmed. */
  datatype Step =
    | PullStep(attempt: Attempt)
    | PushStep(payload: Payload, result: PushResult, at: nat)
    | PushCut(payload: Payload, result: PushResult, named: nat, settled: nat)

  /** The store when the first `named` ids have been entered and the first `settled` receipts. */
  function Acknowledged(st: Store, payload: Payload, result: PushResult, named: nat, settled: nat): Store
    requires named <= |result.serverIds| && settled <= |Receipts(payload)|
  {
    SettleAll(NameAll(st, result.serverIds[..named]), Receipts(payload)[..settled])
  }

  /** The answered push stores its own timestamp as the cursor, past whatever was written since the pull. */
  ghost predicate CanTake(p: Progress, log: seq<Item>, step: Step, table: string, sid: string) {
    match step
    case PullStep(a) => Possible(p, log, a)
    case PushStep(payload, result, at) =>
      && p.position == p.seen <= at <= |log| && Answers(p.store, payload, result, table, sid)
      && (result.timestamp == "" ==> at == p.position)
    case PushCut(payload, result, named, settled) =>
      && p.position == p.seen && Answers(p.store, payload, result, table, sid)
      && named <= |result.serverIds| && settled <= |Receipts(payload)|
  }

  /** The server answers the gathered payload with unused ids, and the row is none of those it names. */
  ghost predicate Answers(st: Store, payload: Payload, result: PushResult, table: string, sid: string) {
    && Gathers(st, PushableTables(), payload) && FreshIds(st, result.serverIds)
    && Spares(st, result.serverIds, table, sid)
  }

  ghost predicate Spares(st: Store, issued: seq<Issued>, table: string, sid: string) {
    forall i :: 0 <= i < |issued| ==> SparesOne(st, issued[i], table, sid)
  }

  predicate SparesOne(st: Store, x: Issued, table: string, sid: string) {
    x.table == table ==> x.sid != sid && (Ref(table, sid) in st.index ==> st.index[Ref(table, sid)] != x.id)
  }

  function Taken(p: Progress, step: Step): Progress {
    match step
    case PullStep(a) => Pull(p, a)
    case PushStep(payload, result, at) => Progress(Confirmed(p.store, payload, result), at, at)
    case PushCut(payload, result, named, settled) =>
      if named <= |result.serverIds| && settled <= |Receipts(payload)|
      then p.(store := Acknowledged(p.store, payload, result, named, settled)) else p
  }

  function TakeAll(st: Store, steps: seq<Step>): Progress {
    if steps == [] then Progress(st, 0, 0)
    else Taken(TakeAll(st, steps[..|steps| - 1]), steps[|steps| - 1])
  }

  ghost predicate AllTaken(st: Store, log: seq<Item>, steps: seq<Step>, table: string, sid: string) {
    forall k :: 0 <= k < |steps| ==> CanTake(TakeAll(st, steps[..k]), log, steps[k], table, sid)
  }

  /** The changes of the log that were pulled: all up to the cursor but those a push skipped. */
  function Covered(st: Store, log: seq<Item>, steps: seq<Step>): seq<Item> {
    if steps == [] then []
    else
      var before, last := steps[..|steps| - 1], steps[|steps| - 1];
      var covered := Covered(st, log, before);
      if last.PullStep? then Extended(TakeAll(st, before), log, covered, last.attempt) else covered
  }

  /** The last change to the row that a push skipped, unless a later pull brought a newer one. */
  function Missed(st: Store, log: seq<Item>, steps: seq<Step>, table: string, sid: string): Option<Item> {
    if steps == [] then None
    else
      var before, last := steps[..|steps| - 1], steps[|steps| - 1];
      var from, missed := TakeAll(st, before).position, Missed(st, log, before, table, sid);
      match last
      case PushStep(_, _, at) =>
        if from <= at <= |log| && LastTouch(log[from..at], table, sid).Some? then LastTouch(log[from..at], table, sid)
        else missed
      case PullStep(a) =>
        if a.completes && from <= a.upTo <= |log| && LastTouch(log[from..a.upTo], table, sid).Some? then None
        else missed
      case PushCut(_, _, _, _) => missed
  }

  /** What a change makes of a row. */
  function Word(item: Item): Option<Row> {
    match item
    case Drop(_, _) => None
    case Put(_, p) => Some(Clean(p.ToRow()))
  }

  predicate Synced(found: Option<Row>) {
    found.Some? ==> !Dirty(found.value)
  }

  /** The same row, or none, is found under the id. */
  predicate SameRow(a: Store, b: Store, table: string, sid: string) {
    var ref := Ref(table, sid);
    && (ref in a.index <==> ref in b.index)
    && (ref in a.index ==> a.index[ref] == b.index[ref])
    && Find(a, table, sid) == Find(b, table, sid)
  }

  lemma NamingOneSpares(st: Store, x: Issued, table: string, sid: string)
    requires SparesOne(st, x, table, sid)
    ensures SameRow(st, Created(st, x.table, x.id, x.sid), table, sid)
  {
  }

  lemma {:induction false} NamingSpares(st: Store, issued: seq<Issued>, n: nat, table: string, sid: string)
    requires n <= |issued| && Spares(st, issued, table, sid)
    ensures SameRow(st, NameAll(st, issued[..n]), table, sid)
    decreases n
  {
    if n > 0 {
      NamingSpares(st, issued, n - 1, table, sid);
      var mid, x := NameAll(st, issued[..n - 1]), issued[n - 1];
      assert SparesOne(st, x, table, sid);
      NamingOneSpares(mid, x, table, sid);
      assert issued[..n][..n - 1] == issued[..n - 1];
    }
  }

  lemma SettlingOneSpares(st: Store, r: Receipt, table: string, sid: string)
    requires IndexSound(st) && (r.table != table || r.sid != sid)
    ensures SameRow(st, Settle(st, r), table, sid)
  {
    if Ref(table, sid) in st.index && Ref(r.table, r.sid) in st.index && r.table == table {
      assert st.index[Ref(table, sid)] != st.index[Ref(r.table, r.sid)];
    }
  }

  lemma {:induction false} SettlingSpares(st: Store, receipts: seq<Receipt>, n: nat, table: string, sid: string)
    requires n <= |receipts| && Consistent(st) && !Mentions(receipts, table, sid)
    ensures Consistent(SettleAll(st, receipts[..n])) && SameRow(st, SettleAll(st, receipts[..n]), table, sid)
    decreases n
  {
    if n > 0 {
      SettlingSpares(st, receipts, n - 1, table, sid);
      var mid, r := SettleAll(st, receipts[..n - 1]), receipts[n - 1];
      assert r in receipts;
      SettlingOneSpares(mid, r, table, sid);
      SettleKeepsConsistent(mid, r);
      assert receipts[..n][..n - 1] == receipts[..n - 1];
    }
  }

  lemma MentionedIsDirty(st: Store, b: Bucket, table: string, sid: string)
    requires Consistent(st) && Exact(st, b) && Mentions(BucketReceipts(b), table, sid)
    ensures Find(st, table, sid).Some? && Dirty(Find(st, table, sid).value)
  {
    BucketMentions(b, table, sid);
    if sid in b.deleted {
      var e :| Tombstoned(st, table, e, sid);
      assert Key(table, e.id) in st.rows;
    } else {
      var e :| e in b.updated && ServerIdOf(e.row) == sid;
      assert Key(table, e.id) in st.rows;
    }
  }

  lemma SyncedIsUnmentioned(st: Store, payload: Payload, table: string, sid: string)
    requires Consistent(st) && Gathers(st, PushableTables(), payload) && Synced(Find(st, table, sid))
    ensures !Mentions(Receipts(payload), table, sid)
  {
    ReceiptsMention(payload, table, sid);
    PayloadBuckets(st, PushableTables(), payload);
    if i :| 0 <= i < |payload| && Mentions(BucketReceipts(payload[i]), table, sid) {
      MentionedIsDirty(st, payload[i], table, sid);
    }
  }

  lemma FreshPrefix(st: Store, issued: seq<Issued>, n: nat)
    requires n <= |issued| && FreshIds(st, issued)
    ensures FreshIds(st, issued[..n])
  {
  }

  /** A push, cut off anywhere or not, leaves a synced row alone that the answer does not name. */
  lemma PushSparesSyncedRow(st: Store, payload: Payload, result: PushResult, named: nat, settled: nat,
                            table: string, sid: string)
    requires Consistent(st) && Answers(st, payload, result, table, sid) && Synced(Find(st, table, sid))
    requires named <= |result.serverIds| && settled <= |Receipts(payload)|
    ensures var after := Acknowledged(st, payload, result, named, settled);
      Consistent(after) && Find(after, table, sid) == Find(st, table, sid)
  {
    FreshPrefix(st, result.serverIds, named);
    NamingKeepsConsistent(st, result.serverIds[..named]);
    NamingSpares(st, result.serverIds, named, table, sid);
    SyncedIsUnmentioned(st, payload, table, sid);
    SettlingSpares(NameAll(st, result.serverIds[..named]), Receipts(payload), settled, table, sid);
  }

  lemma ConfirmedSparesSyncedRow(st: Store, payload: Payload, result: PushResult, table: string, sid: string)
    requires Consistent(st) && Answers(st, payload, result, table, sid) && Synced(Find(st, table, sid))
    ensures var after := Confirmed(st, payload, result);
      Consistent(after) && Find(after, table, sid) == Find(st, table, sid)
  {
    var ids, receipts := result.serverIds, Receipts(payload);
    PushSparesSyncedRow(st, payload, result, |ids|, |receipts|, table, sid);
    assert ids[..|ids|] == ids && receipts[..|receipts|] == receipts;
    var settled := Acknowledged(st, payload, result, |ids|, |receipts|);
    CursorAlone(settled, Confirmed(st, payload, result), table, sid);
  }

  lemma CursorAlone(a: Store, b: Store, table: string, sid: string)
    requires Consistent(a) && b == a.(cursor := b.cursor)
    ensures Consistent(b) && Find(b, table, sid) == Find(a, table, sid)
  {
  }

  lemma PullKeepsSynced(p: Progress, a: Attempt)
    requires Consistent(p.store)
    ensures Consistent(Pull(p, a).store)
  {
    PullKeepsConsistent(p.store, Applied(a));
    if a.completes {
      CursorAlone(ApplyItems(p.store, Applied(a)), Pull(p, a).store, "", "");
    }
  }

  lemma TakeOneMore(st: Store, log: seq<Item>, steps: seq<Step>, table: string, sid: string)
    requires steps != [] && AllTaken(st, log, steps, table, sid)
    ensures AllTaken(st, log, steps[..|steps| - 1], table, sid)
    ensures CanTake(TakeAll(st, steps[..|steps| - 1]), log, steps[|steps| - 1], table, sid)
  {
    var before := steps[..|steps| - 1];
    forall k | 0 <= k < |before| ensures CanTake(TakeAll(st, before[..k]), log, before[k], table, sid) {
      assert before[..k] == steps[..k];
    }
  }

  ghost predicate TrackedSynced(p: Progress, log: seq<Item>, covered: seq<Item>, table: string, sid: string,
                                found: Option<Row>) {
    Tracked(p, log, covered, table, sid, found) && Consistent(p.store) && Synced(Find(p.store, table, sid))
  }

  /** The row after each step; a push may move the cursor, but never the row. */
  lemma StepStaysUpToDate(p: Progress, log: seq<Item>, covered: seq<Item>, step: Step, table: string, sid: string,
                          found: Option<Row>)
    requires TrackedSynced(p, log, covered, table, sid, found) && sid != "" && table in TABLES
    requires ServerWins(table) || Settled(found)
    requires CanTake(p, log, step, table, sid)
    ensures var covered' := if step.PullStep? then Extended(p, log, covered, step.attempt) else covered;
      TrackedSynced(Taken(p, step), log, covered', table, sid, found)
  {
    match step
    case PullStep(a) =>
      AttemptStaysUpToDate(p, log, covered, a, table, sid, found);
      PullKeepsSynced(p, a);
    case PushStep(payload, result, at) =>
      ConfirmedSparesSyncedRow(p.store, payload, result, table, sid);
      assert log[p.position..p.seen] == [] && log[at..at] == [];
    case PushCut(payload, result, named, settled) =>
      PushSparesSyncedRow(p.store, payload, result, named, settled, table, sid);
  }

  /**
   Over any pulls and pushes, cut off anywhere: a row the device has not edited is, whenever the cursor is at
   the end of what has been seen, exactly what the pulled changes make of it.
   */
  lemma {:induction false} RoundsConverge(st: Store, log: seq<Item>, steps: seq<Step>, table: string, sid: string)
    requires Consistent(st) && sid != "" && table in TABLES && Synced(Find(st, table, sid))
    requires ServerWins(table) || Settled(Find(st, table, sid))
    requires AllTaken(st, log, steps, table, sid)
    ensures var p, covered := TakeAll(st, steps), Covered(st, log, steps);
      && TrackedSynced(p, log, covered, table, sid, Find(st, table, sid))
      && (p.position == p.seen ==>
            Find(p.store, table, sid) == LastWriter(covered, table, sid, Find(st, table, sid)))
  {
    if steps != [] {
      var before, last := steps[..|steps| - 1], steps[|steps| - 1];
      TakeOneMore(st, log, steps, table, sid);
      RoundsConverge(st, log, before, table, sid);
      StepStaysUpToDate(TakeAll(st, before), log, Covered(st, log, before), last, table, sid, Find(st, table, sid));
    }
    var p := TakeAll(st, steps);
    if p.position == p.seen {
      assert log[p.position..p.seen] == [];
    }
  }

  lemma LogAdvances(log: seq<Item>, from: nat, upTo: nat, table: string, sid: string, found: Option<Row>)
    requires from <= upTo <= |log|
    ensures LastWriter(log[..upTo], table, sid, found) ==
      match LastTouch(log[from..upTo], table, sid)
      case None => LastWriter(log[..from], table, sid, found)
      case Some(item) => Word(item)
  {
    assert log[..upTo] == log[..from] + log[from..upTo];
    WriterAppend(log[..from], log[from..upTo], table, sid, found, found);
  }

  /** What the whole log wants of the row is what was missed of it, or else what was pulled. */
  lemma {:induction false} LogIsCoveredOrMissed(st: Store, log: seq<Item>, steps: seq<Step>, table: string, sid: string,
                                                found: Option<Row>)
    requires AllTaken(st, log, steps, table, sid)
    ensures TakeAll(st, steps).position <= |log|
    ensures LastWriter(log[..TakeAll(st, steps).position], table, sid, found) ==
      match Missed(st, log, steps, table, sid)
      case None => LastWriter(Covered(st, log, steps), table, sid, found)
      case Some(item) => Word(item)
  {
    if steps != [] {
      var before, last := steps[..|steps| - 1], steps[|steps| - 1];
      TakeOneMore(st, log, steps, table, sid);
      LogIsCoveredOrMissed(st, log, before, table, sid, found);
      var p := TakeAll(st, before);
      match last
      case PullStep(a) =>
        if a.completes {
          LogAdvances(log, p.position, a.upTo, table, sid, found);
          WriterAppend(Covered(st, log, before), log[p.position..a.upTo], table, sid, found, found);
        }
      case PushStep(_, _, at) =>
        LogAdvances(log, p.position, at, table, sid, found);
      case PushCut(_, _, _, _) =>
    }
  }

  /**
   So such a row is as the server has it at the cursor if and only if no push skipped a change to it that no
   later pull overtook, or what was skipped happens to leave the row as it was.
   */
  lemma ConvergesIff(st: Store, log: seq<Item>, steps: seq<Step>, table: string, sid: string)
    requires Consistent(st) && sid != "" && table in TABLES && Synced(Find(st, table, sid))
    requires ServerWins(table) || Settled(Find(st, table, sid))
    requires AllTaken(st, log, steps, table, sid)
    requires TakeAll(st, steps).position == TakeAll(st, steps).seen
    ensures var p, missed := TakeAll(st, steps), Missed(st, log, steps, table, sid);
      && p.position <= |log|
      && (Find(p.store, table, sid) == LastWriter(log[..p.position], table, sid, Find(st, table, sid)) <==>
          missed.None? || Word(missed.value) == Find(p.store, table, sid))
  {
    RoundsConverge(st, log, steps, table, sid);
    LogIsCoveredOrMissed(st, log, steps, table, sid, Find(st, table, sid));
  }

  /** One round with nothing to pull, during whose push somebody else creates a row: the device never hears of it. */
  lemma PushSkipsNewRow(st: Store, payload: Payload, result: PushResult, table: string, created: Pulled)
    requires Consistent(st) && table in TABLES && Find(st, table, created.serverId) == None
    requires Answers(st, payload, result, table, created.serverId) && result.timestamp != ""
    ensures var log := [Put(table, created)];
      var steps := [PullStep(Attempt(0, Page([], st.cursor), 0, true)), PushStep(payload, result, 1)];
      var p := TakeAll(st, steps);
      && AllTaken(st, log, steps, table, created.serverId)
      && p.position == |log| && Find(p.store, table, created.serverId) == None
      && LastWriter(log, table, created.serverId, None) == Some(Clean(created.ToRow()))
  {
    var log, a := [Put(table, created)], Attempt(0, Page([], st.cursor), 0, true);
    var steps := [PullStep(a), PushStep(payload, result, 1)];
    assert steps[..0] == [] && steps[..1] == [PullStep(a)] && steps[..1][..0] == [];
    EmptyPull(st, log, a);
    ConfirmedSparesSyncedRow(st, payload, result, table, created.serverId);
    forall k | 0 <= k < |steps| ensures CanTake(TakeAll(st, steps[..k]), log, steps[k], table, created.serverId) {
      assert k == 0 || k == 1;
    }
  }

  lemma EmptyPull(st: Store, log: seq<Item>, a: Attempt)
    requires a == Attempt(0, Page([], st.cursor), 0, true)
    ensures Possible(Progress(st, 0, 0), log, a) && Pull(Progress(st, 0, 0), a) == Progress(st, 0, 0)
  {
    assert log[0..0] == [];
  }

  /**
   The condition on pages cannot be dropped, and is exact: a completed pull leaves every row of these tables as
   the log up to the new cursor wants it, whatever the store held before, if and only if the page says of each
   what the log did last.
   */
  lemma PageMustSummariseIff(log: seq<Item>, from: nat, upTo: nat, page: Page, table: string, sid: string)
    requires from <= upTo <= |log| && sid != "" && ServerWins(table)
    ensures (forall found: Option<Row> :: Carries(found, sid) ==>
               FateOf(Items(page.changes), table, sid, found) == LastWriter(log[from..upTo], table, sid, found))
       <==> SameWord(PageWord(page.changes, table, sid), LastTouch(log[from..upTo], table, sid))
  {
    var items, stretch := Items(page.changes), log[from..upTo];
    PageWordIsLastTouch(page.changes, table, sid);
    forall found: Option<Row> | Carries(found, sid)
      ensures FateOf(items, table, sid, found) == LastWriter(items, table, sid, found)
    {
      FateIsLastWriter(items, table, sid, found);
    }
    var x, y := LastTouch(items, table, sid), LastTouch(stretch, table, sid);
    var some := Some(map["server_id" := Str(sid), "_status" := Str("?")]);
    assert Carries(None, sid) && Carries(some, sid);
    if !SameWord(x, y) {
      assert LastWriter(items, table, sid, None) != LastWriter(stretch, table, sid, None)
          || LastWriter(items, table, sid, some) != LastWriter(stretch, table, sid, some);
    }
  }

  /** Two last words with the same effect on every row. */
  predicate SameWord(x: Option<Item>, y: Option<Item>) {
    match (x, y)
    case (None, None) => true
    case (Some(Drop(_, _)), Some(Drop(_, _))) => true
    case (Some(Put(_, p)), Some(Put(_, q))) => Clean(p.ToRow()) == Clean(q.ToRow())
    case _ => false
  }

  /** For instance, a row the page both creates and deletes is gone, even where the log re-created it last. */
  lemma RecreatedRowIsLost(st: Store, b: TablePage, timestamp: string, sid: string)
    requires IndexSound(st) && sid != "" && sid in b.deleted && b.table in TABLES && ServerWins(b.table)
    ensures Find(PulledStore(st, Page([b], timestamp)), b.table, sid) == None
  {
    PageWordIsLastTouch([b], b.table, sid);
    PullApplies(st, Items([b]), b.table, sid);
  }
}
