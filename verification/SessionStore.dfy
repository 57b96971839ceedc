/** The idempotent ingest endpoints (`app/routers/session.py`) over their tables. */
module SessionStore {
  import opened Numerics

  datatype Session = Session(tenantId: string, endedAt: Option<nat>, partialSession: bool)

  /** The unique index `(session_id, monotonic_seq)`. */
  datatype ShotKey = ShotKey(sessionId: string, seqNo: int)

  datatype Shot = Shot(id: nat, deviceClockNs: int, serverClockNs: nat, shotKind: string)

  /** The unique index `(shot_id, event_kind, monotonic_seq)`. */
  datatype EventKey = EventKey(shotId: nat, kind: string, seqNo: int)

  datatype ShotEvent = ShotEvent(id: nat, payload: map<string, real>, producedAt: nat)

  /** The tables; `nextId` stands for the supply of fresh uuids. */
  datatype Tables = Tables(
    sessions: map<string, Session>, shots: map<ShotKey, Shot>, events: map<EventKey, ShotEvent>, nextId: nat)

  predicate InTenant(db: Tables, tenant: string, sid: string) {
    sid in db.sessions && db.sessions[sid].tenantId == tenant
  }

  /** A shot of that id exists in that session of the tenant. */
  predicate ShotInTenant(db: Tables, tenant: string, sid: string, shotId: nat) {
    InTenant(db, tenant, sid) && exists k :: k in db.shots && k.sessionId == sid && db.shots[k].id == shotId
  }

  function WithShot(db: Tables, key: ShotKey, deviceClock: int, kind: string, now: nat): Tables {
    if key in db.shots then db
    else db.(shots := db.shots[key := Shot(db.nextId, deviceClock, now, kind)], nextId := db.nextId + 1)
  }

  function WithEvent(db: Tables, key: EventKey, payload: map<string, real>, producedAt: nat): Tables {
    if key in db.events then db
    else db.(events := db.events[key := ShotEvent(db.nextId, payload, producedAt)], nextId := db.nextId + 1)
  }

  function Ended(s: Session, partialSession: bool, now: nat): Session {
    s.(endedAt := if s.endedAt.None? then Some(now) else s.endedAt, partialSession := partialSession)
  }

  class SessionService {
    var sessions: map<string, Session>
    var shots: map<ShotKey, Shot>
    var events: map<EventKey, ShotEvent>
    var nextId: nat

    constructor (initial: Tables)
      ensures State() == initial
    {
      sessions, shots, events, nextId := initial.sessions, initial.shots, initial.events, initial.nextId;
    }

    function State(): Tables
      reads this
    {
      Tables(sessions, shots, events, nextId)
    }

    method IngestShot(tenant: string, sid: string, seqNo: int, deviceClock: int, kind: string, now: nat)
      returns (r: Result<Shot>)
      modifies this
      ensures r.Ok? <==> InTenant(old(State()), tenant, sid)
      ensures r.Ok? ==>
        && State() == WithShot(old(State()), ShotKey(sid, seqNo), deviceClock, kind, now)
        && r.value == shots[ShotKey(sid, seqNo)]
      ensures r.Err? ==> State() == old(State())
    {
      if !InTenant(State(), tenant, sid) {
        return Err("session not found");
      }
      var key := ShotKey(sid, seqNo);
      if key in shots {
        return Ok(shots[key]);
      }
      var row := Shot(nextId, deviceClock, now, kind);
      shots := shots[key := row];
      nextId := nextId + 1;
      return Ok(row);
    }

    method AppendShotEvent(tenant: string, sid: string, shotId: nat, kind: string, seqNo: int,
                           payload: map<string, real>, producedAt: nat)
      returns (r: Result<ShotEvent>)
      modifies this
      ensures r.Ok? <==> ShotInTenant(old(State()), tenant, sid, shotId)
      ensures r.Ok? ==>
        && State() == WithEvent(old(State()), EventKey(shotId, kind, seqNo), payload, producedAt)
        && r.value == events[EventKey(shotId, kind, seqNo)]
      ensures r.Err? ==> State() == old(State())
    {
      if !ShotInTenant(State(), tenant, sid, shotId) {
        return Err("shot not found");
      }
      var key := EventKey(shotId, kind, seqNo);
      if key in events {
        return Ok(events[key]);
      }
      var row := ShotEvent(nextId, payload, producedAt);
      events := events[key := row];
      nextId := nextId + 1;
      return Ok(row);
    }

    method EndSession(tenant: string, sid: string, partialSession: bool, now: nat) returns (r: Result<Session>)
      modifies this
      ensures r.Ok? <==> InTenant(old(State()), tenant, sid)
      ensures r.Ok? ==>
        && r.value == Ended(old(State()).sessions[sid], partialSession, now)
        && State() == old(State()).(sessions := old(sessions)[sid := r.value])
      ensures r.Err? ==> State() == old(State())
    {
      if !InTenant(State(), tenant, sid) {
        return Err("session not found");
      }
      var row := sessions[sid];
      if row.endedAt.None? {
        row := row.(endedAt := Some(now));
      }
      row := row.(partialSession := partialSession);
      sessions := sessions[sid := row];
      return Ok(row);
    }
  }

  // ---- What no call ever does ---------------------------------------------------------------------------

  datatype Call =
    | PostShot(tenant: string, sid: string, seqNo: int, deviceClock: int, kind: string, now: nat)
    | PostEvent(tenant: string, sid: string, shotId: nat, eventKind: string, seqNo: int, payload: map<string, real>,
                producedAt: nat)
    | PatchEnd(tenant: string, sid: string, partialSession: bool, now: nat)

  function Serve(db: Tables, call: Call): Tables {
    match call
    case PostShot(tenant, sid, seqNo, clock, kind, now) =>
      if InTenant(db, tenant, sid) then WithShot(db, ShotKey(sid, seqNo), clock, kind, now) else db
    case PostEvent(tenant, sid, shotId, kind, seqNo, payload, at) =>
      if ShotInTenant(db, tenant, sid, shotId) then WithEvent(db, EventKey(shotId, kind, seqNo), payload, at) else db
    case PatchEnd(tenant, sid, p, now) =>
      if InTenant(db, tenant, sid) then db.(sessions := db.sessions[sid := Ended(db.sessions[sid], p, now)]) else db
  }

  function ServeAll(db: Tables, calls: seq<Call>): Tables {
    if calls == [] then db else Serve(ServeAll(db, calls[..|calls| - 1]), calls[|calls| - 1])
  }

  /** `after` keeps every row of `before`; only the partial flag of a session may differ. */
  ghost predicate Extends(before: Tables, after: Tables) {
    && (forall k :: k in before.shots ==> k in after.shots && after.shots[k] == before.shots[k])
    && (forall k :: k in before.events ==> k in after.events && after.events[k] == before.events[k])
    && (forall sid :: sid in before.sessions ==>
          && sid in after.sessions && after.sessions[sid].tenantId == before.sessions[sid].tenantId
          && (before.sessions[sid].endedAt.Some? ==> after.sessions[sid].endedAt == before.sessions[sid].endedAt))
  }

  // ---- Where rows come from ------------------------------------------------------------------------------

  /** The call uploads this shot, in its tenant. */
  predicate Uploads(db: Tables, call: Call, key: ShotKey) {
    call.PostShot? && key == ShotKey(call.sid, call.seqNo) && InTenant(db, call.tenant, call.sid)
  }

  /** The call ends this session, in its tenant. */
  predicate Ends(db: Tables, call: Call, sid: string) {
    call.PatchEnd? && call.sid == sid && InTenant(db, call.tenant, call.sid)
  }

  function FirstUpload(db: Tables, calls: seq<Call>, key: ShotKey): Option<Call> {
    if calls == [] then None
    else
      var earlier, last := FirstUpload(db, calls[..|calls| - 1], key), calls[|calls| - 1];
      if earlier.Some? then earlier else if Uploads(db, last, key) then Some(last) else None
  }

  function FirstEnd(db: Tables, calls: seq<Call>, sid: string): Option<Call> {
    if calls == [] then None
    else
      var earlier, last := FirstEnd(db, calls[..|calls| - 1], sid), calls[|calls| - 1];
      if earlier.Some? then earlier else if Ends(db, last, sid) then Some(last) else None
  }

  function LastEnd(db: Tables, calls: seq<Call>, sid: string): Option<Call> {
    if calls == [] then None
    else if Ends(db, calls[|calls| - 1], sid) then Some(calls[|calls| - 1])
    else LastEnd(db, calls[..|calls| - 1], sid)
  }

  lemma {:induction false} TenantsStand(db: Tables, calls: seq<Call>, tenant: string, sid: string)
    ensures InTenant(ServeAll(db, calls), tenant, sid) <==> InTenant(db, tenant, sid)
  {
    if calls != [] {
      TenantsStand(db, calls[..|calls| - 1], tenant, sid);
    }
  }

  lemma ServeShot(db: Tables, call: Call, key: ShotKey)
    requires key !in db.shots
    ensures var after := Serve(db, call);
      if Uploads(db, call, key)
      then key in after.shots && after.shots[key] == Shot(db.nextId, call.deviceClock, call.now, call.kind)
      else key !in after.shots
  {
  }

  lemma ServeKeepsShot(db: Tables, call: Call, key: ShotKey)
    requires key in db.shots
    ensures key in Serve(db, call).shots && Serve(db, call).shots[key] == db.shots[key]
  {
  }

  /** A new shot row is what its first upload said, stamped with the time of that call; retries add nothing. */
  lemma {:induction false} ShotIsFirstUpload(db: Tables, calls: seq<Call>, key: ShotKey)
    requires key !in db.shots
    ensures var shots, first := ServeAll(db, calls).shots, FirstUpload(db, calls, key);
      if first.None? then key !in shots
      else
        && first.value.PostShot? && key in shots && shots[key].serverClockNs == first.value.now
        && shots[key].deviceClockNs == first.value.deviceClock && shots[key].shotKind == first.value.kind
  {
    if calls != [] {
      var before, last := calls[..|calls| - 1], calls[|calls| - 1];
      ShotIsFirstUpload(db, before, key);
      if last.PostShot? {
        TenantsStand(db, before, last.tenant, last.sid);
      }
      if key in ServeAll(db, before).shots {
        ServeKeepsShot(ServeAll(db, before), last, key);
      } else {
        ServeShot(ServeAll(db, before), last, key);
      }
    }
  }

  /** The call posts this event of a shot that its session, in its tenant, has at that moment. */
  ghost predicate Reports(db: Tables, call: Call, key: EventKey) {
    && call.PostEvent? && key == EventKey(call.shotId, call.eventKind, call.seqNo)
    && call.sid in db.sessions && db.sessions[call.sid].tenantId == call.tenant
    && exists k :: k in db.shots && k.sessionId == call.sid && db.shots[k].id == call.shotId
  }

  /** The first call that does so when it is made. */
  ghost function FirstReport(db: Tables, calls: seq<Call>, key: EventKey): Option<Call> {
    if calls == [] then None
    else
      var before, last := calls[..|calls| - 1], calls[|calls| - 1];
      var earlier := FirstReport(db, before, key);
      if earlier.Some? then earlier else if Reports(ServeAll(db, before), last, key) then Some(last) else None
  }

  lemma ServeEvent(db: Tables, call: Call, key: EventKey)
    ensures var events := Serve(db, call).events;
      if key in db.events then key in events && events[key] == db.events[key]
      else if Reports(db, call, key)
      then key in events && events[key] == ShotEvent(db.nextId, call.payload, call.producedAt)
      else key !in events
  {
  }

  /** A new event row is what its first report said; retries and reports about unknown shots add nothing. */
  lemma {:induction false} EventIsFirstReport(db: Tables, calls: seq<Call>, key: EventKey)
    requires key !in db.events
    ensures var events, first := ServeAll(db, calls).events, FirstReport(db, calls, key);
      if first.None? then key !in events
      else
        && first.value.PostEvent? && key in events
        && events[key].payload == first.value.payload && events[key].producedAt == first.value.producedAt
  {
    if calls != [] {
      EventIsFirstReport(db, calls[..|calls| - 1], key);
      ServeEvent(ServeAll(db, calls[..|calls| - 1]), calls[|calls| - 1], key);
    }
  }

  lemma ServeEnd(db: Tables, call: Call, sid: string)
    requires sid in db.sessions
    ensures sid in Serve(db, call).sessions
    ensures var was, row := db.sessions[sid], Serve(db, call).sessions[sid];
      if Ends(db, call, sid)
      then
        && row.endedAt == (if was.endedAt.None? then Some(call.now) else was.endedAt)
        && row.partialSession == call.partialSession
      else row == was
  {
  }

  /**
   `ended_at` is the time of the first call that ended the session, unless it was set before; the partial flag is
   that of the last.
   */
  lemma {:induction false} EndIsFirstCall(db: Tables, calls: seq<Call>, sid: string)
    requires sid in db.sessions
    ensures sid in ServeAll(db, calls).sessions
    ensures var was, row := db.sessions[sid], ServeAll(db, calls).sessions[sid];
      var first, last := FirstEnd(db, calls, sid), LastEnd(db, calls, sid);
      && (first.Some? ==> first.value.PatchEnd?) && (last.Some? ==> last.value.PatchEnd?)
      && row.endedAt == (if was.endedAt.Some? then was.endedAt
                         else if first.None? then None else Some(first.value.now))
      && row.partialSession == if last.None? then was.partialSession else last.value.partialSession
  {
    if calls != [] {
      var before, last := calls[..|calls| - 1], calls[|calls| - 1];
      EndIsFirstCall(db, before, sid);
      if last.PatchEnd? {
        TenantsStand(db, before, last.tenant, last.sid);
      }
      ServeEnd(ServeAll(db, before), last, sid);
    }
  }

  /** Whatever anyone calls, rows once written never change and `ended_at` keeps its first value. */
  lemma {:induction false} HistoryIsAppendOnly(db: Tables, calls: seq<Call>)
    ensures Extends(db, ServeAll(db, calls))
  {
    if calls != [] {
      HistoryIsAppendOnly(db, calls[..|calls| - 1]);
    }
  }
}
