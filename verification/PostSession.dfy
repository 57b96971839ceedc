/** The post-session pipeline (`ingest/post_session.py`) against the ingest endpoints, with crashes. */
module PostSession {
  import opened Numerics
  import opened SessionStore

  const HEAD_INFERENCE := "diagnostic.head_inference"
  const SHOT_KIND := "single"

  /** One detected shot: its device clock reading and what the diagnostic head says about it. */
  datatype Detected = Detected(deviceClockNs: int, probs: map<string, real>)

  /** What a run is started with; the same audio and model setting give the same plan. */
  datatype Plan = Plan(tenant: string, sid: string, shots: seq<Detected>, canDiagnose: bool, finalize: bool)

  /** One execution: it is cut off after `budget` calls, and the n-th call is made at time `clock(n)`. */
  datatype Attempt = Attempt(budget: nat, clock: nat -> nat)

  datatype PostSessionResult = PostSessionResult(
    sessionId: string, shotsDetected: nat, shotsPosted: nat, diagnosticEventsPosted: nat, partialSession: bool)

  function Key(plan: Plan, i: int): ShotKey {
    ShotKey(plan.sid, i)
  }

  function PostedShot(db: Tables, plan: Plan, i: nat, now: nat): Tables
    requires i < |plan.shots|
  {
    WithShot(db, Key(plan, i), plan.shots[i].deviceClockNs, SHOT_KIND, now)
  }

  function EventOf(db: Tables, plan: Plan, i: nat): EventKey
    requires Key(plan, i) in db.shots
  {
    EventKey(db.shots[Key(plan, i)].id, HEAD_INFERENCE, 0)
  }

  function PostedEvent(db: Tables, plan: Plan, i: nat, now: nat): Tables
    requires i < |plan.shots| && Key(plan, i) in db.shots
  {
    WithEvent(db, EventOf(db, plan, i), plan.shots[i].probs, now)
  }

  function Finished(db: Tables, plan: Plan, now: nat): Tables
    requires InTenant(db, plan.tenant, plan.sid)
  {
    db.(sessions := db.sessions[plan.sid := Ended(db.sessions[plan.sid], !plan.canDiagnose, now)])
  }

  /** The tables after an execution that is about to handle shot i and has made `made` calls. */
  function Execute(db: Tables, plan: Plan, a: Attempt, i: nat, made: nat): Tables
    requires i <= |plan.shots|
    decreases |plan.shots| - i
  {
    if made >= a.budget || !InTenant(db, plan.tenant, plan.sid) then db
    else if i == |plan.shots| then
      if plan.finalize then Finished(db, plan, a.clock(made)) else db
    else
      var db1 := PostedShot(db, plan, i, a.clock(made));
      if !plan.canDiagnose then Execute(db1, plan, a, i + 1, made + 1)
      else if made + 1 >= a.budget then db1
      else Execute(PostedEvent(db1, plan, i, a.clock(made + 1)), plan, a, i + 1, made + 2)
  }

  /** The calls a run that is not cut off makes from shot i on. */
  function Calls(plan: Plan, i: nat): nat
    requires i <= |plan.shots|
  {
    var rest := |plan.shots| - i;
    rest + (if plan.canDiagnose then rest else 0) + if plan.finalize then 1 else 0
  }

  lemma ShotPosted(db: Tables, plan: Plan, a: Attempt, i: nat, made: nat)
    requires i < |plan.shots| && made < a.budget && InTenant(db, plan.tenant, plan.sid)
    ensures var db1 := PostedShot(db, plan, i, a.clock(made));
      && db1.sessions == db.sessions
      && Key(plan, i) in db1.shots && ShotInTenant(db1, plan.tenant, plan.sid, db1.shots[Key(plan, i)].id)
      && Execute(db, plan, a, i, made) ==
         if !plan.canDiagnose then Execute(db1, plan, a, i + 1, made + 1)
         else if made + 1 >= a.budget then db1
         else Execute(PostedEvent(db1, plan, i, a.clock(made + 1)), plan, a, i + 1, made + 2)
  {
  }

  lemma EventPosted(db: Tables, plan: Plan, i: nat, now: nat)
    requires i < |plan.shots| && Key(plan, i) in db.shots
    ensures PostedEvent(db, plan, i, now).sessions == db.sessions
  {
  }

  /** One shot of the loop: its upload and its diagnostic event. None if cut off or not found. */
  method PostShot(service: SessionService, plan: Plan, a: Attempt, i: nat, made: nat) returns (next: Option<nat>)
    requires i < |plan.shots|
    modifies service
    ensures next.Some? <==>
      made + CallsPerShot(plan) <= a.budget && InTenant(old(service.State()), plan.tenant, plan.sid)
    ensures next.None? ==> service.State() == Execute(old(service.State()), plan, a, i, made)
    ensures next.Some? ==>
      && next.value == made + CallsPerShot(plan)
      && service.State().sessions == old(service.State()).sessions
      && Execute(service.State(), plan, a, i + 1, next.value) == Execute(old(service.State()), plan, a, i, made)
  {
    if made >= a.budget {
      return None;
    }
    ghost var db := service.State();
    var clock := plan.shots[i].deviceClockNs;
    var created := service.IngestShot(plan.tenant, plan.sid, i, clock, SHOT_KIND, a.clock(made));
    if created.Err? {
      return None;
    }
    ShotPosted(db, plan, a, i, made);
    if !plan.canDiagnose {
      return Some(made + 1);
    }
    if made + 1 >= a.budget {
      return None;
    }
    EventPosted(service.State(), plan, i, a.clock(made + 1));
    var event := service.AppendShotEvent(plan.tenant, plan.sid, created.value.id, HEAD_INFERENCE, 0,
                                         plan.shots[i].probs, a.clock(made + 1));
    return Some(made + 2);
  }

  /** The pipeline; None is a run that crashed or whose session was not found. */
  method RunPostSession(service: SessionService, plan: Plan, a: Attempt) returns (r: Option<PostSessionResult>)
    modifies service
    ensures service.State() == Execute(old(service.State()), plan, a, 0, 0)
    ensures r.Some? ==> r.value == PostSessionResult(plan.sid, |plan.shots|, |plan.shots|,
                                                     if plan.canDiagnose then |plan.shots| else 0, !plan.canDiagnose)
    ensures r.Some? <==> Calls(plan, 0) <= a.budget
                         && (Calls(plan, 0) == 0 || InTenant(old(service.State()), plan.tenant, plan.sid))
  {
    var shotsPosted, diagnosticEvents := 0, 0;
    var made: nat := 0;
    var i := 0;
    while i < |plan.shots|
      invariant i <= |plan.shots| && shotsPosted == i && diagnosticEvents == if plan.canDiagnose then i else 0
      invariant made == shotsPosted + diagnosticEvents <= a.budget
      invariant service.State().sessions == old(service.State()).sessions
      invariant i > 0 ==> InTenant(service.State(), plan.tenant, plan.sid)
      invariant Execute(old(service.State()), plan, a, 0, 0) == Execute(service.State(), plan, a, i, made)
    {
      var next := PostShot(service, plan, a, i, made);
      if next.None? {
        return None;
      }
      made := next.value;
      shotsPosted := shotsPosted + 1;
      if plan.canDiagnose {
        diagnosticEvents := diagnosticEvents + 1;
      }
      i := i + 1;
    }
    if plan.finalize {
      if made >= a.budget {
        return None;
      }
      var ended := service.EndSession(plan.tenant, plan.sid, !plan.canDiagnose, a.clock(made));
      if ended.Err? {
        return None;
      }
    }
    r := Some(PostSessionResult(plan.sid, |plan.shots|, shotsPosted, diagnosticEvents, !plan.canDiagnose));
  }

  // ---- Where any number of executions can take the tables -----------------------------------------------

  /** Ids are unique and not yet used beyond the supply. */
  ghost predicate WellFormed(db: Tables) {
    && (forall k :: k in db.shots ==> db.shots[k].id < db.nextId)
    && (forall k, l :: k in db.shots && l in db.shots && db.shots[k].id == db.shots[l].id ==> k == l)
    && (forall e :: e in db.events ==> e.shotId < db.nextId)
  }

  /** Row k of `s` is one this plan writes: the i-th shot. */
  ghost predicate PlannedShot(s: Tables, plan: Plan, k: ShotKey) {
    && k in s.shots && k.sessionId == plan.sid && 0 <= k.seqNo < |plan.shots|
    && s.shots[k].deviceClockNs == plan.shots[k.seqNo].deviceClockNs && s.shots[k].shotKind == SHOT_KIND
  }

  /** Event e of `s` is the one this plan writes for its i-th shot. */
  ghost predicate PlannedEvent(s: Tables, plan: Plan, e: EventKey, i: nat) {
    && plan.canDiagnose && i < |plan.shots| && Key(plan, i) in s.shots && e == EventOf(s, plan, i)
    && e in s.events && s.events[e].payload == plan.shots[i].probs
  }

  ghost predicate Planned(s: Tables, plan: Plan, e: EventKey) {
    exists i :: PlannedEvent(s, plan, e, i)
  }

  ghost predicate ShotsTowards(base: Tables, s: Tables, plan: Plan) {
    && (forall k :: k in base.shots ==> k in s.shots && s.shots[k] == base.shots[k])
    && (forall k :: k in s.shots && k !in base.shots ==> PlannedShot(s, plan, k) && base.nextId <= s.shots[k].id)
  }

  ghost predicate EventsTowards(base: Tables, s: Tables, plan: Plan) {
    && (forall e :: e in base.events ==> e in s.events && s.events[e] == base.events[e])
    && (forall e :: e in s.events && e !in base.events ==> Planned(s, plan, e))
  }

  /** `s` holds all rows of `base` unchanged, and beyond them only rows of the plan. */
  ghost predicate Towards(base: Tables, s: Tables, plan: Plan) {
    && WellFormed(s) && base.nextId <= s.nextId
    && ShotsTowards(base, s, plan) && EventsTowards(base, s, plan) && SessionsTowards(base, s, plan)
  }

  ghost predicate SessionsTowards(base: Tables, s: Tables, plan: Plan) {
    && InTenant(base, plan.tenant, plan.sid) && InTenant(s, plan.tenant, plan.sid)
    && s.sessions.Keys == base.sessions.Keys
    && (forall id :: id in base.sessions && id != plan.sid ==> s.sessions[id] == base.sessions[id])
    && var was, now := base.sessions[plan.sid], s.sessions[plan.sid];
       && (was.endedAt.Some? ==> now.endedAt == was.endedAt)
       && (now.endedAt.Some? ==> was.endedAt.Some? || plan.finalize)
       && (now.partialSession == was.partialSession || (plan.finalize && now.partialSession == !plan.canDiagnose))
  }

  lemma StartIsTowards(base: Tables, plan: Plan)
    requires WellFormed(base) && InTenant(base, plan.tenant, plan.sid)
    ensures Towards(base, base, plan)
  {
  }

  /** Planned rows stay planned as long as rows are only added. */
  lemma PlannedRowsSurvive(s: Tables, t: Tables, plan: Plan)
    requires forall k :: k in s.shots ==> k in t.shots && t.shots[k] == s.shots[k]
    requires forall e :: e in s.events ==> e in t.events && t.events[e] == s.events[e]
    ensures forall k :: PlannedShot(s, plan, k) ==> PlannedShot(t, plan, k)
    ensures forall e :: Planned(s, plan, e) ==> Planned(t, plan, e)
  {
    forall e | Planned(s, plan, e) ensures Planned(t, plan, e) {
      var i :| PlannedEvent(s, plan, e, i);
      assert PlannedEvent(t, plan, e, i);
    }
  }

  lemma PostedShotIsWellFormed(s: Tables, plan: Plan, i: nat, now: nat)
    requires WellFormed(s) && i < |plan.shots|
    ensures WellFormed(PostedShot(s, plan, i, now))
  {
  }

  lemma ShotKeepsTowards(base: Tables, s: Tables, plan: Plan, i: nat, now: nat)
    requires Towards(base, s, plan) && i < |plan.shots|
    ensures Towards(base, PostedShot(s, plan, i, now), plan)
  {
    if Key(plan, i) !in s.shots {
      var t := PostedShot(s, plan, i, now);
      PostedShotIsWellFormed(s, plan, i, now);
      PlannedRowsSurvive(s, t, plan);
      assert PlannedShot(t, plan, Key(plan, i));
    }
  }

  lemma PostedEventIsWellFormed(s: Tables, plan: Plan, i: nat, now: nat)
    requires WellFormed(s) && i < |plan.shots| && Key(plan, i) in s.shots
    ensures WellFormed(PostedEvent(s, plan, i, now))
  {
  }

  lemma NewEventTowards(base: Tables, s: Tables, plan: Plan, i: nat, now: nat)
    requires EventsTowards(base, s, plan) && i < |plan.shots| && Key(plan, i) in s.shots && plan.canDiagnose
    requires EventOf(s, plan, i) !in s.events
    ensures EventsTowards(base, PostedEvent(s, plan, i, now), plan)
  {
    var t, e := PostedEvent(s, plan, i, now), EventOf(s, plan, i);
    PlannedRowsSurvive(s, t, plan);
    assert PlannedEvent(t, plan, e, i);
    assert e !in base.events;
  }

  lemma SameShotsTowards(base: Tables, s: Tables, t: Tables, plan: Plan)
    requires ShotsTowards(base, s, plan) && t.shots == s.shots
    ensures ShotsTowards(base, t, plan)
  {
    forall k | k in t.shots && k !in base.shots ensures PlannedShot(t, plan, k) {
      assert PlannedShot(s, plan, k);
    }
  }

  lemma EventKeepsTowards(base: Tables, s: Tables, plan: Plan, i: nat, now: nat)
    requires Towards(base, s, plan) && i < |plan.shots| && Key(plan, i) in s.shots && plan.canDiagnose
    ensures Towards(base, PostedEvent(s, plan, i, now), plan)
  {
    if EventOf(s, plan, i) !in s.events {
      PostedEventIsWellFormed(s, plan, i, now);
      NewEventTowards(base, s, plan, i, now);
      SameShotsTowards(base, s, PostedEvent(s, plan, i, now), plan);
    }
  }

  lemma FinishKeepsTowards(base: Tables, s: Tables, plan: Plan, now: nat)
    requires Towards(base, s, plan) && plan.finalize
    ensures Towards(base, Finished(s, plan, now), plan)
  {
    PlannedRowsSurvive(s, Finished(s, plan, now), plan);
  }

  /** What every single write of the plan keeps. */
  ghost predicate EachWriteKeeps(p: Tables -> bool, plan: Plan) {
    && (forall s, i: nat, now: nat :: p(s) && i < |plan.shots| ==> p(PostedShot(s, plan, i, now)))
    && (forall s, i: nat, now: nat :: p(s) && i < |plan.shots| && Key(plan, i) in s.shots && plan.canDiagnose ==>
          p(PostedEvent(s, plan, i, now)))
    && (forall s, now: nat :: p(s) && InTenant(s, plan.tenant, plan.sid) && plan.finalize ==>
          p(Finished(s, plan, now)))
  }

  lemma {:induction false} ExecutionKeeps(p: Tables -> bool, s: Tables, plan: Plan, a: Attempt, i: nat, made: nat)
    requires p(s) && EachWriteKeeps(p, plan) && i <= |plan.shots|
    ensures p(Execute(s, plan, a, i, made))
    decreases |plan.shots| - i
  {
    if made < a.budget && InTenant(s, plan.tenant, plan.sid) && i < |plan.shots| {
      ShotPosted(s, plan, a, i, made);
      var s1 := PostedShot(s, plan, i, a.clock(made));
      if !plan.canDiagnose {
        ExecutionKeeps(p, s1, plan, a, i + 1, made + 1);
      } else if made + 1 < a.budget {
        ExecutionKeeps(p, PostedEvent(s1, plan, i, a.clock(made + 1)), plan, a, i + 1, made + 2);
      }
    }
  }

  /** No execution, however it is cut, leaves the corridor. */
  lemma ExecutionStaysTowards(base: Tables, s: Tables, plan: Plan, a: Attempt, i: nat, made: nat)
    requires Towards(base, s, plan) && i <= |plan.shots|
    ensures Towards(base, Execute(s, plan, a, i, made), plan)
  {
    var p := (t: Tables) => Towards(base, t, plan);
    forall t, j: nat, now: nat | p(t) && j < |plan.shots| ensures p(PostedShot(t, plan, j, now)) {
      ShotKeepsTowards(base, t, plan, j, now);
    }
    forall t, j: nat, now: nat | p(t) && j < |plan.shots| && Key(plan, j) in t.shots && plan.canDiagnose
      ensures p(PostedEvent(t, plan, j, now)) {
      EventKeepsTowards(base, t, plan, j, now);
    }
    forall t, now: nat | p(t) && InTenant(t, plan.tenant, plan.sid) && plan.finalize ensures p(Finished(t, plan, now)) {
      FinishKeepsTowards(base, t, plan, now);
    }
    ExecutionKeeps(p, s, plan, a, i, made);
  }

  // ---- What a complete execution guarantees -----------------------------------------------------------------

  function CallsPerShot(plan: Plan): nat {
    if plan.canDiagnose then 2 else 1
  }

  /** Budget enough for all remaining calls from shot i on. */
  predicate Complete(plan: Plan, a: Attempt, i: nat, made: nat)
    requires i <= |plan.shots|
  {
    made + Calls(plan, i) <= a.budget
  }

  ghost predicate ShotDone(s: Tables, plan: Plan, i: nat) {
    Key(plan, i) in s.shots && (plan.canDiagnose ==> EventOf(s, plan, i) in s.events)
  }

  ghost predicate SessionDone(s: Tables, plan: Plan) {
    plan.finalize ==>
      plan.sid in s.sessions && s.sessions[plan.sid].endedAt.Some?
      && s.sessions[plan.sid].partialSession == !plan.canDiagnose
  }

  lemma ShotStaysDone(base: Tables, s: Tables, t: Tables, plan: Plan, i: nat)
    requires ShotDone(s, plan, i) && Extends(s, t)
    ensures ShotDone(t, plan, i)
  {
  }

  lemma ExtendsTrans(a: Tables, b: Tables, c: Tables)
    requires Extends(a, b) && Extends(b, c)
    ensures Extends(a, c)
  {
  }

  lemma ShotExtends(s: Tables, plan: Plan, i: nat, now: nat)
    requires i < |plan.shots|
    ensures Extends(s, PostedShot(s, plan, i, now))
  {
  }

  lemma EventExtends(s: Tables, plan: Plan, i: nat, now: nat)
    requires i < |plan.shots| && Key(plan, i) in s.shots
    ensures Extends(s, PostedEvent(s, plan, i, now))
  {
  }

  lemma FinishExtends(s: Tables, plan: Plan, now: nat)
    requires InTenant(s, plan.tenant, plan.sid)
    ensures Extends(s, Finished(s, plan, now))
  {
  }

  lemma ExecutionExtends(s: Tables, plan: Plan, a: Attempt, i: nat, made: nat)
    requires i <= |plan.shots|
    ensures Extends(s, Execute(s, plan, a, i, made))
  {
    var p := (t: Tables) => Extends(s, t);
    forall t, j: nat, now: nat | p(t) && j < |plan.shots| ensures p(PostedShot(t, plan, j, now)) {
      ShotExtends(t, plan, j, now);
      ExtendsTrans(s, t, PostedShot(t, plan, j, now));
    }
    forall t, j: nat, now: nat | p(t) && j < |plan.shots| && Key(plan, j) in t.shots && plan.canDiagnose
      ensures p(PostedEvent(t, plan, j, now)) {
      EventExtends(t, plan, j, now);
      ExtendsTrans(s, t, PostedEvent(t, plan, j, now));
    }
    forall t, now: nat | p(t) && InTenant(t, plan.tenant, plan.sid) && plan.finalize ensures p(Finished(t, plan, now)) {
      FinishExtends(t, plan, now);
      ExtendsTrans(s, t, Finished(t, plan, now));
    }
    ExecutionKeeps(p, s, plan, a, i, made);
  }

  lemma NextBudget(plan: Plan, a: Attempt, i: nat, made: nat)
    requires i < |plan.shots| && Complete(plan, a, i, made)
    ensures made + CallsPerShot(plan) <= a.budget
    ensures Complete(plan, a, i + 1, made + CallsPerShot(plan))
  {
  }

  ghost predicate ShotsDoneFrom(s: Tables, plan: Plan, i: nat) {
    forall j: nat :: i <= j < |plan.shots| ==> ShotDone(s, plan, j)
  }

  /** The tables after shot i, uploaded and diagnosed. */
  function AfterShot(s: Tables, plan: Plan, a: Attempt, i: nat, made: nat): Tables
    requires i < |plan.shots|
  {
    var s1 := PostedShot(s, plan, i, a.clock(made));
    if plan.canDiagnose then PostedEvent(s1, plan, i, a.clock(made + 1)) else s1
  }

  lemma CompleteShot(s: Tables, plan: Plan, a: Attempt, i: nat, made: nat)
    requires i < |plan.shots| && InTenant(s, plan.tenant, plan.sid) && Complete(plan, a, i, made)
    ensures var s2, next := AfterShot(s, plan, a, i, made), made + CallsPerShot(plan);
      && ShotDone(s2, plan, i) && InTenant(s2, plan.tenant, plan.sid) && Complete(plan, a, i + 1, next)
      && Execute(s, plan, a, i, made) == Execute(s2, plan, a, i + 1, next)
  {
    NextBudget(plan, a, i, made);
    AfterShotDone(s, plan, a, i, made);
    ShotPosted(s, plan, a, i, made);
  }

  lemma AfterShotDone(s: Tables, plan: Plan, a: Attempt, i: nat, made: nat)
    requires i < |plan.shots|
    ensures var s2 := AfterShot(s, plan, a, i, made);
      ShotDone(s2, plan, i) && s2.sessions == s.sessions
  {
    var s1 := PostedShot(s, plan, i, a.clock(made));
    if plan.canDiagnose {
      EventPosted(s1, plan, i, a.clock(made + 1));
      EventDone(s1, plan, i, a.clock(made + 1));
    }
  }

  lemma EventDone(s: Tables, plan: Plan, i: nat, now: nat)
    requires i < |plan.shots| && Key(plan, i) in s.shots
    ensures ShotDone(PostedEvent(s, plan, i, now), plan, i)
  {
  }

  lemma FirstShotDone(s: Tables, plan: Plan, a: Attempt, i: nat, made: nat)
    requires InTenant(s, plan.tenant, plan.sid) && i < |plan.shots| && Complete(plan, a, i, made)
    ensures ShotDone(Execute(s, plan, a, i, made), plan, i)
  {
    CompleteShot(s, plan, a, i, made);
    var s2, next := AfterShot(s, plan, a, i, made), made + CallsPerShot(plan);
    ExecutionExtends(s2, plan, a, i + 1, next);
    ShotStaysDone(s, s2, Execute(s2, plan, a, i + 1, next), plan, i);
  }

  lemma {:induction false} CompleteShotDone(s: Tables, plan: Plan, a: Attempt, i: nat, made: nat, j: nat)
    requires InTenant(s, plan.tenant, plan.sid) && i <= j < |plan.shots| && Complete(plan, a, i, made)
    ensures ShotDone(Execute(s, plan, a, i, made), plan, j)
    decreases |plan.shots| - i
  {
    if j == i {
      FirstShotDone(s, plan, a, i, made);
    } else {
      CompleteShot(s, plan, a, i, made);
      CompleteShotDone(AfterShot(s, plan, a, i, made), plan, a, i + 1, made + CallsPerShot(plan), j);
    }
  }

  lemma {:induction false} CompleteSessionDone(s: Tables, plan: Plan, a: Attempt, i: nat, made: nat)
    requires InTenant(s, plan.tenant, plan.sid) && i <= |plan.shots| && Complete(plan, a, i, made)
    ensures SessionDone(Execute(s, plan, a, i, made), plan)
    decreases |plan.shots| - i
  {
    if i < |plan.shots| {
      CompleteShot(s, plan, a, i, made);
      CompleteSessionDone(AfterShot(s, plan, a, i, made), plan, a, i + 1, made + CallsPerShot(plan));
    } else {
      CompleteEnd(s, plan, a, made);
    }
  }

  lemma CompleteExecutionIsDone(s: Tables, plan: Plan, a: Attempt, i: nat, made: nat)
    requires InTenant(s, plan.tenant, plan.sid) && i <= |plan.shots| && Complete(plan, a, i, made)
    ensures var t := Execute(s, plan, a, i, made);
      SessionDone(t, plan) && ShotsDoneFrom(t, plan, i)
  {
    CompleteSessionDone(s, plan, a, i, made);
    forall j: nat | i <= j < |plan.shots| ensures ShotDone(Execute(s, plan, a, i, made), plan, j) {
      CompleteShotDone(s, plan, a, i, made, j);
    }
  }

  lemma CompleteEnd(s: Tables, plan: Plan, a: Attempt, made: nat)
    requires InTenant(s, plan.tenant, plan.sid) && Complete(plan, a, |plan.shots|, made)
    ensures SessionDone(Execute(s, plan, a, |plan.shots|, made), plan)
  {
  }

  ghost predicate Done(s: Tables, plan: Plan) {
    SessionDone(s, plan) && forall j: nat :: j < |plan.shots| ==> ShotDone(s, plan, j)
  }

  // ---- Exactly once -------------------------------------------------------------------------------------------

  /** The same tables up to generated ids and server timestamps. */
  ghost predicate SameShots(a: Tables, b: Tables) {
    && a.shots.Keys == b.shots.Keys
    && forall k :: k in a.shots ==>
         a.shots[k].deviceClockNs == b.shots[k].deviceClockNs && a.shots[k].shotKind == b.shots[k].shotKind
  }

  ghost predicate EventsCarryOver(a: Tables, b: Tables, k: ShotKey, kind: string, seqNo: int) {
    k in a.shots && k in b.shots && EventKey(a.shots[k].id, kind, seqNo) in a.events ==>
      && EventKey(b.shots[k].id, kind, seqNo) in b.events
      && b.events[EventKey(b.shots[k].id, kind, seqNo)].payload ==
         a.events[EventKey(a.shots[k].id, kind, seqNo)].payload
  }

  ghost predicate SameSessions(a: Tables, b: Tables) {
    && a.sessions.Keys == b.sessions.Keys
    && forall id :: id in a.sessions ==>
         && a.sessions[id].tenantId == b.sessions[id].tenantId
         && a.sessions[id].partialSession == b.sessions[id].partialSession
         && (a.sessions[id].endedAt.Some? <==> b.sessions[id].endedAt.Some?)
  }

  ghost predicate SameView(a: Tables, b: Tables) {
    && SameShots(a, b) && SameSessions(a, b)
    && forall k, kind, seqNo :: EventsCarryOver(a, b, k, kind, seqNo) && EventsCarryOver(b, a, k, kind, seqNo)
  }

  lemma ShotsAgree(base: Tables, a: Tables, b: Tables, plan: Plan)
    requires Towards(base, a, plan) && Done(a, plan) && Towards(base, b, plan) && Done(b, plan)
    ensures SameShots(a, b)
  {
    forall k | k in a.shots ensures k in b.shots {
      if k !in base.shots {
        assert PlannedShot(a, plan, k);
        assert ShotDone(b, plan, k.seqNo);
        assert k == Key(plan, k.seqNo);
      }
    }
    forall k | k in b.shots ensures k in a.shots {
      if k !in base.shots {
        assert PlannedShot(b, plan, k);
        assert ShotDone(a, plan, k.seqNo);
        assert k == Key(plan, k.seqNo);
      }
    }
    forall k | k in a.shots
      ensures a.shots[k].deviceClockNs == b.shots[k].deviceClockNs && a.shots[k].shotKind == b.shots[k].shotKind
    {
      if k !in base.shots {
        assert PlannedShot(a, plan, k) && PlannedShot(b, plan, k);
      }
    }
  }

  /** A planned event sits on the shot it was planned for, since ids are unique. */
  lemma PlannedEventHome(s: Tables, plan: Plan, k: ShotKey, kind: string, seqNo: int, i: nat)
    requires WellFormed(s) && k in s.shots && PlannedEvent(s, plan, EventKey(s.shots[k].id, kind, seqNo), i)
    ensures k == Key(plan, i) && kind == HEAD_INFERENCE && seqNo == 0
  {
  }

  lemma EventsAgree(base: Tables, a: Tables, b: Tables, plan: Plan, k: ShotKey, kind: string, seqNo: int)
    requires WellFormed(base)
    requires Towards(base, a, plan) && Towards(base, b, plan) && Done(b, plan)
    ensures EventsCarryOver(a, b, k, kind, seqNo)
  {
    if k in a.shots && k in b.shots && EventKey(a.shots[k].id, kind, seqNo) in a.events {
      var ea, eb := EventKey(a.shots[k].id, kind, seqNo), EventKey(b.shots[k].id, kind, seqNo);
      if ea in base.events {
        assert k in base.shots;
      } else {
        var i :| PlannedEvent(a, plan, ea, i);
        PlannedEventHome(a, plan, k, kind, seqNo, i);
        assert ShotDone(b, plan, i);
        assert eb in b.events;
        NewEventStaysNew(base, a, b, plan, k, kind, seqNo);
        var j :| PlannedEvent(b, plan, eb, j);
        PlannedEventHome(b, plan, k, kind, seqNo, j);
        assert i == j;
      }
    }
  }

  lemma NewEventStaysNew(base: Tables, a: Tables, b: Tables, plan: Plan, k: ShotKey, kind: string, seqNo: int)
    requires WellFormed(base) && Towards(base, a, plan) && Towards(base, b, plan)
    requires k in a.shots && k in b.shots && EventKey(a.shots[k].id, kind, seqNo) !in base.events
    ensures EventKey(b.shots[k].id, kind, seqNo) !in base.events
  {
    if k in base.shots {
      assert a.shots[k] == base.shots[k] == b.shots[k];
    } else {
      assert base.nextId <= b.shots[k].id;
    }
  }

  /** Two states inside the corridor that both completed the plan cannot be told apart. */
  lemma CompletedStatesAgree(base: Tables, a: Tables, b: Tables, plan: Plan)
    requires WellFormed(base)
    requires Towards(base, a, plan) && Done(a, plan) && Towards(base, b, plan) && Done(b, plan)
    ensures SameView(a, b)
  {
    ShotsAgree(base, a, b, plan);
    forall k, kind, seqNo ensures EventsCarryOver(a, b, k, kind, seqNo) && EventsCarryOver(b, a, k, kind, seqNo) {
      EventsAgree(base, a, b, plan, k, kind, seqNo);
      EventsAgree(base, b, a, plan, k, kind, seqNo);
    }
  }

  lemma FreshEvent(base: Tables, t: Tables, plan: Plan, i: nat)
    requires WellFormed(base) && Towards(base, t, plan) && i < |plan.shots|
    requires Key(plan, i) !in base.shots && Key(plan, i) in t.shots
    ensures var e := EventKey(t.shots[Key(plan, i)].id, "diagnostic.head_inference", 0);
      e in t.events ==> plan.canDiagnose && t.events[e].payload == plan.shots[i].probs
  {
    var e := EventKey(t.shots[Key(plan, i)].id, "diagnostic.head_inference", 0);
    if e in t.events {
      assert base.nextId <= t.shots[Key(plan, i)].id && e !in base.events;
      var j :| PlannedEvent(t, plan, e, j);
      PlannedEventHome(t, plan, Key(plan, i), e.kind, e.seqNo, j);
    }
  }

  /**
   What one complete run leaves of a shot that was new: its row as detected, of kind "single", and with a model one
   head-inference event with what the head said of it; the session is ended, and flagged exactly without a model, if
   the run finalizes.
   */
  lemma CompleteRunLeaves(base: Tables, plan: Plan, a: Attempt, i: nat)
    requires WellFormed(base) && InTenant(base, plan.tenant, plan.sid) && Complete(plan, a, 0, 0)
    requires i < |plan.shots| && ShotKey(plan.sid, i) !in base.shots
    ensures var t, k := Execute(base, plan, a, 0, 0), ShotKey(plan.sid, i);
      && k in t.shots && t.shots[k].deviceClockNs == plan.shots[i].deviceClockNs && t.shots[k].shotKind == "single"
      && var e := EventKey(t.shots[k].id, "diagnostic.head_inference", 0);
         && (e in t.events <==> plan.canDiagnose)
         && (e in t.events ==> t.events[e].payload == plan.shots[i].probs)
    ensures var t := Execute(base, plan, a, 0, 0);
      && plan.sid in t.sessions
      && (plan.finalize ==>
            t.sessions[plan.sid].endedAt.Some? && t.sessions[plan.sid].partialSession == !plan.canDiagnose)
      && (!plan.finalize ==> t.sessions[plan.sid] == base.sessions[plan.sid])
  {
    var t := Execute(base, plan, a, 0, 0);
    StartIsTowards(base, plan);
    ExecutionStaysTowards(base, base, plan, a, 0, 0);
    CompleteExecutionIsDone(base, plan, a, 0, 0);
    assert ShotDone(t, plan, i);
    assert PlannedShot(t, plan, Key(plan, i));
    FreshEvent(base, t, plan, i);
  }

  /** Any number of executions, each cut anywhere. */
  function ExecuteAll(db: Tables, plan: Plan, attempts: seq<Attempt>): Tables {
    if attempts == [] then db
    else Execute(ExecuteAll(db, plan, attempts[..|attempts| - 1]), plan, attempts[|attempts| - 1], 0, 0)
  }

  lemma {:induction false} RetriesStayTowards(base: Tables, plan: Plan, attempts: seq<Attempt>)
    requires WellFormed(base) && InTenant(base, plan.tenant, plan.sid)
    ensures Towards(base, ExecuteAll(base, plan, attempts), plan)
  {
    if attempts == [] {
      StartIsTowards(base, plan);
    } else {
      var before := attempts[..|attempts| - 1];
      RetriesStayTowards(base, plan, before);
      ExecutionStaysTowards(base, ExecuteAll(base, plan, before), plan, attempts[|attempts| - 1], 0, 0);
    }
  }

  /**
   Exactly-once effect: from any tables, any number of executions cut off at any call boundary followed by
   one complete execution leaves the same shots, events and session flags as one clean execution.
   */
  lemma CrashRetryIsExactlyOnce(base: Tables, plan: Plan, attempts: seq<Attempt>, last: Attempt, clean: Attempt)
    requires WellFormed(base) && InTenant(base, plan.tenant, plan.sid)
    requires Complete(plan, last, 0, 0) && Complete(plan, clean, 0, 0)
    ensures SameView(Execute(ExecuteAll(base, plan, attempts), plan, last, 0, 0), Execute(base, plan, clean, 0, 0))
  {
    var mid := ExecuteAll(base, plan, attempts);
    RetriesStayTowards(base, plan, attempts);
    ExecutionStaysTowards(base, mid, plan, last, 0, 0);
    CompleteExecutionIsDone(mid, plan, last, 0, 0);
    StartIsTowards(base, plan);
    ExecutionStaysTowards(base, base, plan, clean, 0, 0);
    CompleteExecutionIsDone(base, plan, clean, 0, 0);
    CompletedStatesAgree(base, Execute(mid, plan, last, 0, 0), Execute(base, plan, clean, 0, 0), plan);
  }

  // ---- When the model setting changes between runs ----------------------------------------------------------

  lemma EventsStay(base: Tables, plan: Plan, first: Attempt, setting: bool, second: Attempt, i: nat)
    requires InTenant(base, plan.tenant, plan.sid) && plan.canDiagnose && i < |plan.shots|
    requires Complete(plan, first, 0, 0)
    ensures var t := Execute(Execute(base, plan, first, 0, 0), plan.(canDiagnose := setting), second, 0, 0);
      Key(plan, i) in t.shots && EventOf(t, plan, i) in t.events
  {
    var s, again := Execute(base, plan, first, 0, 0), plan.(canDiagnose := setting);
    CompleteExecutionIsDone(base, plan, first, 0, 0);
    assert ShotDone(s, plan, i);
    ExecutionExtends(s, again, second, 0, 0);
    ShotStaysDone(base, s, Execute(s, again, second, 0, 0), plan, i);
  }

  lemma FlagOfCompleteRun(s: Tables, plan: Plan, a: Attempt)
    requires InTenant(s, plan.tenant, plan.sid) && plan.finalize && Complete(plan, a, 0, 0)
    ensures var t := Execute(s, plan, a, 0, 0);
      plan.sid in t.sessions && t.sessions[plan.sid].partialSession == !plan.canDiagnose
  {
    CompleteExecutionIsDone(s, plan, a, 0, 0);
  }

  lemma SameSettingRerun(base: Tables, plan: Plan, first: Attempt, second: Attempt, clean: Attempt)
    requires WellFormed(base) && InTenant(base, plan.tenant, plan.sid)
    requires Complete(plan, second, 0, 0) && Complete(plan, clean, 0, 0)
    ensures SameView(Execute(Execute(base, plan, first, 0, 0), plan, second, 0, 0), Execute(base, plan, clean, 0, 0))
  {
    assert ExecuteAll(base, plan, [first]) == Execute(base, plan, first, 0, 0) by {
      assert [first][..0] == [];
    }
    CrashRetryIsExactlyOnce(base, plan, [first], second, clean);
  }

  /**
   After any number of runs, cut anywhere, a complete run with another model setting leaves what a clean run
   leaves exactly when the setting is in fact the same: the flag of the session follows the last run.
   */
  lemma RerunIsCleanIff(base: Tables, plan: Plan, attempts: seq<Attempt>, setting: bool, last: Attempt, clean: Attempt)
    requires WellFormed(base) && InTenant(base, plan.tenant, plan.sid) && plan.finalize
    requires Complete(plan.(canDiagnose := setting), last, 0, 0) && Complete(plan, clean, 0, 0)
    ensures SameView(Execute(ExecuteAll(base, plan, attempts), plan.(canDiagnose := setting), last, 0, 0),
                     Execute(base, plan, clean, 0, 0))
       <==> setting == plan.canDiagnose
  {
    if setting == plan.canDiagnose {
      CrashRetryIsExactlyOnce(base, plan, attempts, last, clean);
    } else {
      RetriesStayTowards(base, plan, attempts);
      FlagOfCompleteRun(ExecuteAll(base, plan, attempts), plan.(canDiagnose := setting), last);
      FlagOfCompleteRun(base, plan, clean);
    }
  }

  lemma ExecutionKeepsTenant(s: Tables, plan: Plan, a: Attempt, i: nat, made: nat)
    requires InTenant(s, plan.tenant, plan.sid) && i <= |plan.shots|
    ensures InTenant(Execute(s, plan, a, i, made), plan.tenant, plan.sid)
  {
    ExecutionExtends(s, plan, a, i, made);
  }

  /** Before any run the planned diagnostic event of every shot was already there. */
  ghost predicate AllDiagnosed(base: Tables, plan: Plan) {
    forall i: nat :: i < |plan.shots| ==> Key(plan, i) in base.shots && EventOf(base, plan, i) in base.events
  }

  /** A run without the model that leaves the session open writes no events and no sessions. */
  lemma {:induction false} AudioOnlyRun(s: Tables, plan: Plan, a: Attempt, i: nat, made: nat)
    requires !plan.canDiagnose && !plan.finalize && i <= |plan.shots|
    ensures Execute(s, plan, a, i, made).events == s.events && Execute(s, plan, a, i, made).sessions == s.sessions
    decreases |plan.shots| - i
  {
    if made < a.budget && InTenant(s, plan.tenant, plan.sid) && i < |plan.shots| {
      AudioOnlyRun(PostedShot(s, plan, i, a.clock(made)), plan, a, i + 1, made + 1);
    }
  }

  /** A run that finds all its rows in place and leaves the session open changes nothing. */
  lemma {:induction false} IdleRun(s: Tables, plan: Plan, a: Attempt, i: nat, made: nat)
    requires !plan.finalize && i <= |plan.shots| && forall j: nat :: j < |plan.shots| ==> ShotDone(s, plan, j)
    ensures Execute(s, plan, a, i, made) == s
    decreases |plan.shots| - i
  {
    if i < |plan.shots| {
      assert ShotDone(s, plan, i);
      assert PostedShot(s, plan, i, a.clock(made)) == s;
      if !plan.canDiagnose {
        IdleRun(s, plan, a, i + 1, made + 1);
      } else {
        assert PostedEvent(s, plan, i, a.clock(made + 1)) == s;
        IdleRun(s, plan, a, i + 1, made + 2);
      }
    }
  }

  /** After a complete diagnosing run, one without the model that leaves the session open changes nothing. */
  lemma AudioAfterModel(base: Tables, plan: Plan, first: Attempt, second: Attempt)
    requires InTenant(base, plan.tenant, plan.sid) && !plan.finalize && plan.canDiagnose && Complete(plan, first, 0, 0)
    ensures var s := Execute(base, plan, first, 0, 0);
      Execute(s, plan.(canDiagnose := false), second, 0, 0) == s
  {
    var s, audio := Execute(base, plan, first, 0, 0), plan.(canDiagnose := false);
    CompleteExecutionIsDone(base, plan, first, 0, 0);
    forall j: nat | j < |plan.shots| ensures ShotDone(s, audio, j) {
      assert ShotDone(s, plan, j);
    }
    IdleRun(s, audio, second, 0, 0);
  }

  /** Where every event was there before, no unfinalized run changes anything. */
  lemma NothingLeftToDo(base: Tables, plan: Plan, setting: bool, a: Attempt)
    requires !plan.finalize && AllDiagnosed(base, plan)
    ensures Execute(base, plan.(canDiagnose := setting), a, 0, 0) == base
  {
    var again := plan.(canDiagnose := setting);
    forall j: nat | j < |plan.shots| ensures ShotDone(base, again, j) {
      assert Key(again, j) == Key(plan, j) && Key(plan, j) in base.shots;
      assert EventOf(base, again, j) == EventOf(base, plan, j);
    }
    IdleRun(base, again, a, 0, 0);
  }

  lemma SameViewReflexive(s: Tables)
    ensures SameView(s, s)
  {
  }

  /** An audio-only run leaves a shot without the event that was not there before. */
  lemma EventStaysMissing(base: Tables, plan: Plan, a: Attempt, i: nat)
    requires WellFormed(base) && InTenant(base, plan.tenant, plan.sid) && !plan.finalize && !plan.canDiagnose
    requires i < |plan.shots| && Complete(plan, a, 0, 0)
    requires Key(plan, i) !in base.shots || EventOf(base, plan, i) !in base.events
    ensures var s := Execute(base, plan, a, 0, 0);
      Key(plan, i) in s.shots && EventOf(s, plan, i) !in s.events
  {
    var s := Execute(base, plan, a, 0, 0);
    CompleteExecutionIsDone(base, plan, a, 0, 0);
    assert ShotDone(s, plan, i);
    AudioOnlyRun(base, plan, a, 0, 0);
    StartIsTowards(base, plan);
    ExecutionStaysTowards(base, base, plan, a, 0, 0);
    if Key(plan, i) !in base.shots {
      assert base.nextId <= s.shots[Key(plan, i)].id;
    }
  }

  lemma MissingEventShows(a: Tables, b: Tables, plan: Plan, i: nat)
    requires Key(plan, i) in a.shots && EventOf(a, plan, i) in a.events
    requires Key(plan, i) in b.shots && EventOf(b, plan, i) !in b.events
    ensures !SameView(a, b)
  {
    assert !EventsCarryOver(a, b, Key(plan, i), HEAD_INFERENCE, 0);
  }

  /**
   While the session stays open the setting matters only one way: running again leaves what a clean run leaves
   unless the model was added and some shot had no event before.
   */
  lemma OpenRerunIsCleanIff(base: Tables, plan: Plan, first: Attempt, setting: bool, second: Attempt, clean: Attempt)
    requires WellFormed(base) && InTenant(base, plan.tenant, plan.sid) && !plan.finalize
    requires Complete(plan, first, 0, 0) && Complete(plan, clean, 0, 0)
    requires Complete(plan.(canDiagnose := setting), second, 0, 0)
    ensures SameView(Execute(Execute(base, plan, first, 0, 0), plan.(canDiagnose := setting), second, 0, 0),
                     Execute(base, plan, clean, 0, 0))
       <==> plan.canDiagnose || !setting || AllDiagnosed(base, plan)
  {
    if setting == plan.canDiagnose {
      SameSettingRerun(base, plan, first, second, clean);
    } else if plan.canDiagnose {
      AudioAfterModel(base, plan, first, second);
      CrashRetryIsExactlyOnce(base, plan, [], first, clean);
    } else if AllDiagnosed(base, plan) {
      assert plan == plan.(canDiagnose := false);
      NothingLeftToDo(base, plan, false, first);
      NothingLeftToDo(base, plan, false, clean);
      NothingLeftToDo(base, plan, true, second);
      SameViewReflexive(base);
    } else {
      var i: nat :| i < |plan.shots| && (Key(plan, i) !in base.shots || EventOf(base, plan, i) !in base.events);
      var full := plan.(canDiagnose := true);
      ExecutionKeepsTenant(base, plan, first, 0, 0);
      CompleteExecutionIsDone(Execute(base, plan, first, 0, 0), full, second, 0, 0);
      assert ShotDone(Execute(Execute(base, plan, first, 0, 0), full, second, 0, 0), full, i);
      EventStaysMissing(base, plan, clean, i);
      MissingEventShows(Execute(Execute(base, plan, first, 0, 0), full, second, 0, 0),
                        Execute(base, plan, clean, 0, 0), plan, i);
    }
  }

  /** So a finalized session is flagged partial by a later audio-only run although every shot has its event. */
  lemma PartialFlagFollowsLastRun(base: Tables, plan: Plan, first: Attempt, second: Attempt, i: nat)
    requires InTenant(base, plan.tenant, plan.sid) && plan.canDiagnose && plan.finalize && i < |plan.shots|
    requires Complete(plan, first, 0, 0) && Complete(plan.(canDiagnose := false), second, 0, 0)
    ensures var t := Execute(Execute(base, plan, first, 0, 0), plan.(canDiagnose := false), second, 0, 0);
      && plan.sid in t.sessions && t.sessions[plan.sid].partialSession
      && Key(plan, i) in t.shots && EventOf(t, plan, i) in t.events
  {
    ExecutionKeepsTenant(base, plan, first, 0, 0);
    EventsStay(base, plan, first, false, second, i);
    FlagOfCompleteRun(Execute(base, plan, first, 0, 0), plan.(canDiagnose := false), second);
  }
}
