/**
 Per-tenant envelope encryption and the erasure ledger (`services/crypto_shred.py`, `services/erasure.py`).
 Sealing and opening are parameters with the laws of an authenticated cipher; keys, nonces, ids and clock
 readings are arguments.
 */
module TenantErasure {
  import opened Numerics

  type Bytes = string

  datatype Aead = Aead(
    seal: (Bytes, Bytes, Bytes, Bytes) -> Bytes,        // key, nonce, plaintext, associated data
    open: (Bytes, Bytes, Bytes) -> Option<Bytes>)       // key, blob, associated data

  ghost predicate RoundTrips(aead: Aead) {
    forall k, n, p, a :: aead.open(k, aead.seal(k, n, p, a), a) == Some(p)
  }

  /** A blob opens only under the associated data it was sealed with. */
  ghost predicate BindsAssociatedData(aead: Aead) {
    forall k, n, p, a, k', a' :: a != a' ==> aead.open(k', aead.seal(k, n, p, a), a') == None
  }

  datatype KeyRow = KeyRow(keyVersion: nat, wrappedDek: Option<Bytes>, createdAt: nat, shreddedAt: Option<nat>)

  type Keys = map<string, KeyRow>

  /** Fresh randomness and the clock for one call. */
  datatype Entropy = Entropy(dek: Bytes, wrapNonce: Bytes, nonce: Bytes, now: nat)

  predicate Shredded(keys: Keys, tenant: string) {
    tenant in keys && keys[tenant].shreddedAt.Some?
  }

  function EnsureDek(aead: Aead, kek: Bytes, keys: Keys, tenant: string, entropy: Entropy): Result<Keys> {
    if tenant in keys then
      if keys[tenant].shreddedAt.Some? then Err("tenant has been crypto-shredded; refusing to re-key")
      else Ok(keys)
    else
      var wrapped := aead.seal(kek, entropy.wrapNonce, entropy.dek, tenant);
      Ok(keys[tenant := KeyRow(1, Some(wrapped), entropy.now, None)])
  }

  function UnwrapDek(aead: Aead, kek: Bytes, keys: Keys, tenant: string): Result<Bytes> {
    if tenant !in keys || keys[tenant].shreddedAt.Some? || keys[tenant].wrappedDek.None? then Err("no usable DEK")
    else
      match aead.open(kek, keys[tenant].wrappedDek.value, tenant)
      case Some(dek) => Ok(dek)
      case None => Err("DEK failed to unwrap")
  }

  datatype Sealed = Sealed(keys: Keys, blob: Bytes)

  function EncryptFor(aead: Aead, kek: Bytes, keys: Keys, tenant: string, plaintext: Bytes, entropy: Entropy)
    : Result<Sealed>
  {
    match EnsureDek(aead, kek, keys, tenant, entropy)
    case Err(e) => Err(e)
    case Ok(keys') =>
      match UnwrapDek(aead, kek, keys', tenant)
      case Err(e) => Err(e)
      case Ok(dek) => Ok(Sealed(keys', aead.seal(dek, entropy.nonce, plaintext, tenant)))
  }

  function DecryptFor(aead: Aead, kek: Bytes, keys: Keys, tenant: string, blob: Bytes): Result<Bytes> {
    match UnwrapDek(aead, kek, keys, tenant)
    case Err(e) => Err(e)
    case Ok(dek) =>
      match aead.open(dek, blob, tenant)
      case Some(plaintext) => Ok(plaintext)
      case None => Err("blob failed to decrypt")
  }

  function ShredDek(keys: Keys, tenant: string, now: nat): Keys {
    if tenant !in keys then keys[tenant := KeyRow(1, None, now, Some(now))]
    else keys[tenant := keys[tenant].(wrappedDek := None, shreddedAt := Some(now))]
  }

  /**
   A tenant without a row gets the data key drawn for it, wrapped, in a live row of version 1; a shredded row holds no
   key and says when. What is encrypted first is sealed under exactly that key, with the nonce drawn for it.
   */
  lemma KeysAsDrawn(aead: Aead, kek: Bytes, keys: Keys, tenant: string, entropy: Entropy, plaintext: Bytes, now: nat)
    requires RoundTrips(aead) && tenant !in keys
    ensures var r := EnsureDek(aead, kek, keys, tenant, entropy);
      && r.Ok? && r.value.Keys == keys.Keys + {tenant} && UnwrapDek(aead, kek, r.value, tenant) == Ok(entropy.dek)
      && r.value[tenant].keyVersion == 1 && r.value[tenant].createdAt == entropy.now
      && r.value[tenant].shreddedAt == None
      && EncryptFor(aead, kek, keys, tenant, plaintext, entropy)
         == Ok(Sealed(r.value, aead.seal(entropy.dek, entropy.nonce, plaintext, tenant)))
    ensures var shredded := ShredDek(keys, tenant, now);
      shredded.Keys == keys.Keys + {tenant} && shredded[tenant] == KeyRow(1, None, now, Some(now))
  {
    assert aead.open(kek, aead.seal(kek, entropy.wrapNonce, entropy.dek, tenant), tenant) == Some(entropy.dek);
  }

  class TenantVault {
    const aead: Aead
    const kek: Bytes
    var keys: Keys

    constructor (aead: Aead, kek: Bytes)
      ensures this.aead == aead && this.kek == kek && keys == map[]
    {
      this.aead := aead;
      this.kek := kek;
      keys := map[];
    }

    method EnsureTenantDek(tenant: string, entropy: Entropy) returns (ok: bool)
      modifies this
      ensures var r := EnsureDek(aead, kek, old(keys), tenant, entropy);
        ok == r.Ok? && keys == if r.Ok? then r.value else old(keys)
    {
      if tenant in keys {
        return keys[tenant].shreddedAt.None?;
      }
      var wrapped := aead.seal(kek, entropy.wrapNonce, entropy.dek, tenant);
      keys := keys[tenant := KeyRow(1, Some(wrapped), entropy.now, None)];
      return true;
    }

    method EncryptForTenant(tenant: string, plaintext: Bytes, entropy: Entropy) returns (r: Result<Bytes>)
      modifies this
      ensures var s := EncryptFor(aead, kek, old(keys), tenant, plaintext, entropy);
        && (s.Ok? ==> r == Ok(s.value.blob) && keys == s.value.keys)
        && (s.Err? ==> r.Err?)
      ensures r.Err? ==> keys == var e := EnsureDek(aead, kek, old(keys), tenant, entropy);
                                 if e.Ok? then e.value else old(keys)
    {
      var keyed := EnsureTenantDek(tenant, entropy);
      if !keyed {
        return Err("tenant has been crypto-shredded; refusing to re-key");
      }
      match UnwrapDek(aead, kek, keys, tenant) {
        case Err(e) => return Err(e);
        case Ok(dek) => return Ok(aead.seal(dek, entropy.nonce, plaintext, tenant));
      }
    }

    method DecryptForTenant(tenant: string, blob: Bytes) returns (r: Result<Bytes>)
      ensures r == DecryptFor(aead, kek, keys, tenant, blob)
    {
      match UnwrapDek(aead, kek, keys, tenant) {
        case Err(e) => return Err(e);
        case Ok(dek) =>
          match aead.open(dek, blob, tenant) {
            case Some(plaintext) => return Ok(plaintext);
            case None => return Err("blob failed to decrypt");
          }
      }
    }

    method ShredTenantDek(tenant: string, now: nat)
      modifies this
      ensures keys == ShredDek(old(keys), tenant, now)
    {
      if tenant !in keys {
        keys := keys[tenant := KeyRow(1, None, now, Some(now))];
      } else {
        keys := keys[tenant := keys[tenant].(wrappedDek := None, shreddedAt := Some(now))];
      }
    }
  }

  // ---- The erasure ledger -----------------------------------------------------------------------------------

  datatype User = User(id: string, email: string, displayName: string, passwordHash: string, isActive: bool)

  datatype Status = Pending | Completed

  datatype Ticket = Ticket(
    tenantId: string, athleteUserId: string, requestedBy: string, reason: string,
    status: Status, references: map<string, nat>, completedAt: Option<nat>)

  datatype Db = Db(keys: Keys, users: map<string, User>, tickets: map<string, Ticket>)

  function Tombstone(u: User): User {
    u.(email := "erased+" + u.id + "@erased.invalid", displayName := "erased", passwordHash := "erased",
       isActive := false)
  }

  function Submit(db: Db, ticketId: string, tenant: string, athlete: string, requestedBy: string, reason: string): Db {
    if ticketId in db.tickets then db
    else db.(tickets := db.tickets[ticketId := Ticket(tenant, athlete, requestedBy, reason, Pending, map[], None)])
  }

  predicate Visible(db: Db, ticketId: string, tenant: string) {
    ticketId in db.tickets && db.tickets[ticketId].tenantId == tenant
  }

  /** The operational rows that may refer to a subject: sessions with tenant and athlete, and what hangs on them. */
  datatype Evidence = Evidence(
    sessions: map<string, (string, string)>, shots: map<string, string>, notes: map<string, string>,
    consents: map<string, string>)

  function SessionsOf(evidence: Evidence, tenant: string, athlete: string): set<string> {
    set id | id in evidence.sessions && evidence.sessions[id] == (tenant, athlete)
  }

  function CountIn(owner: map<string, string>, ids: set<string>): nat {
    |set x | x in owner && owner[x] in ids|
  }

  /** How many rows refer to the subject: the counts kept on the ticket. */
  function References(evidence: Evidence, tenant: string, athlete: string): map<string, nat> {
    var ids := SessionsOf(evidence, tenant, athlete);
    map["sessions" := |ids|, "shots" := CountIn(evidence.shots, ids), "coaching_notes" := CountIn(evidence.notes, ids),
        "consent_records" := CountIn(evidence.consents, {athlete})]
  }

  /**
   The counts on a ticket: the sessions of that tenant and athlete, the shots and the notes of those sessions, and
   the athlete's consent records.
   */
  lemma ReferencesAre(evidence: Evidence, tenant: string, athlete: string)
    ensures var r := References(evidence, tenant, athlete);
      && r.Keys == {"sessions", "shots", "coaching_notes", "consent_records"}
      && r["sessions"] == |set s | s in evidence.sessions && evidence.sessions[s] == (tenant, athlete)|
      && r["shots"] == |set x | x in evidence.shots && evidence.shots[x] in evidence.sessions
                               && evidence.sessions[evidence.shots[x]] == (tenant, athlete)|
      && r["coaching_notes"] == |set x | x in evidence.notes && evidence.notes[x] in evidence.sessions
                                        && evidence.sessions[evidence.notes[x]] == (tenant, athlete)|
      && r["consent_records"] == |set x | x in evidence.consents && evidence.consents[x] == athlete|
  {
    var ids := SessionsOf(evidence, tenant, athlete);
    CountedInSessions(evidence, evidence.shots, tenant, athlete);
    CountedInSessions(evidence, evidence.notes, tenant, athlete);
    CountedConsents(evidence.consents, athlete);
  }

  lemma CountedConsents(consents: map<string, string>, athlete: string)
    ensures CountIn(consents, {athlete}) == |set x | x in consents && consents[x] == athlete|
  {
    var ids := {athlete};
    assert (set x | x in consents && consents[x] in ids) == set x | x in consents && consents[x] == athlete;
  }

  lemma CountedInSessions(evidence: Evidence, owner: map<string, string>, tenant: string, athlete: string)
    ensures CountIn(owner, SessionsOf(evidence, tenant, athlete))
         == |set x | x in owner && owner[x] in evidence.sessions && evidence.sessions[owner[x]] == (tenant, athlete)|
  {
    var ids := SessionsOf(evidence, tenant, athlete);
    assert (set x | x in owner && owner[x] in ids)
        == set x | x in owner && owner[x] in evidence.sessions && evidence.sessions[owner[x]] == (tenant, athlete);
  }

  function Fulfilled(t: Ticket, evidence: Evidence, now: nat): Ticket {
    t.(status := Completed, references := References(evidence, t.tenantId, t.athleteUserId), completedAt := Some(now))
  }

  function Execute(db: Db, ticketId: string, tenant: string, evidence: Evidence, now: nat): Db {
    if !Visible(db, ticketId, tenant) || db.tickets[ticketId].status.Completed? then db
    else
      var t := db.tickets[ticketId];
      Db(ShredDek(db.keys, tenant, now),
         if t.athleteUserId !in db.users then db.users
         else db.users[t.athleteUserId := Tombstone(db.users[t.athleteUserId])],
         db.tickets[ticketId := Fulfilled(t, evidence, now)])
  }

  /** A fresh ticket holds what was asked for, and is pending; nothing else changes. */
  lemma SubmittedTicketIs(
    db: Db, ticketId: string, tenant: string, athlete: string, requestedBy: string, reason: string)
    requires ticketId !in db.tickets
    ensures var after := Submit(db, ticketId, tenant, athlete, requestedBy, reason);
      && after.keys == db.keys && after.users == db.users && after.tickets.Keys == db.tickets.Keys + {ticketId}
      && (forall id :: id in db.tickets ==> after.tickets[id] == db.tickets[id])
      && var t := after.tickets[ticketId];
         && t.tenantId == tenant && t.athleteUserId == athlete && t.requestedBy == requestedBy && t.reason == reason
         && t.status.Pending? && t.completedAt == None
  {
  }

  /** Executing a pending ticket of the tenant completes it now, and counts what refers to the athlete it names. */
  lemma ExecutedTicketIs(db: Db, ticketId: string, tenant: string, evidence: Evidence, now: nat)
    requires ticketId in db.tickets && db.tickets[ticketId].tenantId == tenant
    requires db.tickets[ticketId].status.Pending?
    ensures var t, after := db.tickets[ticketId], Execute(db, ticketId, tenant, evidence, now);
      && after.tickets.Keys == db.tickets.Keys && after.users.Keys == db.users.Keys
      && after.tickets[ticketId] == Ticket(tenant, t.athleteUserId, t.requestedBy, t.reason, Completed,
                                           References(evidence, tenant, t.athleteUserId), Some(now))
      && (forall id :: id in db.tickets && id != ticketId ==> after.tickets[id] == db.tickets[id])
      && (forall u :: u in db.users && u != t.athleteUserId ==> after.users[u] == db.users[u])
      && after.keys.Keys == db.keys.Keys + {tenant} && after.keys[tenant].wrappedDek == None
      && after.keys[tenant].shreddedAt == Some(now)
      && (forall other :: other in db.keys && other != tenant ==> after.keys[other] == db.keys[other])
  {
  }

  class ErasureLedger {
    const vault: TenantVault
    var users: map<string, User>
    var tickets: map<string, Ticket>

    constructor (vault: TenantVault)
      ensures this.vault == vault && users == map[] && tickets == map[]
    {
      this.vault := vault;
      users, tickets := map[], map[];
    }

    ghost function State(): Db
      reads this, vault
    {
      Db(vault.keys, users, tickets)
    }

    method SubmitErasure(ticketId: string, tenant: string, athlete: string, requestedBy: string, reason: string)
      requires ticketId !in tickets
      modifies this
      ensures State() == Submit(old(State()), ticketId, tenant, athlete, requestedBy, reason)
    {
      tickets := tickets[ticketId := Ticket(tenant, athlete, requestedBy, reason, Pending, map[], None)];
    }

    method ExecuteErasure(ticketId: string, tenant: string, evidence: Evidence, now: nat)
      returns (r: Result<Ticket>)
      modifies this, vault
      ensures State() == Execute(old(State()), ticketId, tenant, evidence, now)
      ensures r.Ok? <==> Visible(old(State()), ticketId, tenant)
      ensures r.Ok? ==> r.value == tickets[ticketId] && r.value.status.Completed?
    {
      if ticketId !in tickets || tickets[ticketId].tenantId != tenant {
        return Err("no such ticket");
      }
      var t := tickets[ticketId];
      if t.status.Completed? {
        return Ok(t);
      }
      if t.athleteUserId in users {
        users := users[t.athleteUserId := Tombstone(users[t.athleteUserId])];
      }
      vault.ShredTenantDek(tenant, now);
      t := t.(status := Completed, references := References(evidence, tenant, t.athleteUserId),
              completedAt := Some(now));
      tickets := tickets[ticketId := t];
      r := Ok(t);
    }
  }

  // ---- Runs ---------------------------------------------------------------------------------------------------

  datatype Op =
    | OpEnsure(tenant: string, entropy: Entropy)
    | OpEncrypt(tenant: string, plaintext: Bytes, entropy: Entropy)
    | OpDecrypt(tenant: string, blob: Bytes)
    | OpShred(tenant: string, now: nat)
    | OpSubmit(ticketId: string, tenant: string, athlete: string, requestedBy: string, reason: string)
    | OpExecute(ticketId: string, tenant: string, evidence: Evidence, now: nat)
    | OpAddUser(user: User)

  /** The database after one call; a call that fails leaves what it had already written. */
  function Step(aead: Aead, kek: Bytes, db: Db, op: Op): Db {
    match op
    case OpEnsure(t, entropy) =>
      (match EnsureDek(aead, kek, db.keys, t, entropy) case Ok(keys) => db.(keys := keys) case Err(_) => db)
    case OpEncrypt(t, _, entropy) =>
      (match EnsureDek(aead, kek, db.keys, t, entropy) case Ok(keys) => db.(keys := keys) case Err(_) => db)
    case OpDecrypt(_, _) => db
    case OpShred(t, now) => db.(keys := ShredDek(db.keys, t, now))
    case OpSubmit(id, t, athlete, requester, reason) => Submit(db, id, t, athlete, requester, reason)
    case OpExecute(id, t, evidence, now) => Execute(db, id, t, evidence, now)
    case OpAddUser(user) => db.(users := db.users[user.id := user])
  }

  function Run(aead: Aead, kek: Bytes, db: Db, ops: seq<Op>): Db {
    if ops == [] then db else Step(aead, kek, Run(aead, kek, db, ops[..|ops| - 1]), ops[|ops| - 1])
  }

  /** Once a tenant has a key row, the row never changes again except by being shredded. */
  ghost predicate SameOrShredded(before: Keys, after: Keys, tenant: string) {
    tenant in before ==>
      tenant in after && (Shredded(before, tenant) ==> Shredded(after, tenant))
      && (!Shredded(after, tenant) ==> after[tenant] == before[tenant])
  }

  lemma StepKeepsRow(aead: Aead, kek: Bytes, db: Db, op: Op, tenant: string)
    ensures SameOrShredded(db.keys, Step(aead, kek, db, op).keys, tenant)
  {
  }

  lemma SameOrShreddedTrans(a: Keys, b: Keys, c: Keys, tenant: string)
    requires SameOrShredded(a, b, tenant) && SameOrShredded(b, c, tenant)
    ensures SameOrShredded(a, c, tenant)
  {
  }

  lemma {:induction false} KeyRowsArePermanent(aead: Aead, kek: Bytes, db: Db, ops: seq<Op>, tenant: string)
    ensures SameOrShredded(db.keys, Run(aead, kek, db, ops).keys, tenant)
  {
    if ops != [] {
      var before := Run(aead, kek, db, ops[..|ops| - 1]);
      KeyRowsArePermanent(aead, kek, db, ops[..|ops| - 1], tenant);
      StepKeepsRow(aead, kek, before, ops[|ops| - 1], tenant);
      SameOrShreddedTrans(db.keys, before.keys, Run(aead, kek, db, ops).keys, tenant);
    }
  }

  /**
   A blob encrypted for a tenant decrypts to its plaintext after any later calls by anyone, exactly as long
   as the tenant has not been shredded.
   */
  lemma DecryptableUntilShredded(aead: Aead, kek: Bytes, db: Db, tenant: string, plaintext: Bytes, entropy: Entropy,
                                 ops: seq<Op>)
    requires RoundTrips(aead)
    requires EncryptFor(aead, kek, db.keys, tenant, plaintext, entropy).Ok?
    ensures var s := EncryptFor(aead, kek, db.keys, tenant, plaintext, entropy).value;
      var later := Run(aead, kek, db.(keys := s.keys), ops).keys;
      DecryptFor(aead, kek, later, tenant, s.blob) == Ok(plaintext) <==> !Shredded(later, tenant)
  {
    var s := EncryptFor(aead, kek, db.keys, tenant, plaintext, entropy).value;
    KeyRowsArePermanent(aead, kek, db.(keys := s.keys), ops, tenant);
    var dek := UnwrapDek(aead, kek, s.keys, tenant).value;
    assert aead.open(dek, aead.seal(dek, entropy.nonce, plaintext, tenant), tenant) == Some(plaintext);
  }

  /** Encryption never fails for a tenant that was keyed by this service and not shredded. */
  ghost predicate SoundKeys(aead: Aead, kek: Bytes, keys: Keys) {
    forall t :: t in keys ==>
      if keys[t].shreddedAt.Some? then keys[t].wrappedDek.None? else UnwrapDek(aead, kek, keys, t).Ok?
  }

  lemma EnsureKeepsSound(aead: Aead, kek: Bytes, keys: Keys, tenant: string, entropy: Entropy)
    requires RoundTrips(aead) && SoundKeys(aead, kek, keys) && EnsureDek(aead, kek, keys, tenant, entropy).Ok?
    ensures SoundKeys(aead, kek, EnsureDek(aead, kek, keys, tenant, entropy).value)
  {
    var keys' := EnsureDek(aead, kek, keys, tenant, entropy).value;
    forall t | t in keys'
      ensures if keys'[t].shreddedAt.Some? then keys'[t].wrappedDek.None? else UnwrapDek(aead, kek, keys', t).Ok?
    {
      if t in keys {
        assert keys'[t] == keys[t];
        assert UnwrapDek(aead, kek, keys', t) == UnwrapDek(aead, kek, keys, t);
      } else {
        assert aead.open(kek, aead.seal(kek, entropy.wrapNonce, entropy.dek, tenant), tenant) == Some(entropy.dek);
      }
    }
  }

  lemma ShredKeepsSound(aead: Aead, kek: Bytes, keys: Keys, tenant: string, now: nat)
    requires SoundKeys(aead, kek, keys)
    ensures SoundKeys(aead, kek, ShredDek(keys, tenant, now))
  {
    var keys' := ShredDek(keys, tenant, now);
    forall t | t in keys'
      ensures if keys'[t].shreddedAt.Some? then keys'[t].wrappedDek.None? else UnwrapDek(aead, kek, keys', t).Ok?
    {
      if t != tenant {
        assert keys'[t] == keys[t];
        assert UnwrapDek(aead, kek, keys', t) == UnwrapDek(aead, kek, keys, t);
      }
    }
  }

  /** A completed ticket belongs to a shredded tenant, and a pending one has no completion data. */
  ghost predicate LedgerHonest(db: Db) {
    forall id :: id in db.tickets ==>
      var t := db.tickets[id];
      if t.status.Completed? then Shredded(db.keys, t.tenantId) && t.completedAt.Some? else t.completedAt.None?
  }

  const EMPTY := Db(map[], map[], map[])

  /**
   Over every run from an empty database: a shredded row holds no key, a live row always unwraps, and no
   ticket claims an erasure that did not happen.
   */
  lemma {:induction false} EveryRunIsHonest(aead: Aead, kek: Bytes, ops: seq<Op>)
    requires RoundTrips(aead)
    ensures SoundKeys(aead, kek, Run(aead, kek, EMPTY, ops).keys)
    ensures LedgerHonest(Run(aead, kek, EMPTY, ops))
  {
    if ops != [] {
      var before, op := Run(aead, kek, EMPTY, ops[..|ops| - 1]), ops[|ops| - 1];
      EveryRunIsHonest(aead, kek, ops[..|ops| - 1]);
      match op
      case OpEnsure(t, entropy) =>
        if EnsureDek(aead, kek, before.keys, t, entropy).Ok? { EnsureKeepsSound(aead, kek, before.keys, t, entropy); }
      case OpEncrypt(t, _, entropy) =>
        if EnsureDek(aead, kek, before.keys, t, entropy).Ok? { EnsureKeepsSound(aead, kek, before.keys, t, entropy); }
      case OpDecrypt(_, _) =>
      case OpShred(t, now) => ShredKeepsSound(aead, kek, before.keys, t, now);
      case OpSubmit(_, _, _, _, _) =>
      case OpExecute(_, t, _, now) => ShredKeepsSound(aead, kek, before.keys, t, now);
      case OpAddUser(_) =>
    }
  }

  /**
   From the shred on, no sequence of calls brings the tenant back: it stays shredded, nothing decrypts,
   nothing encrypts, and no key is ever created again.
   */
  lemma {:induction false} ShredIsForever(aead: Aead, kek: Bytes, db: Db, ops: seq<Op>, tenant: string,
                                          blob: Bytes, plaintext: Bytes, entropy: Entropy)
    requires Shredded(db.keys, tenant)
    ensures var later := Run(aead, kek, db, ops).keys;
      && Shredded(later, tenant)
      && DecryptFor(aead, kek, later, tenant, blob).Err?
      && EncryptFor(aead, kek, later, tenant, plaintext, entropy).Err?
      && EnsureDek(aead, kek, later, tenant, entropy).Err?
  {
    KeyRowsArePermanent(aead, kek, db, ops, tenant);
  }

  /** The tenant whose keys an operation may touch. */
  function Touches(op: Op): Option<string> {
    match op
    case OpEnsure(t, _) => Some(t)
    case OpEncrypt(t, _, _) => Some(t)
    case OpShred(t, _) => Some(t)
    case OpExecute(_, t, _, _) => Some(t)
    case _ => None
  }

  lemma OtherTenantsStep(aead: Aead, kek: Bytes, db: Db, op: Op, tenant: string)
    requires Touches(op) != Some(tenant)
    ensures SameKey(db.keys, Step(aead, kek, db, op).keys, tenant)
  {
  }

  predicate SameKey(before: Keys, after: Keys, tenant: string) {
    (tenant in after <==> tenant in before) && (tenant in before ==> after[tenant] == before[tenant])
  }

  lemma {:induction false} OtherTenantsKeepKey(aead: Aead, kek: Bytes, db: Db, ops: seq<Op>, tenant: string)
    requires forall i :: 0 <= i < |ops| ==> Touches(ops[i]) != Some(tenant)
    ensures SameKey(db.keys, Run(aead, kek, db, ops).keys, tenant)
  {
    if ops != [] {
      OtherTenantsKeepKey(aead, kek, db, ops[..|ops| - 1], tenant);
      OtherTenantsStep(aead, kek, Run(aead, kek, db, ops[..|ops| - 1]), ops[|ops| - 1], tenant);
    }
  }

  lemma SameKeyDecrypts(aead: Aead, kek: Bytes, before: Keys, after: Keys, tenant: string, blob: Bytes)
    requires SameKey(before, after, tenant)
    ensures DecryptFor(aead, kek, after, tenant, blob) == DecryptFor(aead, kek, before, tenant, blob)
  {
  }

  /** Calls for other tenants, shreds and erasures included, change nothing about what a tenant can decrypt. */
  lemma OtherTenantsUnaffected(aead: Aead, kek: Bytes, db: Db, ops: seq<Op>, tenant: string, blob: Bytes)
    requires forall i :: 0 <= i < |ops| ==> Touches(ops[i]) != Some(tenant)
    ensures var later := Run(aead, kek, db, ops).keys;
      && (tenant in later <==> tenant in db.keys)
      && (tenant in db.keys ==> later[tenant] == db.keys[tenant])
      && DecryptFor(aead, kek, later, tenant, blob) == DecryptFor(aead, kek, db.keys, tenant, blob)
  {
    OtherTenantsKeepKey(aead, kek, db, ops, tenant);
    SameKeyDecrypts(aead, kek, db.keys, Run(aead, kek, db, ops).keys, tenant, blob);
  }

  /** Nothing of what identified the user is left: the tombstone depends on the id alone, and cannot log in. */
  lemma TombstoneForgets(u: User, v: User)
    requires u.id == v.id
    ensures Tombstone(u) == Tombstone(v) && Tombstone(u).id == u.id && !Tombstone(u).isActive
    ensures Tombstone(u).email == "erased+" + u.id + "@erased.invalid"
    ensures Tombstone(u).displayName == "erased" == Tombstone(u).passwordHash
  {
  }

  // ---- Who an erasure reaches ----------------------------------------------------------------------------------

  /** Call j opens a ticket under an id not used before. */
  ghost predicate Opens(ops: seq<Op>, j: nat) {
    && j < |ops| && ops[j].OpSubmit?
    && forall i :: 0 <= i < j ==> ops[i].OpSubmit? ==> ops[i].ticketId != ops[j].ticketId
  }

  /** Call k executes the ticket call j opened, for the tenant that opened it. */
  ghost predicate Executes(ops: seq<Op>, j: nat, k: nat) {
    && Opens(ops, j) && j < k < |ops| && ops[k].OpExecute?
    && ops[k].ticketId == ops[j].ticketId && ops[k].tenant == ops[j].tenant
  }

  /** Within the first n calls some tenant, any tenant, executed a ticket of its own that names the user. */
  ghost predicate Erased(ops: seq<Op>, n: nat, user: string) {
    exists j: nat, k: nat :: Executes(ops, j, k) && k < n && ops[j].athlete == user
  }

  function TicketAt(db: Db, id: string): Option<Ticket> {
    if id in db.tickets then Some(db.tickets[id]) else None
  }

  /** What a call does to the ticket under an id. */
  predicate TicketMoves(was: Option<Ticket>, op: Op, id: string, now: Option<Ticket>) {
    match was
    case None =>
      now == if op.OpSubmit? && op.ticketId == id
             then Some(Ticket(op.tenant, op.athlete, op.requestedBy, op.reason, Pending, map[], None)) else None
    case Some(t) =>
      && now.Some? && now.value.tenantId == t.tenantId && now.value.athleteUserId == t.athleteUserId
      && (now.value.status.Completed? <==>
            t.status.Completed? || (op.OpExecute? && op.ticketId == id && op.tenant == t.tenantId))
  }

  predicate ActsOn(db: Db, op: Op, user: string) {
    && op.OpExecute? && Visible(db, op.ticketId, op.tenant) && db.tickets[op.ticketId].status.Pending?
    && db.tickets[op.ticketId].athleteUserId == user
  }

  predicate UserMoves(db: Db, op: Op, user: string, after: Db) {
    user in db.users && !(op.OpAddUser? && op.user.id == user) ==>
      user in after.users
      && after.users[user] == if ActsOn(db, op, user) then Tombstone(db.users[user]) else db.users[user]
  }

  lemma StepMoves(aead: Aead, kek: Bytes, db: Db, op: Op, id: string, user: string)
    ensures TicketMoves(TicketAt(db, id), op, id, TicketAt(Step(aead, kek, db, op), id))
    ensures UserMoves(db, op, user, Step(aead, kek, db, op))
  {
  }

  ghost predicate LedgerMoves(db: Db, op: Op, after: Db) {
    && (forall id :: TicketMoves(TicketAt(db, id), op, id, TicketAt(after, id)))
    && (forall user :: UserMoves(db, op, user, after))
  }

  ghost predicate LedgerMovesAt(r: seq<Db>, ops: seq<Op>, m: nat)
    requires m < |ops| && |r| == |ops| + 1
  {
    LedgerMoves(r[m], ops[m], r[m + 1])
  }

  /** The ledger at every moment of a run that starts without tickets. */
  ghost predicate LedgerRun(r: seq<Db>, ops: seq<Op>) {
    |r| == |ops| + 1 && r[0].tickets == map[] && forall m :: 0 <= m < |ops| ==> LedgerMovesAt(r, ops, m)
  }

  function States(aead: Aead, kek: Bytes, db: Db, ops: seq<Op>): (r: seq<Db>)
    ensures |r| == |ops| + 1
  {
    seq(|ops| + 1, m requires 0 <= m <= |ops| => Run(aead, kek, db, ops[..m]))
  }

  lemma RunMoves(aead: Aead, kek: Bytes, db: Db, ops: seq<Op>, op: Op)
    ensures LedgerMoves(Run(aead, kek, db, ops), op, Run(aead, kek, db, ops + [op]))
  {
    var was := Run(aead, kek, db, ops);
    assert (ops + [op])[..|ops|] == ops;
    forall id ensures TicketMoves(TicketAt(was, id), op, id, TicketAt(Step(aead, kek, was, op), id)) {
      StepMoves(aead, kek, was, op, id, "");
    }
    forall user ensures UserMoves(was, op, user, Step(aead, kek, was, op)) {
      StepMoves(aead, kek, was, op, "", user);
    }
  }

  lemma StatesMove(aead: Aead, kek: Bytes, db: Db, ops: seq<Op>)
    requires db.tickets == map[]
    ensures LedgerRun(States(aead, kek, db, ops), ops)
  {
    var r := States(aead, kek, db, ops);
    assert ops[..0] == [];
    forall m | 0 <= m < |ops| ensures LedgerMovesAt(r, ops, m) {
      RunMoves(aead, kek, db, ops[..m], ops[m]);
      assert ops[..m + 1] == ops[..m] + [ops[m]];
    }
  }

  lemma TicketMovesAt(r: seq<Db>, ops: seq<Op>, m: nat, id: string)
    requires LedgerRun(r, ops) && m < |ops|
    ensures TicketMoves(TicketAt(r[m], id), ops[m], id, TicketAt(r[m + 1], id))
  {
    assert LedgerMovesAt(r, ops, m);
  }

  lemma {:induction false} TicketStays(r: seq<Db>, ops: seq<Op>, i: nat, n: nat)
    requires LedgerRun(r, ops) && i < n <= |ops| && ops[i].OpSubmit?
    ensures TicketAt(r[n], ops[i].ticketId).Some?
    decreases n
  {
    if i < n - 1 {
      TicketStays(r, ops, i, n - 1);
    }
    TicketMovesAt(r, ops, n - 1, ops[i].ticketId);
  }

  /** Every ticket was opened by a call, and it is completed exactly if its tenant has executed it. */
  lemma {:induction false} TicketHasOrigin(r: seq<Db>, ops: seq<Op>, n: nat, id: string) returns (j: nat)
    requires LedgerRun(r, ops) && n <= |ops| && TicketAt(r[n], id).Some?
    ensures j < n && Opens(ops, j) && ops[j].ticketId == id
    ensures var t := TicketAt(r[n], id).value;
      && t.tenantId == ops[j].tenant && t.athleteUserId == ops[j].athlete
      && (t.status.Completed? <==> exists k: nat :: k < n && Executes(ops, j, k))
    decreases n
  {
    if n == 0 {
      assert false;
    }
    TicketMovesAt(r, ops, n - 1, id);
    if TicketAt(r[n - 1], id).Some? {
      j := TicketHasOrigin(r, ops, n - 1, id);
      if ops[n - 1].OpExecute? && ops[n - 1].ticketId == id && ops[n - 1].tenant == ops[j].tenant {
        assert Executes(ops, j, n - 1);
      }
    } else {
      j := n - 1;
      forall i | 0 <= i < j && ops[i].OpSubmit? ensures ops[i].ticketId != id {
        if ops[i].ticketId == id {
          TicketStays(r, ops, i, j);
        }
      }
    }
  }

  lemma OpensOnce(ops: seq<Op>, i: nat, j: nat)
    requires Opens(ops, i) && Opens(ops, j) && ops[i].ticketId == ops[j].ticketId
    ensures i == j
  {
  }

  /** The next call acts on the user exactly if it is the first to make the user erased. */
  lemma ActsIff(r: seq<Db>, ops: seq<Op>, n: nat, user: string)
    requires LedgerRun(r, ops) && n < |ops| && !Erased(ops, n, user)
    ensures ActsOn(r[n], ops[n], user) <==> Erased(ops, n + 1, user)
  {
    if ActsOn(r[n], ops[n], user) {
      var j := TicketHasOrigin(r, ops, n, ops[n].ticketId);
      assert Executes(ops, j, n);
    }
    if Erased(ops, n + 1, user) {
      var i: nat, k: nat :| Executes(ops, i, k) && k < n + 1 && ops[i].athlete == user;
      TicketStays(r, ops, i, n);
      var j := TicketHasOrigin(r, ops, n, ops[i].ticketId);
      OpensOnce(ops, i, j);
    }
  }

  lemma ErasedGrows(ops: seq<Op>, n: nat, user: string)
    ensures Erased(ops, n, user) ==> Erased(ops, n + 1, user)
  {
  }

  ghost predicate NotAdded(ops: seq<Op>, user: string) {
    forall i :: 0 <= i < |ops| && ops[i].OpAddUser? ==> ops[i].user.id != user
  }

  lemma {:induction false} UserFate(r: seq<Db>, ops: seq<Op>, n: nat, user: string)
    requires LedgerRun(r, ops) && n <= |ops| && user in r[0].users && NotAdded(ops, user)
    ensures user in r[n].users
    ensures r[n].users[user] == if Erased(ops, n, user) then Tombstone(r[0].users[user]) else r[0].users[user]
    decreases n
  {
    if n > 0 {
      UserFate(r, ops, n - 1, user);
      ErasedGrows(ops, n - 1, user);
      assert LedgerMovesAt(r, ops, n - 1);
      assert UserMoves(r[n - 1], ops[n - 1], user, r[n]);
      if !Erased(ops, n - 1, user) {
        ActsIff(r, ops, n - 1, user);
      }
    }
  }

  /**
   A user's row is erased exactly when some tenant opened a ticket naming the user and executed it, whether or
   not the user belongs to that tenant; nothing else ever changes the row.
   */
  lemma UserErasedIff(aead: Aead, kek: Bytes, db: Db, ops: seq<Op>, user: string)
    requires db.tickets == map[] && user in db.users && NotAdded(ops, user)
    ensures var users := Run(aead, kek, db, ops).users;
      user in users && users[user] == if Erased(ops, |ops|, user) then Tombstone(db.users[user]) else db.users[user]
  {
    StatesMove(aead, kek, db, ops);
    UserFate(States(aead, kek, db, ops), ops, |ops|, user);
    assert ops[..0] == [] && ops[..|ops|] == ops;
  }

  /** A blob sealed for one tenant is useless to every other tenant, whatever the key table looks like. */
  lemma BlobsDoNotCross(aead: Aead, kek: Bytes, keys: Keys, tenant: string, plaintext: Bytes, entropy: Entropy,
                        later: Keys, other: string)
    requires BindsAssociatedData(aead) && other != tenant
    requires EncryptFor(aead, kek, keys, tenant, plaintext, entropy).Ok?
    ensures DecryptFor(aead, kek, later, other, EncryptFor(aead, kek, keys, tenant, plaintext, entropy).value.blob).Err?
  {
    var s := EncryptFor(aead, kek, keys, tenant, plaintext, entropy).value;
    var dek := UnwrapDek(aead, kek, s.keys, tenant).value;
    assert s.blob == aead.seal(dek, entropy.nonce, plaintext, tenant);
  }

  /** At any later time exactly the owner can read a blob, and exactly until it is shredded. */
  lemma ReadableByOwnerIff(aead: Aead, kek: Bytes, db: Db, tenant: string, plaintext: Bytes, entropy: Entropy,
                           ops: seq<Op>, reader: string)
    requires RoundTrips(aead) && BindsAssociatedData(aead)
    requires EncryptFor(aead, kek, db.keys, tenant, plaintext, entropy).Ok?
    ensures var s := EncryptFor(aead, kek, db.keys, tenant, plaintext, entropy).value;
      var later := Run(aead, kek, db.(keys := s.keys), ops).keys;
      var r := DecryptFor(aead, kek, later, reader, s.blob);
      (r.Ok? <==> reader == tenant && !Shredded(later, tenant)) && (r.Ok? ==> r.value == plaintext)
  {
    var s := EncryptFor(aead, kek, db.keys, tenant, plaintext, entropy).value;
    var later := Run(aead, kek, db.(keys := s.keys), ops).keys;
    if reader == tenant {
      DecryptableUntilShredded(aead, kek, db, tenant, plaintext, entropy, ops);
    } else {
      BlobsDoNotCross(aead, kek, db.keys, tenant, plaintext, entropy, later, reader);
    }
  }

  /** Executing a ticket twice is executing it once: nothing is written the second time. */
  lemma ExecuteIsIdempotent(db: Db, ticketId: string, tenant: string, evidence: Evidence, now: nat,
                            evidence': Evidence, now': nat)
    ensures var once := Execute(db, ticketId, tenant, evidence, now);
      Execute(once, ticketId, tenant, evidence', now') == once
    ensures var once := Execute(db, ticketId, tenant, evidence, now);
      Visible(db, ticketId, tenant) && db.tickets[ticketId].status.Pending? ==> Shredded(once.keys, tenant)
  {
  }
}
