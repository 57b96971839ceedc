/** The local store of the sync engine: the `LocalStore` contract of `mobile/src/sync/engine.ts`. */
module SyncStore {
  import opened Numerics
  import opened SyncSchema

  /** A row is kept under its local primary key and found through its server id. */
  datatype Key = Key(table: string, id: nat)

  datatype Ref = Ref(table: string, serverId: string)

  /** `nextId` stands for the supply of fresh local primary keys. */
  datatype Store = Store(rows: map<Key, Row>, index: map<Ref, nat>, nextId: nat, cursor: string)

  const SYNCED := Str("synced")
  const CREATED := Str("created")
  const UPDATED := Str("updated")
  const DELETED := Str("deleted")

  /** The server id of a row; "" when it has none. */
  function ServerIdOf(row: Row): string {
    var v := Get(row, "server_id");
    if v.Str? then v.s else ""
  }

  function Status(row: Row): Value {
    Get(row, "_status")
  }

  predicate Dirty(row: Row) {
    Status(row) != SYNCED
  }

  /** Clears `_status` and `_changed`. */
  function Clean(row: Row): Row {
    (row - {"_changed"})["_status" := SYNCED]
  }

  function Find(st: Store, table: string, sid: string): Option<Row> {
    var ref := Ref(table, sid);
    if ref in st.index && Key(table, st.index[ref]) in st.rows then Some(st.rows[Key(table, st.index[ref])]) else None
  }

  function Upserted(st: Store, table: string, row: Row): Store {
    var ref := Ref(table, ServerIdOf(row));
    var known := ref in st.index;
    var id := if known then st.index[ref] else st.nextId;
    st.(rows := st.rows[Key(table, id) := Clean(row)],
        index := if ref.serverId == "" then st.index else st.index[ref := id],
        nextId := if known then st.nextId else st.nextId + 1)
  }

  /** Makes `id` the row found under `ref`, and under no other id. */
  function Repoint(index: map<Ref, nat>, ref: Ref, id: nat): map<Ref, nat> {
    var others := map r | r in index && (r.table != ref.table || index[r] != id) :: index[r];
    if ref.serverId == "" then others else others[ref := id]
  }

  function Created(st: Store, table: string, id: nat, sid: string): Store {
    var key := Key(table, id);
    if key !in st.rows then st
    else st.(rows := st.rows[key := Clean(st.rows[key])["server_id" := Str(sid)]],
             index := Repoint(st.index, Ref(table, sid), id))
  }

  function Updated(st: Store, table: string, sid: string): Store {
    if Find(st, table, sid).None? then st
    else
      var key := Key(table, st.index[Ref(table, sid)]);
      st.(rows := st.rows[key := Clean(st.rows[key])])
  }

  function Deleted(st: Store, table: string, sid: string): Store {
    var ref := Ref(table, sid);
    if ref !in st.index then st
    else st.(rows := st.rows - {Key(table, st.index[ref])}, index := st.index - {ref})
  }

  /** What is found under a server id is a row carrying that id. */
  ghost predicate IndexSound(st: Store) {
    && (forall ref :: ref in st.index ==>
          && ref.serverId != "" && Key(ref.table, st.index[ref]) in st.rows
          && ServerIdOf(st.rows[Key(ref.table, st.index[ref])]) == ref.serverId)
    && (forall key :: key in st.rows ==> key.id < st.nextId)
  }

  /** Every row carrying a server id is the one found under it: server ids are unique. */
  ghost predicate IndexComplete(st: Store) {
    forall key :: key in st.rows && ServerIdOf(st.rows[key]) != "" ==>
      var ref := Ref(key.table, ServerIdOf(st.rows[key]));
      ref in st.index && st.index[ref] == key.id
  }

  ghost predicate Consistent(st: Store) {
    IndexSound(st) && IndexComplete(st)
  }

  class LocalStore {
    var rows: map<Key, Row>
    var index: map<Ref, nat>
    var nextId: nat
    var cursor: string
    /** The store after every write so far: what a crash can leave behind. */
    ghost var trace: seq<Store>

    constructor (initial: Store)
      ensures State() == initial && trace == []
    {
      rows, index, nextId, cursor := initial.rows, initial.index, initial.nextId, initial.cursor;
      trace := [];
    }

    function State(): Store
      reads this
    {
      Store(rows, index, nextId, cursor)
    }

    method CollectDirty(table: string) returns (dirty: seq<Entry>)
      ensures ListsDirty(State(), table, dirty)
    {
      dirty := [];
      var keys := rows.Keys;
      while keys != {}
        invariant keys <= rows.Keys
        invariant forall i :: 0 <= i < |dirty| ==> Key(table, dirty[i].id) in rows.Keys - keys
        invariant forall i :: 0 <= i < |dirty| ==>
                    dirty[i].row == rows[Key(table, dirty[i].id)] && Dirty(dirty[i].row)
        invariant DistinctIds(dirty)
        invariant forall k :: k in rows.Keys - keys && k.table == table && Dirty(rows[k]) ==>
                    Entry(k.id, rows[k]) in dirty
        decreases keys
      {
        var key :| key in keys;
        if key.table == table && Status(rows[key]) != SYNCED {
          dirty := dirty + [Entry(key.id, rows[key])];
        }
        keys := keys - {key};
      }
    }

    method FindByServerId(table: string, sid: string) returns (found: Option<Row>)
      ensures found == Find(State(), table, sid)
    {
      var ref := Ref(table, sid);
      if ref !in index || Key(table, index[ref]) !in rows {
        return None;
      }
      return Some(rows[Key(table, index[ref])]);
    }

    method UpsertSynced(table: string, row: Row)
      modifies this
      ensures State() == Upserted(old(State()), table, row)
      ensures trace == old(trace) + [State()]
    {
      var sid := ServerIdOf(row);
      var ref := Ref(table, sid);
      var id: nat;
      if ref in index {
        id := index[ref];
      } else {
        id := nextId;
        nextId := nextId + 1;
      }
      rows := rows[Key(table, id) := Clean(row)];
      if sid != "" {
        index := index[ref := id];
      }
      trace := trace + [State()];
    }

    method AcceptCreate(table: string, id: nat, sid: string)
      modifies this
      ensures State() == Created(old(State()), table, id, sid)
      ensures trace == old(trace) + [State()]
    {
      var key := Key(table, id);
      if key in rows {
        rows := rows[key := Clean(rows[key])["server_id" := Str(sid)]];
        index := Repoint(index, Ref(table, sid), id);
      }
      trace := trace + [State()];
    }

    method AcceptUpdate(table: string, sid: string)
      modifies this
      ensures State() == Updated(old(State()), table, sid)
      ensures trace == old(trace) + [State()]
    {
      var ref := Ref(table, sid);
      if ref in index && Key(table, index[ref]) in rows {
        var key := Key(table, index[ref]);
        rows := rows[key := Clean(rows[key])];
      }
      trace := trace + [State()];
    }

    method AcceptDelete(table: string, sid: string)
      modifies this
      ensures State() == Deleted(old(State()), table, sid)
      ensures trace == old(trace) + [State()]
    {
      var ref := Ref(table, sid);
      if ref in index {
        rows := rows - {Key(table, index[ref])};
        index := index - {ref};
      }
      trace := trace + [State()];
    }

    method SetCursor(cursor: string)
      modifies this
      ensures State() == old(State()).(cursor := cursor)
      ensures trace == old(trace) + [State()]
    {
      this.cursor := cursor;
      trace := trace + [State()];
    }
  }

  ghost predicate DistinctIds(entries: seq<Entry>) {
    forall i, j :: 0 <= i < j < |entries| ==> entries[i].id != entries[j].id
  }

  /** All dirty rows of a table, each once, in any order. */
  ghost predicate ListsDirty(st: Store, table: string, dirty: seq<Entry>) {
    && DistinctIds(dirty)
    && forall e :: e in dirty <==> Key(table, e.id) in st.rows && e.row == st.rows[Key(table, e.id)] && Dirty(e.row)
  }
}
