/**
 The migration of per-library WebDAV keys into the unified key tables, statement by statement, and
 what its tables hold after every prefix of the rows.
 */
module WebDavMigration {
  import opened Options

  // A row of `webdav_keys`.
  datatype LegacyRow = LegacyRow(repo: string, user: int, name: string, permission: string, hash: string,
                                 createdAt: int, lastUsedAt: Option<int>)

  // A row of `api_keys`; capabilities are the ids of the stored comma-separated list.
  datatype ApiKey = ApiKey(user: int, name: string, hash: string, prefix: Option<string>, capabilities: set<string>,
                           allRepos: bool, createdAt: int, expiresAt: Option<int>, lastUsedAt: Option<int>)

  datatype Binding = Binding(keyId: nat, repo: string)

  // `legacy` is None once the old table is dropped.
  datatype Db = Db(users: set<int>, repos: set<string>, legacy: Option<seq<LegacyRow>>,
                   keys: map<nat, ApiKey>, bindings: map<Binding, string>, nextId: nat)

  const READ: set<string> := {"webdav.read"}
  const READ_WRITE: set<string> := {"webdav.read", "webdav.write"}

  ghost predicate IdsBelow(db: Db) { forall id :: id in db.keys ==> id < db.nextId }

  predicate Live(db: Db, row: LegacyRow) { row.user in db.users && row.repo in db.repos }

  function LiveRows(db: Db, rows: seq<LegacyRow>): seq<LegacyRow> {
    if rows == [] then []
    else LiveRows(db, rows[..|rows| - 1]) + if Live(db, rows[|rows| - 1]) then [rows[|rows| - 1]] else []
  }

  /** `rows` is an answer of the migration's SELECT: the live rows, in any order. */
  ghost predicate Selects(db: Db, rows: seq<LegacyRow>) {
    db.legacy.Some? && multiset(rows) == multiset(LiveRows(db, db.legacy.value))
  }

  // ---------- the statements ----------

  function ClearBindings(db: Db): Db { db.(bindings := map[]) }

  function Prefixed(keys: map<nat, ApiKey>): map<nat, ApiKey> {
    map id | id in keys && keys[id].prefix.Some? :: keys[id]
  }

  function ClearMigrated(db: Db): Db { db.(keys := Prefixed(db.keys)) }

  function CapabilitiesFor(permission: string): set<string> {
    if permission == "r" then READ else READ_WRITE
  }

  function NewKey(row: LegacyRow): ApiKey {
    ApiKey(row.user, row.name, row.hash, None, CapabilitiesFor(row.permission), false,
           row.createdAt, None, row.lastUsedAt)
  }

  function InsertKey(db: Db, row: LegacyRow): Db {
    db.(keys := db.keys[db.nextId := NewKey(row)], nextId := db.nextId + 1)
  }

  function Widen(db: Db, id: nat): Db {
    if id in db.keys && db.keys[id].capabilities == READ
    then db.(keys := db.keys[id := db.keys[id].(capabilities := READ_WRITE)]) else db
  }

  function Bind(db: Db, id: nat, row: LegacyRow): Db {
    var b := Binding(id, row.repo);
    if b in db.bindings then db else db.(bindings := db.bindings[b := row.permission])
  }

  // ---------- the row loop ----------

  datatype Progress = Progress(db: Db, ids: map<string, nat>) | Conflict

  predicate HashTaken(db: Db, hash: string) { exists id :: id in db.keys && db.keys[id].hash == hash }

  /** The key statement of one row: widen, insert, or fail on the unique digest. */
  function KeyStatement(p: Progress, row: LegacyRow): Progress {
    if p.Conflict? then Conflict
    else if row.hash in p.ids then
      Progress(if row.permission != "r" then Widen(p.db, p.ids[row.hash]) else p.db, p.ids)
    else if HashTaken(p.db, row.hash) then Conflict
    else Progress(InsertKey(p.db, row), p.ids[row.hash := p.db.nextId])
  }

  function BindStatement(p: Progress, row: LegacyRow): Progress {
    if p.Progress? && row.hash in p.ids then p.(db := Bind(p.db, p.ids[row.hash], row)) else p
  }

  function Loop(base: Db, rows: seq<LegacyRow>): Progress {
    if rows == [] then Progress(base, map[])
    else BindStatement(KeyStatement(Loop(base, rows[..|rows| - 1]), rows[|rows| - 1]), rows[|rows| - 1])
  }

  function Base(db: Db): Db { ClearMigrated(ClearBindings(db)) }

  function Migrated(db: Db, rows: seq<LegacyRow>): Option<Db> {
    match Loop(Base(db), rows)
    case Conflict => None
    case Progress(d, _) => Some(d.(legacy := None))
  }

  /** The states between the statements, before the old table is dropped. */
  function LoopStates(base: Db, rows: seq<LegacyRow>): seq<Db> {
    if rows == [] then []
    else
      var init, row := rows[..|rows| - 1], rows[|rows| - 1];
      var keyed := KeyStatement(Loop(base, init), row);
      LoopStates(base, init) + if keyed.Progress? then [keyed.db, BindStatement(keyed, row).db] else []
  }

  function States(db: Db, rows: seq<LegacyRow>): seq<Db> {
    [db, ClearBindings(db), Base(db)] + LoopStates(Base(db), rows)
  }

  // ---------- the migration as it is programmed ----------

  class Database {
    var db: Db

    constructor (db: Db)
      ensures this.db == db
    {
      this.db := db;
    }

    /** One row: its key statement and its binding; `keyed` is the state in between. */
    method MigrateRow(row: LegacyRow, ids: map<string, nat>) returns (ok: bool, ids': map<string, nat>, ghost keyed: Db)
      modifies this
      ensures ok == KeyStatement(Progress(old(db), ids), row).Progress?
      ensures ok ==> keyed == KeyStatement(Progress(old(db), ids), row).db
      ensures ok ==> BindStatement(KeyStatement(Progress(old(db), ids), row), row) == Progress(db, ids')
      ensures !ok ==> db == old(db)
    {
      ids', keyed := ids, db;
      var keyId: nat;
      if row.hash in ids {
        keyId := ids[row.hash];
        if row.permission != "r" { db := Widen(db, keyId); }
      } else {
        if HashTaken(db, row.hash) { return false, ids, db; }
        keyId := db.nextId;
        db := InsertKey(db, row);
        ids' := ids[row.hash := keyId];
      }
      keyed := db;
      db := Bind(db, keyId, row);
      ok := true;
    }

    /** The row loop; a conflict leaves the tables as the last statement left them. */
    method MigrateRows(rows: seq<LegacyRow>) returns (ok: bool, ghost states: seq<Db>)
      modifies this
      ensures ok == Loop(old(db), rows).Progress? && states == LoopStates(old(db), rows)
      ensures ok ==> db == Loop(old(db), rows).db
      ensures db == Last(old(db), states)
    {
      states := [];
      var keyIdByHash: map<string, nat> := map[];
      var migrated, i := 0, 0;
      assert rows[..0] == [];
      while i < |rows|
        invariant 0 <= i == migrated <= |rows|
        invariant Loop(old(db), rows[..i]) == Progress(db, keyIdByHash)
        invariant states == LoopStates(old(db), rows[..i]) && db == Last(old(db), states)
      {
        OneMoreRow(old(db), rows, i, Progress(db, keyIdByHash));
        var done;
        ghost var keyed;
        done, keyIdByHash, keyed := MigrateRow(rows[i], keyIdByHash);
        if !done {
          ConflictLasts(old(db), rows, i + 1);
          return false, states;
        }
        states := states + [keyed, db];
        migrated := migrated + 1;
        i := i + 1;
      }
      assert rows[..i] == rows;
      ok := migrated == |rows|;
    }

    /** `rows` is what the SELECT returns. */
    method Up(rows: seq<LegacyRow>) returns (ok: bool, ghost states: seq<Db>)
      requires db.legacy.Some? ==> Selects(db, rows)
      modifies this
      ensures old(db).legacy == None ==> ok && db == old(db)
      ensures old(db).legacy.Some? ==>
                && states == States(old(db), rows)
                && ok == Migrated(old(db), rows).Some?
                && (ok ==> db == Migrated(old(db), rows).value)
                && (!ok ==> db == Last(old(db), states))
      ensures ok ==> db.legacy == None && db.users == old(db).users && db.repos == old(db).repos
    {
      if db.legacy == None { return true, []; }
      if Loop(Base(db), rows).Progress? { LoopFrame(Base(db), rows); }
      states := [db, ClearBindings(db), Base(db)];
      db := ClearBindings(db);
      db := ClearMigrated(db);
      ghost var loopStates;
      ok, loopStates := MigrateRows(rows);
      states := states + loopStates;
      if !ok { return false, states; }
      db := db.(legacy := None);
    }
  }

  lemma {:induction false} LoopFrame(base: Db, rows: seq<LegacyRow>)
    requires Loop(base, rows).Progress?
    ensures var d := Loop(base, rows).db;
            d.users == base.users && d.repos == base.repos && d.legacy == base.legacy
    decreases |rows|
  {
    if rows != [] { LoopFrame(base, rows[..|rows| - 1]); }
  }

  /** One run: nothing to do without the old table. */
  function Upgraded(db: Db, rows: seq<LegacyRow>): Option<Db> {
    if db.legacy == None then Some(db) else Migrated(db, rows)
  }

  /** A successful run drops the old table and leaves users and libraries alone; a second one changes nothing. */
  lemma SecondRunChangesNothing(db: Db, rows: seq<LegacyRow>, again: seq<LegacyRow>)
    requires Upgraded(db, rows).Some?
    ensures var d := Upgraded(db, rows).value;
            && d.legacy == None && d.users == db.users && d.repos == db.repos
            && Upgraded(d, again) == Some(d)
  {
    if db.legacy != None { LoopFrame(Base(db), rows); }
  }

  ghost function Last(first: Db, states: seq<Db>): Db { if states == [] then first else states[|states| - 1] }

  lemma OneMoreRow(base: Db, rows: seq<LegacyRow>, i: nat, p: Progress)
    requires i < |rows| && Loop(base, rows[..i]) == p
    ensures Loop(base, rows[..i + 1]) == BindStatement(KeyStatement(p, rows[i]), rows[i])
    ensures var keyed := KeyStatement(p, rows[i]);
            LoopStates(base, rows[..i + 1])
            == LoopStates(base, rows[..i])
               + if keyed.Progress? then [keyed.db, BindStatement(keyed, rows[i]).db] else []
  {
    assert rows[..i + 1][..i] == rows[..i];
  }

  /** Once a row has failed, the loop has failed. */
  lemma {:induction false} ConflictLasts(base: Db, rows: seq<LegacyRow>, i: nat)
    requires i <= |rows| && Loop(base, rows[..i]).Conflict?
    ensures Loop(base, rows).Conflict? && LoopStates(base, rows) == LoopStates(base, rows[..i])
    decreases |rows|
  {
    if i == |rows| {
      assert rows[..i] == rows;
    } else {
      assert rows[..|rows| - 1][..i] == rows[..i];
      ConflictLasts(base, rows[..|rows| - 1], i);
      assert LoopStates(base, rows) == LoopStates(base, rows[..|rows| - 1]) + [];
    }
  }

  // ---------- what the loop has established after some rows ----------

  ghost predicate Has(rows: seq<LegacyRow>, hash: string) { exists i :: 0 <= i < |rows| && rows[i].hash == hash }

  ghost predicate HasIn(rows: seq<LegacyRow>, hash: string, repo: string) {
    exists i :: 0 <= i < |rows| && rows[i].hash == hash && rows[i].repo == repo
  }

  ghost predicate Writes(rows: seq<LegacyRow>, hash: string) {
    exists i :: 0 <= i < |rows| && rows[i].hash == hash && rows[i].permission != "r"
  }

  // The first row with a digest, if there is one, and the permission of its first row for a library.
  ghost function FirstRow(rows: seq<LegacyRow>, hash: string): LegacyRow {
    if rows == [] then LegacyRow("", 0, "", "", hash, 0, None)
    else if Has(rows[..|rows| - 1], hash) then FirstRow(rows[..|rows| - 1], hash)
    else rows[|rows| - 1]
  }

  ghost function FirstUser(rows: seq<LegacyRow>, hash: string): int { FirstRow(rows, hash).user }

  ghost function FirstPermission(rows: seq<LegacyRow>, hash: string, repo: string): string {
    if rows == [] then ""
    else if HasIn(rows[..|rows| - 1], hash, repo) then FirstPermission(rows[..|rows| - 1], hash, repo)
    else rows[|rows| - 1].permission
  }

  /** The key of a digest: the user, name and times of its first row, the capabilities of all its rows. */
  ghost predicate KeyFor(rows: seq<LegacyRow>, hash: string, key: ApiKey) {
    var row := FirstRow(rows, hash);
    && key.hash == hash && key.user == row.user && key.name == row.name
    && key.createdAt == row.createdAt && key.lastUsedAt == row.lastUsedAt
    && key.prefix == None && !key.allRepos && key.expiresAt == None
    && key.capabilities == if Writes(rows, hash) then READ_WRITE else READ
  }

  ghost predicate UniqueHashes(db: Db) {
    forall i, j :: i in db.keys && j in db.keys && db.keys[i].hash == db.keys[j].hash ==> i == j
  }

  ghost predicate KeysInv(base: Db, rows: seq<LegacyRow>, db: Db, ids: map<string, nat>) {
    && IdsBelow(db) && UniqueHashes(db)
    && (forall h :: h in ids <==> Has(rows, h))
    && (forall h :: h in ids ==> ids[h] in db.keys && ids[h] !in base.keys && KeyFor(rows, h, db.keys[ids[h]]))
    && (forall id :: id in base.keys ==> id in db.keys && db.keys[id] == base.keys[id])
    && db.users == base.users && db.repos == base.repos && db.legacy == base.legacy
    && Prefixed(db.keys) == Prefixed(base.keys)
  }

  ghost predicate BindingsInv(rows: seq<LegacyRow>, db: Db, ids: map<string, nat>) {
    && (forall b :: b in db.bindings ==> exists h :: h in ids && ids[h] == b.keyId)
    && (forall h, repo :: h in ids ==> (Binding(ids[h], repo) in db.bindings <==> HasIn(rows, h, repo)))
    && (forall h, repo :: h in ids && HasIn(rows, h, repo) ==>
          db.bindings[Binding(ids[h], repo)] == FirstPermission(rows, h, repo))
  }

  lemma Appended(init: seq<LegacyRow>, row: LegacyRow, h: string, repo: string)
    ensures var rows := init + [row];
            && (Has(rows, h) <==> Has(init, h) || row.hash == h)
            && (HasIn(rows, h, repo) <==> HasIn(init, h, repo) || (row.hash == h && row.repo == repo))
            && (Writes(rows, h) <==> Writes(init, h) || (row.hash == h && row.permission != "r"))
            && FirstRow(rows, h) == (if Has(init, h) then FirstRow(init, h) else row)
            && FirstPermission(rows, h, repo)
                == (if HasIn(init, h, repo) then FirstPermission(init, h, repo) else row.permission)
  {
    var rows := init + [row];
    assert rows[..|rows| - 1] == init && rows[|init|] == row;
    assert forall i :: 0 <= i < |init| ==> rows[i] == init[i];
  }

  lemma PrefixedUnchanged(keys: map<nat, ApiKey>, id: nat, key: ApiKey)
    requires key.prefix == None && (id in keys ==> keys[id].prefix == None)
    ensures Prefixed(keys[id := key]) == Prefixed(keys)
  {
  }

  /** A key that was right for some rows, widened if the next row asks for it, is right for one row more. */
  lemma KeyGrows(init: seq<LegacyRow>, row: LegacyRow, h: string, key: ApiKey)
    requires Has(init, h) && KeyFor(init, h, key)
    ensures var widened := key.(capabilities := READ_WRITE);
            KeyFor(init + [row], h, if h == row.hash && row.permission != "r" then widened else key)
  {
    Appended(init, row, h, "");
  }

  lemma NewKeyFits(init: seq<LegacyRow>, row: LegacyRow)
    requires !Has(init, row.hash)
    ensures KeyFor(init + [row], row.hash, NewKey(row))
  {
  }

  lemma WidenedKey(db: Db, ids: map<string, nat>, row: LegacyRow, h: string)
    requires row.hash in ids && h in ids && ids[h] in db.keys && ids[row.hash] in db.keys
    requires ids[h] == ids[row.hash] ==> h == row.hash
    requires db.keys[ids[h]].capabilities == READ || db.keys[ids[h]].capabilities == READ_WRITE
    ensures KeyStatement(Progress(db, ids), row).db.keys[ids[h]]
         == if h == row.hash && row.permission != "r" then db.keys[ids[h]].(capabilities := READ_WRITE)
             else db.keys[ids[h]]
  {
  }

  lemma WidenStep(base: Db, init: seq<LegacyRow>, row: LegacyRow, db: Db, ids: map<string, nat>)
    requires KeysInv(base, init, db, ids) && row.hash in ids
    ensures KeysInv(base, init + [row], KeyStatement(Progress(db, ids), row).db, ids)
  {
    assert KeyFor(init, row.hash, db.keys[ids[row.hash]]);
    WidenFrame(db, ids[row.hash]);
    KeysApart(base, init, db, ids);
    forall h ensures h in ids <==> Has(init + [row], h) { Appended(init, row, h, ""); }
    forall h | h in ids
      ensures KeyFor(init + [row], h, KeyStatement(Progress(db, ids), row).db.keys[ids[h]])
    {
      assert KeyFor(init, h, db.keys[ids[h]]);
      WidenedKey(db, ids, row, h);
      KeyGrows(init, row, h, db.keys[ids[h]]);
    }
  }

  // Widening changes no key but one, and of that one only the capabilities.
  lemma WidenFrame(db: Db, id: nat)
    requires id in db.keys && db.keys[id].prefix == None && IdsBelow(db) && UniqueHashes(db)
    ensures var db' := Widen(db, id);
            && IdsBelow(db') && UniqueHashes(db') && db'.keys.Keys == db.keys.Keys
            && (forall j :: j in db.keys && j != id ==> db'.keys[j] == db.keys[j])
            && db'.users == db.users && db'.repos == db.repos && db'.legacy == db.legacy
            && Prefixed(db'.keys) == Prefixed(db.keys)
  {
    PrefixedUnchanged(db.keys, id, db.keys[id].(capabilities := READ_WRITE));
  }

  lemma InsertStep(base: Db, init: seq<LegacyRow>, row: LegacyRow, db: Db, ids: map<string, nat>)
    requires KeysInv(base, init, db, ids) && row.hash !in ids && !HashTaken(db, row.hash)
    ensures KeysInv(base, init + [row], InsertKey(db, row), ids[row.hash := db.nextId])
  {
    var db', ids' := InsertKey(db, row), ids[row.hash := db.nextId];
    PrefixedUnchanged(db.keys, db.nextId, NewKey(row));
    forall h ensures h in ids' <==> Has(init + [row], h) { Appended(init, row, h, ""); }
    forall h | h in ids'
      ensures ids'[h] in db'.keys && ids'[h] !in base.keys && KeyFor(init + [row], h, db'.keys[ids'[h]])
    {
      if h == row.hash {
        NewKeyFits(init, row);
      } else {
        assert KeyFor(init, h, db.keys[ids[h]]);
        KeyGrows(init, row, h, db.keys[ids[h]]);
      }
    }
  }

  lemma BindStep(init: seq<LegacyRow>, row: LegacyRow, db: Db, ids: map<string, nat>)
    requires row.hash in ids && IdsApart(ids)
    requires forall b :: b in db.bindings ==> exists h :: h in ids && ids[h] == b.keyId
    requires forall h, repo :: h in ids ==> (Binding(ids[h], repo) in db.bindings <==> HasIn(init, h, repo))
    requires forall h, repo :: h in ids && HasIn(init, h, repo) ==>
               db.bindings[Binding(ids[h], repo)] == FirstPermission(init, h, repo)
    ensures BindingsInv(init + [row], Bind(db, ids[row.hash], row), ids)
  {
    var db' := Bind(db, ids[row.hash], row);
    forall h, repo | h in ids
      ensures Binding(ids[h], repo) in db'.bindings <==> HasIn(init + [row], h, repo)
      ensures HasIn(init + [row], h, repo) ==>
                    db'.bindings[Binding(ids[h], repo)] == FirstPermission(init + [row], h, repo)
    {
      Appended(init, row, h, repo);
    }
  }

  ghost predicate IdsApart(ids: map<string, nat>) {
    forall h, k :: h in ids && k in ids && ids[h] == ids[k] ==> h == k
  }

  lemma KeysApart(base: Db, rows: seq<LegacyRow>, db: Db, ids: map<string, nat>)
    requires KeysInv(base, rows, db, ids)
    ensures IdsApart(ids)
  {
  }

  // Bindings after an insert: the new id is bound to nothing yet.
  lemma FreshIdUnbound(base: Db, init: seq<LegacyRow>, row: LegacyRow, db: Db, ids: map<string, nat>)
    requires KeysInv(base, init, db, ids) && BindingsInv(init, db, ids) && row.hash !in ids
    ensures forall repo :: Binding(db.nextId, repo) !in db.bindings && !HasIn(init, row.hash, repo)
  {
  }

  lemma SplitLast(rows: seq<LegacyRow>)
    requires rows != []
    ensures rows == rows[..|rows| - 1] + [rows[|rows| - 1]]
  {
  }

  lemma KeysRowStep(base: Db, init: seq<LegacyRow>, row: LegacyRow, p: Progress, rows: seq<LegacyRow>)
    requires p.Progress? && KeysInv(base, init, p.db, p.ids) && rows == init + [row]
    requires KeyStatement(p, row).Progress?
    ensures var keyed, q := KeyStatement(p, row), BindStatement(KeyStatement(p, row), row);
            KeysInv(base, rows, keyed.db, keyed.ids) && KeysInv(base, rows, q.db, q.ids)
  {
    var keyed := KeyStatement(p, row);
    if row.hash in p.ids {
      WidenStep(base, init, row, p.db, p.ids);
    } else {
      InsertStep(base, init, row, p.db, p.ids);
    }
    BindKeepsKeys(base, rows, keyed.db, keyed.ids, keyed.ids[row.hash], row);
  }

  /** After every prefix of the rows: one key per digest, with the widest capabilities so far. */
  lemma {:induction false} KeysEstablished(base: Db, rows: seq<LegacyRow>)
    requires IdsBelow(base) && UniqueHashes(base) && Loop(base, rows).Progress?
    ensures KeysInv(base, rows, Loop(base, rows).db, Loop(base, rows).ids)
    decreases |rows|
  {
    if rows != [] {
      SplitLast(rows);
      KeysEstablished(base, rows[..|rows| - 1]);
      KeysRowStep(base, rows[..|rows| - 1], rows[|rows| - 1], Loop(base, rows[..|rows| - 1]), rows);
    }
  }

  // The bindings as they are when the key statement of the next row is done.
  lemma KeyedBindings(base: Db, init: seq<LegacyRow>, row: LegacyRow, p: Progress)
    requires p.Progress? && KeysInv(base, init, p.db, p.ids) && BindingsInv(init, p.db, p.ids)
    requires KeyStatement(p, row).Progress?
    ensures var keyed := KeyStatement(p, row);
            BindingsInv(init, keyed.db, keyed.ids) && row.hash in keyed.ids
  {
    if row.hash !in p.ids {
      FreshIdUnbound(base, init, row, p.db, p.ids);
      BindingsAfterInsert(init, row, p.db, p.ids);
    }
  }

  lemma BindingsRowStep(base: Db, init: seq<LegacyRow>, row: LegacyRow, p: Progress, rows: seq<LegacyRow>)
    requires p.Progress? && KeysInv(base, init, p.db, p.ids) && BindingsInv(init, p.db, p.ids) && rows == init + [row]
    requires KeyStatement(p, row).Progress?
    ensures var q := BindStatement(KeyStatement(p, row), row);
            BindingsInv(rows, q.db, q.ids)
  {
    var keyed := KeyStatement(p, row);
    KeysRowStep(base, init, row, p, rows);
    KeysApart(base, rows, keyed.db, keyed.ids);
    KeyedBindings(base, init, row, p);
    BindStep(init, row, keyed.db, keyed.ids);
  }

  /** After every prefix of the rows: one binding per digest and library, with its first permission. */
  lemma {:induction false} BindingsEstablished(base: Db, rows: seq<LegacyRow>)
    requires IdsBelow(base) && UniqueHashes(base) && base.bindings == map[] && Loop(base, rows).Progress?
    ensures BindingsInv(rows, Loop(base, rows).db, Loop(base, rows).ids)
    decreases |rows|
  {
    if rows != [] {
      SplitLast(rows);
      KeysEstablished(base, rows[..|rows| - 1]);
      BindingsEstablished(base, rows[..|rows| - 1]);
      BindingsRowStep(base, rows[..|rows| - 1], rows[|rows| - 1], Loop(base, rows[..|rows| - 1]), rows);
    }
  }

  lemma BindingsAfterInsert(init: seq<LegacyRow>, row: LegacyRow, db: Db, ids: map<string, nat>)
    requires BindingsInv(init, db, ids) && row.hash !in ids
    requires forall repo :: Binding(db.nextId, repo) !in db.bindings && !HasIn(init, row.hash, repo)
    ensures BindingsInv(init, InsertKey(db, row), ids[row.hash := db.nextId])
  {
    var ids' := ids[row.hash := db.nextId];
    forall b | b in db.bindings ensures exists h :: h in ids' && ids'[h] == b.keyId {
      var h :| h in ids && ids[h] == b.keyId;
      assert ids'[h] == b.keyId;
    }
  }

  lemma BindKeepsKeys(base: Db, rows: seq<LegacyRow>, db: Db, ids: map<string, nat>, id: nat, row: LegacyRow)
    requires KeysInv(base, rows, db, ids)
    ensures KeysInv(base, rows, Bind(db, id, row), ids)
  {
  }
}
