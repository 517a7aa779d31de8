/**
 What the WebDAV migration means for access: who may read or write a library with a secret,
 before it from the legacy rows and after it from the unified keys and their bindings.
 */
module WebDavAccess {
  import opened Options
  import opened WebDavMigration

  /** A live legacy row lets the user in; only "r" is read-only. */
  ghost predicate RowAllows(rows: seq<LegacyRow>, user: int, hash: string, repo: string, write: bool) {
    exists i :: 0 <= i < |rows| && Grants(rows[i], user, hash, repo, write)
  }

  predicate Grants(row: LegacyRow, user: int, hash: string, repo: string, write: bool) {
    row.user == user && row.hash == hash && row.repo == repo && (write ==> row.permission != "r")
  }

  ghost predicate LegacyAllows(db: Db, user: int, hash: string, repo: string, write: bool) {
    && db.legacy.Some? && user in db.users && repo in db.repos
    && exists i :: 0 <= i < |db.legacy.value| && Grants(db.legacy.value[i], user, hash, repo, write)
  }

  /** Through WebDAV: the key of the digest must be the user's, hold the capability, and be bound widely enough. */
  ghost predicate KeyAllows(db: Db, user: int, hash: string, repo: string, write: bool) {
    exists id :: id in db.keys && KeyGrants(db, id, user, hash, repo, write)
  }

  predicate KeyGrants(db: Db, id: nat, user: int, hash: string, repo: string, write: bool)
    requires id in db.keys
  {
    var key := db.keys[id];
    && key.hash == hash && key.user == user
    && "webdav.read" in key.capabilities && (write ==> "webdav.write" in key.capabilities)
    && Covers(db, id, repo, write)
  }

  // The key covers the library, for writing if that is demanded.
  predicate Covers(db: Db, id: nat, repo: string, write: bool)
    requires id in db.keys
  {
    db.keys[id].allRepos || (Binding(id, repo) in db.bindings && (write ==> db.bindings[Binding(id, repo)] != "r"))
  }

  /** Through any capability: the key of the digest is the user's, holds the capability and covers the library. */
  ghost predicate Permits(db: Db, user: int, hash: string, capability: string, repo: string, write: bool) {
    exists id :: id in db.keys && db.keys[id].hash == hash && db.keys[id].user == user
                 && capability in db.keys[id].capabilities && Covers(db, id, repo, write)
  }

  /** The digest of a key made through the API. */
  ghost predicate PrefixedHash(db: Db, hash: string) {
    exists id :: id in db.keys && db.keys[id].prefix.Some? && db.keys[id].hash == hash
  }

  ghost predicate Preserves(db: Db, d: Db) {
    forall user, hash, repo, write :: !PrefixedHash(db, hash) ==>
      (KeyAllows(d, user, hash, repo, write) <==> LegacyAllows(db, user, hash, repo, write))
  }

  // The user and the library of the row exist.
  predicate Exists(db: Db, row: LegacyRow) { row.user in db.users && row.repo in db.repos }

  ghost predicate OneUserPerDigest(db: Db) {
    db.legacy.Some? && forall i, j ::
      (0 <= i < |db.legacy.value| && 0 <= j < |db.legacy.value|
       && Exists(db, db.legacy.value[i]) && Exists(db, db.legacy.value[j])
       && db.legacy.value[i].hash == db.legacy.value[j].hash) ==> db.legacy.value[i].user == db.legacy.value[j].user
  }

  /** The old unique index: library, user and digest. */
  ghost predicate UniqueIndex(db: Db) {
    db.legacy.Some? && forall i, j :: 0 <= i < j < |db.legacy.value| ==>
      !(db.legacy.value[i].repo == db.legacy.value[j].repo && db.legacy.value[i].user == db.legacy.value[j].user
        && db.legacy.value[i].hash == db.legacy.value[j].hash)
  }

  ghost predicate Consistent(db: Db) { IdsBelow(db) && UniqueHashes(db) }

  // ---------- what the SELECT returns ----------

  lemma {:induction false} LiveRowsAre(db: Db, rows: seq<LegacyRow>, row: LegacyRow)
    ensures row in LiveRows(db, rows) <==> row in rows && Live(db, row)
    decreases |rows|
  {
    if rows != [] {
      LiveRowsAre(db, rows[..|rows| - 1], row);
      SplitLast(rows);
    }
  }

  lemma SelectedAre(db: Db, rows: seq<LegacyRow>, row: LegacyRow)
    requires Selects(db, rows)
    ensures row in rows <==> row in db.legacy.value && Live(db, row)
  {
    LiveRowsAre(db, db.legacy.value, row);
    assert row in rows <==> row in multiset(rows);
  }

  lemma LegacyIsRows(db: Db, rows: seq<LegacyRow>, user: int, hash: string, repo: string, write: bool)
    requires Selects(db, rows)
    ensures LegacyAllows(db, user, hash, repo, write) <==> RowAllows(rows, user, hash, repo, write)
  {
    forall row ensures row in rows <==> row in db.legacy.value && Live(db, row) { SelectedAre(db, rows, row); }
    if LegacyAllows(db, user, hash, repo, write) {
      var i :| 0 <= i < |db.legacy.value| && Grants(db.legacy.value[i], user, hash, repo, write);
      assert db.legacy.value[i] in rows;
    }
    if RowAllows(rows, user, hash, repo, write) {
      var i :| 0 <= i < |rows| && Grants(rows[i], user, hash, repo, write);
      assert rows[i] in rows;
    }
  }

  ghost predicate OneUser(rows: seq<LegacyRow>) {
    forall x, y :: x in rows && y in rows && x.hash == y.hash ==> x.user == y.user
  }

  ghost predicate OneRow(rows: seq<LegacyRow>) {
    forall x, y :: x in rows && y in rows && x.hash == y.hash && x.user == y.user && x.repo == y.repo ==> x == y
  }

  lemma SelectedFacts(db: Db, rows: seq<LegacyRow>)
    requires Selects(db, rows)
    ensures OneUserPerDigest(db) <==> OneUser(rows)
    ensures UniqueIndex(db) ==> OneRow(rows)
  {
    forall row ensures row in rows <==> row in db.legacy.value && Live(db, row) { SelectedAre(db, rows, row); }
    if OneUser(rows) {
      forall i, j | 0 <= i < |db.legacy.value| && 0 <= j < |db.legacy.value|
                    && Exists(db, db.legacy.value[i]) && Exists(db, db.legacy.value[j])
                    && db.legacy.value[i].hash == db.legacy.value[j].hash
        ensures db.legacy.value[i].user == db.legacy.value[j].user
      {
        assert db.legacy.value[i] in rows && db.legacy.value[j] in rows;
      }
    }
  }

  // ---------- the unified tables after the loop ----------

  lemma {:induction false} FirstUserIsOne(rows: seq<LegacyRow>, hash: string)
    requires Has(rows, hash)
    ensures exists i :: 0 <= i < |rows| && rows[i].hash == hash && rows[i].user == FirstUser(rows, hash)
    decreases |rows|
  {
    var init := rows[..|rows| - 1];
    if Has(init, hash) {
      FirstUserIsOne(init, hash);
      var i :| 0 <= i < |init| && init[i].hash == hash && init[i].user == FirstUser(init, hash);
      assert rows[i] == init[i];
    } else {
      OnlyLast(rows, hash);
    }
  }

  lemma OnlyLast(rows: seq<LegacyRow>, hash: string)
    requires Has(rows, hash) && !Has(rows[..|rows| - 1], hash)
    ensures rows != [] && rows[|rows| - 1].hash == hash
  {
  }

  lemma {:induction false} FirstPermissionIsOne(rows: seq<LegacyRow>, hash: string, repo: string)
    requires HasIn(rows, hash, repo)
    ensures exists i :: 0 <= i < |rows| && rows[i].hash == hash && rows[i].repo == repo
                        && rows[i].permission == FirstPermission(rows, hash, repo)
    decreases |rows|
  {
    var init := rows[..|rows| - 1];
    if HasIn(init, hash, repo) {
      FirstPermissionIsOne(init, hash, repo);
      var i :| 0 <= i < |init| && init[i].hash == hash && init[i].repo == repo
               && init[i].permission == FirstPermission(init, hash, repo);
      assert rows[i] == init[i];
    } else {
      OnlyLastIn(rows, hash, repo);
    }
  }

  lemma OnlyLastIn(rows: seq<LegacyRow>, hash: string, repo: string)
    requires HasIn(rows, hash, repo) && !HasIn(rows[..|rows| - 1], hash, repo)
    ensures rows != [] && rows[|rows| - 1].hash == hash && rows[|rows| - 1].repo == repo
  {
  }

  // What the migrated key of a digest grants, in terms of the rows.
  ghost predicate MigratedGrants(rows: seq<LegacyRow>, user: int, hash: string, repo: string, write: bool) {
    && HasIn(rows, hash, repo) && user == FirstUser(rows, hash)
    && (write ==> Writes(rows, hash) && FirstPermission(rows, hash, repo) != "r")
  }

  lemma KeyOfDigest(base: Db, rows: seq<LegacyRow>, db: Db, ids: map<string, nat>,
                    user: int, hash: string, repo: string, write: bool)
    requires KeysInv(base, rows, db, ids) && BindingsInv(rows, db, ids) && hash in ids
    ensures KeyAllows(db, user, hash, repo, write) <==> MigratedGrants(rows, user, hash, repo, write)
  {
    var id := ids[hash];
    assert KeyFor(rows, hash, db.keys[id]);
    assert Binding(id, repo) in db.bindings <==> HasIn(rows, hash, repo);
    OnlyKeyOfDigest(db, id, user, hash, repo, write);
  }

  lemma OnlyKeyOfDigest(db: Db, id: nat, user: int, hash: string, repo: string, write: bool)
    requires UniqueHashes(db) && id in db.keys && db.keys[id].hash == hash
    ensures KeyAllows(db, user, hash, repo, write) <==> KeyGrants(db, id, user, hash, repo, write)
  {
  }

  // The keys the loop has inserted are those of the digests seen.
  ghost predicate NoStrangers(db: Db, ids: map<string, nat>) {
    forall id :: id in db.keys && db.keys[id].prefix == None ==> db.keys[id].hash in ids
  }

  lemma {:induction false} LoopHasNoStrangers(base: Db, rows: seq<LegacyRow>)
    requires forall id :: id in base.keys ==> base.keys[id].prefix.Some?
    ensures Loop(base, rows).Progress? ==> NoStrangers(Loop(base, rows).db, Loop(base, rows).ids)
    decreases |rows|
  {
    if rows != [] {
      LoopHasNoStrangers(base, rows[..|rows| - 1]);
      StepHasNoStrangers(Loop(base, rows[..|rows| - 1]), rows[|rows| - 1]);
    }
  }

  lemma StepHasNoStrangers(p: Progress, row: LegacyRow)
    requires p.Progress? ==> NoStrangers(p.db, p.ids)
    ensures var q := BindStatement(KeyStatement(p, row), row);
            q.Progress? ==> NoStrangers(q.db, q.ids)
  {
  }

  lemma UnknownDigest(db: Db, ids: map<string, nat>, user: int, hash: string, repo: string, write: bool)
    requires NoStrangers(db, ids) && hash !in ids && !PrefixedHash(db, hash)
    ensures !KeyAllows(db, user, hash, repo, write)
  {
  }

  lemma BaseFacts(db: Db)
    requires Consistent(db)
    ensures Consistent(Base(db)) && Base(db).bindings == map[]
    ensures forall id :: id in Base(db).keys ==> Base(db).keys[id].prefix.Some?
    ensures Prefixed(Base(db).keys) == Prefixed(db.keys)
  {
  }

  lemma PrefixedHashes(x: Db, y: Db, hash: string)
    requires Prefixed(x.keys) == Prefixed(y.keys)
    ensures PrefixedHash(x, hash) <==> PrefixedHash(y, hash)
  {
    forall db: Db
      ensures PrefixedHash(db, hash) <==> exists id :: id in Prefixed(db.keys) && Prefixed(db.keys)[id].hash == hash
    {
      if PrefixedHash(db, hash) {
        var id :| id in db.keys && db.keys[id].prefix.Some? && db.keys[id].hash == hash;
        assert id in Prefixed(db.keys);
      }
    }
  }

  /** Access after the migration, digest by digest, read off the rows it was given. */
  lemma AccessAfter(db: Db, rows: seq<LegacyRow>, user: int, hash: string, repo: string, write: bool)
    requires Consistent(db) && Migrated(db, rows).Some? && !PrefixedHash(db, hash)
    ensures KeyAllows(Migrated(db, rows).value, user, hash, repo, write) <==>
            Has(rows, hash) && MigratedGrants(rows, user, hash, repo, write)
  {
    var base := Base(db);
    BaseFacts(db);
    KeysEstablished(base, rows);
    BindingsEstablished(base, rows);
    LoopHasNoStrangers(base, rows);
    var Progress(d, ids) := Loop(base, rows);
    SameTables(d, user, hash, repo, write);
    PrefixedHashes(d, db, hash);
    if hash in ids {
      KeyOfDigest(base, rows, d, ids, user, hash, repo, write);
    } else {
      UnknownDigest(d, ids, user, hash, repo, write);
    }
  }

  lemma SameTables(d: Db, user: int, hash: string, repo: string, write: bool)
    ensures KeyAllows(d.(legacy := None), user, hash, repo, write) <==> KeyAllows(d, user, hash, repo, write)
  {
  }

  lemma GrantsMeetRows(rows: seq<LegacyRow>, user: int, hash: string, repo: string, write: bool)
    requires OneUser(rows) && OneRow(rows)
    ensures Has(rows, hash) && MigratedGrants(rows, user, hash, repo, write) <==>
            RowAllows(rows, user, hash, repo, write)
  {
    if Has(rows, hash) { FirstUserIsOne(rows, hash); }
    if HasIn(rows, hash, repo) { FirstPermissionIsOne(rows, hash, repo); }
    if RowAllows(rows, user, hash, repo, write) {
      var i :| 0 <= i < |rows| && Grants(rows[i], user, hash, repo, write);
      assert rows[i].hash == hash && rows[i].repo == repo;
    }
  }

  /**
   The migration preserves access exactly if and only if no digest is shared by two users: a
   read-only library stays read-only under a secret that may write another, and with a shared
   digest the user whose row comes later loses access.
   */
  lemma AccessPreservedIff(db: Db, rows: seq<LegacyRow>)
    requires Consistent(db) && UniqueIndex(db) && Selects(db, rows) && Migrated(db, rows).Some?
    ensures Preserves(db, Migrated(db, rows).value) <==> OneUserPerDigest(db)
  {
    var d := Migrated(db, rows).value;
    SelectedFacts(db, rows);
    if OneUser(rows) {
      forall user, hash, repo, write | !PrefixedHash(db, hash)
        ensures KeyAllows(d, user, hash, repo, write) <==> LegacyAllows(db, user, hash, repo, write)
      {
        AccessAfter(db, rows, user, hash, repo, write);
        LegacyIsRows(db, rows, user, hash, repo, write);
        GrantsMeetRows(rows, user, hash, repo, write);
      }
    } else if Preserves(db, d) {
      var x, y :| x in rows && y in rows && x.hash == y.hash && x.user != y.user;
      NotPrefixed(db, rows, x);
      SharedLoses(db, rows, x);
      SharedLoses(db, rows, y);
    }
  }

  // With access preserved, a row's user is the user of the digest's key.
  lemma SharedLoses(db: Db, rows: seq<LegacyRow>, x: LegacyRow)
    requires Consistent(db) && Selects(db, rows) && Migrated(db, rows).Some? && x in rows
    requires !PrefixedHash(db, x.hash) && Preserves(db, Migrated(db, rows).value)
    ensures x.user == FirstUser(rows, x.hash)
  {
    AccessAfter(db, rows, x.user, x.hash, x.repo, false);
    LegacyIsRows(db, rows, x.user, x.hash, x.repo, false);
    assert Grants(x, x.user, x.hash, x.repo, false);
    assert RowAllows(rows, x.user, x.hash, x.repo, false);
  }

  // ---------- when it succeeds ----------

  lemma {:induction false} LoopSucceedsIff(base: Db, rows: seq<LegacyRow>)
    requires Consistent(base) && (forall id :: id in base.keys ==> base.keys[id].prefix.Some?)
    ensures Loop(base, rows).Progress? <==> forall x :: x in rows ==> !PrefixedHash(base, x.hash)
    decreases |rows|
  {
    if rows != [] {
      var init, row := rows[..|rows| - 1], rows[|rows| - 1];
      LoopSucceedsIff(base, init);
      SplitLast(rows);
      if Loop(base, init).Progress? {
        KeysEstablished(base, init);
        LoopHasNoStrangers(base, init);
        RowSucceedsIff(base, init, row, Loop(base, init).db, Loop(base, init).ids);
      }
    }
  }

  lemma RowSucceedsIff(base: Db, init: seq<LegacyRow>, row: LegacyRow, db: Db, ids: map<string, nat>)
    requires KeysInv(base, init, db, ids) && NoStrangers(db, ids)
    requires forall id :: id in base.keys ==> base.keys[id].prefix.Some?
    ensures KeyStatement(Progress(db, ids), row).Progress? <==> !PrefixedHash(base, row.hash)
  {
    if PrefixedHash(base, row.hash) {
      var id :| id in base.keys && base.keys[id].prefix.Some? && base.keys[id].hash == row.hash;
      assert id in db.keys && db.keys[id] == base.keys[id];
    }
    if HashTaken(db, row.hash) && row.hash !in ids {
      TakenByPrefixed(db, ids, row.hash);
      PrefixedHashes(db, base, row.hash);
    }
  }

  lemma TakenByPrefixed(db: Db, ids: map<string, nat>, hash: string)
    requires NoStrangers(db, ids) && HashTaken(db, hash) && hash !in ids
    ensures PrefixedHash(db, hash)
  {
  }

  lemma NotPrefixed(db: Db, rows: seq<LegacyRow>, x: LegacyRow)
    requires Consistent(db) && Migrated(db, rows).Some? && x in rows
    ensures !PrefixedHash(db, x.hash)
  {
    BaseFacts(db);
    LoopSucceedsIff(Base(db), rows);
    PrefixedHashes(Base(db), db, x.hash);
  }

  ghost predicate NoClash(db: Db) {
    db.legacy.Some? && forall i :: 0 <= i < |db.legacy.value| && Exists(db, db.legacy.value[i]) ==>
                                     !PrefixedHash(db, db.legacy.value[i].hash)
  }

  /** It succeeds exactly when no live row carries the digest of a key made through the API. */
  lemma SucceedsIff(db: Db, rows: seq<LegacyRow>)
    requires Consistent(db) && Selects(db, rows)
    ensures Migrated(db, rows).Some? <==> NoClash(db)
  {
    BaseFacts(db);
    LoopSucceedsIff(Base(db), rows);
    forall x ensures x in rows <==> x in db.legacy.value && Live(db, x) { SelectedAre(db, rows, x); }
    forall hash ensures PrefixedHash(Base(db), hash) <==> PrefixedHash(db, hash) { PrefixedHashes(Base(db), db, hash); }
  }

  // ---------- order and reruns ----------

  ghost predicate SameAccess(x: Db, y: Db, db: Db) {
    forall user, hash, repo, write :: !PrefixedHash(db, hash) ==>
      (KeyAllows(x, user, hash, repo, write) <==> KeyAllows(y, user, hash, repo, write))
  }

  /** The sources of a migration: everything but what an earlier attempt may have inserted. */
  ghost predicate SameSources(x: Db, y: Db) {
    x.users == y.users && x.repos == y.repos && x.legacy == y.legacy && Prefixed(x.keys) == Prefixed(y.keys)
  }

  lemma {:induction false} LoopKeepsSources(base: Db, rows: seq<LegacyRow>, i: nat)
    requires Consistent(base) && i < |LoopStates(base, rows)|
    ensures SameSources(LoopStates(base, rows)[i], base) && Consistent(LoopStates(base, rows)[i])
    decreases |rows|
  {
    var init, row := rows[..|rows| - 1], rows[|rows| - 1];
    if i < |LoopStates(base, init)| {
      LoopKeepsSources(base, init, i);
    } else {
      SplitLast(rows);
      KeysEstablished(base, init);
      RowKeepsSources(base, init, row, Loop(base, init), rows);
    }
  }

  lemma RowKeepsSources(base: Db, init: seq<LegacyRow>, row: LegacyRow, p: Progress, rows: seq<LegacyRow>)
    requires p.Progress? && KeysInv(base, init, p.db, p.ids) && rows == init + [row]
    requires KeyStatement(p, row).Progress?
    ensures var keyed, q := KeyStatement(p, row).db, BindStatement(KeyStatement(p, row), row).db;
            SameSources(keyed, base) && Consistent(keyed) && SameSources(q, base) && Consistent(q)
  {
    KeysRowStep(base, init, row, p, rows);
  }

  lemma StatesKeepSources(db: Db, rows: seq<LegacyRow>, d: Db)
    requires Consistent(db) && d in States(db, rows)
    ensures SameSources(d, db) && Consistent(d)
  {
    BaseFacts(db);
    if d != db && d != ClearBindings(db) && d != Base(db) {
      var i :| 0 <= i < |LoopStates(Base(db), rows)| && LoopStates(Base(db), rows)[i] == d;
      LoopKeepsSources(Base(db), rows, i);
    }
  }

  /**
   Crash and rerun, in any row order.  Stop after any statement of a first attempt and run the
   migration again with the rows in another order: it succeeds exactly when the first attempt
   would have, and with one user per digest it ends with the same access.
   */
  lemma RerunEndsTheSame(db: Db, rows: seq<LegacyRow>, crashed: Db, again: seq<LegacyRow>)
    requires Consistent(db) && UniqueIndex(db) && Selects(db, rows)
    requires crashed in States(db, rows) && Selects(crashed, again)
    ensures Migrated(crashed, again).Some? <==> Migrated(db, rows).Some?
    ensures Migrated(db, rows).Some? && OneUserPerDigest(db) ==>
              SameAccess(Migrated(crashed, again).value, Migrated(db, rows).value, db)
  {
    StatesKeepSources(db, rows, crashed);
    RerunSucceeds(db, rows, crashed, again);
    if Migrated(db, rows).Some? && OneUserPerDigest(db) {
      AccessPreservedIff(db, rows);
      AccessPreservedIff(crashed, again);
      SameLegacySameAccess(db, crashed, Migrated(db, rows).value, Migrated(crashed, again).value);
    }
  }

  lemma RerunSucceeds(db: Db, rows: seq<LegacyRow>, crashed: Db, again: seq<LegacyRow>)
    requires Consistent(db) && Consistent(crashed) && SameSources(crashed, db) && Selects(db, rows)
             && Selects(crashed, again)
    ensures Migrated(crashed, again).Some? <==> Migrated(db, rows).Some?
  {
    forall hash ensures PrefixedHash(crashed, hash) <==> PrefixedHash(db, hash) { PrefixedHashes(crashed, db, hash); }
    SucceedsIff(db, rows);
    SucceedsIff(crashed, again);
  }

  lemma SameLegacySameAccess(x: Db, y: Db, x': Db, y': Db)
    requires SameSources(y, x) && Preserves(x, x') && Preserves(y, y')
    ensures SameAccess(y', x', x)
  {
    forall user, hash, repo, write | !PrefixedHash(x, hash)
      ensures KeyAllows(y', user, hash, repo, write) <==> KeyAllows(x', user, hash, repo, write)
    {
      PrefixedHashes(y, x, hash);
      assert LegacyAllows(y, user, hash, repo, write) <==> LegacyAllows(x, user, hash, repo, write);
    }
  }

  // ---------- the order of the rows ----------

  // The rows with the one at `i` moved to the front.
  function Fronted(rows: seq<LegacyRow>, i: nat): seq<LegacyRow>
    requires i < |rows|
  {
    [rows[i]] + (rows[..i] + rows[i + 1..])
  }

  lemma FrontedIsSelected(db: Db, i: nat)
    requires db.legacy.Some? && i < |LiveRows(db, db.legacy.value)|
    ensures Selects(db, Fronted(LiveRows(db, db.legacy.value), i))
  {
    FrontedHasTheSame(LiveRows(db, db.legacy.value), i);
  }

  lemma FrontedHasTheSame(rows: seq<LegacyRow>, i: nat)
    requires i < |rows|
    ensures multiset(Fronted(rows, i)) == multiset(rows)
  {
    assert rows == rows[..i] + ([rows[i]] + rows[i + 1..]);
    assert multiset(rows) == multiset(rows[..i]) + (multiset{rows[i]} + multiset(rows[i + 1..]));
  }

  lemma {:induction false} FrontIsFirst(x: LegacyRow, rest: seq<LegacyRow>)
    ensures FirstRow([x] + rest, x.hash) == x && Has([x] + rest, x.hash)
    decreases |rest|
  {
    assert ([x] + rest)[0].hash == x.hash;
    if rest != [] {
      var init := rest[..|rest| - 1];
      FrontIsFirst(x, init);
      assert ([x] + rest)[..|rest|] == [x] + init;
    }
  }

  ghost predicate OrderIrrelevant(db: Db) {
    forall p, q :: Selects(db, p) && Selects(db, q) && Migrated(db, p).Some? && Migrated(db, q).Some? ==>
                     SameAccess(Migrated(db, p).value, Migrated(db, q).value, db)
  }

  // With the row of `x` in front its user reads the library; with another user's in front he does not.
  lemma FrontDecides(db: Db, p: seq<LegacyRow>, x: LegacyRow)
    requires Consistent(db) && Selects(db, p) && Migrated(db, p).Some? && x in p
    ensures KeyAllows(Migrated(db, p).value, x.user, x.hash, x.repo, false) <==> x.user == FirstUser(p, x.hash)
  {
    NotPrefixed(db, p, x);
    AccessAfter(db, p, x.user, x.hash, x.repo, false);
    var i :| 0 <= i < |p| && p[i] == x;
    assert HasIn(p, x.hash, x.repo) && Has(p, x.hash);
  }

  lemma SharedDependsOnOrder(db: Db, x: LegacyRow, y: LegacyRow)
    requires Consistent(db) && NoClash(db) && x.hash == y.hash && x.user != y.user
    requires x in LiveRows(db, db.legacy.value) && y in LiveRows(db, db.legacy.value)
    ensures !OrderIrrelevant(db)
  {
    var rows := LiveRows(db, db.legacy.value);
    var i :| 0 <= i < |rows| && rows[i] == x;
    var j :| 0 <= j < |rows| && rows[j] == y;
    var p, q := Fronted(rows, i), Fronted(rows, j);
    FrontedIsSelected(db, i);
    FrontedIsSelected(db, j);
    SucceedsIff(db, p);
    SucceedsIff(db, q);
    FrontIsFirst(x, rows[..i] + rows[i + 1..]);
    FrontIsFirst(y, rows[..j] + rows[j + 1..]);
    SelectedAre(db, p, x);
    SelectedAre(db, q, x);
    FrontDecides(db, p, x);
    FrontDecides(db, q, x);
    NotPrefixed(db, p, x);
  }

  /** All orders of the rows end with the same access if and only if each digest has one user. */
  lemma OrderIrrelevantIff(db: Db)
    requires Consistent(db) && UniqueIndex(db) && NoClash(db)
    ensures OrderIrrelevant(db) <==> OneUserPerDigest(db)
  {
    var rows := LiveRows(db, db.legacy.value);
    SelectedFacts(db, rows);
    if OneUserPerDigest(db) {
      forall p, q | Selects(db, p) && Selects(db, q) && Migrated(db, p).Some? && Migrated(db, q).Some?
        ensures SameAccess(Migrated(db, p).value, Migrated(db, q).value, db)
      {
        AccessPreservedIff(db, p);
        AccessPreservedIff(db, q);
        SameLegacySameAccess(db, db, Migrated(db, q).value, Migrated(db, p).value);
      }
    } else {
      var x, y :| x in rows && y in rows && x.hash == y.hash && x.user != y.user;
      SharedDependsOnOrder(db, x, y);
    }
  }

  lemma TwoLiveRows(db: Db, x: LegacyRow, y: LegacyRow)
    requires Live(db, x) && Live(db, y)
    ensures LiveRows(db, [x, y]) == [x, y]
  {
    assert [x, y][..1] == [x] && [x][..0] == [];
    assert LiveRows(db, [x]) == [x];
  }

  /** Two users with one digest, in one library: the migration succeeds and one of them loses access. */
  lemma SharedDigestLosesAccess() returns (db: Db, rows: seq<LegacyRow>)
    ensures Consistent(db) && UniqueIndex(db) && Selects(db, rows) && Migrated(db, rows).Some?
    ensures !Preserves(db, Migrated(db, rows).value)
  {
    var x, y := LegacyRow("A", 1, "", "rw", "h", 0, None), LegacyRow("A", 2, "", "rw", "h", 0, None);
    rows := [x, y];
    db := Db({1, 2}, {"A"}, Some(rows), map[], map[], 0);
    TwoLiveRows(db, x, y);
    SucceedsIff(db, rows);
    AccessPreservedIff(db, rows);
    assert db.legacy.value[0] == x && db.legacy.value[1] == y;
  }

  /** Keys made through the API are kept as they are, but every binding they had is deleted. */
  lemma PrefixedKeysLoseBindings(db: Db, rows: seq<LegacyRow>, id: nat, repo: string)
    requires Consistent(db) && Migrated(db, rows).Some? && id in db.keys && db.keys[id].prefix.Some?
    ensures var d := Migrated(db, rows).value;
            id in d.keys && d.keys[id] == db.keys[id] && Binding(id, repo) !in d.bindings
  {
    var base := Base(db);
    BaseFacts(db);
    KeysEstablished(base, rows);
    BindingsEstablished(base, rows);
  }

  // The key of a prefixed digest is the same before and after; only its bindings are gone.
  lemma PrefixedKeyAfter(db: Db, rows: seq<LegacyRow>, id: nat, user: int, repo: string, write: bool)
    requires Consistent(db) && Migrated(db, rows).Some? && id in db.keys && db.keys[id].prefix.Some?
    ensures var hash := db.keys[id].hash;
            KeyAllows(db, user, hash, repo, write) <==> KeyGrants(db, id, user, hash, repo, write)
    ensures var d := Migrated(db, rows).value;
            && id in d.keys && d.keys[id] == db.keys[id]
            && (KeyAllows(d, user, db.keys[id].hash, repo, write) <==>
                db.keys[id].allRepos && KeyGrants(db, id, user, db.keys[id].hash, repo, write))
  {
    var d, hash := Migrated(db, rows).value, db.keys[id].hash;
    PrefixedKeysLoseBindings(db, rows, id, repo);
    BaseFacts(db);
    KeysEstablished(Base(db), rows);
    assert UniqueHashes(d) && UniqueHashes(db);
    assert KeyAllows(d, user, hash, repo, write) <==> KeyGrants(d, id, user, hash, repo, write);
  }

  // Access through a capability is decided by the one key of the digest, whose bindings are gone afterwards.
  lemma PrefixedPermits(db: Db, rows: seq<LegacyRow>, id: nat, user: int, capability: string, repo: string,
                        write: bool)
    requires Consistent(db) && Migrated(db, rows).Some? && id in db.keys && db.keys[id].prefix.Some?
    ensures var key := db.keys[id];
            && (Permits(db, user, key.hash, capability, repo, write) <==>
                key.user == user && capability in key.capabilities && Covers(db, id, repo, write))
            && (Permits(Migrated(db, rows).value, user, key.hash, capability, repo, write) <==>
                key.user == user && capability in key.capabilities && key.allRepos)
  {
    var d := Migrated(db, rows).value;
    PrefixedKeysLoseBindings(db, rows, id, repo);
    BaseFacts(db);
    KeysEstablished(Base(db), rows);
    assert UniqueHashes(d) && UniqueHashes(db);
  }

  /**
   What a key made through the API permits is the same after as before, for every user, capability
   and library, for reading and for writing, if and only if the key covers all libraries, or holds
   no capability, or has no binding.
   */
  lemma PrefixedAccessSurvivesIff(db: Db, rows: seq<LegacyRow>, id: nat)
    requires Consistent(db) && Migrated(db, rows).Some? && id in db.keys && db.keys[id].prefix.Some?
    ensures (forall user, capability, repo, write ::
               Permits(Migrated(db, rows).value, user, db.keys[id].hash, capability, repo, write)
               <==> Permits(db, user, db.keys[id].hash, capability, repo, write))
            <==> db.keys[id].allRepos || db.keys[id].capabilities == {} || Unbound(db, id)
  {
    var d, key := Migrated(db, rows).value, db.keys[id];
    forall user, capability, repo, write
      ensures Permits(db, user, key.hash, capability, repo, write) <==>
              key.user == user && capability in key.capabilities && Covers(db, id, repo, write)
      ensures Permits(d, user, key.hash, capability, repo, write) <==>
              key.user == user && capability in key.capabilities && key.allRepos
    {
      PrefixedPermits(db, rows, id, user, capability, repo, write);
    }
    if !key.allRepos && key.capabilities != {} && !Unbound(db, id) {
      var capability :| capability in key.capabilities;
      var repo :| Binding(id, repo) in db.bindings;
      assert Covers(db, id, repo, false);
      assert Permits(db, key.user, key.hash, capability, repo, false);
    }
  }

  ghost predicate Unbound(db: Db, id: nat) { forall repo :: Binding(id, repo) !in db.bindings }

  /** The same for access through WebDAV alone: there the key must have been able to read. */
  lemma PrefixedWebDavSurvivesIff(db: Db, rows: seq<LegacyRow>, id: nat)
    requires Consistent(db) && Migrated(db, rows).Some? && id in db.keys && db.keys[id].prefix.Some?
    ensures (forall user, repo, write ::
               KeyAllows(Migrated(db, rows).value, user, db.keys[id].hash, repo, write)
               <==> KeyAllows(db, user, db.keys[id].hash, repo, write))
            <==> db.keys[id].allRepos || "webdav.read" !in db.keys[id].capabilities || Unbound(db, id)
  {
    var d, key := Migrated(db, rows).value, db.keys[id];
    forall user, repo, write
      ensures KeyAllows(d, user, key.hash, repo, write) <==> key.allRepos && KeyAllows(db, user, key.hash, repo, write)
      ensures KeyAllows(db, user, key.hash, repo, write) <==> KeyGrants(db, id, user, key.hash, repo, write)
    {
      PrefixedKeyAfter(db, rows, id, user, repo, write);
    }
    if !key.allRepos && "webdav.read" in key.capabilities && !Unbound(db, id) {
      var repo :| Binding(id, repo) in db.bindings;
      assert KeyGrants(db, id, key.user, key.hash, repo, false);
    }
  }

  /** An API key bound to one library, and no legacy row at all: its user can no longer read, by either way. */
  lemma BoundKeyLosesAccess() returns (db: Db)
    ensures Consistent(db) && Selects(db, []) && Migrated(db, []).Some?
    ensures KeyAllows(db, 1, "h", "A", false) && !KeyAllows(Migrated(db, []).value, 1, "h", "A", false)
    ensures Permits(db, 1, "h", "file.read", "A", false)
    ensures !Permits(Migrated(db, []).value, 1, "h", "file.read", "A", false)
  {
    var key := ApiKey(1, "", "h", Some("p"), {"file.read", "webdav.read"}, false, 0, None, None);
    db := Db({1}, {"A"}, Some([]), map[0 := key], map[Binding(0, "A") := "r"], 1);
    assert KeyGrants(db, 0, 1, "h", "A", false);
    PrefixedKeyAfter(db, [], 0, 1, "A", false);
    PrefixedPermits(db, [], 0, 1, "file.read", "A", false);
  }
}
