/**
 The `activities` table: rows, their `detail` JSON, and the multiset of items a
 table stores.  Rows are identified by an auto-increment id.
 */
module ActivityModel {
  import opened Options

  // The keys a detail object may hold, and the scalar values stored under them.
  datatype Key = ObjId | Size | OldPath | RepoName | OldRepoName | Path | Days | Merge | MergeKept
  datatype Value = Text(text: string) | Number(n: int) | True

  // One JSON object of a detail.
  type Item = map<Key, Value>

  // The keys `log_activity` keeps when it promotes a lone object to an array.
  const COMMON: set<Key> := {ObjId, Size, OldPath, RepoName, OldRepoName, Path}

  // The keys `log_activity_batch` keeps when it does the same.
  const COMMON_AND_MERGE: set<Key> := COMMON + {Merge, MergeKept}

  const MAX_ITEMS: nat := 200
  const AGGREGATE_WINDOW: int := 300
  const EDIT_WINDOW: int := 1800

  function Restrict(obj: Item, keys: set<Key>): Item {
    map k | k in obj && k in keys :: obj[k]
  }

  function Optional(k: Key, v: Option<Value>): Item {
    if v.Some? then map[k := v.value] else map[]
  }

  /** The part of a detail object that single calls and batches build alike. */
  function CommonDetail(size: Option<Value>, objId: Option<Value>, path: string, repoName: string,
                        oldPath: Option<Value>): Item {
    Optional(Size, size) + Optional(ObjId, objId) + map[Path := Text(path)]
    + (if repoName == "" then map[] else map[RepoName := Text(repoName)])
    + Optional(OldPath, oldPath)
  }

  // A stored detail: a lone object, or the array an aggregated row holds.
  datatype Detail = Lone(obj: Item) | Array(items: seq<Item>)

  // `Create` and `Delete` aggregate, `Edit` deduplicates, every other operation is inserted.
  datatype Op = Create | Delete | Edit | Other(name: string) {
    predicate Aggregates() { Create? || Delete? }
  }

  // What an aggregated row is matched on.
  datatype Tag = Tag(repo: string, user: int, op: Op, objType: string)

  // `batched` says that the stored op type carries the "batch_" prefix.
  datatype Row = Row(tag: Tag, batched: bool, path: string, oldPath: Option<Value>, commit: string,
                     createdAt: int, detail: Detail)

  datatype Db = Db(rows: map<nat, Row>, next: nat) {
    ghost predicate Valid() { forall id :: id in rows ==> id < next }
  }

  // ---------- details ----------

  function ItemCount(d: Detail): nat {
    match d
    case Lone(_) => 1
    case Array(items) => |items|
  }

  /** The array a recent row's detail is read as; a lone object keeps only `keys`. */
  function ParseDetail(d: Detail, keys: set<Key>): (items: seq<Item>)
    ensures |items| == ItemCount(d)
  {
    match d
    case Lone(obj) => [Restrict(obj, keys)]
    case Array(items) => items
  }

  // ---------- statements ----------

  function Insert(db: Db, row: Row): Db {
    Db(db.rows[db.next := row], db.next + 1)
  }

  function InsertMany(db: Db, rows: seq<Row>): Db
    decreases |rows|
  {
    if rows == [] then db else InsertMany(Insert(db, rows[0]), rows[1..])
  }

  function Update(db: Db, id: nat, row: Row): Db {
    db.(rows := db.rows[id := row])
  }

  /** An aggregated write: it sets the op type, the detail and the timestamp, nothing else. */
  function Aggregated(row: Row, items: seq<Item>, now: int): Row {
    row.(batched := true, detail := Array(items), createdAt := now)
  }

  predicate InWindow(row: Row, tag: Tag, now: int) {
    row.tag == tag && row.createdAt > now - AGGREGATE_WINDOW
  }

  /** `choice` is an answer the newest-first query may give: ties are not ordered. */
  ghost predicate Picks(db: Db, tag: Tag, now: int, choice: Option<nat>) {
    match choice
    case None => forall id :: id in db.rows ==> !InWindow(db.rows[id], tag, now)
    case Some(id) =>
      && id in db.rows && InWindow(db.rows[id], tag, now)
      && forall j :: j in db.rows && InWindow(db.rows[j], tag, now) ==> db.rows[j].createdAt <= db.rows[id].createdAt
  }

  predicate InEditWindow(row: Row, repo: string, user: int, path: string, now: int) {
    && row.tag.repo == repo && row.tag.user == user && row.tag.op == Edit && row.path == path
    && row.createdAt > now - EDIT_WINDOW
  }

  ghost predicate PicksEdit(db: Db, repo: string, user: int, path: string, now: int, choice: Option<nat>) {
    match choice
    case None => forall id :: id in db.rows ==> !InEditWindow(db.rows[id], repo, user, path, now)
    case Some(id) =>
      && id in db.rows && InEditWindow(db.rows[id], repo, user, path, now)
      && forall j :: j in db.rows && InEditWindow(db.rows[j], repo, user, path, now) ==>
                       db.rows[j].createdAt <= db.rows[id].createdAt
  }

  // ---------- what a table stores ----------

  // An item under the tag it was logged for, projected to the common keys.
  datatype Entry = Entry(tag: Tag, item: Item)

  ghost function AsEntries(tag: Tag, items: seq<Item>): seq<Entry> {
    seq(|items|, i requires 0 <= i < |items| => Entry(tag, Restrict(items[i], COMMON)))
  }

  ghost function EntriesUnder(tag: Tag, items: seq<Item>): multiset<Entry> {
    multiset(AsEntries(tag, items))
  }

  /** The items of one row; rows of other operations hold no aggregated items. */
  ghost function RowEntries(row: Row): multiset<Entry> {
    if row.tag.op.Aggregates() then EntriesUnder(row.tag, ParseDetail(row.detail, COMMON)) else multiset{}
  }

  ghost function Total<T(!new)>(m: map<nat, T>, f: T -> multiset<Entry>): multiset<Entry>
    decreases |m|
  {
    if m == map[] then multiset{}
    else
      var id :| id in m;
      assert m.Keys == (m - {id}).Keys + {id};
      f(m[id]) + Total(m - {id}, f)
  }

  ghost function Stored(db: Db): multiset<Entry> {
    Total(db.rows, RowEntries)
  }

  ghost predicate WithinCap(db: Db) {
    forall id :: id in db.rows ==> ItemCount(db.rows[id].detail) <= 200
  }

  // ---------- lemmas on totals ----------

  lemma {:induction false} TotalRemove<T(!new)>(m: map<nat, T>, f: T -> multiset<Entry>, id: nat)
    requires id in m
    ensures Total(m, f) == f(m[id]) + Total(m - {id}, f)
    decreases |m|
  {
    var j :| j in m && Total(m, f) == f(m[j]) + Total(m - {j}, f);
    if j != id {
      assert m.Keys == (m - {j}).Keys + {j};
      assert m.Keys == (m - {id}).Keys + {id};
      TotalRemove(m - {j}, f, id);
      TotalRemove(m - {id}, f, j);
      assert m - {j} - {id} == m - {id} - {j};
    }
  }

  lemma TotalUpdate<T(!new)>(m: map<nat, T>, f: T -> multiset<Entry>, id: nat, v: T)
    ensures Total(m[id := v], f) == f(v) + Total(m - {id}, f)
    ensures id !in m ==> Total(m[id := v], f) == f(v) + Total(m, f)
  {
    TotalRemove(m[id := v], f, id);
    assert m[id := v] - {id} == m - {id};
    if id !in m {
      assert m - {id} == m;
    }
  }

  lemma {:induction false} TotalSame<T(!new)>(m: map<nat, T>, n: map<nat, T>, f: T -> multiset<Entry>)
    requires m.Keys == n.Keys && forall id :: id in m ==> f(m[id]) == f(n[id])
    ensures Total(m, f) == Total(n, f)
    decreases |m|
  {
    if m == map[] {
      assert n == map[];
    } else {
      var id :| id in m && Total(m, f) == f(m[id]) + Total(m - {id}, f);
      assert m.Keys == (m - {id}).Keys + {id};
      TotalSame(m - {id}, n - {id}, f);
      TotalRemove(n, f, id);
    }
  }

  lemma StoredInsert(db: Db, row: Row)
    requires db.Valid()
    ensures Insert(db, row).Valid()
    ensures Stored(Insert(db, row)) == Stored(db) + RowEntries(row)
  {
    TotalUpdate(db.rows, RowEntries, db.next, row);
  }

  /** Rewriting a row so that it holds `extra` more stores `extra` more. */
  lemma StoredGrow(db: Db, id: nat, row: Row, extra: multiset<Entry>)
    requires id in db.rows && RowEntries(row) == RowEntries(db.rows[id]) + extra
    ensures Stored(Update(db, id, row)) == Stored(db) + extra
  {
    TotalUpdate(db.rows, RowEntries, id, row);
    TotalRemove(db.rows, RowEntries, id);
  }

  lemma EntriesConcat(tag: Tag, a: seq<Item>, b: seq<Item>)
    ensures EntriesUnder(tag, a + b) == EntriesUnder(tag, a) + EntriesUnder(tag, b)
  {
    assert AsEntries(tag, a + b) == AsEntries(tag, a) + AsEntries(tag, b);
  }

  lemma EntriesOne(tag: Tag, item: Item)
    ensures EntriesUnder(tag, [item]) == multiset{Entry(tag, Restrict(item, COMMON))}
  {
  }

  /** Promoting a lone object keeps its common keys, with either list of kept keys. */
  lemma PromotionKeepsEntries(tag: Tag, d: Detail, keys: set<Key>)
    requires COMMON <= keys
    ensures EntriesUnder(tag, ParseDetail(d, keys)) == EntriesUnder(tag, ParseDetail(d, COMMON))
  {
    if d.Lone? {
      assert Restrict(Restrict(d.obj, keys), COMMON) == Restrict(d.obj, COMMON)
          == Restrict(Restrict(d.obj, COMMON), COMMON);
    }
  }

  /** Appending items to a row stores exactly those items more. */
  lemma AggregatedEntries(row: Row, keys: set<Key>, added: seq<Item>, now: int)
    requires COMMON <= keys && row.tag.op.Aggregates()
    ensures RowEntries(Aggregated(row, ParseDetail(row.detail, keys) + added, now))
         == RowEntries(row) + EntriesUnder(row.tag, added)
  {
    PromotionKeepsEntries(row.tag, row.detail, keys);
    EntriesConcat(row.tag, ParseDetail(row.detail, keys), added);
  }

  /** A lone row of an aggregating operation stores its one item. */
  lemma LoneEntries(row: Row)
    requires row.tag.op.Aggregates() && row.detail.Lone?
    ensures RowEntries(row) == multiset{Entry(row.tag, Restrict(row.detail.obj, COMMON))}
  {
    var r := Restrict(row.detail.obj, COMMON);
    assert Restrict(r, COMMON) == r;
    EntriesOne(row.tag, r);
  }
}
