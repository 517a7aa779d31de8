/**
 `log_activity` and `log_activity_batch` run one after the other on the table: the
 statements they issue, and what they keep over a whole run.
 */
module ActivityLog {
  import opened Options
  import opened ActivityModel
  import opened ActivityBatch
  import opened ActivityCalls

  // What is supplied once per commit, with the clock reading of the batch.
  datatype Batch = Batch(repo: string, user: int, commit: string, repoName: string, now: int)

  datatype ActivityItem = ActivityItem(op: Op, objType: string, path: string, oldPath: Option<Value>,
                                       size: Option<Value>, objId: Option<Value>, merged: bool, mergeKept: bool)

  function BuildDetailMap(b: Batch, it: ActivityItem): Item {
    CommonDetail(it.size, it.objId, it.path, b.repoName, it.oldPath)
    + Flag(Merge, it.merged) + Flag(MergeKept, it.mergeKept)
  }

  function Flag(k: Key, on: bool): Item { if on then map[k := True] else map[] }

  function TagOf(b: Batch, it: ActivityItem): Tag {
    Tag(b.repo, b.user, it.op, it.objType)
  }

  function ToRow(b: Batch, it: ActivityItem): Row {
    Row(TagOf(b, it), false, it.path, it.oldPath, b.commit, b.now, Lone(BuildDetailMap(b, it)))
  }

  // ---------- one call ----------

  ghost function LogWith(db: Db, c: Call, choice: Option<nat>): Db {
    if c.tag.op.Aggregates() && HasRoom(db, choice) then
      Update(db, choice.value, Rewrite(db.rows[choice.value], db.rows[choice.value].detail, c))
    else if c.tag.op == Edit && choice.Some? && choice.value in db.rows then
      Update(db, choice.value, db.rows[choice.value].(createdAt := c.now))
    else Insert(db, NewRow(c))
  }

  ghost predicate Answers(db: Db, c: Call, choice: Option<nat>) {
    && (c.tag.op.Aggregates() ==> Picks(db, c.tag, c.now, choice))
    && (c.tag.op == Edit ==> PicksEdit(db, c.tag.repo, c.tag.user, c.path, c.now, choice))
  }

  /** One call takes `db` to `db'`. */
  ghost predicate Logs(db: Db, c: Call, db': Db) {
    exists choice :: Answers(db, c, choice) && db' == LogWith(db, c, choice)
  }

  /** A call stores exactly its own item more, and nothing if its operation does not aggregate. */
  lemma CallConserves(db: Db, c: Call, db': Db)
    requires db.Valid() && Logs(db, c, db')
    ensures db'.Valid() && (WithinCap(db) ==> WithinCap(db'))
    ensures Stored(db') == Stored(db) + CallEntries(c)
  {
    var choice :| Answers(db, c, choice) && db' == LogWith(db, c, choice);
    if c.tag.op.Aggregates() && HasRoom(db, choice) {
      AppendConserves(db, c, choice.value);
    } else if c.tag.op == Edit && choice.Some? {
      RefreshConserves(db, choice.value, c.now);
    } else {
      StoredInsert(db, NewRow(c));
    }
  }

  lemma AppendConserves(db: Db, c: Call, id: nat)
    requires db.Valid() && id in db.rows && db.rows[id].tag == c.tag && c.tag.op.Aggregates()
    requires ItemCount(db.rows[id].detail) < MAX_ITEMS
    ensures var db' := Update(db, id, Rewrite(db.rows[id], db.rows[id].detail, c));
            db'.Valid() && (WithinCap(db) ==> WithinCap(db')) && Stored(db') == Stored(db) + CallEntries(c)
  {
    FreshWriteStores(db, id, c);
  }

  lemma RefreshConserves(db: Db, id: nat, now: int)
    requires db.Valid() && id in db.rows && db.rows[id].tag.op == Edit
    ensures var db' := Update(db, id, db.rows[id].(createdAt := now));
            db'.Valid() && (WithinCap(db) ==> WithinCap(db')) && Stored(db') == Stored(db)
  {
    StoredGrow(db, id, db.rows[id].(createdAt := now), multiset{});
  }

  // ---------- the parts of a batch ----------

  datatype Want = Grouped(tag: Tag) | Edits | Others

  predicate Wanted(b: Batch, want: Want, it: ActivityItem) {
    match want
    case Grouped(tag) => TagOf(b, it) == tag
    case Edits => it.op == Edit
    case Others => it.op.Other?
  }

  /** The rows prepared for the wanted items, in order. */
  function RowsOf(b: Batch, items: seq<ActivityItem>, want: Want): seq<Row>
    decreases |items|
  {
    if items == [] then []
    else
      var rest := RowsOf(b, items[..|items| - 1], want);
      var it := items[|items| - 1];
      if Wanted(b, want, it) then rest + [ToRow(b, it)] else rest
  }

  predicate Prepared(b: Batch, want: Want, row: Row) {
    && row.detail.Lone? && !row.batched && row.createdAt == b.now && row.tag.repo == b.repo && row.tag.user == b.user
    && match want
       case Grouped(tag) => row.tag == tag
       case Edits => row.tag.op == Edit
       case Others => row.tag.op.Other?
  }

  lemma {:induction false} RowsOfShape(b: Batch, items: seq<ActivityItem>, want: Want)
    ensures forall i :: 0 <= i < |RowsOf(b, items, want)| ==> Prepared(b, want, RowsOf(b, items, want)[i])
    decreases |items|
  {
    if items != [] {
      RowsOfShape(b, items[..|items| - 1], want);
    }
  }

  ghost function AggregatedTags(b: Batch, items: seq<ActivityItem>): set<Tag> {
    set k | 0 <= k < |items| && items[k].op.Aggregates() :: TagOf(b, items[k])
  }

  ghost predicate AreGroups(b: Batch, items: seq<ActivityItem>, groups: Groups) {
    && groups.Keys == AggregatedTags(b, items)
    && forall tag :: tag in groups ==> groups[tag] == RowsOf(b, items, Grouped(tag))
  }

  lemma GroupsAreWell(b: Batch, items: seq<ActivityItem>, groups: Groups)
    requires AreGroups(b, items, groups)
    ensures WellGrouped(groups)
  {
    forall tag | tag in groups ensures tag.op.Aggregates() && AllLone(tag, groups[tag]) {
      assert tag in AggregatedTags(b, items);
      RowsOfShape(b, items, Grouped(tag));
    }
  }

  // ---------- edits ----------

  ghost function PathsOf(edits: seq<Row>): set<string> { set i | 0 <= i < |edits| :: edits[i].path }

  /** `latest` holds the newest recent edit row of every path that has one. */
  ghost predicate LatestOk(db: Db, b: Batch, paths: set<string>, latest: map<string, nat>) {
    && latest.Keys <= paths
    && forall path :: path in paths ==>
         PicksEdit(db, b.repo, b.user, path, b.now, if path in latest then Some(latest[path]) else None)
  }

  function Refreshed(row: Row, id: nat, latest: map<string, nat>, now: int): Row {
    if row.path in latest && latest[row.path] == id then row.(createdAt := now) else row
  }

  function FreshEdits(edits: seq<Row>, latest: map<string, nat>): seq<Row>
    decreases |edits|
  {
    if edits == [] then []
    else
      var rest := FreshEdits(edits[..|edits| - 1], latest);
      var row := edits[|edits| - 1];
      if row.path in latest then rest else rest + [row]
  }

  ghost function RefreshAll(now: int, db: Db, latest: map<string, nat>): Db {
    Db(map id | id in db.rows :: Refreshed(db.rows[id], id, latest, now), db.next)
  }

  ghost function DedupApply(now: int, db: Db, edits: seq<Row>, latest: map<string, nat>): Db {
    InsertMany(RefreshAll(now, db, latest), FreshEdits(edits, latest))
  }

  /** A batch takes `db` to `db'`: others first, then edits, then the groups in some order. */
  ghost predicate Batches(db: Db, b: Batch, items: seq<ActivityItem>, db': Db) {
    exists latest, groups, order, choices :: BatchVia(db, b, items, db', latest, groups, order, choices)
  }

  ghost function AfterDirect(db: Db, b: Batch, items: seq<ActivityItem>, latest: map<string, nat>): Db {
    DedupApply(b.now, InsertMany(db, RowsOf(b, items, Others)), RowsOf(b, items, Edits), latest)
  }

  ghost predicate BatchVia(db: Db, b: Batch, items: seq<ActivityItem>, db': Db, latest: map<string, nat>,
                           groups: Groups, order: seq<Tag>, choices: Choices) {
    && LatestOk(InsertMany(db, RowsOf(b, items, Others)), b, PathsOf(RowsOf(b, items, Edits)), latest)
    && AreGroups(b, items, groups)
    && NoDuplicates(order) && Tags(order) == groups.Keys
    && RunsTo(b.now, AfterDirect(db, b, items, latest), order, groups, choices, db')
  }

  // ---------- a batch keeps every item ----------

  ghost function BatchEntries(b: Batch, items: seq<ActivityItem>): multiset<Entry>
    decreases |items|
  {
    if items == [] then multiset{}
    else BatchEntries(b, items[..|items| - 1]) + RowEntries(ToRow(b, items[|items| - 1]))
  }

  ghost function SumOver(b: Batch, items: seq<ActivityItem>, order: seq<Tag>): multiset<Entry>
    decreases |order|
  {
    if order == [] then multiset{}
    else EntriesUnder(order[0], Objects(RowsOf(b, items, Grouped(order[0])))) + SumOver(b, items, order[1..])
  }

  lemma {:induction false} SumOfGroups(b: Batch, items: seq<ActivityItem>, order: seq<Tag>, groups: Groups)
    requires AreGroups(b, items, groups) && Known(order, groups)
    ensures GroupEntries(order, groups) == SumOver(b, items, order)
    decreases |order|
  {
    if order != [] {
      assert order[0] in groups;
      SumOfGroups(b, items, order[1..], groups);
    }
  }

  /** One more item makes the group of its own tag one entry longer. */
  lemma GroupGrows(b: Batch, items: seq<ActivityItem>, tag: Tag)
    requires items != []
    ensures var it := items[|items| - 1];
            EntriesUnder(tag, Objects(RowsOf(b, items, Grouped(tag))))
            == EntriesUnder(tag, Objects(RowsOf(b, items[..|items| - 1], Grouped(tag))))
               + (if TagOf(b, it) == tag then multiset{Entry(tag, Restrict(BuildDetailMap(b, it), COMMON))}
                   else multiset{})
  {
    var it := items[|items| - 1];
    var rest := RowsOf(b, items[..|items| - 1], Grouped(tag));
    if TagOf(b, it) == tag {
      assert Objects(rest + [ToRow(b, it)]) == Objects(rest) + [BuildDetailMap(b, it)];
      EntriesConcat(tag, Objects(rest), [BuildDetailMap(b, it)]);
      EntriesOne(tag, BuildDetailMap(b, it));
    }
  }

  lemma {:induction false} SumGrows(b: Batch, items: seq<ActivityItem>, order: seq<Tag>)
    requires items != [] && NoDuplicates(order)
    ensures var it := items[|items| - 1];
            SumOver(b, items, order)
            == SumOver(b, items[..|items| - 1], order)
               + (if TagOf(b, it) in Tags(order)
                  then multiset{Entry(TagOf(b, it), Restrict(BuildDetailMap(b, it), COMMON))}
                  else multiset{})
    decreases |order|
  {
    if order != [] {
      TagsTail(order);
      GroupGrows(b, items, order[0]);
      SumGrows(b, items, order[1..]);
    }
  }

  lemma {:induction false} SumIsBatch(b: Batch, items: seq<ActivityItem>, order: seq<Tag>)
    requires NoDuplicates(order) && AggregatedTags(b, items) <= Tags(order)
    requires forall tag :: tag in Tags(order) ==> tag.op.Aggregates()
    ensures SumOver(b, items, order) == BatchEntries(b, items)
    decreases |items|
  {
    if items == [] {
      SumOfNothing(b, order);
    } else {
      var rest, it := items[..|items| - 1], items[|items| - 1];
      forall t | t in AggregatedTags(b, rest) ensures t in Tags(order) {
        var k :| 0 <= k < |rest| && rest[k].op.Aggregates() && TagOf(b, rest[k]) == t;
        assert items[k] == rest[k];
        assert t in AggregatedTags(b, items);
      }
      SumIsBatch(b, rest, order);
      SumGrows(b, items, order);
      if it.op.Aggregates() {
        assert TagOf(b, it) in AggregatedTags(b, items);
        LoneEntries(ToRow(b, it));
      }
    }
  }

  lemma {:induction false} SumOfNothing(b: Batch, order: seq<Tag>)
    ensures SumOver(b, [], order) == multiset{}
    decreases |order|
  {
    if order != [] {
      assert Objects(RowsOf(b, [], Grouped(order[0]))) == [];
      assert AsEntries(order[0], []) == [];
      SumOfNothing(b, order[1..]);
    }
  }

  lemma {:induction false} FreshAreEdits(edits: seq<Row>, latest: map<string, nat>)
    ensures forall i :: 0 <= i < |FreshEdits(edits, latest)| ==>
              FreshEdits(edits, latest)[i] in edits && FreshEdits(edits, latest)[i].path !in latest
    decreases |edits|
  {
    if edits != [] {
      FreshAreEdits(edits[..|edits| - 1], latest);
    }
  }

  lemma RefreshStores(now: int, db: Db, latest: map<string, nat>)
    requires db.Valid()
    ensures RefreshAll(now, db, latest).Valid() && Stored(RefreshAll(now, db, latest)) == Stored(db)
    ensures WithinCap(db) ==> WithinCap(RefreshAll(now, db, latest))
  {
    var after := RefreshAll(now, db, latest);
    assert forall id :: id in after.rows <==> id in db.rows;
    forall id | id in db.rows ensures RowEntries(after.rows[id]) == RowEntries(db.rows[id]) {
      assert after.rows[id] == Refreshed(db.rows[id], id, latest, now);
    }
    TotalSame(after.rows, db.rows, RowEntries);
  }

  lemma DirectStores(db: Db, b: Batch, items: seq<ActivityItem>, latest: map<string, nat>)
    requires db.Valid()
    ensures AfterDirect(db, b, items, latest).Valid() && Stored(AfterDirect(db, b, items, latest)) == Stored(db)
    ensures WithinCap(db) ==> WithinCap(AfterDirect(db, b, items, latest))
  {
    var others, edits := RowsOf(b, items, Others), RowsOf(b, items, Edits);
    RowsOfShape(b, items, Others);
    RowsOfShape(b, items, Edits);
    StoredInsertOthers(db, others);
    RefreshStores(b.now, InsertMany(db, others), latest);
    FreshAreEdits(edits, latest);
    StoredInsertOthers(RefreshAll(b.now, InsertMany(db, others), latest), FreshEdits(edits, latest));
  }

  lemma GroupsStore(db: Db, b: Batch, items: seq<ActivityItem>, db': Db, groups: Groups, order: seq<Tag>,
                    choices: Choices)
    requires db.Valid() && AreGroups(b, items, groups) && NoDuplicates(order) && Tags(order) == groups.Keys
    requires RunsTo(b.now, db, order, groups, choices, db')
    ensures db'.Valid() && (WithinCap(db) ==> WithinCap(db'))
    ensures Stored(db') == Stored(db) + BatchEntries(b, items)
  {
    GroupsAreWell(b, items, groups);
    assert Known(order, groups) by {
      forall i | 0 <= i < |order| ensures order[i] in groups { assert order[i] in Tags(order); }
    }
    RunConserves(b.now, db, order, groups, choices, db');
    SumOfGroups(b, items, order, groups);
    SumIsBatch(b, items, order);
  }

  /** A batch, whatever the order of its groups, stores exactly its own items more. */
  lemma BatchConserves(db: Db, b: Batch, items: seq<ActivityItem>, db': Db)
    requires db.Valid() && Batches(db, b, items, db')
    ensures db'.Valid() && (WithinCap(db) ==> WithinCap(db'))
    ensures Stored(db') == Stored(db) + BatchEntries(b, items)
  {
    var latest, groups, order, choices :| BatchVia(db, b, items, db', latest, groups, order, choices);
    DirectStores(db, b, items, latest);
    GroupsStore(AfterDirect(db, b, items, latest), b, items, db', groups, order, choices);
  }

  // ---------- a batch stores what the single calls would ----------

  function AsCall(b: Batch, it: ActivityItem): Call {
    Call(TagOf(b, it), it.path, it.oldPath, it.size, it.objId, None, None, b.repoName, b.commit, b.now)
  }

  function AsCalls(b: Batch, items: seq<ActivityItem>): seq<Call> {
    seq(|items|, i requires 0 <= i < |items| => AsCall(b, items[i]))
  }

  ghost predicate LogsAll(db: Db, calls: seq<Call>, db': Db)
    decreases |calls|
  {
    if calls == [] then db' == db
    else
      var init, last := calls[..|calls| - 1], calls[|calls| - 1];
      exists mid :: LogsAll(db, init, mid) && Logs(mid, last, db')
  }

  lemma OnlyCommonCounts(common: Item, extra: Item)
    requires forall k :: k in extra ==> k !in COMMON
    ensures Restrict(common + extra, COMMON) == Restrict(common, COMMON)
  {
  }

  function CommonOf(b: Batch, it: ActivityItem): Item {
    Restrict(CommonDetail(it.size, it.objId, it.path, b.repoName, it.oldPath), COMMON)
  }

  lemma CallIsCommon(b: Batch, it: ActivityItem)
    ensures Restrict(DetailMap(AsCall(b, it)), COMMON) == CommonOf(b, it)
  {
  }

  lemma ItemIsCommon(b: Batch, it: ActivityItem)
    ensures Restrict(BuildDetailMap(b, it), COMMON) == CommonOf(b, it)
  {
    var common := CommonDetail(it.size, it.objId, it.path, b.repoName, it.oldPath);
    OnlyCommonCounts(common + Flag(Merge, it.merged), Flag(MergeKept, it.mergeKept));
    OnlyCommonCounts(common, Flag(Merge, it.merged));
  }

  lemma SameEntries(b: Batch, it: ActivityItem)
    ensures CallEntries(AsCall(b, it)) == RowEntries(ToRow(b, it))
  {
    if it.op.Aggregates() {
      LoneEntries(NewRow(AsCall(b, it)));
      LoneEntries(ToRow(b, it));
      CallIsCommon(b, it);
      ItemIsCommon(b, it);
    }
  }

  lemma SplitLast(db: Db, init: seq<Call>, last: Call, calls: seq<Call>, db': Db) returns (mid: Db)
    requires calls == init + [last] && LogsAll(db, calls, db')
    ensures LogsAll(db, init, mid) && Logs(mid, last, db')
  {
    assert calls[..|calls| - 1] == init;
    mid :| LogsAll(db, init, mid) && Logs(mid, last, db');
  }

  lemma AsCallsSplit(b: Batch, items: seq<ActivityItem>)
    requires items != []
    ensures AsCalls(b, items) == AsCalls(b, items[..|items| - 1]) + [AsCall(b, items[|items| - 1])]
  {
  }

  lemma {:induction false} CallsStoreTheBatch(db: Db, b: Batch, items: seq<ActivityItem>, db': Db)
    requires db.Valid() && LogsAll(db, AsCalls(b, items), db')
    ensures db'.Valid() && Stored(db') == Stored(db) + BatchEntries(b, items)
    decreases |items|
  {
    if items != [] {
      var rest, it := items[..|items| - 1], items[|items| - 1];
      AsCallsSplit(b, items);
      var mid := SplitLast(db, AsCalls(b, rest), AsCall(b, it), AsCalls(b, items), db');
      CallsStoreTheBatch(db, b, rest, mid);
      CallConserves(mid, AsCall(b, it), db');
      SameEntries(b, it);
    }
  }

  /** Logging a batch and logging its items one by one store the same multiset of items. */
  lemma BatchStoresWhatCallsStore(db: Db, b: Batch, items: seq<ActivityItem>, viaBatch: Db, viaCalls: Db)
    requires db.Valid() && Batches(db, b, items, viaBatch) && LogsAll(db, AsCalls(b, items), viaCalls)
    ensures Stored(viaBatch) == Stored(viaCalls)
  {
    BatchConserves(db, b, items, viaBatch);
    CallsStoreTheBatch(db, b, items, viaCalls);
  }
}
