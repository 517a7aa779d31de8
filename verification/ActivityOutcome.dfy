/**
 What a call, a group and a batch leave in the table, column by column and key by key.  The
 statements name windows, cap, keys and operation names outright, not through the definitions
 that the logger is built from.
 */
module ActivityOutcome {
  import opened Options
  import opened ActivityModel
  import opened ActivityBatch
  import opened ActivityCalls
  import opened ActivityLog
  import opened ActivityEdits

  // ---------- what an item holds ----------

  // What was to be logged of one file or directory.
  datatype Facts = Facts(path: string, repoName: string, size: Option<Value>, objId: Option<Value>,
                         oldPath: Option<Value>, oldRepoName: Option<Value>, days: Option<Value>,
                         merged: bool, mergeKept: bool)

  // The key is there exactly if there is a value for it, and holds that value.
  predicate Shows(item: Item, k: Key, v: Option<Value>) {
    (k in item <==> v.Some?) && (v.Some? ==> k in item && item[k] == v.value)
  }

  function When(b: bool, v: Value): Option<Value> { if b then Some(v) else None }

  /** The item holds each fact under its own key, and nothing else. */
  predicate Tells(item: Item, f: Facts) {
    && Shows(item, Path, Some(Text(f.path)))
    && Shows(item, RepoName, When(f.repoName != "", Text(f.repoName)))
    && Shows(item, Size, f.size)
    && Shows(item, ObjId, f.objId)
    && Shows(item, OldPath, f.oldPath)
    && Shows(item, OldRepoName, f.oldRepoName)
    && Shows(item, Days, f.days)
    && Shows(item, Merge, When(f.merged, True))
    && Shows(item, MergeKept, When(f.mergeKept, True))
  }

  function FactsOfCall(c: Call): Facts {
    Facts(c.path, c.repoName, c.size, c.objId, c.oldPath, c.oldRepoName, c.days, false, false)
  }

  function FactsOfItem(b: Batch, it: ActivityItem): Facts {
    Facts(it.path, b.repoName, it.size, it.objId, it.oldPath, None, None, it.merged, it.mergeKept)
  }

  // One more optional key behind an object that does not have it.
  lemma AddOptional(item: Item, k: Key, v: Option<Value>)
    requires k !in item
    ensures var r := item + Optional(k, v);
            && Shows(r, k, v)
            && forall j :: j != k ==> (j in r <==> j in item) && (j in item ==> r[j] == item[j])
  {
  }

  lemma FirstKeysTell(size: Option<Value>, objId: Option<Value>, path: string, item: Item)
    requires item == Optional(Size, size) + Optional(ObjId, objId) + map[Path := Text(path)]
    ensures Tells(item, Facts(path, "", size, objId, None, None, None, false, false))
  {
  }

  lemma LastKeysTell(size: Option<Value>, objId: Option<Value>, path: string, repoName: string, oldPath: Option<Value>,
                     first: Item, item: Item)
    requires Tells(first, Facts(path, "", size, objId, None, None, None, false, false))
    requires item == first + Optional(RepoName, When(repoName != "", Text(repoName))) + Optional(OldPath, oldPath)
    ensures Tells(item, Facts(path, repoName, size, objId, oldPath, None, None, false, false))
  {
    var named := When(repoName != "", Text(repoName));
    AddOptional(first, RepoName, named);
    AddOptional(first + Optional(RepoName, named), OldPath, oldPath);
  }

  lemma CommonTells(size: Option<Value>, objId: Option<Value>, path: string, repoName: string, oldPath: Option<Value>)
    ensures Tells(CommonDetail(size, objId, path, repoName, oldPath),
                  Facts(path, repoName, size, objId, oldPath, None, None, false, false))
  {
    var first := Optional(Size, size) + Optional(ObjId, objId) + map[Path := Text(path)];
    FirstKeysTell(size, objId, path, first);
    LastKeysTell(size, objId, path, repoName, oldPath, first, CommonDetail(size, objId, path, repoName, oldPath));
  }

  lemma CallTells(c: Call)
    ensures Tells(DetailMap(c), FactsOfCall(c))
  {
    var common := CommonDetail(c.size, c.objId, c.path, c.repoName, c.oldPath);
    CommonTells(c.size, c.objId, c.path, c.repoName, c.oldPath);
    ExtrasTell(common, c, DetailMap(c));
  }

  lemma ExtrasTell(common: Item, c: Call, item: Item)
    requires Tells(common, Facts(c.path, c.repoName, c.size, c.objId, c.oldPath, None, None, false, false))
    requires item == common + Optional(OldRepoName, c.oldRepoName) + Optional(Days, c.days)
    ensures Tells(item, FactsOfCall(c))
  {
    AddOptional(common, OldRepoName, c.oldRepoName);
    AddOptional(common + Optional(OldRepoName, c.oldRepoName), Days, c.days);
  }

  lemma ItemTells(b: Batch, it: ActivityItem)
    ensures Tells(BuildDetailMap(b, it), FactsOfItem(b, it))
  {
    var common := CommonDetail(it.size, it.objId, it.path, b.repoName, it.oldPath);
    CommonTells(it.size, it.objId, it.path, b.repoName, it.oldPath);
    FlagsTell(common, b, it, BuildDetailMap(b, it));
  }

  lemma FlagsTell(common: Item, b: Batch, it: ActivityItem, item: Item)
    requires Tells(common, Facts(it.path, b.repoName, it.size, it.objId, it.oldPath, None, None, false, false))
    requires item == common + Flag(Merge, it.merged) + Flag(MergeKept, it.mergeKept)
    ensures Tells(item, FactsOfItem(b, it))
  {
    AddOptional(common, Merge, When(it.merged, True));
    AddOptional(common + Flag(Merge, it.merged), MergeKept, When(it.mergeKept, True));
  }

  // ---------- rows ----------

  /** The operation as it is stored. */
  function OpText(row: Row): string {
    var name := match row.tag.op
                case Create => "create"
                case Delete => "delete"
                case Edit => "edit"
                case Other(name) => name;
    if row.batched then "batch_" + name else name
  }

  /** A row for one item: the columns, the plain operation name, and a lone object. */
  predicate RowFor(row: Row, tag: Tag, f: Facts, commit: string, now: int) {
    && row.tag == tag && !row.batched && row.path == f.path && row.oldPath == f.oldPath
    && row.commit == commit && row.createdAt == now
    && row.detail.Lone? && Tells(row.detail.obj, f)
  }

  // `p` is `obj` with no keys but `keys`.
  predicate Keeps(p: Item, obj: Item, keys: set<Key>) {
    forall k :: (k in p <==> k in obj && k in keys) && (k in p ==> p[k] == obj[k])
  }

  // The array an old detail is continued as.
  predicate ReadAs(items: seq<Item>, d: Detail, keys: set<Key>) {
    match d
    case Array(old_) => items == old_
    case Lone(obj) => |items| == 1 && Keeps(items[0], obj, keys)
  }

  /** The row is continued: its array, then `added`; renamed and re-dated, its other columns kept. */
  ghost predicate Continued(before: Row, after: Row, keys: set<Key>, added: seq<Item>, now: int) {
    && after.tag == before.tag && after.path == before.path && after.oldPath == before.oldPath
    && after.commit == before.commit && after.batched && after.createdAt == now
    && after.detail.Array?
    && exists items :: ReadAs(items, before.detail, keys) && after.detail.items == items + added
  }

  lemma ParsedReads(d: Detail, keys: set<Key>)
    ensures ReadAs(ParseDetail(d, keys), d, keys)
  {
  }

  /** The newest row of the same operation, object type, library and user less than five minutes old. */
  ghost predicate NewestRecent(db: Db, tag: Tag, now: int, id: nat) {
    && id in db.rows && db.rows[id].tag == tag && now - db.rows[id].createdAt < 300
    && forall j :: j in db.rows && db.rows[j].tag == tag ==> db.rows[j].createdAt <= db.rows[id].createdAt
  }

  ghost predicate NoneRecent(db: Db, tag: Tag, now: int) {
    forall id :: id in db.rows && db.rows[id].tag == tag ==> now - db.rows[id].createdAt >= 300
  }

  /** The newest edit row of the path, library and user less than half an hour old. */
  ghost predicate NewestEdit(db: Db, repo: string, user: int, path: string, now: int, id: nat) {
    && id in db.rows && EditRow(db.rows[id], repo, user, path) && now - db.rows[id].createdAt < 1800
    && forall j :: j in db.rows && EditRow(db.rows[j], repo, user, path) ==>
                     db.rows[j].createdAt <= db.rows[id].createdAt
  }

  ghost predicate NoneEdited(db: Db, repo: string, user: int, path: string, now: int) {
    forall id :: id in db.rows && EditRow(db.rows[id], repo, user, path) ==> now - db.rows[id].createdAt >= 1800
  }

  predicate EditRow(row: Row, repo: string, user: int, path: string) {
    row.tag.op == Edit && row.tag.repo == repo && row.tag.user == user && row.path == path
  }

  lemma PicksMeans(db: Db, tag: Tag, now: int, choice: Option<nat>)
    requires Picks(db, tag, now, choice)
    ensures if choice.Some? then NewestRecent(db, tag, now, choice.value) else NoneRecent(db, tag, now)
  {
    forall id | id in db.rows && db.rows[id].tag == tag
      ensures InWindow(db.rows[id], tag, now) <==> now - db.rows[id].createdAt < 300
    {
    }
  }

  lemma PicksEditMeans(db: Db, repo: string, user: int, path: string, now: int, choice: Option<nat>)
    requires PicksEdit(db, repo, user, path, now, choice)
    ensures if choice.Some? then NewestEdit(db, repo, user, path, now, choice.value)
            else NoneEdited(db, repo, user, path, now)
  {
    forall id | id in db.rows && EditRow(db.rows[id], repo, user, path)
      ensures InEditWindow(db.rows[id], repo, user, path, now) <==> now - db.rows[id].createdAt < 1800
    {
    }
  }

  // ---------- one call ----------

  ghost predicate Inserted(db: Db, c: Call, db': Db) {
    && db'.next == db.next + 1 && db.next in db'.rows && db'.rows == db.rows[db.next := db'.rows[db.next]]
    && RowFor(db'.rows[db.next], c.tag, FactsOfCall(c), c.commit, c.now)
  }

  ghost predicate Extended(db: Db, c: Call, db': Db, id: nat) {
    && db'.next == db.next && id in db.rows && id in db'.rows && db'.rows == db.rows[id := db'.rows[id]]
    && exists item :: Tells(item, FactsOfCall(c))
         && Continued(db.rows[id], db'.rows[id], {ObjId, Size, OldPath, RepoName, OldRepoName, Path}, [item], c.now)
  }

  ghost predicate Redated(db: Db, c: Call, db': Db, id: nat) {
    db'.next == db.next && id in db.rows && db'.rows == db.rows[id := db.rows[id].(createdAt := c.now)]
  }

  function HeldItems(row: Row): nat { if row.detail.Array? then |row.detail.items| else 1 }

  /**
   A create or delete extends the newest row of the last 300 seconds by its item if that row holds
   fewer than 200, an edit re-dates the newest edit row of the last 1800 seconds, and everything
   else is inserted.
   */
  ghost predicate CallLeaves(db: Db, c: Call, db': Db) {
    match c.tag.op
    case Edit =>
      if NoneEdited(db, c.tag.repo, c.tag.user, c.path, c.now) then Inserted(db, c, db')
      else exists id :: NewestEdit(db, c.tag.repo, c.tag.user, c.path, c.now, id) && Redated(db, c, db', id)
    case Other(_) => Inserted(db, c, db')
    case _ =>
      if NoneRecent(db, c.tag, c.now) then Inserted(db, c, db')
      else exists id :: NewestRecent(db, c.tag, c.now, id)
             && if HeldItems(db.rows[id]) < 200 then Extended(db, c, db', id) else Inserted(db, c, db')
  }

  lemma InsertedBy(db: Db, c: Call)
    ensures Inserted(db, c, Insert(db, NewRow(c)))
  {
    CallTells(c);
  }

  lemma ExtendedBy(db: Db, c: Call, id: nat)
    requires id in db.rows
    ensures Extended(db, c, Update(db, id, Rewrite(db.rows[id], db.rows[id].detail, c)), id)
  {
    var row := db.rows[id];
    CallTells(c);
    ParsedReads(row.detail, COMMON);
    assert Continued(row, Rewrite(row, row.detail, c), {ObjId, Size, OldPath, RepoName, OldRepoName, Path},
                     [DetailMap(c)], c.now);
  }

  lemma CallOutcome(db: Db, c: Call, db': Db)
    requires Logs(db, c, db')
    ensures CallLeaves(db, c, db')
  {
    var choice :| Answers(db, c, choice) && db' == LogWith(db, c, choice);
    InsertedBy(db, c);
    if c.tag.op.Aggregates() {
      AggregateOutcome(db, c, choice);
    } else if c.tag.op == Edit {
      EditOutcome(db, c, choice);
    }
  }

  lemma AggregateOutcome(db: Db, c: Call, choice: Option<nat>)
    requires c.tag.op.Aggregates() && Answers(db, c, choice)
    ensures CallLeaves(db, c, LogWith(db, c, choice))
  {
    PicksMeans(db, c.tag, c.now, choice);
    InsertedBy(db, c);
    if choice.Some? { ExtendedBy(db, c, choice.value); }
  }

  lemma EditOutcome(db: Db, c: Call, choice: Option<nat>)
    requires c.tag.op == Edit && Answers(db, c, choice)
    ensures CallLeaves(db, c, LogWith(db, c, choice))
  {
    PicksEditMeans(db, c.tag.repo, c.tag.user, c.path, c.now, choice);
    InsertedBy(db, c);
  }

  /** The operation name that a create or delete leaves behind: promoted when appended, plain when inserted. */
  lemma StoredNames(db: Db, c: Call, db': Db, id: nat)
    requires Logs(db, c, db') && c.tag.op.Aggregates()
    requires id in db'.rows && (id in db.rows ==> db'.rows[id] != db.rows[id])
    ensures var name := if c.tag.op == Create then "create" else "delete";
            OpText(db'.rows[id]) == if db'.next > db.next then name else "batch_" + name
  {
    CallOutcome(db, c, db');
  }

  // ---------- one group ----------

  ghost predicate AddsRows(db: Db, db': Db, rows: seq<Row>) {
    && db'.next == db.next + |rows|
    && (forall id :: db.next <= id < db'.next ==> id in db'.rows && db'.rows[id] == rows[id - db.next])
    && (forall id :: id in db'.rows ==> id in db.rows || db.next <= id < db'.next)
  }

  // How many of `n` items go to a row that holds `held`: as many as make it 200.
  function Going(n: nat, held: nat): nat {
    if held + n <= 200 then n else if held < 200 then 200 - held else 0
  }

  /** The recent row takes the first items of the group in order up to 200, the others become rows in order. */
  ghost predicate GroupLeaves(now: int, db: Db, tag: Tag, news: seq<Row>, db': Db) {
    if NoneRecent(db, tag, now) then
      AddsRows(db, db', news) && forall id :: id in db.rows ==> id in db'.rows && db'.rows[id] == db.rows[id]
    else exists id ::
      && NewestRecent(db, tag, now, id)
      && var m := Going(|news|, HeldItems(db.rows[id]));
         && m <= |news| && AddsRows(db, db', news[m..]) && (forall j :: j in db.rows ==> j in db'.rows)
         && (forall j :: j in db.rows && (j != id || m == 0) ==> db'.rows[j] == db.rows[j])
         && (m > 0 ==> TookFirst(db.rows[id], db'.rows[id], news, m, now))
  }

  ghost predicate TookFirst(before: Row, after: Row, news: seq<Row>, m: nat, now: int)
    requires m <= |news|
  {
    exists added: seq<Item> ::
      && |added| == m && (forall i :: 0 <= i < m ==> news[i].detail.Lone? && added[i] == news[i].detail.obj)
      && Continued(before, after, {ObjId, Size, OldPath, RepoName, OldRepoName, Path, Merge, MergeKept}, added, now)
  }

  lemma FilledTook(now: int, row: Row, news: seq<Row>, m: nat)
    requires m == Taken(|news|, ItemCount(row.detail)) && 0 < m <= |news| && AllLone(row.tag, news)
    ensures TookFirst(row, Filled(now, row, news), news, m, now)
  {
    ParsedReads(row.detail, COMMON_AND_MERGE);
    var added := Objects(news[..m]);
    assert Continued(row, Filled(now, row, news), {ObjId, Size, OldPath, RepoName, OldRepoName, Path, Merge, MergeKept},
                     added, now);
    assert |added| == m && forall i :: 0 <= i < m ==> news[i].detail.Lone? && added[i] == news[i].detail.obj;
  }

  lemma GroupFrame(now: int, db: Db, news: seq<Row>, choice: Option<nat>, db': Db, m: nat)
    requires db.Valid() && db' == GroupApply(now, db, news, choice) && m == Fit(db, news, choice)
    ensures AddsRows(db, db', news[m..])
    ensures forall id :: id in db.rows ==>
              && id in db'.rows
              && db'.rows[id] == if choice == Some(id) then Filled(now, db.rows[id], news) else db.rows[id]
  {
    AppendFrame(now, db, news, choice);
    InsertManyRows(AppendFitting(now, db, news, choice), news[m..]);
    forall id | id in db.rows
      ensures id in db'.rows
      ensures db'.rows[id] == if choice == Some(id) then Filled(now, db.rows[id], news) else db.rows[id]
    {
      GroupAtOld(now, db, news, choice, id);
    }
  }

  lemma GroupOutcome(now: int, db: Db, tag: Tag, news: seq<Row>, choice: Option<nat>)
    requires db.Valid() && AllLone(tag, news) && Picks(db, tag, now, choice)
    ensures GroupLeaves(now, db, tag, news, GroupApply(now, db, news, choice))
  {
    var m := Fit(db, news, choice);
    PicksMeans(db, tag, now, choice);
    GroupFrame(now, db, news, choice, GroupApply(now, db, news, choice), m);
    if choice.Some? {
      assert m == Going(|news|, HeldItems(db.rows[choice.value]));
      if m > 0 { FilledTook(now, db.rows[choice.value], news, m); }
    } else {
      assert news[0..] == news;
    }
  }

  // ---------- a batch, item by item ----------

  predicate HoldsAmong(row: Row, f: Facts) {
    row.detail.Array? && exists i :: 0 <= i < |row.detail.items| && Tells(row.detail.items[i], f)
  }

  /** Where one item of a batch is found afterwards. */
  ghost predicate ItemLeaves(db: Db, b: Batch, it: ActivityItem, db': Db) {
    var tag, f := Tag(b.repo, b.user, it.op, it.objType), FactsOfItem(b, it);
    match it.op
    case Edit =>
      if NoneEdited(db, b.repo, b.user, it.path, b.now) then NewRowFor(db, db', tag, f, b)
      else exists id :: NewestEdit(db, b.repo, b.user, it.path, b.now, id)
                        && id in db'.rows && db'.rows[id] == db.rows[id].(createdAt := b.now)
    case Other(_) => NewRowFor(db, db', tag, f, b)
    case _ =>
      NewRowFor(db, db', tag, f, b)
      || exists id :: NewestRecent(db, tag, b.now, id) && id in db'.rows && HoldsAmong(db'.rows[id], f)
                      && db'.rows[id].tag == tag && db'.rows[id].batched && db'.rows[id].createdAt == b.now
  }

  ghost predicate NewRowFor(db: Db, db': Db, tag: Tag, f: Facts, b: Batch) {
    exists id :: id in db'.rows && id >= db.next && RowFor(db'.rows[id], tag, f, b.commit, b.now)
  }

  lemma RowForItem(b: Batch, it: ActivityItem)
    ensures RowFor(ToRow(b, it), Tag(b.repo, b.user, it.op, it.objType), FactsOfItem(b, it), b.commit, b.now)
  {
    ItemTells(b, it);
  }

  lemma {:induction false} RowsOfHas(b: Batch, items: seq<ActivityItem>, want: Want, k: nat) returns (i: nat)
    requires k < |items| && Wanted(b, want, items[k])
    ensures i < |RowsOf(b, items, want)| && RowsOf(b, items, want)[i] == ToRow(b, items[k])
    decreases |items|
  {
    if k == |items| - 1 {
      i := |RowsOf(b, items, want)| - 1;
    } else {
      i := RowsOfHas(b, items[..|items| - 1], want, k);
    }
  }

  // ---------- what the groups leave of the other rows ----------

  // The state a batch is in before its groups.
  ghost predicate Direct(db: Db, b: Batch, items: seq<ActivityItem>, latest: map<string, nat>) {
    db.Valid() && LatestOk(InsertMany(db, RowsOf(b, items, Others)), b, PathsOf(RowsOf(b, items, Edits)), latest)
  }

  ghost predicate GroupsRun(b: Batch, items: seq<ActivityItem>, direct: Db, groups: Groups, order: seq<Tag>,
                            choices: Choices, db': Db) {
    && direct.Valid() && AreGroups(b, items, groups) && NoDuplicates(order) && Tags(order) == groups.Keys
    && RunsTo(b.now, direct, order, groups, choices, db')
  }

  lemma GroupsAreClosed(b: Batch, items: seq<ActivityItem>, direct: Db, groups: Groups, order: seq<Tag>,
                        choices: Choices, db': Db)
    requires GroupsRun(b, items, direct, groups, order, choices, db')
    ensures WellGrouped(groups) && Known(order, groups)
    ensures AllPicked(b.now, direct, order, choices) && Closed(b.now, direct, order, groups, choices, db')
  {
    GroupsAreWell(b, items, groups);
    forall i | 0 <= i < |order| ensures order[i] in groups { assert order[i] in Tags(order); }
    RunIsClosed(b.now, direct, order, groups, choices, db');
  }

  lemma GroupsLeaveOthers(b: Batch, items: seq<ActivityItem>, direct: Db, groups: Groups, order: seq<Tag>,
                          choices: Choices, db': Db, id: nat)
    requires GroupsRun(b, items, direct, groups, order, choices, db')
    requires id in direct.rows && !direct.rows[id].tag.op.Aggregates()
    ensures id in db'.rows && db'.rows[id] == direct.rows[id]
  {
    GroupsAreClosed(b, items, direct, groups, order, choices, db');
    assert direct.rows[id].tag !in groups;
    assert id in Rewritten(b.now, direct, Tags(order), groups, choices).rows;
  }

  // Refreshing touches edit rows only.
  lemma RefreshedRow(db: Db, b: Batch, paths: set<string>, latest: map<string, nat>, id: nat)
    requires LatestOk(db, b, paths, latest) && id in db.rows
    ensures id in RefreshAll(b.now, db, latest).rows
    ensures db.rows[id].tag.op != Edit ==> RefreshAll(b.now, db, latest).rows[id] == db.rows[id]
    ensures db.rows[id].path in latest && latest[db.rows[id].path] == id ==>
              RefreshAll(b.now, db, latest).rows[id] == db.rows[id].(createdAt := b.now)
  {
    var path := db.rows[id].path;
    if path in latest && latest[path] == id {
      assert PicksEdit(db, b.repo, b.user, path, b.now, Some(id));
      assert InEditWindow(db.rows[id], b.repo, b.user, path, b.now);
    }
  }

  // A row that is there after the direct inserts and the refresh is there before the groups.
  lemma DirectKeeps(db: Db, b: Batch, items: seq<ActivityItem>, latest: map<string, nat>, id: nat)
    requires Direct(db, b, items, latest)
    ensures var mid := InsertMany(db, RowsOf(b, items, Others));
            && mid.Valid() && RefreshAll(b.now, mid, latest).Valid() && AfterDirect(db, b, items, latest).Valid()
            && (id in mid.rows ==>
                  && id in AfterDirect(db, b, items, latest).rows && id in RefreshAll(b.now, mid, latest).rows
                  && AfterDirect(db, b, items, latest).rows[id] == RefreshAll(b.now, mid, latest).rows[id])
  {
    var mid := InsertMany(db, RowsOf(b, items, Others));
    InsertManyRows(db, RowsOf(b, items, Others));
    InsertManyRows(RefreshAll(b.now, mid, latest), FreshEdits(RowsOf(b, items, Edits), latest));
  }

  // ---------- the three kinds of items ----------

  lemma OtherBeforeGroups(db: Db, b: Batch, items: seq<ActivityItem>, latest: map<string, nat>, k: nat)
    returns (id: nat)
    requires Direct(db, b, items, latest) && k < |items| && items[k].op.Other?
    ensures id >= db.next && id in AfterDirect(db, b, items, latest).rows
    ensures AfterDirect(db, b, items, latest).rows[id] == ToRow(b, items[k])
  {
    var i := RowsOfHas(b, items, Others, k);
    id := db.next + i;
    InsertManyRows(db, RowsOf(b, items, Others));
    assert InsertMany(db, RowsOf(b, items, Others)).rows[id] == ToRow(b, items[k]);
    RefreshedRow(InsertMany(db, RowsOf(b, items, Others)), b, PathsOf(RowsOf(b, items, Edits)), latest, id);
    DirectKeeps(db, b, items, latest, id);
  }

  lemma OtherOutcome(db: Db, b: Batch, items: seq<ActivityItem>, latest: map<string, nat>, groups: Groups,
                     order: seq<Tag>, choices: Choices, db': Db, k: nat)
    requires Direct(db, b, items, latest) && k < |items| && items[k].op.Other?
    requires GroupsRun(b, items, AfterDirect(db, b, items, latest), groups, order, choices, db')
    ensures ItemLeaves(db, b, items[k], db')
  {
    var id := OtherBeforeGroups(db, b, items, latest, k);
    GroupsLeaveOthers(b, items, AfterDirect(db, b, items, latest), groups, order, choices, db', id);
    RowForItem(b, items[k]);
  }

  lemma SameNewestEdit(x: Db, y: Db, repo: string, user: int, path: string, now: int)
    requires SameEditRows(x, y)
    ensures NoneEdited(x, repo, user, path, now) <==> NoneEdited(y, repo, user, path, now)
    ensures forall id :: NewestEdit(x, repo, user, path, now, id) <==> NewestEdit(y, repo, user, path, now, id)
  {
  }

  lemma EditOutcomeInBatch(db: Db, b: Batch, items: seq<ActivityItem>, latest: map<string, nat>, groups: Groups,
                           order: seq<Tag>, choices: Choices, db': Db, k: nat)
    requires Direct(db, b, items, latest) && k < |items| && items[k].op == Edit
    requires GroupsRun(b, items, AfterDirect(db, b, items, latest), groups, order, choices, db')
    ensures ItemLeaves(db, b, items[k], db')
  {
    var edits, mid, path := RowsOf(b, items, Edits), InsertMany(db, RowsOf(b, items, Others)), items[k].path;
    var i := RowsOfHas(b, items, Edits, k);
    assert path == edits[i].path && path in PathsOf(edits);
    var choice := if path in latest then Some(latest[path]) else None;
    PicksEditMeans(mid, b.repo, b.user, path, b.now, choice);
    OthersKeepEdits(db, b, items);
    SameNewestEdit(db, mid, b.repo, b.user, path, b.now);
    if path in latest {
      RedatedInBatch(db, b, items, latest, groups, order, choices, db', path);
    } else {
      NewEditInBatch(db, b, items, latest, groups, order, choices, db', k, i);
    }
  }

  lemma RedatedInBatch(db: Db, b: Batch, items: seq<ActivityItem>, latest: map<string, nat>, groups: Groups,
                       order: seq<Tag>, choices: Choices, db': Db, path: string)
    requires Direct(db, b, items, latest) && path in latest
    requires GroupsRun(b, items, AfterDirect(db, b, items, latest), groups, order, choices, db')
    ensures var id := latest[path];
            id in db.rows && id in db'.rows && db'.rows[id] == db.rows[id].(createdAt := b.now)
  {
    var mid, id := InsertMany(db, RowsOf(b, items, Others)), latest[path];
    assert PicksEdit(mid, b.repo, b.user, path, b.now, Some(id));
    OthersKeepEdits(db, b, items);
    RefreshedRow(mid, b, PathsOf(RowsOf(b, items, Edits)), latest, id);
    DirectKeeps(db, b, items, latest, id);
    GroupsLeaveOthers(b, items, AfterDirect(db, b, items, latest), groups, order, choices, db', id);
  }

  lemma NewEditInBatch(db: Db, b: Batch, items: seq<ActivityItem>, latest: map<string, nat>, groups: Groups,
                       order: seq<Tag>, choices: Choices, db': Db, k: nat, i: nat)
    requires Direct(db, b, items, latest) && k < |items| && items[k].op == Edit
    requires i < |RowsOf(b, items, Edits)| && RowsOf(b, items, Edits)[i] == ToRow(b, items[k])
    requires items[k].path !in latest
    requires GroupsRun(b, items, AfterDirect(db, b, items, latest), groups, order, choices, db')
    ensures NewRowFor(db, db', Tag(b.repo, b.user, items[k].op, items[k].objType), FactsOfItem(b, items[k]), b)
  {
    var edits, mid := RowsOf(b, items, Edits), InsertMany(db, RowsOf(b, items, Others));
    var refreshed, fresh_ := RefreshAll(b.now, mid, latest), FreshEdits(edits, latest);
    InsertManyRows(db, RowsOf(b, items, Others));
    DirectKeeps(db, b, items, latest, 0);
    InsertManyRows(refreshed, fresh_);
    FreshCovers(edits, latest);
    var j :| 0 <= j < |fresh_| && fresh_[j] == edits[i];
    var id := refreshed.next + j;
    assert AfterDirect(db, b, items, latest).rows[id] == ToRow(b, items[k]);
    GroupsLeaveOthers(b, items, AfterDirect(db, b, items, latest), groups, order, choices, db', id);
    RowForItem(b, items[k]);
  }

  lemma {:induction false} LeftOverHas(db: Db, order: seq<Tag>, groups: Groups, choices: Choices, tag: Tag, i: nat)
    returns (n: nat)
    requires tag in order && i < |OwnRows(db, tag, groups, choices)|
    ensures n < |LeftOver(db, order, groups, choices)|
    ensures LeftOver(db, order, groups, choices)[n] == OwnRows(db, tag, groups, choices)[i]
    decreases |order|
  {
    if order[0] == tag {
      n := i;
    } else {
      n := LeftOverHas(db, order[1..], groups, choices, tag, i);
      n := n + |OwnRows(db, order[0], groups, choices)|;
    }
  }

  // The groups see the aggregated rows as they were before the batch.
  lemma SameNewestRecent(db: Db, b: Batch, items: seq<ActivityItem>, latest: map<string, nat>, tag: Tag, id: nat)
    requires Direct(db, b, items, latest) && tag.op.Aggregates()
    requires NewestRecent(AfterDirect(db, b, items, latest), tag, b.now, id)
    ensures NewestRecent(db, tag, b.now, id)
  {
    var direct := AfterDirect(db, b, items, latest);
    forall j | j in db.rows && db.rows[j].tag == tag ensures j in direct.rows && direct.rows[j] == db.rows[j] {
      AggregatedRowStays(db, b, items, latest, j);
    }
    NoNewAggregated(db, b, items, latest, id);
    AggregatedRowStays(db, b, items, latest, id);
  }

  lemma AggregatedRowStays(db: Db, b: Batch, items: seq<ActivityItem>, latest: map<string, nat>, id: nat)
    requires Direct(db, b, items, latest) && id in db.rows && db.rows[id].tag.op.Aggregates()
    ensures id in AfterDirect(db, b, items, latest).rows && AfterDirect(db, b, items, latest).rows[id] == db.rows[id]
  {
    InsertManyRows(db, RowsOf(b, items, Others));
    DirectKeeps(db, b, items, latest, id);
    RefreshedRow(InsertMany(db, RowsOf(b, items, Others)), b, PathsOf(RowsOf(b, items, Edits)), latest, id);
  }

  lemma NoNewAggregated(db: Db, b: Batch, items: seq<ActivityItem>, latest: map<string, nat>, id: nat)
    requires Direct(db, b, items, latest) && id in AfterDirect(db, b, items, latest).rows
    requires AfterDirect(db, b, items, latest).rows[id].tag.op.Aggregates()
    ensures id in db.rows && db.rows[id].tag == AfterDirect(db, b, items, latest).rows[id].tag
  {
    var mid, edits := InsertMany(db, RowsOf(b, items, Others)), RowsOf(b, items, Edits);
    InsertManyRows(db, RowsOf(b, items, Others));
    RowsOfShape(b, items, Others);
    RowsOfShape(b, items, Edits);
    DirectKeeps(db, b, items, latest, id);
    InsertManyRows(RefreshAll(b.now, mid, latest), FreshEdits(edits, latest));
    FreshAreEdits(edits, latest);
  }

  lemma AggregateOutcomeInBatch(db: Db, b: Batch, items: seq<ActivityItem>, latest: map<string, nat>, groups: Groups,
                                order: seq<Tag>, choices: Choices, db': Db, k: nat)
    requires Direct(db, b, items, latest) && k < |items| && items[k].op.Aggregates()
    requires GroupsRun(b, items, AfterDirect(db, b, items, latest), groups, order, choices, db')
    ensures ItemLeaves(db, b, items[k], db')
  {
    var direct, tag := AfterDirect(db, b, items, latest), TagOf(b, items[k]);
    var i := RowsOfHas(b, items, Grouped(tag), k);
    assert tag in AggregatedTags(b, items);
    GroupsAreClosed(b, items, direct, groups, order, choices, db');
    var o := FindTag(order, tag);
    assert Picks(direct, tag, b.now, Answer(choices, order[o]));
    RowForItem(b, items[k]);
    if i < Fit(direct, groups[tag], Answer(choices, tag)) {
      AppendedInBatch(direct, b, tag, groups, order, choices, db', i, FactsOfItem(b, items[k]));
      PicksMeans(direct, tag, b.now, Answer(choices, tag));
      SameNewestRecent(db, b, items, latest, tag, Answer(choices, tag).value);
    } else {
      DirectGrows(db, b, items, latest);
      LeftInBatch(db, direct, b, tag, groups, order, choices, db', i, FactsOfItem(b, items[k]));
    }
  }

  lemma FindTag(order: seq<Tag>, tag: Tag) returns (o: nat)
    requires tag in Tags(order)
    ensures o < |order| && order[o] == tag && tag in order
  {
    o :| 0 <= o < |order| && order[o] == tag;
  }

  lemma LeftInBatch(db: Db, direct: Db, b: Batch, tag: Tag, groups: Groups, order: seq<Tag>, choices: Choices, db': Db,
                    i: nat, f: Facts)
    requires db.next <= direct.next && tag in groups && tag in order
    requires Closed(b.now, direct, order, groups, choices, db')
    requires Fit(direct, groups[tag], Answer(choices, tag)) <= i < |groups[tag]|
    requires RowFor(groups[tag][i], tag, f, b.commit, b.now)
    ensures NewRowFor(db, db', tag, f, b)
  {
    var m := Fit(direct, groups[tag], Answer(choices, tag));
    assert OwnRows(direct, tag, groups, choices)[i - m] == groups[tag][i];
    var n := LeftOverHas(direct, order, groups, choices, tag, i - m);
    ClosedHasLeft(b.now, direct, order, groups, choices, db', n);
  }

  lemma ExtendsHas(base: Db, rows: seq<Row>, r: Db, n: nat)
    requires Extends(base, rows, r) && n < |rows|
    ensures base.next + n in r.rows && r.rows[base.next + n] == rows[n]
  {
    var id := base.next + n;
    assert base.next <= id < r.next;
  }

  lemma ClosedHasLeft(now: int, direct: Db, order: seq<Tag>, groups: Groups, choices: Choices, db': Db, n: nat)
    requires Closed(now, direct, order, groups, choices, db') && n < |LeftOver(direct, order, groups, choices)|
    ensures direct.next + n in db'.rows && db'.rows[direct.next + n] == LeftOver(direct, order, groups, choices)[n]
  {
    ExtendsHas(Rewritten(now, direct, Tags(order), groups, choices), LeftOver(direct, order, groups, choices), db', n);
  }

  lemma DirectGrows(db: Db, b: Batch, items: seq<ActivityItem>, latest: map<string, nat>)
    requires Direct(db, b, items, latest)
    ensures db.next <= AfterDirect(db, b, items, latest).next
  {
    var mid := InsertMany(db, RowsOf(b, items, Others));
    InsertManyRows(db, RowsOf(b, items, Others));
    DirectKeeps(db, b, items, latest, 0);
    InsertManyRows(RefreshAll(b.now, mid, latest), FreshEdits(RowsOf(b, items, Edits), latest));
  }

  lemma AppendedInBatch(direct: Db, b: Batch, tag: Tag, groups: Groups, order: seq<Tag>, choices: Choices, db': Db,
                        i: nat, f: Facts)
    requires direct.Valid() && WellGrouped(groups) && tag in groups && tag in Tags(order)
    requires Closed(b.now, direct, order, groups, choices, db') && Picks(direct, tag, b.now, Answer(choices, tag))
    requires i < Fit(direct, groups[tag], Answer(choices, tag)) && Tells(groups[tag][i].detail.obj, f)
    ensures var id := Answer(choices, tag).value;
            && id in db'.rows && HoldsAmong(db'.rows[id], f)
            && db'.rows[id].tag == tag && db'.rows[id].batched && db'.rows[id].createdAt == b.now
  {
    var news, id := groups[tag], Answer(choices, tag).value;
    var row := direct.rows[id];
    assert id in Rewritten(b.now, direct, Tags(order), groups, choices).rows;
    assert db'.rows[id] == Filled(b.now, row, news);
    var parsed, m := ParseDetail(row.detail, COMMON_AND_MERGE), Taken(|news|, ItemCount(row.detail));
    assert db'.rows[id].detail.items == parsed + Objects(news[..m]);
    assert (parsed + Objects(news[..m]))[|parsed| + i] == news[i].detail.obj;
  }

  /**
   Every item of a batch is found in the table afterwards: a create or delete behind the newest row
   of its kind of the last 300 seconds or in a row of its own, an edit as a new date on the newest row
   of its path of the last 1800 seconds or in a row of its own, everything else in a row of its own.
   */
  lemma BatchOutcome(db: Db, b: Batch, items: seq<ActivityItem>, db': Db, k: nat)
    requires db.Valid() && Batches(db, b, items, db') && k < |items|
    ensures ItemLeaves(db, b, items[k], db')
  {
    var latest: map<string, nat>, groups: Groups, order: seq<Tag>, choices: Choices :|
      BatchVia(db, b, items, db', latest, groups, order, choices);
    DirectKeeps(db, b, items, latest, 0);
    if items[k].op.Aggregates() {
      AggregateOutcomeInBatch(db, b, items, latest, groups, order, choices, db', k);
    } else if items[k].op == Edit {
      EditOutcomeInBatch(db, b, items, latest, groups, order, choices, db', k);
    } else {
      OtherOutcome(db, b, items, latest, groups, order, choices, db', k);
    }
  }
}
