/**
 Edit deduplication over whole sequential runs: two edit rows of one path are always at
 least the dedup window apart, so a lookup has at most one match.
 */
module ActivityEdits {
  import opened Options
  import opened ActivityModel
  import opened ActivityBatch
  import opened ActivityCalls
  import opened ActivityLog

  ghost predicate SameEdit(r: Row, s: Row) {
    && r.tag.op == Edit && s.tag.op == Edit
    && r.tag.repo == s.tag.repo && r.tag.user == s.tag.user && r.path == s.path
  }

  ghost predicate Apart(r: Row, s: Row) {
    r.createdAt >= s.createdAt + 1800 || s.createdAt >= r.createdAt + 1800
  }

  ghost predicate EditGap(db: Db) {
    forall i, j :: i in db.rows && j in db.rows && i != j && SameEdit(db.rows[i], db.rows[j]) ==>
          Apart(db.rows[i], db.rows[j])
  }

  ghost predicate NotAfter(db: Db, now: int) {
    forall id :: id in db.rows ==> db.rows[id].createdAt <= now
  }

  /** Between two tables nothing happened to the edit rows. */
  ghost predicate SameEditRows(x: Db, y: Db) {
    && (forall id :: id in x.rows && x.rows[id].tag.op == Edit ==> id in y.rows && y.rows[id] == x.rows[id])
    && (forall id :: id in y.rows && y.rows[id].tag.op == Edit ==> id in x.rows && y.rows[id] == x.rows[id])
  }

  lemma SameRowsSameGap(x: Db, y: Db)
    requires SameEditRows(x, y)
    ensures EditGap(x) <==> EditGap(y)
  {
  }

  /** At most one row answers an edit lookup. */
  lemma AtMostOneRecentEdit(db: Db, repo: string, user: int, path: string, now: int, i: nat, j: nat)
    requires EditGap(db) && NotAfter(db, now) && i in db.rows && j in db.rows
    requires InEditWindow(db.rows[i], repo, user, path, now) && InEditWindow(db.rows[j], repo, user, path, now)
    ensures i == j
  {
  }

  lemma InsertKeepsGap(db: Db, row: Row, now: int)
    requires db.Valid() && EditGap(db) && NotAfter(db, now) && row.createdAt == now
    requires row.tag.op == Edit ==>
               forall id :: id in db.rows ==> !InEditWindow(db.rows[id], row.tag.repo, row.tag.user, row.path, now)
    ensures EditGap(Insert(db, row)) && NotAfter(Insert(db, row), now)
  {
  }

  lemma RefreshOneKeepsGap(db: Db, id: nat, now: int)
    requires id in db.rows && EditGap(db) && NotAfter(db, now)
    requires InEditWindow(db.rows[id], db.rows[id].tag.repo, db.rows[id].tag.user, db.rows[id].path, now)
    ensures var r := Update(db, id, db.rows[id].(createdAt := now));
            EditGap(r) && NotAfter(r, now)
  {
  }

  lemma AggregateKeepsGap(db: Db, id: nat, row: Row, now: int)
    requires id in db.rows && EditGap(db) && NotAfter(db, now)
    requires db.rows[id].tag.op != Edit && row.tag == db.rows[id].tag && row.createdAt == now
    ensures EditGap(Update(db, id, row)) && NotAfter(Update(db, id, row), now)
  {
  }

  /** Refreshing the one recent row, or inserting when there is none, keeps the gap. */
  lemma CallKeepsGap(db: Db, c: Call, db': Db)
    requires db.Valid() && Logs(db, c, db') && EditGap(db) && NotAfter(db, c.now)
    ensures EditGap(db') && NotAfter(db', c.now)
  {
    var choice :| Answers(db, c, choice) && db' == LogWith(db, c, choice);
    if c.tag.op.Aggregates() && HasRoom(db, choice) {
      AggregateKeepsGap(db, choice.value, Rewrite(db.rows[choice.value], db.rows[choice.value].detail, c), c.now);
    } else if c.tag.op == Edit && choice.Some? {
      RefreshOneKeepsGap(db, choice.value, c.now);
    } else {
      InsertKeepsGap(db, NewRow(c), c.now);
    }
  }

  // ---------- batches ----------

  ghost predicate HasRecentEdit(db: Db, b: Batch, path: string) {
    exists id :: id in db.rows && InEditWindow(db.rows[id], b.repo, b.user, path, b.now)
  }

  /** A path edited twice in one batch already has a recent row. */
  ghost predicate RepeatsAreRecent(db: Db, b: Batch, edits: seq<Row>) {
    forall i, j :: 0 <= i < j < |edits| && edits[i].path == edits[j].path ==> HasRecentEdit(db, b, edits[i].path)
  }

  ghost predicate DistinctPaths(rows: seq<Row>) {
    forall i, j :: 0 <= i < j < |rows| ==> rows[i].path != rows[j].path
  }

  ghost predicate RepeatsKnown(edits: seq<Row>, latest: map<string, nat>) {
    forall i, j :: 0 <= i < j < |edits| && edits[i].path == edits[j].path ==> edits[i].path in latest
  }

  lemma {:induction false} FreshCovers(edits: seq<Row>, latest: map<string, nat>)
    ensures forall i :: 0 <= i < |edits| && edits[i].path !in latest ==> edits[i] in FreshEdits(edits, latest)
    decreases |edits|
  {
    if edits != [] {
      FreshCovers(edits[..|edits| - 1], latest);
      assert forall i :: 0 <= i < |edits| - 1 ==> edits[i] == edits[..|edits| - 1][i];
    }
  }

  ghost predicate Misses(rows: seq<Row>, path: string) {
    forall i :: 0 <= i < |rows| ==> rows[i].path != path
  }

  lemma DistinctAppend(rows: seq<Row>, last: Row)
    ensures DistinctPaths(rows + [last]) <==> DistinctPaths(rows) && Misses(rows, last.path)
  {
    var all := rows + [last];
    assert forall i :: 0 <= i < |rows| ==> all[i] == rows[i];
    assert all[|rows|] == last;
  }

  lemma KnownAppend(rows: seq<Row>, last: Row, latest: map<string, nat>)
    ensures RepeatsKnown(rows + [last], latest) <==>
            RepeatsKnown(rows, latest) && (last.path in latest || Misses(rows, last.path))
  {
    var all := rows + [last];
    assert forall i :: 0 <= i < |rows| ==> all[i] == rows[i];
    assert all[|rows|] == last;
  }

  lemma FreshMisses(edits: seq<Row>, latest: map<string, nat>, path: string)
    requires path !in latest
    ensures Misses(FreshEdits(edits, latest), path) <==> Misses(edits, path)
  {
    FreshCovers(edits, latest);
    FreshAreEdits(edits, latest);
  }

  lemma {:induction false} FreshDistinct(edits: seq<Row>, latest: map<string, nat>)
    ensures DistinctPaths(FreshEdits(edits, latest)) <==> RepeatsKnown(edits, latest)
    decreases |edits|
  {
    if edits != [] {
      var init, last := edits[..|edits| - 1], edits[|edits| - 1];
      FreshDistinct(init, latest);
      assert edits == init + [last];
      KnownAppend(init, last, latest);
      if last.path !in latest {
        DistinctAppend(FreshEdits(init, latest), last);
        FreshMisses(init, latest, last.path);
      }
    }
  }

  lemma KnownIsRecent(db: Db, b: Batch, edits: seq<Row>, latest: map<string, nat>)
    requires LatestOk(db, b, PathsOf(edits), latest)
    ensures RepeatsKnown(edits, latest) <==> RepeatsAreRecent(db, b, edits)
  {
  }

  ghost predicate EditRows(b: Batch, rows: seq<Row>) {
    forall i :: 0 <= i < |rows| ==> Prepared(b, Edits, rows[i])
  }

  /** Refreshing the newest row of each path keeps the gap between the old rows. */
  lemma RefreshKeepsGap(db: Db, b: Batch, paths: set<string>, latest: map<string, nat>)
    requires db.Valid() && EditGap(db) && NotAfter(db, b.now) && LatestOk(db, b, paths, latest)
    ensures var mid := RefreshAll(b.now, db, latest);
            EditGap(mid) && NotAfter(mid, b.now)
  {
    var mid := RefreshAll(b.now, db, latest);
    forall i, j | i in mid.rows && j in mid.rows && i != j && SameEdit(mid.rows[i], mid.rows[j])
      ensures Apart(mid.rows[i], mid.rows[j])
    {
      RefreshedPair(db, b, paths, latest, i, j);
    }
  }

  lemma RefreshedPair(db: Db, b: Batch, paths: set<string>, latest: map<string, nat>, i: nat, j: nat)
    requires EditGap(db) && NotAfter(db, b.now) && LatestOk(db, b, paths, latest)
    requires i in db.rows && j in db.rows && i != j && SameEdit(db.rows[i], db.rows[j])
    ensures Apart(Refreshed(db.rows[i], i, latest, b.now), Refreshed(db.rows[j], j, latest, b.now))
  {
  }

  /**
   After a batch's edits the gap still holds if and only if every path edited twice in the batch
   had a recent row: a path without one gets as many new rows as it has edits.
   */
  lemma DedupKeepsGapIff(db: Db, b: Batch, edits: seq<Row>, latest: map<string, nat>)
    requires db.Valid() && EditGap(db) && NotAfter(db, b.now) && EditRows(b, edits)
    requires LatestOk(db, b, PathsOf(edits), latest)
    ensures var db' := DedupApply(b.now, db, edits, latest);
            && db'.Valid() && NotAfter(db', b.now)
            && (EditGap(db') <==> RepeatsAreRecent(db, b, edits))
  {
    var mid, added := RefreshAll(b.now, db, latest), FreshEdits(edits, latest);
    RefreshKeepsGap(db, b, PathsOf(edits), latest);
    FreshAreNow(b, edits, latest);
    InsertedNow(mid, added, b.now);
    FreshDistinct(edits, latest);
    KnownIsRecent(db, b, edits, latest);
    if DistinctPaths(added) {
      FreshKeepGap(db, b, edits, latest);
    } else {
      InsertRepeated(mid, b, added);
    }
  }

  lemma FreshAreNow(b: Batch, edits: seq<Row>, latest: map<string, nat>)
    requires EditRows(b, edits)
    ensures EditRows(b, FreshEdits(edits, latest))
  {
    FreshAreEdits(edits, latest);
  }

  lemma InsertedNow(db: Db, rows: seq<Row>, now: int)
    requires db.Valid() && NotAfter(db, now) && forall i :: 0 <= i < |rows| ==> rows[i].createdAt == now
    ensures InsertMany(db, rows).Valid() && NotAfter(InsertMany(db, rows), now)
  {
    InsertManyRows(db, rows);
  }

  lemma FreshKeepGap(db: Db, b: Batch, edits: seq<Row>, latest: map<string, nat>)
    requires db.Valid() && EditRows(b, edits) && LatestOk(db, b, PathsOf(edits), latest)
    requires EditGap(RefreshAll(b.now, db, latest)) && DistinctPaths(FreshEdits(edits, latest))
    ensures EditGap(InsertMany(RefreshAll(b.now, db, latest), FreshEdits(edits, latest)))
  {
    var mid, added := RefreshAll(b.now, db, latest), FreshEdits(edits, latest);
    FreshAreEdits(edits, latest);
    forall i, row | i in mid.rows && row in added && SameEdit(mid.rows[i], row) ensures Apart(mid.rows[i], row) {
      OldAndFresh(db, b, edits, latest, i, row);
    }
    InsertDistinct(mid, added, b.now);
  }

  /** Rows of distinct paths, each apart from every old row, keep the gap. */
  lemma InsertDistinct(db: Db, rows: seq<Row>, now: int)
    requires db.Valid() && EditGap(db) && DistinctPaths(rows)
    requires forall i, row :: i in db.rows && row in rows && SameEdit(db.rows[i], row) ==> Apart(db.rows[i], row)
    ensures EditGap(InsertMany(db, rows))
  {
    InsertManyRows(db, rows);
    var r := InsertMany(db, rows);
    forall i, j | i in r.rows && j in r.rows && i < j && SameEdit(r.rows[i], r.rows[j])
      ensures Apart(r.rows[i], r.rows[j])
    {
      if i in db.rows && j !in db.rows {
        assert r.rows[j] in rows;
      }
    }
  }

  lemma InsertRepeated(db: Db, b: Batch, rows: seq<Row>)
    requires db.Valid() && EditRows(b, rows) && !DistinctPaths(rows)
    ensures !EditGap(InsertMany(db, rows))
  {
    InsertManyRows(db, rows);
    var r := InsertMany(db, rows);
    var i, j :| 0 <= i < j < |rows| && rows[i].path == rows[j].path;
    assert r.rows[db.next + i] == rows[i] && r.rows[db.next + j] == rows[j];
    assert SameEdit(rows[i], rows[j]) && !Apart(rows[i], rows[j]);
  }

  lemma OldAndFresh(db: Db, b: Batch, edits: seq<Row>, latest: map<string, nat>, i: nat, row: Row)
    requires i in db.rows && LatestOk(db, b, PathsOf(edits), latest)
    requires row in edits && row.path !in latest && Prepared(b, Edits, row)
    requires SameEdit(Refreshed(db.rows[i], i, latest, b.now), row)
    ensures Apart(Refreshed(db.rows[i], i, latest, b.now), row)
  {
  }

  lemma OthersKeepEdits(db: Db, b: Batch, items: seq<ActivityItem>)
    requires db.Valid()
    ensures var mid := InsertMany(db, RowsOf(b, items, Others));
            mid.Valid() && SameEditRows(db, mid) && (NotAfter(db, b.now) ==> NotAfter(mid, b.now))
  {
    InsertManyRows(db, RowsOf(b, items, Others));
    RowsOfShape(b, items, Others);
  }

  lemma StepKeepsEdits(now: int, db: Db, tag: Tag, groups: Groups, choices: Choices)
    requires db.Valid() && WellGrouped(groups) && tag in groups && Picks(db, tag, now, Answer(choices, tag))
    requires forall i :: 0 <= i < |groups[tag]| ==> groups[tag][i].createdAt == now
    ensures var mid := Step(now, db, tag, groups, choices);
            mid.Valid() && SameEditRows(db, mid) && (NotAfter(db, now) ==> NotAfter(mid, now))
  {
    StepFrame(now, db, tag, groups, choices);
    StepAtNew(now, db, tag, groups, choices);
    var mid := Step(now, db, tag, groups, choices);
    if NotAfter(db, now) {
      forall id | id in mid.rows ensures mid.rows[id].createdAt <= now {
        if id in db.rows { GroupAtOld(now, db, groups[tag], Answer(choices, tag), id); }
      }
    }
  }

  lemma {:induction false} GroupsKeepEdits(now: int, db: Db, order: seq<Tag>, groups: Groups, choices: Choices, db': Db)
    requires db.Valid() && WellGrouped(groups) && Known(order, groups) && RunsTo(now, db, order, groups, choices, db')
    requires forall tag :: tag in groups ==> forall i :: 0 <= i < |groups[tag]| ==> groups[tag][i].createdAt == now
    ensures db'.Valid() && SameEditRows(db, db') && (NotAfter(db, now) ==> NotAfter(db', now))
    decreases |order|
  {
    if order != [] {
      StepKeepsEdits(now, db, order[0], groups, choices);
      GroupsKeepEdits(now, Step(now, db, order[0], groups, choices), order[1..], groups, choices, db');
    }
  }

  /** The exact condition for a whole batch. */
  lemma BatchKeepsGapIff(db: Db, b: Batch, items: seq<ActivityItem>, db': Db)
    requires db.Valid() && EditGap(db) && NotAfter(db, b.now) && Batches(db, b, items, db')
    ensures db'.Valid() && NotAfter(db', b.now)
    ensures EditGap(db') <==> RepeatsAreRecent(db, b, RowsOf(b, items, Edits))
  {
    var latest: map<string, nat>, groups: Groups, order: seq<Tag>, choices: Choices :|
      BatchVia(db, b, items, db', latest, groups, order, choices);
    var mid := InsertMany(db, RowsOf(b, items, Others));
    var edits := RowsOf(b, items, Edits);
    OthersKeepEdits(db, b, items);
    SameRowsSameGap(db, mid);
    RowsOfShape(b, items, Edits);
    DedupKeepsGapIff(mid, b, edits, latest);
    SameRecent(db, mid, b, edits);
    GroupsAreWell(b, items, groups);
    forall tag: Tag | tag in groups ensures forall i :: 0 <= i < |groups[tag]| ==> groups[tag][i].createdAt == b.now {
      RowsOfShape(b, items, Grouped(tag));
    }
    forall i | 0 <= i < |order| ensures order[i] in groups { assert order[i] in Tags(order); }
    GroupsKeepEdits(b.now, AfterDirect(db, b, items, latest), order, groups, choices, db');
    SameRowsSameGap(AfterDirect(db, b, items, latest), db');
  }

  /** Two edits of one path in a first batch: the gap is broken whatever else happens. */
  lemma RepeatedEditBreaksGap(b: Batch, it: ActivityItem, db': Db)
    requires it.op == Edit && Batches(Db(map[], 0), b, [it, it], db')
    ensures !EditGap(db')
  {
    var edits := RowsOf(b, [it, it], Edits);
    assert [it, it][..1] == [it] && [it][..0] == [];
    assert RowsOf(b, [it], Edits) == [ToRow(b, it)];
    assert edits == [ToRow(b, it), ToRow(b, it)];
    assert edits[0].path == edits[1].path && !HasRecentEdit(Db(map[], 0), b, it.path);
    BatchKeepsGapIff(Db(map[], 0), b, [it, it], db');
  }

  lemma SameRecent(x: Db, y: Db, b: Batch, edits: seq<Row>)
    requires SameEditRows(x, y)
    ensures RepeatsAreRecent(x, b, edits) <==> RepeatsAreRecent(y, b, edits)
  {
  }

  // ---------- sequential runs ----------

  datatype Event = One(call: Call) | Many(batch: Batch, items: seq<ActivityItem>) {
    function Clock(): int { if One? then call.now else batch.now }
  }

  ghost predicate Happens(db: Db, e: Event, db': Db) {
    match e
    case One(c) => Logs(db, c, db')
    case Many(b, items) => Batches(db, b, items, db')
  }

  /** `dbs` are the tables before, between and after the events; the clock never goes back. */
  ghost predicate SequentialRun(dbs: seq<Db>, events: seq<Event>) {
    && |dbs| == |events| + 1
    && (forall i :: 0 <= i < |events| ==> Happens(dbs[i], events[i], dbs[i + 1]))
    && (forall i :: 0 < i < |events| ==> events[i - 1].Clock() <= events[i].Clock())
  }

  ghost predicate RepeatsAreFine(db: Db, e: Event) {
    e.Many? ==> RepeatsAreRecent(db, e.batch, RowsOf(e.batch, e.items, Edits))
  }

  /**
   Over every sequential run with a nondecreasing clock the edit rows of one path stay at least
   1800 seconds apart, as long as no batch edits a path without a recent row twice.
   */
  lemma {:induction false} EditsStayApart(dbs: seq<Db>, events: seq<Event>, n: nat)
    requires SequentialRun(dbs, events) && n < |dbs| && events != []
    requires dbs[0].Valid() && EditGap(dbs[0]) && NotAfter(dbs[0], events[0].Clock())
    requires forall i :: 0 <= i < n ==> RepeatsAreFine(dbs[i], events[i])
    ensures dbs[n].Valid() && EditGap(dbs[n])
    ensures NotAfter(dbs[n], if n == 0 then events[0].Clock() else events[n - 1].Clock())
    decreases n
  {
    if n > 0 {
      EditsStayApart(dbs, events, n - 1);
      var db, e, db' := dbs[n - 1], events[n - 1], dbs[n];
      assert Happens(db, e, db') && RepeatsAreFine(db, e);
      assert NotAfter(db, e.Clock());
      match e
      case One(c) => CallKeepsGap(db, c, db'); OneStaysValid(db, c, db');
      case Many(b, items) => BatchKeepsGapIff(db, b, items, db');
    }
  }

  lemma OneStaysValid(db: Db, c: Call, db': Db)
    requires db.Valid() && Logs(db, c, db')
    ensures db'.Valid()
  {
  }
}
