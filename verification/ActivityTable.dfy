/**
 The logger itself: the statements of `log_activity` and `log_activity_batch` on the table,
 one call after the other.
 */
module ActivityTable {
  import opened Options
  import opened ActivityModel
  import opened ActivityBatch
  import opened ActivityCalls
  import opened ActivityLog
  import opened ActivityOutcome

  // ---------- specifications of the loops ----------

  /** The refreshes after the edits seen so far. */
  ghost function RefreshSome(now: int, db: Db, latest: map<string, nat>, edits: seq<Row>): Db {
    Db(map id | id in db.rows ::
         if db.rows[id].path in PathsOf(edits) then Refreshed(db.rows[id], id, latest, now) else db.rows[id],
       db.next)
  }

  lemma RefreshOneMore(now: int, db: Db, latest: map<string, nat>, edits: seq<Row>, row: Row)
    requires forall path :: path in latest ==> latest[path] in db.rows && db.rows[latest[path]].path == path
    ensures RefreshSome(now, db, latest, edits + [row])
         == var x := RefreshSome(now, db, latest, edits);
            if row.path in latest then Update(x, latest[row.path], x.rows[latest[row.path]].(createdAt := now)) else x
  {
    var all := edits + [row];
    assert PathsOf(all) == PathsOf(edits) + {row.path} by {
      forall path ensures path in PathsOf(all) <==> path in PathsOf(edits) || path == row.path {
        if path in PathsOf(edits) {
          var i :| 0 <= i < |edits| && edits[i].path == path;
          assert all[i].path == path;
        }
        assert all[|edits|].path == row.path;
      }
    }
    var x := RefreshSome(now, db, latest, edits);
    var y := if row.path in latest then Update(x, latest[row.path], x.rows[latest[row.path]].(createdAt := now)) else x;
    assert RefreshSome(now, db, latest, all).rows == y.rows;
  }

  lemma RefreshedEverything(now: int, db: Db, latest: map<string, nat>, edits: seq<Row>)
    requires latest.Keys <= PathsOf(edits)
    ensures RefreshSome(now, db, latest, edits) == RefreshAll(now, db, latest)
  {
  }

  /** One more group at the end of a run. */
  lemma {:induction false} RunsAppend(now: int, db: Db, order: seq<Tag>, groups: Groups, choices: Choices, mid: Db,
                                      tag: Tag, choice: Option<nat>)
    requires RunsTo(now, db, order, groups, choices, mid) && tag !in order && Picks(mid, tag, now, choice)
    ensures RunsTo(now, db, order + [tag], groups, choices[tag := choice],
                   GroupApply(now, mid, Of(groups, tag), choice))
    decreases |order|
  {
    var all := order + [tag];
    if order == [] {
      assert all[1..] == [];
    } else {
      assert all[1..] == order[1..] + [tag];
      RunsAppend(now, Step(now, db, order[0], groups, choices), order[1..], groups, choices, mid, tag, choice);
    }
  }

  lemma TagsAppend(order: seq<Tag>, tag: Tag)
    requires NoDuplicates(order) && tag !in order
    ensures NoDuplicates(order + [tag]) && Tags(order + [tag]) == Tags(order) + {tag}
  {
    var all := order + [tag];
    forall t ensures t in Tags(all) <==> t in Tags(order) || t == tag {
      if t in Tags(order) {
        var i :| 0 <= i < |order| && order[i] == t;
        assert all[i] == t;
      }
      assert all[|order|] == tag;
    }
  }

  lemma FreshOneMore(edits: seq<Row>, row: Row, latest: map<string, nat>)
    ensures FreshEdits(edits + [row], latest) == FreshEdits(edits, latest) + (if row.path in latest then [] else [row])
  {
  }

  lemma GroupsGrow(b: Batch, items: seq<ActivityItem>, it: ActivityItem, groups: Groups)
    requires AreGroups(b, items, groups)
    ensures AreGroups(b, items + [it],
              if it.op.Aggregates() then groups[TagOf(b, it) := Of(groups, TagOf(b, it)) + [ToRow(b, it)]] else groups)
  {
    var all, tag := items + [it], TagOf(b, it);
    assert all[..|all| - 1] == items && all[|all| - 1] == it;
    assert AggregatedTags(b, all) == AggregatedTags(b, items) + (if it.op.Aggregates() then {tag} else {}) by {
      forall t
        ensures t in AggregatedTags(b, all) <==> t in AggregatedTags(b, items) || (it.op.Aggregates() && t == tag)
      {
        if t in AggregatedTags(b, items) {
          var k :| 0 <= k < |items| && items[k].op.Aggregates() && TagOf(b, items[k]) == t;
          assert all[k] == items[k];
        }
        if it.op.Aggregates() { assert TagOf(b, all[|items|]) == tag; }
      }
    }
    if it.op.Aggregates() && tag !in groups {
      NoSuchGroup(b, items, tag);
    }
  }

  lemma {:induction false} NoSuchGroup(b: Batch, items: seq<ActivityItem>, tag: Tag)
    requires tag.op.Aggregates() && tag !in AggregatedTags(b, items)
    ensures RowsOf(b, items, Grouped(tag)) == []
    decreases |items|
  {
    if items != [] {
      var init := items[..|items| - 1];
      forall t | t in AggregatedTags(b, init) ensures t in AggregatedTags(b, items) {
        var k :| 0 <= k < |init| && init[k].op.Aggregates() && TagOf(b, init[k]) == t;
        assert items[k] == init[k];
      }
      NoSuchGroup(b, init, tag);
      var last := items[|items| - 1];
      assert TagOf(b, last) == tag ==> tag in AggregatedTags(b, items);
    }
  }

  predicate IsRecent(row: Row, b: Batch, paths: set<string>) {
    row.path in paths && InEditWindow(row, b.repo, b.user, row.path, b.now)
  }

  /** `recent` lists the recent edit rows on `paths`, all of them and no others, newest first. */
  ghost predicate NewestFirst(db: Db, b: Batch, paths: set<string>, recent: seq<nat>) {
    && (forall k :: 0 <= k < |recent| ==> recent[k] in db.rows && IsRecent(db.rows[recent[k]], b, paths))
    && (forall id :: id in db.rows && IsRecent(db.rows[id], b, paths) ==> id in recent)
    && (forall k, l :: 0 <= k < l < |recent| ==> db.rows[recent[l]].createdAt <= db.rows[recent[k]].createdAt)
  }

  /** `latest` holds, of each path in the list, a row of the list at least as new as all of them. */
  ghost predicate FirstOfEach(db: Db, recent: seq<nat>, latest: map<string, nat>) {
    && (forall path :: path in latest ==>
          latest[path] in recent && latest[path] in db.rows && db.rows[latest[path]].path == path)
    && (forall k :: 0 <= k < |recent| ==>
          && recent[k] in db.rows && db.rows[recent[k]].path in latest
          && latest[db.rows[recent[k]].path] in db.rows
          && db.rows[recent[k]].createdAt <= db.rows[latest[db.rows[recent[k]].path]].createdAt)
  }

  // One more row behind the others: the first of its path, or no newer than the one that is.
  lemma FirstAppend(db: Db, seen: seq<nat>, id: nat, latest: map<string, nat>)
    requires FirstOfEach(db, seen, latest) && id in db.rows
    requires forall k :: 0 <= k < |seen| ==> seen[k] in db.rows && db.rows[id].createdAt <= db.rows[seen[k]].createdAt
    ensures var path := db.rows[id].path;
            FirstOfEach(db, seen + [id], if path in latest then latest else latest[path := id])
  {
    var all, path := seen + [id], db.rows[id].path;
    assert forall k :: 0 <= k < |seen| ==> all[k] == seen[k];
    assert all[|seen|] == id;
    if path in latest {
      var k :| 0 <= k < |seen| && seen[k] == latest[path];
    }
  }

  lemma FirstOneMore(db: Db, b: Batch, paths: set<string>, recent: seq<nat>, i: nat, latest: map<string, nat>)
    requires NewestFirst(db, b, paths, recent) && i < |recent| && FirstOfEach(db, recent[..i], latest)
    ensures var path := db.rows[recent[i]].path;
            FirstOfEach(db, recent[..i + 1], if path in latest then latest else latest[path := recent[i]])
  {
    FirstAppend(db, recent[..i], recent[i], latest);
    assert recent[..i + 1] == recent[..i] + [recent[i]];
  }

  lemma FirstIsLatest(db: Db, b: Batch, paths: set<string>, recent: seq<nat>, latest: map<string, nat>)
    requires NewestFirst(db, b, paths, recent) && FirstOfEach(db, recent, latest)
    ensures LatestOk(db, b, paths, latest)
  {
  }

  class ActivityLogger {
    var db: Db

    constructor ()
      ensures db == Db(map[], 0)
    {
      db := Db(map[], 0);
    }

    // ---------- queries ----------

    /** The newest of some rows; which of several equally new ones is not determined. */
    method Newest(ids: set<nat>) returns (newest: nat)
      requires ids != {} && ids <= db.rows.Keys
      ensures newest in ids
      ensures forall id :: id in ids ==> db.rows[id].createdAt <= db.rows[newest].createdAt
    {
      newest :| newest in ids;
      var rest := ids - {newest};
      while rest != {}
        invariant rest <= ids && newest in ids
        invariant forall id :: id in ids - rest ==> db.rows[id].createdAt <= db.rows[newest].createdAt
        decreases rest
      {
        var id :| id in rest;
        if db.rows[id].createdAt > db.rows[newest].createdAt { newest := id; }
        rest := rest - {id};
      }
    }

    method FindRecent(tag: Tag, now: int) returns (choice: Option<nat>)
      ensures Picks(db, tag, now, choice)
    {
      var ids := set id | id in db.rows && InWindow(db.rows[id], tag, now);
      if ids == {} {
        choice := None;
        assert forall id :: id in db.rows && InWindow(db.rows[id], tag, now) ==> id in ids;
      } else {
        var id := Newest(ids);
        choice := Some(id);
        assert forall j :: j in db.rows && InWindow(db.rows[j], tag, now) ==> j in ids;
      }
    }

    method FindRecentEdit(repo: string, user: int, path: string, now: int) returns (choice: Option<nat>)
      ensures PicksEdit(db, repo, user, path, now, choice)
    {
      var ids := set id | id in db.rows && InEditWindow(db.rows[id], repo, user, path, now);
      if ids == {} {
        choice := None;
        assert forall id :: id in db.rows && InEditWindow(db.rows[id], repo, user, path, now) ==> id in ids;
      } else {
        var id := Newest(ids);
        choice := Some(id);
        assert forall j :: j in db.rows && InEditWindow(db.rows[j], repo, user, path, now) ==> j in ids;
      }
    }

    /** Every edit row of the window on one of `paths`, newest first. */
    method FindRecentEdits(b: Batch, paths: set<string>) returns (recent: seq<nat>)
      ensures NewestFirst(db, b, paths, recent)
    {
      var all := set id | id in db.rows && IsRecent(db.rows[id], b, paths);
      var rest := all;
      recent := [];
      while rest != {}
        invariant rest <= all
        invariant forall k :: 0 <= k < |recent| ==> recent[k] in all
        invariant forall id :: id in all - rest ==> id in recent
        invariant forall k, l :: 0 <= k < l < |recent| ==> db.rows[recent[l]].createdAt <= db.rows[recent[k]].createdAt
        invariant forall k, id :: 0 <= k < |recent| && id in rest ==>
                      db.rows[id].createdAt <= db.rows[recent[k]].createdAt
        decreases rest
      {
        var id := Newest(rest);
        recent := recent + [id];
        rest := rest - {id};
      }
    }

    // ---------- one call ----------

    /** Log one operation: append to the recent row, refresh the recent edit, or insert. */
    method LogActivity(c: Call)
      modifies this
      ensures Logs(old(db), c, db) && CallLeaves(old(db), c, db)
    {
      var choice := None;
      if c.tag.op.Aggregates() {
        choice := FindRecent(c.tag, c.now);
        if choice.Some? {
          var row := db.rows[choice.value];
          var detailArray := ParseDetail(row.detail, COMMON);
          if |detailArray| < MAX_ITEMS {
            db := Update(db, choice.value, Aggregated(row, detailArray + [DetailMap(c)], c.now));
            assert Answers(old(db), c, choice) && db == LogWith(old(db), c, choice);
            CallOutcome(old(db), c, db);
            return;
          }
        }
      }
      if c.tag.op == Edit {
        choice := FindRecentEdit(c.tag.repo, c.tag.user, c.path, c.now);
        if choice.Some? {
          db := Update(db, choice.value, db.rows[choice.value].(createdAt := c.now));
          assert Answers(old(db), c, choice) && db == LogWith(old(db), c, choice);
          CallOutcome(old(db), c, db);
          return;
        }
      }
      db := Insert(db, NewRow(c));
      assert Answers(old(db), c, choice) && db == LogWith(old(db), c, choice);
      CallOutcome(old(db), c, db);
    }

    // ---------- a batch ----------

    method InsertRows(rows: seq<Row>)
      modifies this
      ensures db == InsertMany(old(db), rows)
    {
      var i := 0;
      while i < |rows|
        invariant 0 <= i <= |rows|
        invariant InsertMany(db, rows[i..]) == InsertMany(old(db), rows)
      {
        db := Insert(db, rows[i]);
        i := i + 1;
      }
    }

    /** Of the recent rows, newest first, the first one of each path. */
    method LatestByPath(b: Batch, ghost paths: set<string>, recent: seq<nat>) returns (latest: map<string, nat>)
      requires NewestFirst(db, b, paths, recent)
      ensures LatestOk(db, b, paths, latest)
      ensures forall path :: path in latest ==> latest[path] in db.rows && db.rows[latest[path]].path == path
    {
      latest := map[];
      var i := 0;
      while i < |recent|
        invariant 0 <= i <= |recent|
        invariant FirstOfEach(db, recent[..i], latest)
      {
        FirstOneMore(db, b, paths, recent, i, latest);
        var path := db.rows[recent[i]].path;
        if path !in latest { latest := latest[path := recent[i]]; }
        i := i + 1;
      }
      assert recent[..i] == recent;
      FirstIsLatest(db, b, paths, recent, latest);
    }

    /** Refresh the recent row of each edited path, and collect the edits that have none. */
    method RefreshOrCollect(now: int, edits: seq<Row>, latest: map<string, nat>) returns (toInsert: seq<Row>)
      requires forall path :: path in latest ==> latest[path] in db.rows && db.rows[latest[path]].path == path
      modifies this
      ensures toInsert == FreshEdits(edits, latest)
      ensures db == RefreshSome(now, old(db), latest, edits)
    {
      assert db.rows == RefreshSome(now, db, latest, []).rows;
      toInsert := [];
      var i := 0;
      assert edits[..0] == [];
      while i < |edits|
        invariant 0 <= i <= |edits|
        invariant toInsert == FreshEdits(edits[..i], latest)
        invariant db == RefreshSome(now, old(db), latest, edits[..i])
      {
        assert edits[..i + 1] == edits[..i] + [edits[i]];
        RefreshOneMore(now, old(db), latest, edits[..i], edits[i]);
        FreshOneMore(edits[..i], edits[i], latest);
        if edits[i].path in latest {
          var id := latest[edits[i].path];
          db := Update(db, id, db.rows[id].(createdAt := now));
        } else {
          toInsert := toInsert + [edits[i]];
        }
        i := i + 1;
      }
      assert edits[..i] == edits;
    }

    method DedupEditItems(b: Batch, edits: seq<Row>) returns (ghost latest: map<string, nat>)
      modifies this
      ensures LatestOk(old(db), b, PathsOf(edits), latest)
      ensures db == DedupApply(b.now, old(db), edits, latest)
    {
      var recent := FindRecentEdits(b, set i | 0 <= i < |edits| :: edits[i].path);
      var latestByPath := LatestByPath(b, PathsOf(edits), recent);
      latest := latestByPath;
      var toInsert := RefreshOrCollect(b.now, edits, latestByPath);
      RefreshedEverything(b.now, old(db), latest, edits);
      InsertRows(toInsert);
    }

    /** One group: fill the recent row up to the cap, insert what does not fit. */
    method LogGroup(now: int, tag: Tag, news: seq<Row>) returns (choice: Option<nat>)
      requires AllLone(tag, news)
      modifies this
      ensures Picks(old(db), tag, now, choice)
      ensures db == GroupApply(now, old(db), news, choice)
    {
      choice := FindRecent(tag, now);
      if choice.None? {
        InsertRows(news);
        return;
      }
      var row := db.rows[choice.value];
      var parsed := ParseDetail(row.detail, COMMON_AND_MERGE);
      var detailArray, remaining := parsed, [];
      var i := 0;
      while i < |news|
        invariant 0 <= i <= |news|
        invariant detailArray == parsed + Objects(news[..Taken(i, |parsed|)])
        invariant remaining == news[Taken(i, |parsed|)..i]
      {
        if |detailArray| >= MAX_ITEMS {
          remaining := remaining + [news[i]];
        } else {
          assert news[..i + 1] == news[..i] + [news[i]];
          assert Objects(news[..i + 1]) == Objects(news[..i]) + [news[i].detail.obj];
          detailArray := detailArray + [news[i].detail.obj];
        }
        i := i + 1;
      }
      if |detailArray| > |parsed| {
        db := Update(db, choice.value, Aggregated(row, detailArray, now));
      }
      assert db == AppendFitting(now, old(db), news, choice);
      assert remaining == news[Fit(old(db), news, choice)..];
      if remaining != [] {
        InsertRows(remaining);
      }
    }

    /** The aggregating items under their type, each list in the order of the items. */
    method GroupItems(b: Batch, items: seq<ActivityItem>) returns (groups: Groups)
      ensures AreGroups(b, items, groups)
    {
      groups := map[];
      assert AreGroups(b, items[..0], groups);
      var i := 0;
      while i < |items|
        invariant 0 <= i <= |items|
        invariant AreGroups(b, items[..i], groups)
      {
        assert items[..i + 1] == items[..i] + [items[i]];
        GroupsGrow(b, items[..i], items[i], groups);
        if items[i].op.Aggregates() {
          groups := groups[TagOf(b, items[i]) := Of(groups, TagOf(b, items[i])) + [ToRow(b, items[i])]];
        }
        i := i + 1;
      }
      assert items[..i] == items;
    }

    /** The groups one after the other, in whatever order the map yields them. */
    method LogGroups(now: int, groups: Groups) returns (ghost order: seq<Tag>, ghost choices: Choices)
      requires WellGrouped(groups)
      modifies this
      ensures NoDuplicates(order) && Tags(order) == groups.Keys
      ensures RunsTo(now, old(db), order, groups, choices, db)
    {
      var pending := groups.Keys;
      order, choices := [], map[];
      while pending != {}
        invariant pending <= groups.Keys && Tags(order) == groups.Keys - pending && NoDuplicates(order)
        invariant RunsTo(now, old(db), order, groups, choices, db)
        decreases pending
      {
        var tag :| tag in pending;
        ghost var before := db;
        var choice := LogGroup(now, tag, groups[tag]);
        assert forall k :: 0 <= k < |order| ==> order[k] in Tags(order);
        RunsAppend(now, old(db), order, groups, choices, before, tag, choice);
        TagsAppend(order, tag);
        order, choices := order + [tag], choices[tag := choice];
        pending := pending - {tag};
      }
    }

    /** Log the items of one commit. */
    method LogActivityBatch(b: Batch, items: seq<ActivityItem>)
      modifies this
      ensures Batches(old(db), b, items, db)
      ensures old(db).Valid() ==> forall k :: 0 <= k < |items| ==> ItemLeaves(old(db), b, items[k], db)
    {
      var otherDirect, editItems := RowsOf(b, items, Others), RowsOf(b, items, Edits);
      InsertRows(otherDirect);
      ghost var latest := DedupEditItems(b, editItems);
      var groups := GroupItems(b, items);
      GroupsAreWell(b, items, groups);
      ghost var order, choices := LogGroups(b.now, groups);
      assert BatchVia(old(db), b, items, db, latest, groups, order, choices);
      if old(db).Valid() {
        forall k | 0 <= k < |items| ensures ItemLeaves(old(db), b, items[k], db) {
          BatchOutcome(old(db), b, items, db, k);
        }
      }
    }
  }
}
