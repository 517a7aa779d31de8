/**
 The aggregation groups of `log_activity_batch`: what one group does to the table,
 that a group keeps every item, and that the iteration order of the `HashMap` of
 groups does not matter.

 A group is a sequence of prepared rows, one per item; `news[i].detail.obj` is the item's
 detail object, which is appended to a recent row or inserted with the row itself.
 */
module ActivityBatch {
  import opened Sequences
  import opened Options
  import opened ActivityModel

  // The prepared rows of one group: the same tag, and a lone object each.
  ghost predicate AllLone(tag: Tag, news: seq<Row>) {
    forall i :: 0 <= i < |news| ==> news[i].tag == tag && news[i].detail.Lone?
  }

  function Objects(news: seq<Row>): seq<Item> {
    seq(|news|, i requires 0 <= i < |news| => if news[i].detail.Lone? then news[i].detail.obj else map[])
  }

  // How many of `n` items fit into a recent row which already holds `held` items.
  function Taken(n: nat, held: nat): nat {
    if held >= MAX_ITEMS then 0 else if n <= MAX_ITEMS - held then n else MAX_ITEMS - held
  }

  // How many items of the group the recent row takes.
  ghost function Fit(db: Db, news: seq<Row>, choice: Option<nat>): (k: nat)
    ensures k <= |news|
  {
    if choice.Some? && choice.value in db.rows then Taken(|news|, ItemCount(db.rows[choice.value].detail)) else 0
  }

  // The recent row after it has taken what fits.
  ghost function Filled(now: int, row: Row, news: seq<Row>): Row {
    var k := Taken(|news|, ItemCount(row.detail));
    if k == 0 then row
    else Aggregated(row, ParseDetail(row.detail, COMMON_AND_MERGE) + Objects(news[..k]), now)
  }

  ghost function AppendFitting(now: int, db: Db, news: seq<Row>, choice: Option<nat>): Db {
    if choice.Some? && choice.value in db.rows && Fit(db, news, choice) > 0 then
      Update(db, choice.value, Filled(now, db.rows[choice.value], news))
    else db
  }

  /** One group: the first items fill the recent row in order, the rest become rows of their own. */
  ghost function GroupApply(now: int, db: Db, news: seq<Row>, choice: Option<nat>): Db {
    InsertMany(AppendFitting(now, db, news, choice), news[Fit(db, news, choice)..])
  }

  // ---------- inserting many rows ----------

  ghost predicate Extends(db: Db, rows: seq<Row>, r: Db) {
    && r.next == db.next + |rows|
    && (forall id :: id in db.rows ==> id in r.rows && r.rows[id] == db.rows[id])
    && (forall id :: db.next <= id < r.next ==> id in r.rows && r.rows[id] == rows[id - db.next])
    && (forall id :: id in r.rows ==> id in db.rows || db.next <= id < r.next)
  }

  lemma {:induction false} InsertManyRows(db: Db, rows: seq<Row>)
    requires db.Valid()
    ensures InsertMany(db, rows).Valid() && Extends(db, rows, InsertMany(db, rows))
    decreases |rows|
  {
    if rows != [] {
      InsertManyRows(Insert(db, rows[0]), rows[1..]);
    }
  }

  lemma {:induction false} StoredInsertMany(db: Db, tag: Tag, news: seq<Row>)
    requires db.Valid() && tag.op.Aggregates() && AllLone(tag, news)
    ensures Stored(InsertMany(db, news)) == Stored(db) + EntriesUnder(tag, Objects(news))
    decreases |news|
  {
    if news != [] {
      var obj, rest := news[0].detail.obj, news[1..];
      StoredInsert(db, news[0]);
      StoredInsertMany(Insert(db, news[0]), tag, rest);
      LoneEntries(news[0]);
      EntriesOne(tag, obj);
      assert Objects(news) == [obj] + Objects(rest);
      EntriesConcat(tag, [obj], Objects(rest));
    }
  }

  lemma {:induction false} StoredInsertOthers(db: Db, rows: seq<Row>)
    requires db.Valid() && forall i :: 0 <= i < |rows| ==> !rows[i].tag.op.Aggregates() && rows[i].detail.Lone?
    ensures InsertMany(db, rows).Valid() && Stored(InsertMany(db, rows)) == Stored(db)
    ensures WithinCap(db) ==> WithinCap(InsertMany(db, rows))
    decreases |rows|
  {
    if rows != [] {
      StoredInsert(db, rows[0]);
      StoredInsertOthers(Insert(db, rows[0]), rows[1..]);
    }
  }

  // ---------- one group keeps every item ----------

  lemma AppendStores(now: int, db: Db, tag: Tag, news: seq<Row>, choice: Option<nat>)
    requires db.Valid() && tag.op.Aggregates() && AllLone(tag, news) && Picks(db, tag, now, choice)
    ensures AppendFitting(now, db, news, choice).Valid()
    ensures Stored(AppendFitting(now, db, news, choice))
         == Stored(db) + EntriesUnder(tag, Objects(news[..Fit(db, news, choice)]))
  {
    var k := Fit(db, news, choice);
    if k > 0 {
      var row, added := db.rows[choice.value], Objects(news[..k]);
      AggregatedEntries(row, COMMON_AND_MERGE, added, now);
      StoredGrow(db, choice.value, Aggregated(row, ParseDetail(row.detail, COMMON_AND_MERGE) + added, now),
                 EntriesUnder(tag, added));
    }
  }

  /**
   A group of n items meeting a recent row of k items appends the first min(n, 200 - k) and
   inserts the others: nothing is lost or duplicated.
   */
  lemma GroupConserves(now: int, db: Db, tag: Tag, news: seq<Row>, choice: Option<nat>)
    requires db.Valid() && tag.op.Aggregates() && AllLone(tag, news) && Picks(db, tag, now, choice)
    ensures GroupApply(now, db, news, choice).Valid()
    ensures Stored(GroupApply(now, db, news, choice)) == Stored(db) + EntriesUnder(tag, Objects(news))
  {
    var k := Fit(db, news, choice);
    var mid := AppendFitting(now, db, news, choice);
    AppendStores(now, db, tag, news, choice);
    InsertManyRows(mid, news[k..]);
    StoredInsertMany(mid, tag, news[k..]);
    SplitEntries(tag, news, k);
  }

  lemma SplitEntries(tag: Tag, news: seq<Row>, k: nat)
    requires k <= |news|
    ensures EntriesUnder(tag, Objects(news))
             == EntriesUnder(tag, Objects(news[..k])) + EntriesUnder(tag, Objects(news[k..]))
  {
    EntriesConcat(tag, Objects(news[..k]), Objects(news[k..]));
    assert Objects(news) == Objects(news[..k]) + Objects(news[k..]);
  }

  lemma GroupKeepsCap(now: int, db: Db, tag: Tag, news: seq<Row>, choice: Option<nat>)
    requires db.Valid() && AllLone(tag, news) && Picks(db, tag, now, choice) && WithinCap(db)
    ensures WithinCap(GroupApply(now, db, news, choice))
  {
    InsertManyRows(AppendFitting(now, db, news, choice), news[Fit(db, news, choice)..]);
  }

  // ---------- a run of groups in some order ----------

  type Groups = map<Tag, seq<Row>>
  type Choices = map<Tag, Option<nat>>

  ghost predicate WellGrouped(groups: Groups) {
    forall tag :: tag in groups ==> tag.op.Aggregates() && AllLone(tag, groups[tag])
  }

  ghost predicate NoDuplicates<T>(s: seq<T>) {
    forall i, j :: 0 <= i < j < |s| ==> s[i] != s[j]
  }

  function Of(groups: Groups, tag: Tag): seq<Row> {
    if tag in groups then groups[tag] else []
  }

  function Answer(choices: Choices, tag: Tag): Option<nat> {
    if tag in choices then choices[tag] else None
  }

  ghost predicate Known(order: seq<Tag>, groups: Groups) {
    forall i :: 0 <= i < |order| ==> order[i] in groups
  }

  ghost function Step(now: int, db: Db, tag: Tag, groups: Groups, choices: Choices): Db {
    GroupApply(now, db, Of(groups, tag), Answer(choices, tag))
  }

  /** The groups taken in `order`, each query answered by `choices`, end in `db'`. */
  ghost predicate RunsTo(now: int, db: Db, order: seq<Tag>, groups: Groups, choices: Choices, db': Db)
    decreases |order|
  {
    if order == [] then db' == db
    else
      && Picks(db, order[0], now, Answer(choices, order[0]))
      && RunsTo(now, Step(now, db, order[0], groups, choices), order[1..], groups, choices, db')
  }

  ghost function GroupEntries(order: seq<Tag>, groups: Groups): multiset<Entry>
    decreases |order|
  {
    if order == [] then multiset{}
    else EntriesUnder(order[0], Objects(Of(groups, order[0]))) + GroupEntries(order[1..], groups)
  }

  /** A batch of groups, in any order, stores exactly its items more. */
  lemma {:induction false} RunConserves(now: int, db: Db, order: seq<Tag>, groups: Groups, choices: Choices, db': Db)
    requires db.Valid() && WellGrouped(groups) && Known(order, groups)
    requires RunsTo(now, db, order, groups, choices, db')
    ensures db'.Valid() && (WithinCap(db) ==> WithinCap(db'))
    ensures Stored(db') == Stored(db) + GroupEntries(order, groups)
    decreases |order|
  {
    if order != [] {
      GroupConserves(now, db, order[0], groups[order[0]], Answer(choices, order[0]));
      if WithinCap(db) { GroupKeepsCap(now, db, order[0], groups[order[0]], Answer(choices, order[0])); }
      RunConserves(now, Step(now, db, order[0], groups, choices), order[1..], groups, choices, db');
    }
  }

  // ---------- the closed form of a run ----------

  // What a run over the groups `tags` makes of the old row `id`: only the group with the
  // row's own tag can touch it, and what it does is decided by the initial table.
  ghost function NewVersion(now: int, db: Db, id: nat, tags: set<Tag>, groups: Groups, choices: Choices): Row
    requires id in db.rows
  {
    var row := db.rows[id];
    if row.tag in tags && Answer(choices, row.tag) == Some(id) then
      Filled(now, row, Of(groups, row.tag))
    else row
  }

  // The rows one group inserts.
  ghost function OwnRows(db: Db, tag: Tag, groups: Groups, choices: Choices): seq<Row> {
    Of(groups, tag)[Fit(db, Of(groups, tag), Answer(choices, tag))..]
  }

  // The rows inserted by the groups in `order`, as judged from the initial table.
  ghost function LeftOver(db: Db, order: seq<Tag>, groups: Groups, choices: Choices): seq<Row>
    decreases |order|
  {
    if order == [] then [] else OwnRows(db, order[0], groups, choices) + LeftOver(db, order[1..], groups, choices)
  }

  ghost function Tags(order: seq<Tag>): set<Tag> { set i | 0 <= i < |order| :: order[i] }

  ghost function Rewritten(now: int, db: Db, tags: set<Tag>, groups: Groups, choices: Choices): Db {
    Db(map id | id in db.rows :: NewVersion(now, db, id, tags, groups, choices), db.next)
  }

  ghost predicate Closed(now: int, db: Db, order: seq<Tag>, groups: Groups, choices: Choices, r: Db) {
    Extends(Rewritten(now, db, Tags(order), groups, choices), LeftOver(db, order, groups, choices), r)
  }

  ghost predicate AllPicked(now: int, db: Db, order: seq<Tag>, choices: Choices) {
    forall i :: 0 <= i < |order| ==> Picks(db, order[i], now, Answer(choices, order[i]))
  }

  /** What one group makes of an old row. */
  lemma GroupAtOld(now: int, db: Db, news: seq<Row>, choice: Option<nat>, id: nat)
    requires db.Valid() && id in db.rows
    ensures id in GroupApply(now, db, news, choice).rows
    ensures GroupApply(now, db, news, choice).rows[id]
         == if choice == Some(id) then Filled(now, db.rows[id], news) else db.rows[id]
  {
    InsertManyRows(AppendFitting(now, db, news, choice), news[Fit(db, news, choice)..]);
  }

  lemma StepAtNew(now: int, db: Db, tag: Tag, groups: Groups, choices: Choices)
    requires db.Valid() && WellGrouped(groups) && tag in groups && Picks(db, tag, now, Answer(choices, tag))
    ensures var mid, own := Step(now, db, tag, groups, choices), OwnRows(db, tag, groups, choices);
            && mid.next == db.next + |own|
            && (forall id :: id in mid.rows ==> id in db.rows || db.next <= id < mid.next)
            && (forall id :: db.next <= id < mid.next ==> id in mid.rows && mid.rows[id] == own[id - db.next])
            && (forall id :: db.next <= id < mid.next ==> mid.rows[id].tag == tag)
  {
    var news, choice := groups[tag], Answer(choices, tag);
    var mid := AppendFitting(now, db, news, choice);
    AppendFrame(now, db, news, choice);
    InsertManyRows(mid, news[Fit(db, news, choice)..]);
    ExtendsAtNew(mid, news[Fit(db, news, choice)..], Step(now, db, tag, groups, choices), tag);
  }

  lemma AppendFrame(now: int, db: Db, news: seq<Row>, choice: Option<nat>)
    requires db.Valid()
    ensures var mid := AppendFitting(now, db, news, choice);
            mid.Valid() && mid.next == db.next && forall id :: id in mid.rows <==> id in db.rows
  {
  }

  lemma ExtendsAtNew(db: Db, rows: seq<Row>, r: Db, tag: Tag)
    requires Extends(db, rows, r) && AllLone(tag, rows)
    ensures r.next == db.next + |rows|
    ensures forall id :: id in r.rows ==> id in db.rows || db.next <= id < r.next
    ensures forall id :: db.next <= id < r.next ==>
              id in r.rows && r.rows[id] == rows[id - db.next] && r.rows[id].tag == tag
  {
  }

  /** A group only touches and inserts rows of its own tag. */
  lemma StepFrame(now: int, db: Db, tag: Tag, groups: Groups, choices: Choices)
    requires db.Valid() && WellGrouped(groups) && tag in groups && Picks(db, tag, now, Answer(choices, tag))
    ensures var mid := Step(now, db, tag, groups, choices);
            && mid.Valid() && db.next <= mid.next
            && (forall id :: id in db.rows ==> id in mid.rows && mid.rows[id].tag == db.rows[id].tag)
            && (forall id :: id in db.rows && db.rows[id].tag != tag ==> mid.rows[id] == db.rows[id])
            && (forall id :: id in mid.rows && mid.rows[id].tag != tag ==> id in db.rows)
  {
    GroupConserves(now, db, tag, groups[tag], Answer(choices, tag));
    StepAtNew(now, db, tag, groups, choices);
    forall id | id in db.rows
      ensures var mid := Step(now, db, tag, groups, choices);
              && id in mid.rows && mid.rows[id].tag == db.rows[id].tag
              && (db.rows[id].tag != tag ==> mid.rows[id] == db.rows[id])
    {
      GroupAtOld(now, db, groups[tag], Answer(choices, tag), id);
    }
  }

  /** Another group's query has the same answers before and after a group of a different tag. */
  lemma StepKeepsOtherQueries(now: int, db: Db, tag: Tag, groups: Groups, choices: Choices, other: Tag,
                              answer: Option<nat>)
    requires db.Valid() && WellGrouped(groups) && tag in groups && Picks(db, tag, now, Answer(choices, tag))
    requires other != tag
    ensures Picks(db, other, now, answer) <==> Picks(Step(now, db, tag, groups, choices), other, now, answer)
  {
    StepFrame(now, db, tag, groups, choices);
    var mid := Step(now, db, tag, groups, choices);
    assert forall id :: id in mid.rows && InWindow(mid.rows[id], other, now) ==>
          id in db.rows && mid.rows[id] == db.rows[id];
    assert forall id :: id in db.rows && InWindow(db.rows[id], other, now) ==>
          id in mid.rows && mid.rows[id] == db.rows[id];
  }

  lemma TagsTail(order: seq<Tag>)
    requires order != []
    ensures Tags(order) == {order[0]} + Tags(order[1..])
    ensures NoDuplicates(order) ==> NoDuplicates(order[1..]) && order[0] !in Tags(order[1..])
  {
  }

  /** Seen from after a step of another tag, a group still fits the same number of items. */
  lemma {:induction false} LeftOverAfter(now: int, db: Db, tag: Tag, order: seq<Tag>, groups: Groups, choices: Choices)
    requires db.Valid() && WellGrouped(groups) && tag in groups && Picks(db, tag, now, Answer(choices, tag))
    requires tag !in Tags(order) && AllPicked(now, db, order, choices)
    ensures LeftOver(Step(now, db, tag, groups, choices), order, groups, choices)
             == LeftOver(db, order, groups, choices)
    decreases |order|
  {
    if order != [] {
      TagsTail(order);
      LeftOverAfter(now, db, tag, order[1..], groups, choices);
      StepFrame(now, db, tag, groups, choices);
    }
  }

  lemma ExtendsTransitive(a: Db, x: seq<Row>, b: Db, y: seq<Row>, c: Db)
    requires Extends(a, x, b) && Extends(b, y, c)
    ensures Extends(a, x + y, c)
  {
  }

  lemma RewriteOld(now: int, db: Db, order: seq<Tag>, groups: Groups, choices: Choices, id: nat)
    requires db.Valid() && WellGrouped(groups) && Known(order, groups) && NoDuplicates(order) && order != []
    requires AllPicked(now, db, order, choices) && id in db.rows
    ensures id in Step(now, db, order[0], groups, choices).rows
    ensures NewVersion(now, Step(now, db, order[0], groups, choices), id, Tags(order[1..]), groups, choices)
         == NewVersion(now, db, id, Tags(order), groups, choices)
  {
    TagsTail(order);
    assert Picks(db, order[0], now, Answer(choices, order[0]));
    GroupAtOld(now, db, groups[order[0]], Answer(choices, order[0]), id);
    StepFrame(now, db, order[0], groups, choices);
  }

  lemma RewriteStep(now: int, db: Db, order: seq<Tag>, groups: Groups, choices: Choices)
    requires db.Valid() && WellGrouped(groups) && Known(order, groups) && NoDuplicates(order) && order != []
    requires AllPicked(now, db, order, choices)
    ensures Extends(Rewritten(now, db, Tags(order), groups, choices), OwnRows(db, order[0], groups, choices),
                    Rewritten(now, Step(now, db, order[0], groups, choices), Tags(order[1..]), groups, choices))
  {
    var mid := Step(now, db, order[0], groups, choices);
    var base := Rewritten(now, db, Tags(order), groups, choices);
    var next := Rewritten(now, mid, Tags(order[1..]), groups, choices);
    forall id | id in base.rows ensures id in next.rows && next.rows[id] == base.rows[id] {
      RewriteOld(now, db, order, groups, choices, id);
    }
    RewriteNew(now, db, order, groups, choices);
    ExtendsFrom(base, OwnRows(db, order[0], groups, choices), next);
  }

  lemma ExtendsFrom(base: Db, own: seq<Row>, next: Db)
    requires next.next == base.next + |own|
    requires forall id :: id in base.rows ==> id in next.rows && next.rows[id] == base.rows[id]
    requires forall id :: id in next.rows ==> id in base.rows || base.next <= id < next.next
    requires forall id :: base.next <= id < next.next ==> id in next.rows && next.rows[id] == own[id - base.next]
    ensures Extends(base, own, next)
  {
  }

  lemma RewriteNew(now: int, db: Db, order: seq<Tag>, groups: Groups, choices: Choices)
    requires db.Valid() && WellGrouped(groups) && Known(order, groups) && NoDuplicates(order) && order != []
    requires AllPicked(now, db, order, choices)
    ensures var mid, own := Step(now, db, order[0], groups, choices), OwnRows(db, order[0], groups, choices);
            && mid.next == db.next + |own|
            && (forall id :: id in mid.rows ==> id in db.rows || db.next <= id < mid.next)
            && (forall id :: db.next <= id < mid.next ==>
                  id in mid.rows && NewVersion(now, mid, id, Tags(order[1..]), groups, choices) == own[id - db.next])
  {
    TagsTail(order);
    assert Picks(db, order[0], now, Answer(choices, order[0]));
    StepAtNew(now, db, order[0], groups, choices);
  }

  /** The closed form of the remaining groups, prefixed by one more group. */
  lemma ClosedStep(now: int, db: Db, order: seq<Tag>, groups: Groups, choices: Choices, r: Db)
    requires db.Valid() && WellGrouped(groups) && Known(order, groups) && NoDuplicates(order) && order != []
    requires AllPicked(now, db, order, choices)
    requires Closed(now, Step(now, db, order[0], groups, choices), order[1..], groups, choices, r)
    ensures Closed(now, db, order, groups, choices, r)
  {
    var mid, rest := Step(now, db, order[0], groups, choices), order[1..];
    TagsTail(order);
    assert AllPicked(now, db, rest, choices);
    LeftOverAfter(now, db, order[0], rest, groups, choices);
    RewriteStep(now, db, order, groups, choices);
    ExtendsTransitive(Rewritten(now, db, Tags(order), groups, choices), OwnRows(db, order[0], groups, choices),
                      Rewritten(now, mid, Tags(rest), groups, choices), LeftOver(mid, rest, groups, choices), r);
  }

  /**
   The whole batch in closed form: every old row is rewritten by the group of its own tag as
   judged from the initial table, and the left-over items are inserted group by group.
   */
  lemma {:induction false} RunIsClosed(now: int, db: Db, order: seq<Tag>, groups: Groups, choices: Choices, db': Db)
    requires db.Valid() && WellGrouped(groups) && Known(order, groups) && NoDuplicates(order)
    requires RunsTo(now, db, order, groups, choices, db')
    ensures AllPicked(now, db, order, choices)
    ensures Closed(now, db, order, groups, choices, db')
    decreases |order|
  {
    if order != [] {
      var tag, rest := order[0], order[1..];
      var mid := Step(now, db, tag, groups, choices);
      TagsTail(order);
      StepFrame(now, db, tag, groups, choices);
      RunIsClosed(now, mid, rest, groups, choices, db');
      forall i | 0 <= i < |order| ensures Picks(db, order[i], now, Answer(choices, order[i])) {
        if i > 0 {
          assert order[i] == rest[i - 1];
          StepKeepsOtherQueries(now, db, tag, groups, choices, order[i], Answer(choices, order[i]));
        }
      }
      ClosedStep(now, db, order, groups, choices, db');
    }
  }

  lemma {:induction false} RunExists(now: int, db: Db, order: seq<Tag>, groups: Groups, choices: Choices)
    returns (db': Db)
    requires db.Valid() && WellGrouped(groups) && Known(order, groups) && NoDuplicates(order)
    requires AllPicked(now, db, order, choices)
    ensures RunsTo(now, db, order, groups, choices, db')
    decreases |order|
  {
    db' := db;
    if order != [] {
      var tag, rest := order[0], order[1..];
      TagsTail(order);
      StepFrame(now, db, tag, groups, choices);
      forall i | 0 <= i < |rest|
        ensures Picks(Step(now, db, tag, groups, choices), rest[i], now, Answer(choices, rest[i]))
      {
        assert rest[i] == order[i + 1];
        StepKeepsOtherQueries(now, db, tag, groups, choices, rest[i], Answer(choices, rest[i]));
      }
      db' := RunExists(now, Step(now, db, tag, groups, choices), rest, groups, choices);
    }
  }

  // ---------- permutations ----------

  lemma {:induction false} LeftOverSplit(db: Db, p: seq<Tag>, q: seq<Tag>, groups: Groups, choices: Choices)
    ensures LeftOver(db, p + q, groups, choices) == LeftOver(db, p, groups, choices) + LeftOver(db, q, groups, choices)
    decreases |p|
  {
    if p == [] {
      assert p + q == q;
    } else {
      var own, rest, more :=
        OwnRows(db, p[0], groups, choices), LeftOver(db, p[1..], groups, choices), LeftOver(db, q, groups, choices);
      LeftOverSplit(db, p[1..], q, groups, choices);
      LeftOverFirst(db, p, q, groups, choices);
      Associate(own, rest, more);
    }
  }

  lemma LeftOverFirst(db: Db, p: seq<Tag>, q: seq<Tag>, groups: Groups, choices: Choices)
    requires p != []
    ensures LeftOver(db, p + q, groups, choices)
         == OwnRows(db, p[0], groups, choices) + LeftOver(db, p[1..] + q, groups, choices)
  {
    assert (p + q)[1..] == p[1..] + q && (p + q)[0] == p[0];
  }

  // Moving one group to the front does not change the multiset of left-over rows.
  lemma LeftOverMove(db: Db, a: seq<Tag>, tag: Tag, b: seq<Tag>, groups: Groups, choices: Choices)
    ensures multiset(LeftOver(db, a + ([tag] + b), groups, choices))
         == multiset(OwnRows(db, tag, groups, choices)) + multiset(LeftOver(db, a + b, groups, choices))
  {
    LeftOverSplit(db, a, [tag] + b, groups, choices);
    LeftOverSplit(db, a, b, groups, choices);
    assert ([tag] + b)[1..] == b;
  }

  lemma TakeOut(q: seq<Tag>, i: nat)
    requires i < |q|
    ensures q == q[..i] + ([q[i]] + q[i + 1..])
    ensures multiset(q[..i] + q[i + 1..]) == multiset(q) - multiset{q[i]}
  {
    assert q == q[..i] + ([q[i]] + q[i + 1..]);
    assert multiset(q) == multiset(q[..i]) + (multiset{q[i]} + multiset(q[i + 1..]));
  }

  lemma RemoveOne(p: seq<Tag>, q: seq<Tag>, i: nat)
    requires p != [] && multiset(p) == multiset(q) && i < |q| && q[i] == p[0]
    ensures q == q[..i] + ([p[0]] + q[i + 1..])
    ensures multiset(p[1..]) == multiset(q[..i] + q[i + 1..])
  {
    TakeOut(q, i);
    TakeOut(p, 0);
    assert p[..0] + p[1..] == p[1..];
  }

  lemma {:induction false} LeftOverPermutes(db: Db, p: seq<Tag>, q: seq<Tag>, groups: Groups, choices: Choices)
    requires multiset(p) == multiset(q)
    ensures multiset(LeftOver(db, p, groups, choices)) == multiset(LeftOver(db, q, groups, choices))
    decreases |p|
  {
    if p == [] {
      assert |q| == |multiset(q)| == 0;
    } else {
      assert p[0] in multiset(q);
      var i :| 0 <= i < |q| && q[i] == p[0];
      RemoveOne(p, q, i);
      LeftOverPermutes(db, p[1..], q[..i] + q[i + 1..], groups, choices);
      LeftOverMove(db, q[..i], p[0], q[i + 1..], groups, choices);
    }
  }

  lemma {:induction false} CountAtMostOne(p: seq<Tag>, t: Tag)
    requires NoDuplicates(p)
    ensures multiset(p)[t] <= 1
    decreases |p|
  {
    if p != [] {
      var p' := p[..|p| - 1];
      CountAtMostOne(p', t);
      assert p == p' + [p[|p| - 1]];
    }
  }

  lemma CountTwice(q: seq<Tag>, i: nat, j: nat)
    requires i < j < |q| && q[i] == q[j]
    ensures multiset(q)[q[i]] >= 2
  {
    assert q == q[..j] + [q[j]] + q[j + 1..];
    assert q[i] in q[..j];
  }

  lemma PermutationFacts(p: seq<Tag>, q: seq<Tag>)
    requires NoDuplicates(p) && multiset(p) == multiset(q)
    ensures NoDuplicates(q) && Tags(p) == Tags(q)
  {
    forall i, j | 0 <= i < j < |q| ensures q[i] != q[j] {
      CountAtMostOne(p, q[i]);
      if q[i] == q[j] {
        CountTwice(q, i, j);
      }
    }
    forall t ensures t in Tags(p) <==> t in Tags(q) {
      assert t in multiset(p) <==> t in multiset(q);
    }
  }

  /** The same rows, except that the rows newer than `db` may have exchanged their ids. */
  ghost predicate SameUpToNewIds(db: Db, x: Db, y: Db) {
    && x.next == y.next && (forall id :: id in x.rows <==> id in y.rows) && db.next <= x.next
    && (forall id :: id in db.rows ==> id in x.rows && x.rows[id] == y.rows[id])
    && (forall id :: db.next <= id < x.next ==> id in x.rows)
    && multiset(RowsFrom(db.next, x)) == multiset(RowsFrom(db.next, y))
  }

  ghost function RowsFrom(base: nat, db: Db): seq<Row>
    requires base <= db.next && forall id :: base <= id < db.next ==> id in db.rows
  {
    seq(db.next - base, i requires 0 <= i < db.next - base => db.rows[base + i])
  }

  /**
   Order independence: whatever table one iteration order of the groups can end in, every
   other order can end in too, up to the ids of the rows it inserted.
   */
  lemma GroupOrderDoesNotMatter(now: int, db: Db, p: seq<Tag>, q: seq<Tag>, groups: Groups, choices: Choices, x: Db)
    returns (y: Db)
    requires db.Valid() && WellGrouped(groups) && Known(p, groups) && NoDuplicates(p)
    requires multiset(p) == multiset(q) && RunsTo(now, db, p, groups, choices, x)
    ensures RunsTo(now, db, q, groups, choices, y)
    ensures SameUpToNewIds(db, x, y)
  {
    RunIsClosed(now, db, p, groups, choices, x);
    PermutationFacts(p, q);
    forall i | 0 <= i < |q| ensures q[i] in p { assert q[i] in multiset(q); }
    y := RunExists(now, db, q, groups, choices);
    RunIsClosed(now, db, q, groups, choices, y);
    LeftOverPermutes(db, p, q, groups, choices);
    SameBaseSameRows(db, Rewritten(now, db, Tags(p), groups, choices),
                     LeftOver(db, p, groups, choices), LeftOver(db, q, groups, choices), x, y);
  }

  lemma SameBaseSameRows(db: Db, base: Db, a: seq<Row>, c: seq<Row>, x: Db, y: Db)
    requires base.next == db.next && base.rows.Keys == db.rows.Keys
    requires Extends(base, a, x) && Extends(base, c, y) && multiset(a) == multiset(c)
    ensures SameUpToNewIds(db, x, y)
  {
    assert |a| == |multiset(a)| == |multiset(c)| == |c|;
    NewRowsOf(db, base, a, x);
    NewRowsOf(db, base, c, y);
  }

  lemma NewRowsOf(db: Db, base: Db, rows: seq<Row>, r: Db)
    requires base.next == db.next && base.rows.Keys == db.rows.Keys && Extends(base, rows, r)
    ensures db.next <= r.next && (forall id :: db.next <= id < r.next ==> id in r.rows)
    ensures RowsFrom(db.next, r) == rows
    ensures forall id :: id in db.rows ==> id in r.rows && r.rows[id] == base.rows[id]
    ensures forall id :: id in r.rows <==> id in db.rows || db.next <= id < r.next
  {
  }
}
