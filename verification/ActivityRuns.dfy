/**
 Particular runs of the activity protocol: one process on its own, and overlaps that lose items.
 */
module ActivityRuns {
  import opened Options
  import opened ActivityModel
  import opened ActivityBatch
  import opened ActivityCalls
  import opened ActivityLog
  import opened ActivityProtocol
  import opened ActivityConservation

  ghost predicate Goes(s: State, actions: seq<Action>, last: State) {
    Runs(s, actions) && After(s, actions) == last
  }

  lemma Prepend(s: State, a: Action, s': State, actions: seq<Action>, last: State)
    requires Enabled(s, a) && Apply(s, a) == s' && Goes(s', actions, last)
    ensures Goes(s, [a] + actions, last)
    ensures SomeStaleWrite(s, [a] + actions) <==> StaleWrite(s, a) || SomeStaleWrite(s', actions)
  {
    assert ([a] + actions)[1..] == actions;
  }

  // ---------- one process on its own ----------

  ghost function Solo(s: State, job: Job, phase: Phase, holder: Option<nat>): State {
    s.(procs := map[0 := Proc(job, phase)], holder := holder, logged := s.logged + JobEntries(job))
  }

  lemma OneMoved(job: Job, x: Phase, y: Phase)
    ensures map[0 := Proc(job, x)][0 := Proc(job, y)] == map[0 := Proc(job, y)]
  {
  }

  ghost function ReadPhase(s: State, job: Job, choice: Option<nat>): Phase {
    if Fits(s.db, job, choice)
    then HasRead(choice.value, s.db.rows[choice.value].detail, EverWritten(s.db, s.lost, choice.value), false)
    else Inserting(job.Rows())
  }

  // The state in which a job may query, and the one after its query.
  ghost function Ready(s: State, job: Job): State {
    if job.Single? then Solo(s, job, Locked, Some(0)) else Solo(s, job, Started, None)
  }

  lemma SoloQuery(s: State, job: Job, choice: Option<nat>) returns (holder: Option<nat>)
    requires Picks(s.db, job.Label(), job.Clock(), choice)
    ensures Enabled(Ready(s, job), Query(0, choice))
    ensures Apply(Ready(s, job), Query(0, choice)) == Solo(s, job, ReadPhase(s, job, choice), holder)
  {
    holder := if job.Single? && Fits(s.db, job, choice) then Some(0) else None;
    OneMoved(job, if job.Single? then Locked else Started, ReadPhase(s, job, choice));
  }

  // The table once a process that has queried is through.
  ghost function Through(db: Db, job: Job, choice: Option<nat>): Db {
    if Fits(db, job, choice) then
      var row := db.rows[choice.value];
      InsertMany(Update(db, choice.value, WrittenBack(row, row.detail, job)), job.Rows()[Fitting(job, row.detail)..])
    else InsertMany(db, job.Rows())
  }

  lemma SoloInsert(s: State) returns (actions: seq<Action>, last: State)
    requires s.procs.Keys == {0} && (s.procs[0].phase.Inserting? || s.procs[0].phase.Done?)
    ensures Goes(s, actions, last) && AllDone(last)
    ensures last.db == if s.procs[0].phase.Inserting? then InsertMany(s.db, s.procs[0].phase.rows) else s.db
  {
    if s.procs[0].phase.Done? {
      actions, last := [], s;
    } else {
      last := Apply(s, InsertRow(0));
      Prepend(s, InsertRow(0), last, [], last);
      actions := [InsertRow(0)] + [];
    }
  }

  lemma SoloFinish(s: State, job: Job, choice: Option<nat>, holder: Option<nat>)
    returns (actions: seq<Action>, last: State)
    ensures Goes(Solo(s, job, ReadPhase(s, job, choice), holder), actions, last)
    ensures AllDone(last) && last.db == Through(s.db, job, choice)
  {
    var read := Solo(s, job, ReadPhase(s, job, choice), holder);
    if Fits(s.db, job, choice) {
      var written := Written(read, 0);
      WriteMoves(read, 0);
      var tail;
      tail, last := SoloInsert(written);
      Prepend(read, Write(0), written, tail, last);
      actions := [Write(0)] + tail;
    } else {
      actions, last := SoloInsert(read);
    }
  }

  lemma SoloAggregate(s: State, job: Job, choice: Option<nat>) returns (actions: seq<Action>)
    requires s.procs == map[] && s.holder == None && job.Valid() && job.Label().op.Aggregates()
    requires Picks(s.db, job.Label(), job.Clock(), choice)
    ensures Runs(s, actions) && AllDone(After(s, actions)) && After(s, actions).db == Through(s.db, job, choice)
  {
    var holder := SoloQuery(s, job, choice);
    var tail, last := SoloFinish(s, job, choice, holder);
    Prepend(Ready(s, job), Query(0, choice), Solo(s, job, ReadPhase(s, job, choice), holder), tail, last);
    var queried := [Query(0, choice)] + tail;
    var started := Solo(s, job, Started, None);
    if job.Single? {
      OneMoved(job, Started, Locked);
      Prepend(started, Lock(0), Ready(s, job), queried, last);
      queried := [Lock(0)] + queried;
    }
    assert Apply(s, Begin(0, job)) == started;
    Prepend(s, Begin(0, job), started, queried, last);
    actions := [Begin(0, job)] + queried;
  }

  /** A group on its own does what a group is specified to do. */
  lemma SoloGroupIsARun(s: State, tag: Tag, now: int, news: seq<Row>, choice: Option<nat>)
    returns (actions: seq<Action>)
    requires s.procs == map[] && s.holder == None && tag.op.Aggregates() && AllLone(tag, news)
    requires Picks(s.db, tag, now, choice)
    ensures Runs(s, actions) && AllDone(After(s, actions))
    ensures After(s, actions).db == GroupApply(now, s.db, news, choice)
  {
    actions := SoloAggregate(s, Group(tag, now, news), choice);
  }

  /** A call on its own does what a call is specified to do. */
  lemma SoloCallIsARun(s: State, c: Call, db': Db) returns (actions: seq<Action>)
    requires s.procs == map[] && s.holder == None && Logs(s.db, c, db')
    ensures Runs(s, actions) && AllDone(After(s, actions)) && After(s, actions).db == db'
  {
    var choice :| Answers(s.db, c, choice) && db' == LogWith(s.db, c, choice);
    if c.tag.op.Aggregates() {
      actions := SoloAggregate(s, Single(c), choice);
      SingleThrough(s.db, c, choice);
    } else {
      actions := SoloOther(s, c, choice);
    }
  }

  lemma InsertOne(db: Db, row: Row)
    ensures InsertMany(db, [row]) == Insert(db, row) && InsertMany(db, []) == db
  {
    assert [row][1..] == [];
  }

  lemma SingleThrough(db: Db, c: Call, choice: Option<nat>)
    requires c.tag.op.Aggregates() && Picks(db, c.tag, c.now, choice)
    ensures Through(db, Single(c), choice) == LogWith(db, c, choice)
  {
    InsertOne(db, NewRow(c));
    assert Objects([NewRow(c)]) == [DetailMap(c)];
    if Fits(db, Single(c), choice) {
      assert [NewRow(c)][..1] == [NewRow(c)] && [NewRow(c)][1..] == [];
    }
  }

  lemma SoloOther(s: State, c: Call, choice: Option<nat>) returns (actions: seq<Action>)
    requires s.procs == map[] && s.holder == None && !c.tag.op.Aggregates() && Answers(s.db, c, choice)
    ensures Runs(s, actions) && AllDone(After(s, actions)) && After(s, actions).db == LogWith(s.db, c, choice)
  {
    var job := Single(c);
    var started := Solo(s, job, Started, None);
    var phase := if c.tag.op == Edit && choice.Some? then Refreshing(choice.value) else Inserting([NewRow(c)]);
    var next, a := Solo(s, job, phase, None), if c.tag.op == Edit then QueryEdit(0, choice) else Direct(0);
    OneMoved(job, Started, phase);
    assert Enabled(started, a) && Apply(started, a) == next;
    var tail, last := SoloEnd(s, next, c, choice);
    Prepend(started, a, next, tail, last);
    assert Apply(s, Begin(0, job)) == started;
    Prepend(s, Begin(0, job), started, [a] + tail, last);
    actions := [Begin(0, job)] + ([a] + tail);
  }

  lemma SoloEnd(s: State, next: State, c: Call, choice: Option<nat>) returns (actions: seq<Action>, last: State)
    requires next.db == s.db && next.procs.Keys == {0} && next.procs[0].job == Single(c) && !c.tag.op.Aggregates()
    requires next.procs[0].phase
          == if c.tag.op == Edit && choice.Some? then Refreshing(choice.value) else Inserting([NewRow(c)])
    requires c.tag.op == Edit && choice.Some? ==> choice.value in s.db.rows
    ensures Goes(next, actions, last) && AllDone(last) && last.db == LogWith(s.db, c, choice)
  {
    InsertOne(s.db, NewRow(c));
    if next.procs[0].phase.Inserting? {
      actions, last := SoloInsert(next);
    } else {
      last := Apply(next, Refresh(0));
      Prepend(next, Refresh(0), last, [], last);
      actions := [Refresh(0)] + [];
    }
  }

  // ---------- two processes that overlap ----------

  predicate FitsWhole(p: Proc)
    requires p.phase.HasRead?
  {
    Fitting(p.job, p.phase.detail) == |p.job.Rows()|
  }

  /** Of two processes that have both read a row, the second to write is stale. */
  lemma SecondIsStale(s: State, first: nat, second: nat) returns (actions: seq<Action>, last: State)
    requires first != second && s.procs.Keys == {first, second}
    requires forall p :: p in s.procs ==> s.procs[p].phase.HasRead? && FitsWhole(s.procs[p])
    requires s.procs[first].phase.id == s.procs[second].phase.id
    ensures Goes(s, actions, last) && SomeStaleWrite(s, actions) && AllDone(last)
  {
    var mid := Written(s, first);
    WriteMoves(s, first);
    WritesAll(s, first);
    last := Written(mid, second);
    WriteMoves(mid, second);
    WritesAll(mid, second);
    Prepend(mid, Write(second), last, [], last);
    Prepend(s, Write(first), mid, [Write(second)] + [], last);
    actions := [Write(first)] + ([Write(second)] + []);
  }

  lemma WritesAll(s: State, p: nat)
    requires At(s, p) && s.procs[p].phase.HasRead? && FitsWhole(s.procs[p])
    ensures Written(s, p).procs[p].phase == Done
  {
  }

  // A call or a group for one item.
  ghost predicate OneItem(c: Call, job: Job) { job == Single(c) || job == Group(c.tag, c.now, [NewRow(c)]) }

  // Two processes over a table with one recent row.
  ghost function Both(c: Call, x: Proc, y: Proc, holder: Option<nat>): State {
    State(Db(map[0 := NewRow(c)], 1), map[0 := x, 1 := y], holder, JobEntries(x.job) + JobEntries(y.job), map[])
  }

  ghost function Reads(c: Call): Phase { HasRead(0, NewRow(c).detail, RowEntries(NewRow(c)) + multiset{}, false) }

  lemma OneItemFits(c: Call, job: Job, s: State)
    requires c.tag.op.Aggregates() && OneItem(c, job) && s.db == Db(map[0 := NewRow(c)], 1) && s.lost == map[]
    ensures job.Valid() && job.Label() == c.tag && job.Clock() == c.now && Picks(s.db, c.tag, c.now, Some(0))
    ensures Fits(s.db, job, Some(0)) && Fitting(job, NewRow(c).detail) == |job.Rows()| == 1
    ensures s.db.rows[0].detail == NewRow(c).detail
             && EverWritten(s.db, s.lost, 0) == RowEntries(NewRow(c)) + multiset{}
  {
  }

  lemma QueryFits(s: State, p: nat, choice: Option<nat>)
    requires At(s, p) && MayQuery(s.procs[p]) && Picks(s.db, s.procs[p].job.Label(), s.procs[p].job.Clock(), choice)
    requires Fits(s.db, s.procs[p].job, choice)
    ensures Enabled(s, Query(p, choice))
    ensures Apply(s, Query(p, choice))
         == s.(procs := s.procs[p := Proc(s.procs[p].job, ReadPhase(s, s.procs[p].job, choice))])
  {
  }

  lemma Replaced(x: Proc, x': Proc, y: Proc, y': Proc)
    ensures map[0 := x, 1 := y][0 := x'] == map[0 := x', 1 := y] && map[0 := x, 1 := y][1 := y'] == map[0 := x, 1 := y']
  {
  }

  lemma QueryZero(c: Call, x: Job, y: Job, s: State, s': State)
    requires c.tag.op.Aggregates() && OneItem(c, x) && y == Group(c.tag, c.now, [NewRow(c)])
    requires s == Both(c, Proc(x, if x.Single? then Locked else Started), Proc(y, Started), s.holder)
    requires s' == Both(c, Proc(x, Reads(c)), Proc(y, Started), s.holder)
    ensures Enabled(s, Query(0, Some(0))) && Apply(s, Query(0, Some(0))) == s'
  {
    OneItemFits(c, x, s);
    QueryFits(s, 0, Some(0));
    Replaced(s.procs[0], Proc(x, Reads(c)), s.procs[1], s.procs[1]);
  }

  lemma QueryOne(c: Call, x: Job, y: Job, s: State, s': State)
    requires c.tag.op.Aggregates() && y == Group(c.tag, c.now, [NewRow(c)])
    requires s == Both(c, Proc(x, Reads(c)), Proc(y, Started), s.holder)
    requires s' == Both(c, Proc(x, Reads(c)), Proc(y, Reads(c)), s.holder)
    ensures Enabled(s, Query(1, Some(0))) && Apply(s, Query(1, Some(0))) == s'
  {
    OneItemFits(c, y, s);
    QueryFits(s, 1, Some(0));
    Replaced(s.procs[0], s.procs[0], s.procs[1], Proc(y, Reads(c)));
  }

  ghost function Begun(c: Call, x: Job): State {
    State(Db(map[0 := NewRow(c)], 1), map[0 := Proc(x, Started)], None, JobEntries(x), map[])
  }

  lemma BeginOne(c: Call, x: Job, y: Job)
    requires y.Valid()
    ensures Enabled(Begun(c, x), Begin(1, y))
    ensures Apply(Begun(c, x), Begin(1, y)) == Both(c, Proc(x, Started), Proc(y, Started), None)
  {
    assert Begun(c, x).procs[1 := Proc(y, Started)] == map[0 := Proc(x, Started), 1 := Proc(y, Started)];
  }

  lemma BeginZero(c: Call, x: Job, s: State)
    requires x.Valid() && s == State(Db(map[0 := NewRow(c)], 1), map[], None, multiset{}, map[])
    ensures Enabled(s, Begin(0, x)) && Apply(s, Begin(0, x)) == Begun(c, x)
  {
    assert multiset{} + JobEntries(x) == JobEntries(x);
  }

  lemma LockZero(c: Call, x: Job, y: Job)
    requires x.Single? && x.call.tag.op.Aggregates()
    ensures var s := Both(c, Proc(x, Started), Proc(y, Started), None);
            Enabled(s, Lock(0)) && Apply(s, Lock(0)) == Both(c, Proc(x, Locked), Proc(y, Started), Some(0))
  {
    assert map[0 := Proc(x, Started), 1 := Proc(y, Started)][0 := Proc(x, Locked)]
        == map[0 := Proc(x, Locked), 1 := Proc(y, Started)];
  }

  // Both processes begin, and the call, if there is one, takes the lock.
  lemma BothBegin(c: Call, x: Job, y: Job, s: State, tail: seq<Action>, last: State) returns (actions: seq<Action>)
    requires x.Valid() && y.Valid() && (x.Single? ==> x.call.tag.op.Aggregates())
    requires s == State(Db(map[0 := NewRow(c)], 1), map[], None, multiset{}, map[])
    requires Goes(ReadyBoth(c, x, y), tail, last) && SomeStaleWrite(ReadyBoth(c, x, y), tail)
    ensures Goes(s, actions, last) && SomeStaleWrite(s, actions)
  {
    var begun := Both(c, Proc(x, Started), Proc(y, Started), None);
    var queue := tail;
    if x.Single? {
      LockZero(c, x, y);
      Prepend(begun, Lock(0), ReadyBoth(c, x, y), tail, last);
      queue := [Lock(0)] + tail;
    }
    BeginOne(c, x, y);
    Prepend(Begun(c, x), Begin(1, y), begun, queue, last);
    BeginZero(c, x, s);
    Prepend(s, Begin(0, x), Begun(c, x), [Begin(1, y)] + queue, last);
    actions := [Begin(0, x)] + ([Begin(1, y)] + queue);
  }

  ghost function ReadyBoth(c: Call, x: Job, y: Job): State {
    Both(c, Proc(x, if x.Single? then Locked else Started), Proc(y, Started), if x.Single? then Some(0) else None)
  }

  lemma ItemFits(c: Call, job: Job)
    requires c.tag.op.Aggregates() && OneItem(c, job)
    ensures FitsWhole(Proc(job, Reads(c)))
  {
    OneItemFits(c, job, State(Db(map[0 := NewRow(c)], 1), map[], None, multiset{}, map[]));
  }

  lemma BothHaveRead(c: Call, x: Job, y: Job, holder: Option<nat>, first: nat)
    returns (actions: seq<Action>, last: State)
    requires c.tag.op.Aggregates() && OneItem(c, x) && OneItem(c, y) && first < 2
    ensures var s := Both(c, Proc(x, Reads(c)), Proc(y, Reads(c)), holder);
            Goes(s, actions, last) && SomeStaleWrite(s, actions) && AllDone(last)
  {
    ItemFits(c, x);
    ItemFits(c, y);
    var s := Both(c, Proc(x, Reads(c)), Proc(y, Reads(c)), holder);
    assert s.procs.Keys == {0, 1} && s.procs[0] == Proc(x, Reads(c)) && s.procs[1] == Proc(y, Reads(c));
    if first == 0 {
      actions, last := SecondIsStale(s, 0, 1);
    } else {
      actions, last := SecondIsStale(s, 1, 0);
    }
  }

  lemma BothRead(c: Call, x: Job, y: Job, first: nat) returns (actions: seq<Action>, last: State)
    requires c.tag.op.Aggregates() && OneItem(c, x) && y == Group(c.tag, c.now, [NewRow(c)]) && first < 2
    ensures Goes(ReadyBoth(c, x, y), actions, last) && SomeStaleWrite(ReadyBoth(c, x, y), actions) && AllDone(last)
  {
    var ready := ReadyBoth(c, x, y);
    var half := Both(c, Proc(x, Reads(c)), Proc(y, Started), ready.holder);
    var full := Both(c, Proc(x, Reads(c)), Proc(y, Reads(c)), ready.holder);
    var tail;
    tail, last := BothHaveRead(c, x, y, ready.holder, first);
    QueryOne(c, x, y, half, full);
    Prepend(half, Query(1, Some(0)), full, tail, last);
    QueryZero(c, x, y, ready, half);
    Prepend(ready, Query(0, Some(0)), half, [Query(1, Some(0))] + tail, last);
    actions := [Query(0, Some(0))] + ([Query(1, Some(0))] + tail);
  }

  /**
   A batch group that overlaps a call, or another group, on a recent row: whichever writes last,
   there is a run that ends with an item lost.
   */
  lemma OverlapLoses(c: Call, x: Job, first: nat) returns (s: State, actions: seq<Action>)
    requires c.tag.op.Aggregates() && OneItem(c, x) && first < 2
    ensures Initial(s) && Runs(s, actions) && AllDone(After(s, actions))
    ensures Stored(After(s, actions).db) != Stored(s.db) + After(s, actions).logged
  {
    var y := Group(c.tag, c.now, [NewRow(c)]);
    s := State(Db(map[0 := NewRow(c)], 1), map[], None, multiset{}, map[]);
    OneItemFits(c, x, s);
    OneItemFits(c, y, s);
    var tail, last := BothRead(c, x, y, first);
    actions := BothBegin(c, x, y, s, tail, last);
    NothingLostIffNoStaleWrite(s, actions);
  }

  // ---------- two calls on an empty table ----------

  ghost function Pair(c: Call, x: Phase, y: Phase, holder: Option<nat>, logged: multiset<Entry>): State {
    State(Db(map[], 0), map[0 := Proc(Single(c), x), 1 := Proc(Single(c), y)], holder, logged, map[])
  }

  /** A call that finds no row takes the lock, queries, and releases it without having written. */
  lemma FindsNone(c: Call, s: State, p: nat, s': State, tail: seq<Action>, last: State) returns (actions: seq<Action>)
    requires c.tag.op.Aggregates() && At(s, p) && s.procs[p] == Proc(Single(c), Started)
    requires s.db.rows == map[] && s.holder == None
    requires s' == s.(procs := s.procs[p := Proc(Single(c), Inserting([NewRow(c)]))]) && Goes(s', tail, last)
    ensures Goes(s, actions, last)
  {
    var locked := Apply(s, Lock(p));
    assert Apply(locked, Query(p, None)).procs == s'.procs;
    Prepend(locked, Query(p, None), s', tail, last);
    Prepend(s, Lock(p), locked, [Query(p, None)] + tail, last);
    actions := [Lock(p)] + ([Query(p, None)] + tail);
  }

  lemma PairBegins(c: Call, s: State, logged: multiset<Entry>, tail: seq<Action>, last: State)
    returns (actions: seq<Action>)
    requires s == State(Db(map[], 0), map[], None, multiset{}, map[])
    requires logged == multiset{} + JobEntries(Single(c)) + JobEntries(Single(c))
    requires Goes(Pair(c, Started, Started, None, logged), tail, last)
    ensures Goes(s, actions, last)
  {
    var one := Apply(s, Begin(0, Single(c)));
    assert one.procs[1 := Proc(Single(c), Started)]
        == map[0 := Proc(Single(c), Started), 1 := Proc(Single(c), Started)];
    Prepend(one, Begin(1, Single(c)), Pair(c, Started, Started, None, logged), tail, last);
    Prepend(s, Begin(0, Single(c)), one, [Begin(1, Single(c))] + tail, last);
    actions := [Begin(0, Single(c))] + ([Begin(1, Single(c))] + tail);
  }

  lemma PairInserts(c: Call, logged: multiset<Entry>) returns (actions: seq<Action>, last: State)
    ensures Goes(Pair(c, Inserting([NewRow(c)]), Inserting([NewRow(c)]), None, logged), actions, last) && AllDone(last)
    ensures last.db.rows == map[0 := NewRow(c), 1 := NewRow(c)]
  {
    var s := Pair(c, Inserting([NewRow(c)]), Inserting([NewRow(c)]), None, logged);
    InsertOne(s.db, NewRow(c));
    var s' := Apply(s, InsertRow(0));
    InsertOne(s'.db, NewRow(c));
    last := Apply(s', InsertRow(1));
    Prepend(s', InsertRow(1), last, [], last);
    Prepend(s, InsertRow(0), s', [InsertRow(1)] + [], last);
    actions := [InsertRow(0)] + ([InsertRow(1)] + []);
  }

  /**
   Two concurrent creates on an empty table: the first releases the lock before its insert, so
   the second finds no row either, and both stay rows of their own.
   */
  lemma ConcurrentCallsMayStayApart(c: Call) returns (s: State, actions: seq<Action>)
    requires c.tag.op.Aggregates()
    ensures Initial(s) && s.db.rows == map[] && Runs(s, actions) && AllDone(After(s, actions))
    ensures After(s, actions).db.rows == map[0 := NewRow(c), 1 := NewRow(c)]
  {
    var logged := multiset{} + JobEntries(Single(c)) + JobEntries(Single(c));
    var waits := Inserting([NewRow(c)]);
    s := State(Db(map[], 0), map[], None, multiset{}, map[]);
    var tail, last := PairInserts(c, logged);
    Replaced(Proc(Single(c), waits), Proc(Single(c), waits), Proc(Single(c), Started), Proc(Single(c), waits));
    tail := FindsNone(c, Pair(c, waits, Started, None, logged), 1, Pair(c, waits, waits, None, logged), tail, last);
    Replaced(Proc(Single(c), Started), Proc(Single(c), waits), Proc(Single(c), Started), Proc(Single(c), Started));
    tail := FindsNone(c, Pair(c, Started, Started, None, logged), 0, Pair(c, waits, Started, None, logged), tail, last);
    actions := PairBegins(c, s, logged, tail, last);
  }
}
