/**
 When concurrent creates, or deletes, end up in one row.  A call that finds no recent row lets go
 of the lock before it inserts one; whoever queries in that gap finds none either.
 */
module ActivityOneRow {
  import opened Sets
  import opened Options
  import opened ActivityModel
  import opened ActivityBatch
  import opened ActivityCalls
  import opened ActivityProtocol
  import opened ActivityConservation
  import opened ActivityMisses

  // A call of the burst: its tag, and its clock within one aggregation window.
  ghost predicate Member(job: Job, tag: Tag, lo: int) {
    job.Single? && job.call.tag == tag && lo <= job.call.now < lo + 300
  }

  ghost predicate Members(actions: seq<Action>, tag: Tag, lo: int) {
    forall i :: 0 <= i < |actions| && actions[i].Begin? ==> Member(actions[i].job, tag, lo)
  }

  /**
   A burst: calls of one operation and object type on one library by one user, all clocks within
   one window, at most 200 of them, on a table without a recent row for them.
   */
  ghost predicate Burst(s: State, actions: seq<Action>, tag: Tag, lo: int) {
    && Initial(s) && Runs(s, actions) && tag.op.Aggregates() && Members(actions, tag, lo)
    && (forall id :: id in s.db.rows && s.db.rows[id].tag == tag ==> s.db.rows[id].createdAt <= lo - 300)
    && |After(s, actions).procs| <= 200
  }

  // ---------- what holds during a burst ----------

  ghost predicate ProcOk(p: Proc, tag: Tag, lo: int, base: nat) {
    && Member(p.job, tag, lo) && !p.phase.Refreshing?
    && (p.phase.Inserting? ==> p.phase.rows == p.job.Rows())
    && (p.phase.HasRead? ==> p.phase.id >= base)
  }

  ghost predicate RowOk(row: Row, tag: Tag, lo: int, n: nat) {
    row.tag == tag && lo <= row.createdAt < lo + AGGREGATE_WINDOW && ItemCount(row.detail) <= n
  }

  /** The old rows are as they were; the new ones are those of the burst, with at most `n` items. */
  ghost predicate TableOk(before: Db, db: Db, tag: Tag, lo: int, n: nat) {
    && before.next <= db.next
    && (forall id :: id in before.rows ==> id < before.next && id in db.rows && db.rows[id] == before.rows[id])
    && (forall id :: id in db.rows ==> id in before.rows || id >= before.next)
    && (forall id :: id in before.rows && before.rows[id].tag == tag ==>
          before.rows[id].createdAt <= lo - AGGREGATE_WINDOW)
    && (forall id :: before.next <= id < db.next ==> id in db.rows && RowOk(db.rows[id], tag, lo, n))
  }

  ghost predicate ProcsOk(procs: map<nat, Proc>, tag: Tag, lo: int, base: nat) {
    forall p :: p in procs ==> ProcOk(procs[p], tag, lo, base)
  }

  // No row of the burst holds more items than calls are done, so none can be full.
  ghost predicate BurstInv(before: Db, s: State, tag: Tag, lo: int) {
    && Inv(s) && tag.op.Aggregates()
    && TableOk(before, s.db, tag, lo, |Settled(s.procs)|) && ProcsOk(s.procs, tag, lo, before.next)
  }

  lemma ProcsMoved(procs: map<nat, Proc>, p: nat, moved: Proc, tag: Tag, lo: int, base: nat)
    requires ProcsOk(procs, tag, lo, base) && ProcOk(moved, tag, lo, base)
    ensures ProcsOk(procs[p := moved], tag, lo, base)
  {
  }

  lemma SetsTold(procs: map<nat, Proc>, id: nat, p: nat, moved: Proc)
    requires p in procs
    ensures Waiting(Told(procs, id, p, moved)) == Waiting(procs[p := moved])
    ensures Settled(Told(procs, id, p, moved)) == Settled(procs[p := moved])
  {
  }

  /** A query finds a row exactly when the burst has inserted one. */
  lemma QueryHitsIff(before: Db, s: State, a: Action, tag: Tag, lo: int)
    requires BurstInv(before, s, tag, lo) && Enabled(s, a) && a.Query? && |s.procs| <= MAX_ITEMS
    ensures Fits(s.db, s.procs[a.p].job, a.choice) <==> s.db.next > before.next
    ensures Fits(s.db, s.procs[a.p].job, a.choice) ==> a.choice.value >= before.next
  {
    var job := s.procs[a.p].job;
    assert ProcOk(s.procs[a.p], tag, lo, before.next);
    if s.db.next > before.next {
      assert RowOk(s.db.rows[before.next], tag, lo, |Settled(s.procs)|);
      assert InWindow(s.db.rows[before.next], tag, job.Clock());
      assert Settled(s.procs) <= s.procs.Keys - {a.p};
      SmallerSet(Settled(s.procs), s.procs.Keys, a.p);
      assert a.choice.value >= before.next;
      assert RowOk(s.db.rows[a.choice.value], tag, lo, |Settled(s.procs)|);
    }
  }

  lemma SmallerSet(a: set<nat>, b: set<nat>, x: nat)
    requires a <= b - {x} && x in b
    ensures |a| < |b|
  {
    SubsetSize(a, b - {x});
  }

  // A step that leaves the table alone and moves one process, not to its end.
  lemma SameTable(before: Db, s: State, s': State, p: nat, moved: Proc, tag: Tag, lo: int)
    requires BurstInv(before, s, tag, lo) && Inv(s') && s'.db == s.db && s'.procs == s.procs[p := moved]
    requires ProcOk(moved, tag, lo, before.next) && !moved.phase.Done?
    requires p in s.procs ==> !s.procs[p].phase.Done? && !s.procs[p].phase.Inserting?
    ensures BurstInv(before, s', tag, lo)
    ensures Rows(before, s') == Rows(before, s) + Bit(moved.phase.Inserting?)
  {
    CountsMoved(s.procs, p, moved);
    ProcsMoved(s.procs, p, moved, tag, lo, before.next);
  }

  lemma QueryStep(before: Db, s: State, a: Action, s': State, tag: Tag, lo: int)
    requires BurstInv(before, s, tag, lo) && Enabled(s, a) && a.Query? && |s.procs| <= MAX_ITEMS && s' == Apply(s, a)
    ensures BurstInv(before, s', tag, lo)
    ensures Rows(before, s') == Rows(before, s) + Bit(Missed(s, a))
  {
    QueryHitsIff(before, s, a, tag, lo);
    StepInv(s, a);
    QuietMoves(s, a, s');
    assert ProcOk(s.procs[a.p], tag, lo, before.next);
    SameTable(before, s, s', a.p, s'.procs[a.p], tag, lo);
  }

  lemma StartStep(before: Db, s: State, a: Action, s': State, tag: Tag, lo: int)
    requires BurstInv(before, s, tag, lo) && Enabled(s, a) && s' == Apply(s, a)
    requires a.Lock? || (a.Begin? && Member(a.job, tag, lo))
    ensures BurstInv(before, s', tag, lo) && Rows(before, s') == Rows(before, s)
  {
    StepInv(s, a);
    assert a.Lock? ==> ProcOk(s.procs[a.p], tag, lo, before.next);
    SameTable(before, s, s', a.p, s'.procs[a.p], tag, lo);
  }

  // One row of the burst is rewritten or added.
  lemma TableGrows(before: Db, db: Db, db': Db, id: nat, tag: Tag, lo: int, n: nat)
    requires TableOk(before, db, tag, lo, n) && before.next <= id
    requires (id < db.next && db'.next == db.next) || (id == db.next && db'.next == db.next + 1)
    requires id in db'.rows && db'.rows == db.rows[id := db'.rows[id]] && RowOk(db'.rows[id], tag, lo, n + 1)
    ensures TableOk(before, db', tag, lo, n + 1)
  {
    forall j | before.next <= j < db'.next ensures j in db'.rows && RowOk(db'.rows[j], tag, lo, n + 1) {
      if j != id { assert RowOk(db.rows[j], tag, lo, n); }
    }
  }

  lemma InsertOneStep(before: Db, s: State, a: Action, s': State, tag: Tag, lo: int)
    requires BurstInv(before, s, tag, lo) && Enabled(s, a) && a.InsertRow? && s' == Apply(s, a)
    ensures BurstInv(before, s', tag, lo) && Rows(before, s') == Rows(before, s) && s'.db.next > before.next
  {
    StepInv(s, a);
    var proc := s.procs[a.p];
    assert ProcOk(proc, tag, lo, before.next);
    OneInserted(before, s.db, proc.job.call, tag, lo, |Settled(s.procs)|);
    InsertOneCounts(before, s, s', a.p, proc.(phase := Done), tag, lo);
  }

  lemma InsertOneCounts(before: Db, s: State, s': State, p: nat, moved: Proc, tag: Tag, lo: int)
    requires BurstInv(before, s, tag, lo) && At(s, p) && s.procs[p].phase.Inserting? && moved.phase.Done?
    requires Inv(s') && s'.procs == s.procs[p := moved] && ProcOk(moved, tag, lo, before.next)
    requires s'.db.next == s.db.next + 1 && TableOk(before, s'.db, tag, lo, |Settled(s.procs)| + 1)
    ensures BurstInv(before, s', tag, lo) && Rows(before, s') == Rows(before, s)
  {
    CountsMoved(s.procs, p, moved);
    ProcsMoved(s.procs, p, moved, tag, lo, before.next);
  }

  lemma OneInserted(before: Db, db: Db, c: Call, tag: Tag, lo: int, n: nat)
    requires TableOk(before, db, tag, lo, n) && Member(Single(c), tag, lo)
    ensures InsertMany(db, [NewRow(c)]).next == db.next + 1
             && TableOk(before, InsertMany(db, [NewRow(c)]), tag, lo, n + 1)
  {
    assert [NewRow(c)][1..] == [] && InsertMany(db, [NewRow(c)]) == Insert(db, NewRow(c));
    TableGrows(before, db, Insert(db, NewRow(c)), db.next, tag, lo, n);
  }

  lemma WriteOneStep(before: Db, s: State, p: nat, s': State, tag: Tag, lo: int)
    requires BurstInv(before, s, tag, lo) && NoneTouched(s) && At(s, p) && s.procs[p].phase.HasRead?
             && s' == Written(s, p)
    ensures BurstInv(before, s', tag, lo) && Rows(before, s') == Rows(before, s)
  {
    WriteStepInv(s, p, s');
    WriteTableOk(before, s, p, s', tag, lo);
    WriteProcsOk(before, s, p, s', tag, lo);
  }

  lemma WriteTableOk(before: Db, s: State, p: nat, s': State, tag: Tag, lo: int)
    requires BurstInv(before, s, tag, lo) && NoneTouched(s) && At(s, p) && s.procs[p].phase.HasRead?
             && s' == Written(s, p)
    ensures s'.db.next == s.db.next && TableOk(before, s'.db, tag, lo, |Settled(s.procs)| + 1)
  {
    var Proc(job, HasRead(id, d, _, touched)) := s.procs[p];
    assert ProcOk(s.procs[p], tag, lo, before.next) && PhaseInv(s.db, s.lost, s.procs[p]);
    assert RowOk(s.db.rows[id], tag, lo, |Settled(s.procs)|);
    WriteIsWhole(job, d);
    TableGrows(before, s.db, s'.db, id, tag, lo, |Settled(s.procs)|);
  }

  lemma WriteProcsOk(before: Db, s: State, p: nat, s': State, tag: Tag, lo: int)
    requires BurstInv(before, s, tag, lo) && At(s, p) && s.procs[p].phase.HasRead? && s' == Written(s, p)
    ensures ProcsOk(s'.procs, tag, lo, before.next)
    ensures |Settled(s'.procs)| == |Settled(s.procs)| + 1 && |Waiting(s'.procs)| == |Waiting(s.procs)|
  {
    var Proc(job, HasRead(id, d, _, touched)) := s.procs[p];
    assert ProcOk(s.procs[p], tag, lo, before.next) && PhaseInv(s.db, s.lost, s.procs[p]);
    WriteIsWhole(job, d);
    assert s'.procs == Told(s.procs, id, p, Proc(job, Done));
    ToldOk(s.procs, id, p, Proc(job, Done), tag, lo, before.next);
    CountsMoved(s.procs, p, Proc(job, Done));
  }

  lemma ToldOk(procs: map<nat, Proc>, id: nat, p: nat, moved: Proc, tag: Tag, lo: int, base: nat)
    requires p in procs && ProcsOk(procs, tag, lo, base) && ProcOk(moved, tag, lo, base)
    ensures ProcsOk(Told(procs, id, p, moved), tag, lo, base)
    ensures Waiting(Told(procs, id, p, moved)) == Waiting(procs[p := moved])
    ensures Settled(Told(procs, id, p, moved)) == Settled(procs[p := moved])
  {
    forall q | q in procs ensures ProcOk(Told(procs, id, p, moved)[q], tag, lo, base) {
      assert ProcOk(procs[q], tag, lo, base);
    }
    SetsTold(procs, id, p, moved);
  }

  // A call has one item, so what fits is all of it.
  lemma WriteIsWhole(job: Job, d: Detail)
    requires job.Single? && Fitting(job, d) > 0
    ensures job.Rows()[Fitting(job, d)..] == []
             && ItemCount(WrittenBack(NewRow(job.call), d, job).detail) == ItemCount(d) + 1
  {
  }

  // The lock keeps snapshots fresh, and no step of an edit or another operation can happen.
  lemma BurstStaysFresh(before: Db, s: State, a: Action, tag: Tag, lo: int)
    requires BurstInv(before, s, tag, lo) && NoneTouched(s) && Enabled(s, a)
    ensures NoneTouched(Apply(s, a)) && (a.Begin? || a.Lock? || a.Query? || a.Write? || a.InsertRow?)
  {
    forall p | p in s.procs
      ensures s.procs[p].job.Single? && s.procs[p].job.Label() == tag && !s.procs[p].phase.Refreshing?
    {
      assert ProcOk(s.procs[p], tag, lo, before.next);
    }
    SinglesAreApart(s);
    ApartStep(s, a);
  }

  /** Every step keeps the invariant, and adds a row to come exactly when it is a query that finds none. */
  lemma BurstStep(before: Db, s: State, a: Action, tag: Tag, lo: int)
    requires BurstInv(before, s, tag, lo) && NoneTouched(s) && Enabled(s, a) && |s.procs| <= MAX_ITEMS
    requires a.Begin? ==> Member(a.job, tag, lo)
    ensures BurstInv(before, Apply(s, a), tag, lo) && NoneTouched(Apply(s, a))
    ensures Rows(before, Apply(s, a)) == Rows(before, s) + Bit(Missed(s, a))
    ensures a.InsertRow? ==> Apply(s, a).db.next > before.next
  {
    BurstStaysFresh(before, s, a, tag, lo);
    if a.Query? {
      QueryStep(before, s, a, Apply(s, a), tag, lo);
    } else if a.Write? {
      WriteOneStep(before, s, a.p, Apply(s, a), tag, lo);
    } else if a.InsertRow? {
      InsertOneStep(before, s, a, Apply(s, a), tag, lo);
    } else {
      StartStep(before, s, a, Apply(s, a), tag, lo);
    }
  }

  // ---------- whole bursts ----------

  ghost predicate BurstRun(before: Db, s: State, actions: seq<Action>, tag: Tag, lo: int) {
    && BurstInv(before, s, tag, lo) && NoneTouched(s) && Runs(s, actions) && Members(actions, tag, lo)
    && |After(s, actions).procs| <= MAX_ITEMS
  }

  lemma {:induction false} ProcsGrow(s: State, actions: seq<Action>)
    requires Runs(s, actions)
    ensures s.procs.Keys <= After(s, actions).procs.Keys && |s.procs| <= |After(s, actions).procs|
    decreases |actions|
  {
    if actions != [] {
      if actions[0].Write? { WriteMoves(s, actions[0].p); }
      ProcsGrow(Apply(s, actions[0]), actions[1..]);
    }
    SubsetSize(s.procs.Keys, After(s, actions).procs.Keys);
  }

  // No query finds anything but a row of the burst, and before the first query nobody finishes.
  lemma BurstStepIsTidy(before: Db, s: State, a: Action, tag: Tag, lo: int)
    requires BurstInv(before, s, tag, lo) && NoneTouched(s) && Enabled(s, a) && |s.procs| <= MAX_ITEMS
    requires a.Begin? ==> Member(a.job, tag, lo)
    ensures TidyStep(before, s, a)
  {
    BurstStep(before, s, a, tag, lo);
    NextGrows(s, a);
    assert !a.Begin? ==> ProcOk(s.procs[a.p], tag, lo, before.next);
    if a.Query? { QueryHitsIff(before, s, a, tag, lo); }
    if Rows(before, s) == 0 && !Asks(a) && NobodyDone(s) { NobodyFinishes(before, s, a, tag, lo); }
  }

  lemma NextGrows(s: State, a: Action)
    requires Inv(s) && Enabled(s, a)
    ensures s.db.next <= Apply(s, a).db.next
  {
    if a.InsertRow? { InsertManyRows(s.db, s.procs[a.p].phase.rows); }
  }

  lemma NobodyFinishes(before: Db, s: State, a: Action, tag: Tag, lo: int)
    requires BurstInv(before, s, tag, lo) && Enabled(s, a) && !Asks(a) && Rows(before, s) == 0 && NobodyDone(s)
    ensures NobodyDone(Apply(s, a))
  {
    if !a.Begin? {
      assert ProcOk(s.procs[a.p], tag, lo, before.next) && PhaseInv(s.db, s.lost, s.procs[a.p]);
      assert a.InsertRow? ==> a.p in Waiting(s.procs);
    }
  }

  lemma {:induction false} BurstIsTidy(before: Db, s: State, actions: seq<Action>, tag: Tag, lo: int)
    requires BurstRun(before, s, actions, tag, lo)
    ensures TidyRun(before, s, actions) && BurstInv(before, After(s, actions), tag, lo)
    decreases |actions|
  {
    if actions != [] {
      ProcsGrow(s, actions);
      assert actions[0].Begin? ==> Member(actions[0].job, tag, lo);
      BurstStep(before, s, actions[0], tag, lo);
      BurstStepIsTidy(before, s, actions[0], tag, lo);
      MembersTail(actions, tag, lo);
      RunTail(before, s, actions, Apply(s, actions[0]), tag, lo);
      BurstIsTidy(before, Apply(s, actions[0]), actions[1..], tag, lo);
    }
  }

  lemma MembersTail(actions: seq<Action>, tag: Tag, lo: int)
    requires actions != [] && Members(actions, tag, lo)
    ensures Members(actions[1..], tag, lo)
  {
  }

  lemma RunTail(before: Db, s: State, actions: seq<Action>, s': State, tag: Tag, lo: int)
    requires Runs(s, actions) && actions != [] && s' == Apply(s, actions[0]) && |After(s, actions).procs| <= MAX_ITEMS
    requires BurstInv(before, s', tag, lo) && NoneTouched(s') && Members(actions[1..], tag, lo)
    ensures BurstRun(before, s', actions[1..], tag, lo)
  {
  }

  lemma BurstStarts(s: State, actions: seq<Action>, tag: Tag, lo: int)
    requires Burst(s, actions, tag, lo)
    ensures BurstRun(s.db, s, actions, tag, lo) && Rows(s.db, s) == 0
  {
    assert Settled(s.procs) == {} && Waiting(s.procs) == {};
  }

  /** In every burst the rows inserted are as many as the queries that found no row. */
  lemma RowsAreMisses(s: State, actions: seq<Action>, tag: Tag, lo: int)
    requires Burst(s, actions, tag, lo) && AllDone(After(s, actions))
    ensures After(s, actions).db.next == s.db.next + MissCount(s, actions)
    ensures var db := After(s, actions).db;
            forall id :: id in db.rows <==> id in s.db.rows || s.db.next <= id < db.next
  {
    BurstStarts(s, actions, tag, lo);
    BurstIsTidy(s.db, s, actions, tag, lo);
    RowsOfRun(s.db, s, actions);
    NoneWaiting(After(s, actions));
  }

  /**
   All items of a burst end in one row if and only if no call queries between the first query,
   which finds nothing, and the insertion of that call's row.
   */
  lemma AllInOneRowIff(s: State, actions: seq<Action>, tag: Tag, lo: int)
    requires Burst(s, actions, tag, lo) && AllDone(After(s, actions)) && After(s, actions).procs != map[]
    ensures OthersAwaitFirst(actions) <==>
            var db := After(s, actions).db;
            s.db.next in db.rows && db.rows == s.db.rows[s.db.next := db.rows[s.db.next]]
            && RowEntries(db.rows[s.db.next]) == After(s, actions).logged
  {
    BurstStarts(s, actions, tag, lo);
    BurstIsTidy(s.db, s, actions, tag, lo);
    OneRowIff(s.db, s, actions);
    RowsAreMisses(s, actions, tag, lo);
    CallsKeepAll(s, actions, tag, lo);
    OneRowHoldsAll(s.db, After(s, actions).db, tag, lo, |Settled(After(s, actions).procs)|, After(s, actions).logged);
  }

  lemma OneRowHoldsAll(before: Db, db: Db, tag: Tag, lo: int, n: nat, logged: multiset<Entry>)
    requires before.Valid() && TableOk(before, db, tag, lo, n) && Stored(db) == Stored(before) + logged
    requires forall id :: id in db.rows <==> id in before.rows || before.next <= id < db.next
    ensures db.next == before.next + 1 <==>
            before.next in db.rows && db.rows == before.rows[before.next := db.rows[before.next]]
            && RowEntries(db.rows[before.next]) == logged
  {
    if db.next == before.next + 1 {
      assert db.rows == before.rows[before.next := db.rows[before.next]];
      TotalUpdate(before.rows, RowEntries, before.next, db.rows[before.next]);
      Cancels(RowEntries(db.rows[before.next]), Stored(before), logged);
    } else {
      assert db.next > before.next + 1 ==> before.next + 1 in db.rows && before.next + 1 !in before.rows;
    }
  }

  lemma Cancels(x: multiset<Entry>, y: multiset<Entry>, z: multiset<Entry>)
    requires x + y == y + z
    ensures x == z
  {
    assert x == (x + y) - y && z == (y + z) - y;
  }

  lemma CallsKeepAll(s: State, actions: seq<Action>, tag: Tag, lo: int)
    requires Burst(s, actions, tag, lo) && AllDone(After(s, actions))
    ensures Stored(After(s, actions).db) == Stored(s.db) + After(s, actions).logged
  {
    assert WithoutBatches(actions);
    CallsLoseNothing(s, actions);
  }
}
