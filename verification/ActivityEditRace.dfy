/**
 Concurrent edits of one path.  An edit looks its row up and inserts without a lock, so whoever
 queries before the first row is there inserts one too, and the rows are less than a window apart.
 */
module ActivityEditRace {
  import opened Options
  import opened ActivityModel
  import opened ActivityBatch
  import opened ActivityCalls
  import opened ActivityEdits
  import opened ActivityProtocol
  import opened ActivityMisses
  import opened ActivityRuns

  // Whose edits of what.
  datatype Place = Place(repo: string, user: int, path: string)

  // A call of the race: an edit of the path, its clock within one window.
  ghost predicate EditOf(job: Job, at: Place, lo: int) {
    && job.Single? && job.call.tag.op == Edit
    && job.call.tag.repo == at.repo && job.call.tag.user == at.user && job.call.path == at.path
    && lo <= job.call.now < lo + 1800
  }

  ghost predicate EditsOf(actions: seq<Action>, at: Place, lo: int) {
    forall i :: 0 <= i < |actions| && actions[i].Begin? ==> EditOf(actions[i].job, at, lo)
  }

  predicate OnPlace(row: Row, at: Place) {
    row.tag.op == Edit && row.tag.repo == at.repo && row.tag.user == at.user && row.path == at.path
  }

  /** A race: edits of one path, all clocks within one window, on a table without a recent row for them. */
  ghost predicate Race(s: State, actions: seq<Action>, at: Place, lo: int) {
    && Initial(s) && Runs(s, actions) && EditsOf(actions, at, lo)
    && forall id :: id in s.db.rows && OnPlace(s.db.rows[id], at) ==> s.db.rows[id].createdAt <= lo - 1800
  }

  // ---------- what holds during a race ----------

  ghost predicate RacerOk(p: Proc, at: Place, lo: int, base: nat, next: nat) {
    && EditOf(p.job, at, lo) && !p.phase.Locked? && !p.phase.HasRead?
    && (p.phase.Inserting? ==> p.phase.rows == p.job.Rows())
    && (p.phase.Refreshing? ==> base <= p.phase.id < next)
  }

  ghost predicate RacersOk(procs: map<nat, Proc>, at: Place, lo: int, base: nat, next: nat) {
    forall p :: p in procs ==> RacerOk(procs[p], at, lo, base, next)
  }

  ghost predicate NewEdit(row: Row, at: Place, lo: int) { OnPlace(row, at) && lo <= row.createdAt < lo + EDIT_WINDOW }

  /** The old rows are as they were, and the new ones are edits of the path within the window. */
  ghost predicate RaceTable(before: Db, db: Db, at: Place, lo: int) {
    && before.next <= db.next
    && (forall id :: id in before.rows ==> id < before.next && id in db.rows && db.rows[id] == before.rows[id])
    && (forall id :: id in db.rows ==> id in before.rows || before.next <= id < db.next)
    && (forall id :: id in before.rows && OnPlace(before.rows[id], at) ==>
          before.rows[id].createdAt <= lo - EDIT_WINDOW)
    && (forall id :: before.next <= id < db.next ==> id in db.rows && NewEdit(db.rows[id], at, lo))
  }

  ghost predicate RaceInv(before: Db, s: State, at: Place, lo: int) {
    RaceTable(before, s.db, at, lo) && RacersOk(s.procs, at, lo, before.next, s.db.next)
  }

  /** A lookup finds a row exactly when the race has inserted one. */
  lemma LookupHitsIff(before: Db, s: State, a: Action, at: Place, lo: int)
    requires RaceInv(before, s, at, lo) && Enabled(s, a) && a.QueryEdit?
    ensures a.choice.Some? <==> s.db.next > before.next
    ensures a.choice.Some? ==> before.next <= a.choice.value < s.db.next
  {
    var c := s.procs[a.p].job.call;
    assert RacerOk(s.procs[a.p], at, lo, before.next, s.db.next);
    if s.db.next > before.next {
      assert NewEdit(s.db.rows[before.next], at, lo);
      assert InEditWindow(s.db.rows[before.next], at.repo, at.user, at.path, c.now);
    }
  }

  // Only these steps can happen.
  lemma RaceSteps(before: Db, s: State, a: Action, at: Place, lo: int)
    requires RaceInv(before, s, at, lo) && Enabled(s, a)
    ensures a.Begin? || a.QueryEdit? || a.Refresh? || a.InsertRow?
  {
    assert !a.Begin? ==> RacerOk(s.procs[a.p], at, lo, before.next, s.db.next);
  }

  lemma RacersMoved(procs: map<nat, Proc>, p: nat, moved: Proc, at: Place, lo: int, base: nat, next: nat, next': nat)
    requires RacersOk(procs, at, lo, base, next) && next <= next' && RacerOk(moved, at, lo, base, next')
    ensures RacersOk(procs[p := moved], at, lo, base, next')
  {
    forall q | q in procs && q != p ensures RacerOk(procs[q], at, lo, base, next') {
      assert RacerOk(procs[q], at, lo, base, next);
    }
  }

  lemma LookupStep(before: Db, s: State, a: Action, s': State, at: Place, lo: int)
    requires RaceInv(before, s, at, lo) && Enabled(s, a) && a.QueryEdit? && s' == Apply(s, a)
    ensures RaceInv(before, s', at, lo) && TidyStep(before, s, a)
  {
    var proc := s.procs[a.p];
    assert RacerOk(proc, at, lo, before.next, s.db.next);
    LookupHitsIff(before, s, a, at, lo);
    var moved := proc.(phase := if a.choice.Some? then Refreshing(a.choice.value) else Inserting(proc.job.Rows()));
    RacersMoved(s.procs, a.p, moved, at, lo, before.next, s.db.next, s.db.next);
    CountsMoved(s.procs, a.p, moved);
  }

  lemma BeginStep(before: Db, s: State, a: Action, s': State, at: Place, lo: int)
    requires RaceInv(before, s, at, lo) && Enabled(s, a) && a.Begin? && EditOf(a.job, at, lo) && s' == Apply(s, a)
    ensures RaceInv(before, s', at, lo) && TidyStep(before, s, a)
  {
    RacersMoved(s.procs, a.p, Proc(a.job, Started), at, lo, before.next, s.db.next, s.db.next);
    CountsMoved(s.procs, a.p, Proc(a.job, Started));
  }

  // One row of the race is refreshed or added.
  lemma TableMoves(before: Db, db: Db, db': Db, id: nat, at: Place, lo: int)
    requires RaceTable(before, db, at, lo) && before.next <= id
    requires (id < db.next && db'.next == db.next) || (id == db.next && db'.next == db.next + 1)
    requires id in db'.rows && db'.rows == db.rows[id := db'.rows[id]] && NewEdit(db'.rows[id], at, lo)
    ensures RaceTable(before, db', at, lo)
  {
  }

  lemma RefreshStep(before: Db, s: State, a: Action, s': State, at: Place, lo: int)
    requires RaceInv(before, s, at, lo) && Enabled(s, a) && a.Refresh? && s' == Apply(s, a)
    ensures RaceInv(before, s', at, lo) && TidyStep(before, s, a)
  {
    var proc := s.procs[a.p];
    assert RacerOk(proc, at, lo, before.next, s.db.next);
    assert NewEdit(s.db.rows[proc.phase.id], at, lo);
    TableMoves(before, s.db, s'.db, proc.phase.id, at, lo);
    RacersMoved(s.procs, a.p, proc.(phase := Done), at, lo, before.next, s.db.next, s.db.next);
    CountsMoved(s.procs, a.p, proc.(phase := Done));
  }

  lemma EditInsertStep(before: Db, s: State, a: Action, s': State, at: Place, lo: int)
    requires RaceInv(before, s, at, lo) && Enabled(s, a) && a.InsertRow? && s' == Apply(s, a)
    ensures RaceInv(before, s', at, lo) && TidyStep(before, s, a)
  {
    var proc := s.procs[a.p];
    assert RacerOk(proc, at, lo, before.next, s.db.next);
    InsertOne(s.db, NewRow(proc.job.call));
    TableMoves(before, s.db, s'.db, s.db.next, at, lo);
    RacersMoved(s.procs, a.p, proc.(phase := Done), at, lo, before.next, s.db.next, s'.db.next);
    CountsMoved(s.procs, a.p, proc.(phase := Done));
    assert a.p in Waiting(s.procs);
  }

  lemma RaceStep(before: Db, s: State, a: Action, at: Place, lo: int)
    requires RaceInv(before, s, at, lo) && Enabled(s, a) && (a.Begin? ==> EditOf(a.job, at, lo))
    ensures RaceInv(before, Apply(s, a), at, lo) && TidyStep(before, s, a)
  {
    RaceSteps(before, s, a, at, lo);
    if a.Begin? {
      BeginStep(before, s, a, Apply(s, a), at, lo);
    } else if a.QueryEdit? {
      LookupStep(before, s, a, Apply(s, a), at, lo);
    } else if a.Refresh? {
      RefreshStep(before, s, a, Apply(s, a), at, lo);
    } else {
      EditInsertStep(before, s, a, Apply(s, a), at, lo);
    }
  }

  lemma {:induction false} RaceIsTidy(before: Db, s: State, actions: seq<Action>, at: Place, lo: int)
    requires RaceInv(before, s, at, lo) && Runs(s, actions) && EditsOf(actions, at, lo)
    ensures TidyRun(before, s, actions) && RaceInv(before, After(s, actions), at, lo)
    decreases |actions|
  {
    if actions != [] {
      assert actions[0].Begin? ==> EditOf(actions[0].job, at, lo);
      RaceStep(before, s, actions[0], at, lo);
      RaceIsTidy(before, Apply(s, actions[0]), actions[1..], at, lo);
    }
  }

  // ---------- the gap ----------

  // One row of the race is apart from every old row; two of them are not apart from each other.
  lemma GapIffOneRow(before: Db, db: Db, at: Place, lo: int)
    requires RaceTable(before, db, at, lo) && EditGap(before) && db.next > before.next
    ensures EditGap(db) <==> db.next == before.next + 1
  {
    if db.next > before.next + 1 {
      var x, y := db.rows[before.next], db.rows[before.next + 1];
      assert NewEdit(x, at, lo) && NewEdit(y, at, lo);
      assert SameEdit(x, y) && !Apart(x, y);
    } else {
      forall i, j | i in db.rows && j in db.rows && i != j && SameEdit(db.rows[i], db.rows[j])
        ensures Apart(db.rows[i], db.rows[j])
      {
        assert NewEdit(db.rows[before.next], at, lo);
        assert i in before.rows && j in before.rows ==> Apart(before.rows[i], before.rows[j]);
      }
    }
  }

  /**
   Concurrent edits of one path keep the 1800-second gap if and only if every lookup after the
   first one comes after the row of the call that looked up first is inserted.
   */
  lemma RaceKeepsGapIff(s: State, actions: seq<Action>, at: Place, lo: int)
    requires Race(s, actions, at, lo) && EditGap(s.db)
    requires AllDone(After(s, actions)) && After(s, actions).procs != map[]
    ensures EditGap(After(s, actions).db) <==> OthersAwaitFirst(actions)
  {
    assert Waiting(s.procs) == {};
    RaceIsTidy(s.db, s, actions, at, lo);
    RowsOfRun(s.db, s, actions);
    SomeMiss(s.db, s, actions);
    OneRowIff(s.db, s, actions);
    NoneWaiting(After(s, actions));
    GapIffOneRow(s.db, After(s, actions).db, at, lo);
  }

  // A lookup on an empty table finds nothing.
  lemma LooksUpNone(c: Call, s: State, p: nat, s': State, tail: seq<Action>, last: State)
    requires c.tag.op == Edit && At(s, p) && s.procs[p] == Proc(Single(c), Started) && s.db.rows == map[]
    requires s' == s.(procs := s.procs[p := Proc(Single(c), Inserting([NewRow(c)]))]) && Goes(s', tail, last)
    ensures Goes(s, [QueryEdit(p, None)] + tail, last)
  {
    Prepend(s, QueryEdit(p, None), s', tail, last);
  }

  /** Two edits of one path that both look up before either inserts: two rows of one second. */
  lemma ConcurrentEditsBreakGap(c: Call) returns (s: State, actions: seq<Action>)
    requires c.tag.op == Edit
    ensures Initial(s) && s.db.rows == map[] && Runs(s, actions) && AllDone(After(s, actions))
    ensures EditGap(s.db) && !EditGap(After(s, actions).db)
  {
    var logged := multiset{} + JobEntries(Single(c)) + JobEntries(Single(c));
    var waits := Inserting([NewRow(c)]);
    s := State(Db(map[], 0), map[], None, multiset{}, map[]);
    var tail, last := PairInserts(c, logged);
    Replaced(Proc(Single(c), waits), Proc(Single(c), waits), Proc(Single(c), Started), Proc(Single(c), waits));
    LooksUpNone(c, Pair(c, waits, Started, None, logged), 1, Pair(c, waits, waits, None, logged), tail, last);
    tail := [QueryEdit(1, None)] + tail;
    Replaced(Proc(Single(c), Started), Proc(Single(c), waits), Proc(Single(c), Started), Proc(Single(c), Started));
    LooksUpNone(c, Pair(c, Started, Started, None, logged), 0, Pair(c, waits, Started, None, logged), tail, last);
    actions := PairBegins(c, s, logged, [QueryEdit(0, None)] + tail, last);
    assert SameEdit(last.db.rows[0], last.db.rows[1]) && !Apart(last.db.rows[0], last.db.rows[1]);
  }
}
