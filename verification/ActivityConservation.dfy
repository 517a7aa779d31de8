/**
 What concurrent calls and batch groups store, over whole runs: nothing is invented or duplicated,
 and something is lost exactly when a process writes over a row that was written since it read it.
 */
module ActivityConservation {
  import opened Options
  import opened ActivityModel
  import opened ActivityBatch
  import opened ActivityCalls
  import opened ActivityProtocol

  // ---------- the books ----------

  ghost function Self(m: multiset<Entry>): multiset<Entry> { m }

  ghost function Owed(s: State): multiset<Entry> { Total(s.procs, Owes) }

  ghost function Lost(s: State): multiset<Entry> { Total(s.lost, Self) }

  /** One step's account: what is stored, lost and owed changes by what was logged, and by nothing else. */
  ghost predicate Account(s: State, s': State) {
    Stored(s'.db) + Lost(s') + Owed(s') + s.logged == Stored(s.db) + Lost(s) + Owed(s) + s'.logged
  }

  lemma OwedMoved(procs: map<nat, Proc>, p: nat, moved: Proc)
    requires p in procs
    ensures Total(procs[p := moved], Owes) + Owes(procs[p]) == Total(procs, Owes) + Owes(moved)
  {
    TotalUpdate(procs, Owes, p, moved);
    TotalRemove(procs, Owes, p);
  }

  lemma OwedTold(procs: map<nat, Proc>, id: nat, p: nat, moved: Proc)
    requires p in procs
    ensures Total(Told(procs, id, p, moved), Owes) + Owes(procs[p]) == Total(procs, Owes) + Owes(moved)
  {
    TotalSame(Told(procs, id, p, moved), procs[p := moved], Owes);
    OwedMoved(procs, p, moved);
  }

  lemma NothingToInsert(tag: Tag)
    ensures RowsEntries(tag, []) == multiset{}
  {
    assert AsEntries(tag, Objects([])) == [];
  }

  // What a write leaves to be inserted, and what it has stored, are what the process owed.
  lemma WriteSettles(job: Job, k: nat)
    requires job.Valid() && job.Label().op.Aggregates() && k <= |job.Rows()|
    ensures Owes(Proc(job, ThenInsert(job.Rows()[k..]))) + EntriesUnder(job.Label(), Objects(job.Rows()[..k]))
             == JobEntries(job)
  {
    SplitEntries(job.Label(), job.Rows(), k);
    NothingToInsert(job.Label());
  }

  lemma LostUpdated(lost: map<nat, multiset<Entry>>, id: nat, v: multiset<Entry>)
    ensures Total(lost[id := v], Self) + (if id in lost then lost[id] else multiset{}) == Total(lost, Self) + v
  {
    TotalUpdate(lost, Self, id, v);
    if id in lost { TotalRemove(lost, Self, id); }
  }

  lemma StoredUpdated(db: Db, id: nat, row: Row)
    requires id in db.rows
    ensures Stored(Update(db, id, row)) + RowEntries(db.rows[id]) == Stored(db) + RowEntries(row)
  {
    TotalUpdate(db.rows, RowEntries, id, row);
    TotalRemove(db.rows, RowEntries, id);
  }

  // Three columns of the books, each changed by its own amount.
  lemma Settle(x: multiset<Entry>, y: multiset<Entry>, z: multiset<Entry>, x': multiset<Entry>, y': multiset<Entry>,
               z': multiset<Entry>, r: multiset<Entry>, r': multiset<Entry>, l: multiset<Entry>, l': multiset<Entry>,
               o: multiset<Entry>, o': multiset<Entry>)
    requires x' + r == x + r' && y' + l == y + l' && z' + o == z + o' && r' + l' + o' == r + l + o
    ensures x' + y' + z' == x + y + z
  {
    forall e ensures (x' + y' + z')[e] == (x + y + z)[e] {
      assert (x' + r)[e] == (x + r')[e] && (y' + l)[e] == (y + l')[e] && (z' + o)[e] == (z + o')[e];
      assert (r' + l' + o')[e] == (r + l + o)[e];
    }
  }

  lemma WriteAccount(s: State, p: nat)
    requires Inv(s) && At(s, p) && s.procs[p].phase.HasRead?
    ensures Account(s, Written(s, p))
  {
    var Proc(job, HasRead(id, d, _, _)) := s.procs[p];
    var s', k := Written(s, p), Fitting(job, d);
    var row' := WrittenBack(s.db.rows[id], d, job);
    var moved := Proc(job, ThenInsert(job.Rows()[k..]));
    var gone := EverWritten(s.db, s.lost, id) - Snapshot(job, d);
    assert PhaseInv(s.db, s.lost, s.procs[p]);
    WriteKnown(s, p);
    WriteSettles(job, k);
    StoredUpdated(s.db, id, row');
    LostUpdated(s.lost, id, gone);
    OwedTold(s.procs, id, p, moved);
    Balanced(s, p, RowEntries(row'), gone, Owes(moved), EntriesUnder(job.Label(), Objects(job.Rows()[..k])));
    Settle(Stored(s.db), Lost(s), Owed(s), Stored(s'.db), Lost(s'), Owed(s'),
           RowEntries(s.db.rows[id]), RowEntries(row'), if id in s.lost then s.lost[id] else multiset{}, gone,
           Owes(s.procs[p]), Owes(moved));
  }

  lemma Balanced(s: State, p: nat, row': multiset<Entry>, gone: multiset<Entry>, owes: multiset<Entry>,
                 added: multiset<Entry>)
    requires At(s, p) && s.procs[p].phase.HasRead? && s.procs[p].phase.id in s.db.rows
    requires row' + gone == EverWritten(s.db, s.lost, s.procs[p].phase.id) + added
    requires owes + added == JobEntries(s.procs[p].job)
    ensures var id := s.procs[p].phase.id;
            row' + gone + owes
            == RowEntries(s.db.rows[id]) + (if id in s.lost then s.lost[id] else multiset{}) + Owes(s.procs[p])
  {
    var known := EverWritten(s.db, s.lost, s.procs[p].phase.id);
    assert known + added + owes == known + (owes + added);
  }

  lemma InsertStores(db: Db, tag: Tag, rows: seq<Row>)
    requires db.Valid() && AllLone(tag, rows)
    ensures Stored(InsertMany(db, rows)) == Stored(db) + RowsEntries(tag, rows)
  {
    if tag.op.Aggregates() {
      StoredInsertMany(db, tag, rows);
    } else {
      StoredInsertOthers(db, rows);
    }
  }

  // A process that moves on and settles `e` in the table.
  lemma AccountFrom(s: State, s': State, p: nat, moved: Proc, e: multiset<Entry>)
    requires At(s, p) && s'.procs == s.procs[p := moved] && Owes(moved) + e == Owes(s.procs[p])
    requires Stored(s'.db) == Stored(s.db) + e && s'.lost == s.lost && s'.logged == s.logged
    ensures Account(s, s')
  {
    OwedMoved(s.procs, p, moved);
    Settle(Stored(s.db), Lost(s), Owed(s), Stored(s'.db), Lost(s'), Owed(s'),
           multiset{}, e, multiset{}, multiset{}, Owes(s.procs[p]), Owes(moved));
  }

  lemma InsertAccount(s: State, a: Action, s': State)
    requires Inv(s) && Enabled(s, a) && a.InsertRow? && s' == Apply(s, a)
    ensures Account(s, s')
  {
    var proc := s.procs[a.p];
    assert PhaseInv(s.db, s.lost, proc);
    InsertStores(s.db, proc.job.Label(), proc.phase.rows);
    AccountFrom(s, s', a.p, proc.(phase := Done), RowsEntries(proc.job.Label(), proc.phase.rows));
  }

  lemma RefreshAccount(s: State, a: Action, s': State)
    requires Inv(s) && Enabled(s, a) && a.Refresh? && s' == Apply(s, a)
    ensures Account(s, s')
  {
    var proc := s.procs[a.p];
    var id := proc.phase.id;
    assert PhaseInv(s.db, s.lost, proc);
    StoredGrow(s.db, id, s.db.rows[id].(createdAt := proc.job.Clock()), multiset{});
    AccountFrom(s, s', a.p, proc.(phase := Done), multiset{});
  }

  // The steps that only move a process on store nothing and settle nothing.
  lemma QuietAccount(s: State, a: Action, s': State)
    requires Inv(s) && Enabled(s, a) && (a.Lock? || a.Query? || a.QueryEdit? || a.Direct?) && s' == Apply(s, a)
    ensures Account(s, s')
  {
    QuietMoves(s, a, s');
    AccountFrom(s, s', a.p, s'.procs[a.p], multiset{});
  }

  lemma QuietMoves(s: State, a: Action, s': State)
    requires Enabled(s, a) && (a.Lock? || a.Query? || a.QueryEdit? || a.Direct?) && s' == Apply(s, a)
    ensures a.p in s'.procs && s'.procs == s.procs[a.p := s'.procs[a.p]] && Owes(s'.procs[a.p]) == Owes(s.procs[a.p])
    ensures s'.db == s.db && s'.lost == s.lost && s'.logged == s.logged
  {
  }

  lemma BeginAccount(s: State, a: Action)
    requires Enabled(s, a) && a.Begin?
    ensures Account(s, Apply(s, a))
  {
    TotalUpdate(s.procs, Owes, a.p, Proc(a.job, Started));
  }

  lemma StepAccount(s: State, a: Action)
    requires Inv(s) && Enabled(s, a)
    ensures Account(s, Apply(s, a))
  {
    match a
    case Begin(_, _) => BeginAccount(s, a);
    case Write(p) => WriteAccount(s, p);
    case Refresh(_) => RefreshAccount(s, a, Apply(s, a));
    case InsertRow(_) => InsertAccount(s, a, Apply(s, a));
    case _ => QuietAccount(s, a, Apply(s, a));
  }

  // ---------- what a stale write loses ----------

  ghost predicate NoneLost(s: State) { forall id :: id in s.lost ==> s.lost[id] == multiset{} }

  /** A write loses something from its row exactly when it is stale or something was lost before. */
  lemma WriteLoses(s: State, p: nat)
    requires Inv(s) && At(s, p) && s.procs[p].phase.HasRead?
    ensures var id := s.procs[p].phase.id;
            Written(s, p).lost[id] == multiset{} <==>
            !s.procs[p].phase.touched && (id in s.lost ==> s.lost[id] == multiset{})
  {
    var Proc(job, HasRead(id, d, seen, touched)) := s.procs[p];
    assert PhaseInv(s.db, s.lost, s.procs[p]);
    var known, part := EverWritten(s.db, s.lost, id), Snapshot(job, d);
    if touched {
      assert |part| <= |seen| by { assert seen == part + (seen - part); }
      assert known == part + (known - part);
    } else {
      assert RowEntries(s.db.rows[id]) == part;
    }
  }

  /** Once something is lost it stays lost; a step loses something exactly when it is a stale write. */
  lemma StepLoses(s: State, a: Action)
    requires Inv(s) && Enabled(s, a)
    ensures NoneLost(Apply(s, a)) <==> NoneLost(s) && !StaleWrite(s, a)
  {
    if a.Write? {
      WriteLoses(s, a.p);
      LostAtOne(s, Written(s, a.p), s.procs[a.p].phase.id);
    } else {
      assert Apply(s, a).lost == s.lost;
    }
  }

  lemma LostAtOne(s: State, s': State, id: nat)
    requires id in s'.lost && s'.lost == s.lost[id := s'.lost[id]]
    requires s'.lost[id] == multiset{} ==> (id in s.lost ==> s.lost[id] == multiset{})
    ensures NoneLost(s') <==> NoneLost(s) && s'.lost[id] == multiset{}
  {
    assert forall j :: j in s.lost && j != id ==> s'.lost[j] == s.lost[j];
  }

  // ---------- whole runs ----------

  lemma {:induction false} RunAccount(s: State, actions: seq<Action>)
    requires Inv(s) && Runs(s, actions)
    ensures Inv(After(s, actions)) && Account(s, After(s, actions))
    ensures NoneLost(After(s, actions)) <==> NoneLost(s) && !SomeStaleWrite(s, actions)
    decreases |actions|
  {
    if actions != [] {
      var s' := Apply(s, actions[0]);
      StepInv(s, actions[0]);
      StepAccount(s, actions[0]);
      StepLoses(s, actions[0]);
      RunAccount(s', actions[1..]);
      AccountsAdd(s, s', After(s', actions[1..]));
    }
  }

  lemma AccountsAdd(s: State, s': State, s'': State)
    requires Account(s, s') && Account(s', s'')
    ensures Account(s, s'')
  {
    var x, x' := Stored(s.db) + Lost(s) + Owed(s), Stored(s'.db) + Lost(s') + Owed(s');
    var x'' := Stored(s''.db) + Lost(s'') + Owed(s'');
    forall e ensures (x'' + s.logged)[e] == (x + s''.logged)[e] {
      assert (x' + s.logged)[e] == (x + s'.logged)[e] && (x'' + s'.logged)[e] == (x' + s''.logged)[e];
    }
  }

  lemma {:induction false} TotalOfNothing<T(!new)>(m: map<nat, T>, f: T -> multiset<Entry>)
    requires forall i :: i in m ==> f(m[i]) == multiset{}
    ensures Total(m, f) == multiset{}
    decreases |m|
  {
    if m != map[] {
      var i :| i in m;
      TotalRemove(m, f, i);
      assert m.Keys == (m - {i}).Keys + {i};
      TotalOfNothing(m - {i}, f);
    }
  }

  lemma NoneLostIff(s: State)
    ensures NoneLost(s) <==> Lost(s) == multiset{}
  {
    if NoneLost(s) {
      TotalOfNothing(s.lost, Self);
    } else {
      var id :| id in s.lost && s.lost[id] != multiset{};
      TotalRemove(s.lost, Self, id);
      assert |Lost(s)| >= |s.lost[id]|;
    }
  }

  /**
   Conservation over whole runs.  In every interleaving of any number of calls and batch groups no
   row exceeds the cap and nothing is stored that was not there or logged, no more often than it
   was.  Once all are done the table stores exactly what it stored before plus what was logged, if
   and only if no process wrote over a row that another had written since it was read.
   */
  lemma NothingLostIffNoStaleWrite(s: State, actions: seq<Action>)
    requires Initial(s) && Runs(s, actions)
    ensures WithinCap(After(s, actions).db)
    ensures Stored(After(s, actions).db) <= Stored(s.db) + After(s, actions).logged
    ensures AllDone(After(s, actions)) ==>
              (Stored(After(s, actions).db) == Stored(s.db) + After(s, actions).logged <==> !SomeStaleWrite(s, actions))
  {
    RunAccount(s, actions);
    var s' := After(s, actions);
    NoneLostIff(s');
    TotalOfNothing(s.procs, Owes);
    TotalOfNothing(s.lost, Self);
    Books(Stored(s.db), s'.logged, Stored(s'.db), Lost(s'), Owed(s'));
    if AllDone(s') { TotalOfNothing(s'.procs, Owes); }
  }

  lemma Books(before: multiset<Entry>, logged: multiset<Entry>, after: multiset<Entry>, lost: multiset<Entry>,
              owed: multiset<Entry>)
    requires after + lost + owed + multiset{} == before + multiset{} + multiset{} + logged
    ensures after <= before + logged
    ensures owed == multiset{} ==> (after == before + logged <==> lost == multiset{})
  {
    assert before + multiset{} + multiset{} + logged == before + logged;
    assert after + lost + owed + multiset{} == after + lost + owed;
    if owed == multiset{} && lost != multiset{} {
      assert |before + logged| == |after| + |lost|;
    }
  }

  // ---------- when no write is stale ----------

  ghost predicate WithoutBatches(actions: seq<Action>) {
    forall i :: 0 <= i < |actions| && actions[i].Begin? ==> actions[i].job.Single?
  }

  ghost predicate NoneTouched(s: State) {
    forall p :: p in s.procs && s.procs[p].phase.HasRead? ==> !s.procs[p].phase.touched
  }

  /** No two processes of one operation, object type, library and user are between their read and their write. */
  ghost predicate Apart(s: State) {
    forall p, q :: p in s.procs && q in s.procs && p != q && s.procs[p].phase.HasRead? && s.procs[q].phase.HasRead? ==>
      s.procs[p].job.Label() != s.procs[q].job.Label()
  }

  ghost predicate AlwaysApart(s: State, actions: seq<Action>)
    requires Runs(s, actions)
    decreases |actions|
  {
    Apart(s) && (actions == [] || AlwaysApart(Apply(s, actions[0]), actions[1..]))
  }

  // A write touches no snapshot but those of its own tag.
  lemma ApartStep(s: State, a: Action)
    requires Inv(s) && Enabled(s, a) && NoneTouched(s) && Apart(s)
    ensures NoneTouched(Apply(s, a))
  {
    if a.Write? {
      WriteMoves(s, a.p);
      assert PhaseInv(s.db, s.lost, s.procs[a.p]);
      forall q | q in s.procs && q != a.p && s.procs[q].phase.HasRead?
        ensures s.procs[q].phase.id != s.procs[a.p].phase.id
      {
        assert PhaseInv(s.db, s.lost, s.procs[q]);
      }
    }
  }

  lemma {:induction false} ApartIsFresh(s: State, actions: seq<Action>)
    requires Inv(s) && Runs(s, actions) && NoneTouched(s) && AlwaysApart(s, actions)
    ensures !SomeStaleWrite(s, actions)
    decreases |actions|
  {
    if actions != [] {
      StepInv(s, actions[0]);
      ApartStep(s, actions[0]);
      ApartIsFresh(Apply(s, actions[0]), actions[1..]);
    }
  }

  /** Groups that overlap neither a locked section nor another group of their tag lose nothing. */
  lemma BatchesApartLoseNothing(s: State, actions: seq<Action>)
    requires Initial(s) && Runs(s, actions) && AlwaysApart(s, actions) && AllDone(After(s, actions))
    ensures Stored(After(s, actions).db) == Stored(s.db) + After(s, actions).logged
  {
    ApartIsFresh(s, actions);
    NothingLostIffNoStaleWrite(s, actions);
  }

  // The lock keeps calls apart from each other.
  lemma SinglesAreApart(s: State)
    requires Inv(s) && forall p :: p in s.procs ==> s.procs[p].job.Single?
    ensures Apart(s)
  {
    assert forall p :: p in s.procs && s.procs[p].phase.HasRead? ==> InLock(s.procs[p]) && s.holder == Some(p);
  }

  lemma {:induction false} CallsAreApart(s: State, actions: seq<Action>)
    requires Inv(s) && Runs(s, actions) && WithoutBatches(actions)
    requires forall p :: p in s.procs ==> s.procs[p].job.Single?
    ensures AlwaysApart(s, actions)
    decreases |actions|
  {
    SinglesAreApart(s);
    if actions != [] {
      StepInv(s, actions[0]);
      SinglesStay(s, actions[0]);
      CallsAreApart(Apply(s, actions[0]), actions[1..]);
    }
  }

  lemma SinglesStay(s: State, a: Action)
    requires Enabled(s, a) && (a.Begin? ==> a.job.Single?)
    requires forall p :: p in s.procs ==> s.procs[p].job.Single?
    ensures forall p :: p in Apply(s, a).procs ==> Apply(s, a).procs[p].job.Single?
  {
    if a.Write? { WriteMoves(s, a.p); }
  }

  /** Without batches the lock is enough: every interleaving of calls keeps every item exactly once. */
  lemma CallsLoseNothing(s: State, actions: seq<Action>)
    requires Initial(s) && Runs(s, actions) && WithoutBatches(actions) && AllDone(After(s, actions))
    ensures Stored(After(s, actions).db) == Stored(s.db) + After(s, actions).logged
  {
    CallsAreApart(s, actions);
    BatchesApartLoseNothing(s, actions);
  }
}
