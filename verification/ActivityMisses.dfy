/**
 The gap between a query that finds no row and the insertion of the row: how many rows a run
 inserts, and when it is just one.  This is the same for aggregated calls and for edits.
 */
module ActivityMisses {
  import opened Options
  import opened ActivityModel
  import opened ActivityProtocol

  predicate Asks(a: Action) { a.Query? || a.QueryEdit? }

  // A query that finds no row it can use.
  ghost predicate Missed(s: State, a: Action)
    requires Enabled(s, a)
  {
    (a.Query? && !Fits(s.db, s.procs[a.p].job, a.choice)) || (a.QueryEdit? && a.choice.None?)
  }

  function Settled(procs: map<nat, Proc>): set<nat> { set p | p in procs && procs[p].phase.Done? }

  // The calls that have found no row and have not inserted theirs.
  function Waiting(procs: map<nat, Proc>): set<nat> { set p | p in procs && procs[p].phase.Inserting? }

  // Rows inserted, and rows that are certain to be.
  function Rows(before: Db, s: State): int { s.db.next - before.next + |Waiting(s.procs)| }

  function Bit(b: bool): int { if b then 1 else 0 }

  lemma {:induction false} WithOne(a: set<nat>, p: nat, b: bool)
    ensures |if b then a + {p} else a - {p}| == |a| - Bit(p in a) + Bit(b)
  {
    if b && p in a { assert a + {p} == a; }
    if !b && p !in a { assert a - {p} == a; }
  }

  // A process that is added or moves on changes the counts by what it was and what it is.
  lemma CountsMoved(procs: map<nat, Proc>, p: nat, moved: Proc)
    ensures |Waiting(procs[p := moved])|
         == |Waiting(procs)| - Bit(p in procs && procs[p].phase.Inserting?) + Bit(moved.phase.Inserting?)
    ensures |Settled(procs[p := moved])|
         == |Settled(procs)| - Bit(p in procs && procs[p].phase.Done?) + Bit(moved.phase.Done?)
  {
    SetsMoved(procs, p, moved);
    WithOne(Waiting(procs), p, moved.phase.Inserting?);
    WithOne(Settled(procs), p, moved.phase.Done?);
  }

  lemma SetsMoved(procs: map<nat, Proc>, p: nat, moved: Proc)
    ensures Waiting(procs[p := moved]) == if moved.phase.Inserting? then Waiting(procs) + {p} else Waiting(procs) - {p}
    ensures Settled(procs[p := moved]) == if moved.phase.Done? then Settled(procs) + {p} else Settled(procs) - {p}
  {
  }

  // ---------- runs in which a query misses just until a row is there ----------

  ghost predicate NobodyDone(s: State) { forall p :: p in s.procs ==> !s.procs[p].phase.Done? }

  /** A query misses exactly while no row is inserted, and only a miss adds a row to come. */
  ghost predicate TidyStep(before: Db, s: State, a: Action)
    requires Enabled(s, a)
  {
    var s' := Apply(s, a);
    && before.next <= s.db.next <= s'.db.next
    && (Asks(a) ==> (Missed(s, a) <==> s.db.next == before.next))
    && (Missed(s, a) ==> At(s', a.p) && s'.procs[a.p].phase.Inserting?)
    && Rows(before, s') == Rows(before, s) + Bit(Missed(s, a))
    && (a.InsertRow? ==> s'.db.next > before.next)
    && (Rows(before, s) == 0 && !Asks(a) && NobodyDone(s) ==> NobodyDone(s'))
  }

  ghost predicate TidyRun(before: Db, s: State, actions: seq<Action>)
    decreases |actions|
  {
    actions == [] ||
    (Enabled(s, actions[0]) && TidyStep(before, s, actions[0]) && TidyRun(before, Apply(s, actions[0]), actions[1..]))
  }

  /** How many queries of a run find no row. */
  ghost function MissCount(s: State, actions: seq<Action>): nat
    requires Runs(s, actions)
    decreases |actions|
  {
    if actions == [] then 0
    else (if Missed(s, actions[0]) then 1 else 0) + MissCount(Apply(s, actions[0]), actions[1..])
  }

  /** The rows of a run are its misses. */
  lemma {:induction false} RowsOfRun(before: Db, s: State, actions: seq<Action>)
    requires TidyRun(before, s, actions) && Runs(s, actions)
    ensures Rows(before, After(s, actions)) == Rows(before, s) + MissCount(s, actions)
    decreases |actions|
  {
    if actions != [] { RowsOfRun(before, Apply(s, actions[0]), actions[1..]); }
  }

  // Once a row is there, every query finds one.
  lemma {:induction false} NoMissAfterInsert(before: Db, s: State, actions: seq<Action>)
    requires TidyRun(before, s, actions) && Runs(s, actions) && s.db.next > before.next
    ensures MissCount(s, actions) == 0
    decreases |actions|
  {
    if actions != [] { NoMissAfterInsert(before, Apply(s, actions[0]), actions[1..]); }
  }

  lemma NoneWaiting(s: State)
    requires AllDone(s)
    ensures Waiting(s.procs) == {}
  {
  }

  // ---------- just one row ----------

  /** Every query of the run comes after the insertion of process `p`. */
  ghost predicate QueriesAwait(actions: seq<Action>, p: nat) {
    forall k :: 0 <= k < |actions| && Asks(actions[k]) ==> exists j :: 0 <= j < k && actions[j] == InsertRow(p)
  }

  lemma AwaitTail(actions: seq<Action>, p: nat)
    requires actions != [] && !Asks(actions[0]) && actions[0] != InsertRow(p)
    ensures QueriesAwait(actions, p) <==> QueriesAwait(actions[1..], p)
  {
    var rest := actions[1..];
    if QueriesAwait(actions, p) {
      forall k | 0 <= k < |rest| && Asks(rest[k]) ensures exists j :: 0 <= j < k && rest[j] == InsertRow(p) {
        assert Asks(actions[k + 1]);
        var j :| 0 <= j < k + 1 && actions[j] == InsertRow(p);
        assert rest[j - 1] == InsertRow(p);
      }
    }
    if QueriesAwait(rest, p) {
      forall k | 0 <= k < |actions| && Asks(actions[k]) ensures exists j :: 0 <= j < k && actions[j] == InsertRow(p) {
        assert Asks(rest[k - 1]);
        var j :| 0 <= j < k - 1 && rest[j] == InsertRow(p);
        assert actions[j + 1] == InsertRow(p);
      }
    }
  }

  // While `p` is waiting to insert its row, which is the only one to come.
  lemma {:induction false} OneMissIff(before: Db, s: State, actions: seq<Action>, p: nat)
    requires TidyRun(before, s, actions) && Runs(s, actions) && before.next <= s.db.next
    requires At(s, p) && s.procs[p].phase.Inserting? && Rows(before, s) == 1
    ensures MissCount(s, actions) == 0 <==> QueriesAwait(actions, p)
    decreases |actions|
  {
    OnlyWaiter(before, s, p);
    if actions != [] {
      var a := actions[0];
      if a == InsertRow(p) {
        NoMissAfterInsert(before, Apply(s, a), actions[1..]);
        assert forall k :: 0 <= k < |actions| && Asks(actions[k]) ==> k > 0;
      } else if !Asks(a) {
        StaysWaiting(s, a, p);
        AwaitTail(actions, p);
        OneMissIff(before, Apply(s, a), actions[1..], p);
      }
    }
  }

  lemma OnlyWaiter(before: Db, s: State, p: nat)
    requires At(s, p) && s.procs[p].phase.Inserting? && Rows(before, s) == 1 && before.next <= s.db.next
    ensures s.db.next == before.next && Waiting(s.procs) == {p}
  {
    assert p in Waiting(s.procs);
    assert |Waiting(s.procs) - {p}| == |Waiting(s.procs)| - 1;
    assert Waiting(s.procs) == (Waiting(s.procs) - {p}) + {p};
  }

  lemma StaysWaiting(s: State, a: Action, p: nat)
    requires Enabled(s, a) && At(s, p) && s.procs[p].phase.Inserting? && a != InsertRow(p)
    ensures At(Apply(s, a), p) && Apply(s, a).procs[p].phase.Inserting?
  {
    if a.Write? { WriteMoves(s, a.p); }
  }

  /** Every query after the first one comes after the row of the call that queried first is inserted. */
  ghost predicate OthersAwaitFirst(actions: seq<Action>)
    decreases |actions|
  {
    if actions == [] then true
    else if Asks(actions[0]) then QueriesAwait(actions[1..], actions[0].p)
    else OthersAwaitFirst(actions[1..])
  }

  /** Exactly one row is inserted if and only if all other queries await the row of the first one. */
  lemma {:induction false} OneRowIff(before: Db, s: State, actions: seq<Action>)
    requires TidyRun(before, s, actions) && Runs(s, actions) && before.next <= s.db.next
    requires Rows(before, s) == 0 && NobodyDone(s)
    requires AllDone(After(s, actions)) && After(s, actions).procs != map[]
    ensures MissCount(s, actions) == 1 <==> OthersAwaitFirst(actions)
    decreases |actions|
  {
    if actions != [] {
      var a := actions[0];
      if Asks(a) {
        OneMissIff(before, Apply(s, a), actions[1..], a.p);
      } else {
        OneRowIff(before, Apply(s, a), actions[1..]);
      }
    }
  }

  /** A run that finishes any process has a miss. */
  lemma {:induction false} SomeMiss(before: Db, s: State, actions: seq<Action>)
    requires TidyRun(before, s, actions) && Runs(s, actions) && before.next <= s.db.next
    requires Rows(before, s) == 0 && NobodyDone(s)
    requires AllDone(After(s, actions)) && After(s, actions).procs != map[]
    ensures MissCount(s, actions) >= 1
    decreases |actions|
  {
    if actions != [] && !Asks(actions[0]) { SomeMiss(before, Apply(s, actions[0]), actions[1..]); }
  }
}
