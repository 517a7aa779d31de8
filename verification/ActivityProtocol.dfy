/**
 Concurrent `log_activity` calls and batch groups as a state machine over their statements.

 A create or delete call takes the aggregate lock, reads the newest row of its window and
 writes the longer array back before it releases the lock; a call that finds no row with room
 releases the lock first and inserts afterwards.  An edit reads and refreshes without the lock.
 A group of a batch runs the same read, write and insert, and never takes the lock.
 */
module ActivityProtocol {
  import opened Options
  import opened ActivityModel
  import opened ActivityBatch
  import opened ActivityCalls

  // What a process does: one call, or one group of a batch.
  datatype Job = Single(call: Call) | Group(tag: Tag, now: int, news: seq<Row>) {
    function Label(): Tag { if Single? then call.tag else tag }
    function Clock(): int { if Single? then call.now else now }
    function Rows(): seq<Row> { if Single? then [NewRow(call)] else news }
    function Kept(): set<Key> { if Single? then COMMON else COMMON_AND_MERGE }
    ghost predicate Valid() { Group? ==> tag.op.Aggregates() && AllLone(tag, news) }
  }

  // `HasRead` holds a snapshot of a row.  `touched` records that another process has written the
  // row since, `seen` all that had been written to the row when it was read.
  datatype Phase =
    | Started
    | Locked
    | HasRead(id: nat, detail: Detail, seen: multiset<Entry>, touched: bool)
    | Refreshing(id: nat)
    | Inserting(rows: seq<Row>)
    | Done

  datatype Proc = Proc(job: Job, phase: Phase)

  // `logged` is everything begun; `lost` holds, by row, what was written to it and is not there now.
  datatype State = State(db: Db, procs: map<nat, Proc>, holder: Option<nat>, logged: multiset<Entry>,
                         lost: map<nat, multiset<Entry>>)

  datatype Action =
    | Begin(p: nat, job: Job)
    | Lock(p: nat)
    | Query(p: nat, choice: Option<nat>)
    | Write(p: nat)
    | QueryEdit(p: nat, choice: Option<nat>)
    | Refresh(p: nat)
    | Direct(p: nat)
    | InsertRow(p: nat)

  predicate At(s: State, p: nat) { p in s.procs }

  // A group queries at once, a call once it has the lock.
  predicate MayQuery(p: Proc) { if p.job.Single? then p.phase.Locked? else p.phase.Started? }

  ghost predicate Enabled(s: State, a: Action) {
    match a
    case Begin(p, job) => p !in s.procs && job.Valid()
    case Lock(p) => At(s, p) && s.procs[p].phase == Started && s.procs[p].job.Single?
                    && s.procs[p].job.Label().op.Aggregates() && s.holder == None
    case Query(p, choice) => At(s, p) && MayQuery(s.procs[p])
                             && Picks(s.db, s.procs[p].job.Label(), s.procs[p].job.Clock(), choice)
    case Write(p) => At(s, p) && s.procs[p].phase.HasRead?
    case QueryEdit(p, choice) => At(s, p) && s.procs[p].phase == Started && s.procs[p].job.Label().op == Edit
                                 && s.procs[p].job.Single?
                                 && PicksEdit(s.db, s.procs[p].job.call.tag.repo, s.procs[p].job.call.tag.user,
                                              s.procs[p].job.call.path, s.procs[p].job.call.now, choice)
    case Refresh(p) => At(s, p) && s.procs[p].phase.Refreshing?
    case Direct(p) => At(s, p) && s.procs[p].phase == Started && s.procs[p].job.Label().op.Other?
    case InsertRow(p) => At(s, p) && s.procs[p].phase.Inserting?
  }

  // How many of the job's items fit behind an array.
  function Fitting(job: Job, d: Detail): (k: nat)
    ensures k <= |job.Rows()|
  {
    Taken(|job.Rows()|, ItemCount(d))
  }

  predicate Fits(db: Db, job: Job, choice: Option<nat>) {
    choice.Some? && choice.value in db.rows && Fitting(job, db.rows[choice.value].detail) > 0
  }

  // The row a process writes back: the array it has read, and the items that fit at the end.
  function WrittenBack(row: Row, snapshot: Detail, job: Job): Row {
    Aggregated(row, ParseDetail(snapshot, job.Kept()) + Objects(job.Rows()[..Fitting(job, snapshot)]), job.Clock())
  }

  // Everything that was ever written to a row: what is there and what is lost.
  ghost function EverWritten(db: Db, lost: map<nat, multiset<Entry>>, id: nat): multiset<Entry> {
    (if id in db.rows then RowEntries(db.rows[id]) else multiset{}) + (if id in lost then lost[id] else multiset{})
  }

  ghost function Snapshot(job: Job, d: Detail): multiset<Entry> { EntriesUnder(job.Label(), ParseDetail(d, COMMON)) }

  function Moved(s: State, p: nat, phase: Phase): map<nat, Proc>
    requires At(s, p)
  {
    s.procs[p := s.procs[p].(phase := phase)]
  }

  // A write to row `id` leaves every snapshot of it out of date.
  function TouchOne(p: Proc, id: nat): Proc {
    if p.phase.HasRead? && p.phase.id == id then p.(phase := p.phase.(touched := true)) else p
  }

  // The processes after `p` has written row `id` and moved on.
  function Told(procs: map<nat, Proc>, id: nat, p: nat, moved: Proc): map<nat, Proc> {
    map q | q in procs :: if q == p then moved else TouchOne(procs[q], id)
  }

  function ThenInsert(rows: seq<Row>): Phase { if rows == [] then Done else Inserting(rows) }

  ghost function Apply(s: State, a: Action): State
    requires Enabled(s, a)
  {
    match a
    case Begin(p, job) => s.(procs := s.procs[p := Proc(job, Started)], logged := s.logged + JobEntries(job))
    case Lock(p) => s.(procs := Moved(s, p, Locked), holder := Some(p))
    case Query(p, choice) =>
      var job := s.procs[p].job;
      if Fits(s.db, job, choice) then
        var id := choice.value;
        s.(procs := Moved(s, p, HasRead(id, s.db.rows[id].detail, EverWritten(s.db, s.lost, id), false)))
      else s.(procs := Moved(s, p, Inserting(job.Rows())), holder := if job.Single? then None else s.holder)
    case Write(p) => Written(s, p)
    case QueryEdit(p, choice) =>
      s.(procs := Moved(s, p, if choice.Some? then Refreshing(choice.value) else Inserting(s.procs[p].job.Rows())))
    case Refresh(p) =>
      var id := s.procs[p].phase.id;
      var db := if id in s.db.rows then Update(s.db, id, s.db.rows[id].(createdAt := s.procs[p].job.Clock())) else s.db;
      s.(db := db, procs := Moved(s, p, Done))
    case Direct(p) => s.(procs := Moved(s, p, Inserting(s.procs[p].job.Rows())))
    case InsertRow(p) => s.(db := InsertMany(s.db, s.procs[p].phase.rows), procs := Moved(s, p, Done))
  }

  // The statement that writes the array back; a call then releases the lock.
  ghost function Written(s: State, p: nat): State
    requires At(s, p) && s.procs[p].phase.HasRead?
  {
    var Proc(job, HasRead(id, snapshot, _, _)) := s.procs[p];
    var db := if id in s.db.rows then Update(s.db, id, WrittenBack(s.db.rows[id], snapshot, job)) else s.db;
    State(db, Told(s.procs, id, p, Proc(job, ThenInsert(job.Rows()[Fitting(job, snapshot)..]))),
          if job.Single? then None else s.holder, s.logged,
          s.lost[id := EverWritten(s.db, s.lost, id) - Snapshot(job, snapshot)])
  }

  // ---------- runs ----------

  ghost predicate Runs(s: State, actions: seq<Action>)
    decreases |actions|
  {
    actions == [] || (Enabled(s, actions[0]) && Runs(Apply(s, actions[0]), actions[1..]))
  }

  ghost function After(s: State, actions: seq<Action>): State
    requires Runs(s, actions)
    decreases |actions|
  {
    if actions == [] then s else After(Apply(s, actions[0]), actions[1..])
  }

  /** A write over a row that another process has written since it was read. */
  ghost predicate StaleWrite(s: State, a: Action) {
    a.Write? && Enabled(s, a) && s.procs[a.p].phase.touched
  }

  ghost predicate SomeStaleWrite(s: State, actions: seq<Action>)
    requires Runs(s, actions)
    decreases |actions|
  {
    actions != [] && (StaleWrite(s, actions[0]) || SomeStaleWrite(Apply(s, actions[0]), actions[1..]))
  }

  ghost predicate Initial(s: State) {
    && s.db.Valid() && WithinCap(s.db)
    && s.procs == map[] && s.holder == None && s.logged == multiset{} && s.lost == map[]
  }

  ghost predicate AllDone(s: State) { forall p :: p in s.procs ==> s.procs[p].phase == Done }

  // ---------- the invariant ----------

  ghost function RowsEntries(tag: Tag, rows: seq<Row>): multiset<Entry> {
    if tag.op.Aggregates() then EntriesUnder(tag, Objects(rows)) else multiset{}
  }

  ghost function JobEntries(job: Job): multiset<Entry> { RowsEntries(job.Label(), job.Rows()) }

  // What a process has still to store.
  ghost function Owes(p: Proc): multiset<Entry> {
    match p.phase
    case Done => multiset{}
    case Inserting(rows) => RowsEntries(p.job.Label(), rows)
    case _ => JobEntries(p.job)
  }

  predicate InLock(p: Proc) { p.job.Single? && (p.phase.Locked? || p.phase.HasRead?) }

  /** Exactly the holder of the lock is a call between its read and its write. */
  ghost predicate LockInv(s: State) {
    && (s.holder.Some? ==> s.holder.value in s.procs)
    && forall p :: p in s.procs ==> (InLock(s.procs[p]) <==> s.holder == Some(p))
  }

  /** A snapshot is the row as it is, unless the row was written since: then something is missing in it. */
  ghost predicate SnapshotInv(db: Db, lost: map<nat, multiset<Entry>>, p: Proc) {
    p.phase.HasRead? ==>
      && p.job.Label().op.Aggregates()
      && p.phase.id in db.rows && db.rows[p.phase.id].tag == p.job.Label()
      && Fitting(p.job, p.phase.detail) > 0
      && Snapshot(p.job, p.phase.detail) <= p.phase.seen <= EverWritten(db, lost, p.phase.id)
      && (!p.phase.touched ==> db.rows[p.phase.id].detail == p.phase.detail)
      && (p.phase.touched ==> |p.phase.seen| < |EverWritten(db, lost, p.phase.id)|)
  }

  ghost predicate PhaseInv(db: Db, lost: map<nat, multiset<Entry>>, p: Proc) {
    && p.job.Valid() && (p.phase.Locked? ==> p.job.Label().op.Aggregates())
    && (p.phase.Refreshing? ==>
          p.job.Label().op == Edit && p.phase.id in db.rows && db.rows[p.phase.id].tag.op == Edit)
    && (p.phase.Inserting? ==> AllLone(p.job.Label(), p.phase.rows))
    && SnapshotInv(db, lost, p)
  }

  ghost predicate Inv(s: State) {
    && s.db.Valid() && WithinCap(s.db) && LockInv(s) && (forall id :: id in s.lost ==> id in s.db.rows)
    && forall p :: p in s.procs ==> PhaseInv(s.db, s.lost, s.procs[p])
  }

  // ---------- every step keeps the invariant ----------

  // A step that leaves every other process in or out of the lock, and moves `p` with the lock.
  lemma LockMoves(s: State, p: nat, s': State)
    requires LockInv(s) && s'.procs.Keys == s.procs.Keys + {p}
    requires forall q :: q in s.procs && q != p ==> (InLock(s'.procs[q]) <==> InLock(s.procs[q]))
    requires s'.holder == s.holder || s'.holder == Some(p) || (s'.holder == None && s.holder == Some(p))
    requires s'.holder == Some(p) && s.holder != Some(p) ==> s.holder == None
    requires InLock(s'.procs[p]) <==> s'.holder == Some(p)
    ensures LockInv(s')
  {
  }

  lemma TouchKeepsLock(p: Proc, id: nat)
    ensures InLock(TouchOne(p, id)) <==> InLock(p)
  {
  }

  lemma WriteMoves(s: State, p: nat)
    requires At(s, p) && s.procs[p].phase.HasRead?
    ensures var s' := Written(s, p);
            && s'.procs.Keys == s.procs.Keys && s'.procs[p].job == s.procs[p].job
            && (s'.procs[p].phase.Inserting? || s'.procs[p].phase.Done?)
            && s'.holder == (if s.procs[p].job.Single? then None else s.holder)
            && forall q :: q in s.procs && q != p ==> s'.procs[q] == TouchOne(s.procs[q], s.procs[p].phase.id)
  {
  }

  lemma LockWrite(s: State, p: nat, s': State)
    requires LockInv(s) && At(s, p) && s.procs[p].phase.HasRead? && s'.procs.Keys == s.procs.Keys
    requires s'.procs[p].job == s.procs[p].job && (s'.procs[p].phase.Inserting? || s'.procs[p].phase.Done?)
    requires s'.holder == if s.procs[p].job.Single? then None else s.holder
    requires forall q :: q in s.procs && q != p ==> s'.procs[q] == TouchOne(s.procs[q], s.procs[p].phase.id)
    ensures LockInv(s')
  {
    assert InLock(s.procs[p]) <==> s.holder == Some(p);
    forall q | q in s.procs && q != p ensures InLock(s'.procs[q]) <==> InLock(s.procs[q]) {
      TouchKeepsLock(s.procs[q], s.procs[p].phase.id);
    }
    LockMoves(s, p, s');
  }

  lemma LockStep(s: State, a: Action)
    requires Inv(s) && Enabled(s, a) && !a.Write?
    ensures LockInv(Apply(s, a))
  {
    if !a.Begin? {
      assert InLock(s.procs[a.p]) <==> s.holder == Some(a.p);
      LockMoves(s, a.p, Apply(s, a));
    }
  }

  lemma RowsAreLone(job: Job)
    requires job.Valid()
    ensures AllLone(job.Label(), job.Rows())
  {
  }

  /** A step that changes neither a snapshotted row nor what was lost from it keeps the phase. */
  lemma PhaseKept(db: Db, db': Db, lost: map<nat, multiset<Entry>>, lost': map<nat, multiset<Entry>>, p: Proc)
    requires PhaseInv(db, lost, p)
    requires forall id :: id in db.rows ==> id in db'.rows && db'.rows[id].tag == db.rows[id].tag
    requires p.phase.HasRead? ==>
               db'.rows[p.phase.id].detail == db.rows[p.phase.id].detail
               && EverWritten(db', lost', p.phase.id) == EverWritten(db, lost, p.phase.id)
    ensures PhaseInv(db', lost', p)
  {
  }

  // The array a process writes back holds its snapshot and the items that fitted.
  lemma WrittenBackEntries(row: Row, job: Job, d: Detail)
    requires job.Valid() && job.Label().op.Aggregates() && row.tag == job.Label()
    ensures RowEntries(WrittenBack(row, d, job))
         == Snapshot(job, d) + EntriesUnder(job.Label(), Objects(job.Rows()[..Fitting(job, d)]))
    ensures WrittenBack(row, d, job).tag == row.tag
  {
    AggregatedEntries(row.(detail := d), job.Kept(), Objects(job.Rows()[..Fitting(job, d)]), job.Clock());
  }

  lemma EntriesSize(tag: Tag, items: seq<Item>)
    ensures |EntriesUnder(tag, items)| == |items|
  {
    assert |AsEntries(tag, items)| == |items|;
  }

  /** Everything known of a row grows by what is written to it, whatever the write drops. */
  lemma WriteKnown(s: State, p: nat)
    requires Inv(s) && At(s, p) && s.procs[p].phase.HasRead?
    ensures var Proc(job, HasRead(id, d, _, _)) := s.procs[p];
            var s' := Written(s, p);
            var added := EntriesUnder(job.Label(), Objects(job.Rows()[..Fitting(job, d)]));
            && EverWritten(s'.db, s'.lost, id) == EverWritten(s.db, s.lost, id) + added && |added| > 0
            && forall j :: j != id ==> EverWritten(s'.db, s'.lost, j) == EverWritten(s.db, s.lost, j)
  {
    var Proc(job, HasRead(id, d, _, _)) := s.procs[p];
    assert PhaseInv(s.db, s.lost, s.procs[p]);
    WrittenBackEntries(s.db.rows[id], job, d);
    var added := Objects(job.Rows()[..Fitting(job, d)]);
    EntriesSize(job.Label(), added);
    Restored(EverWritten(s.db, s.lost, id), Snapshot(job, d), EntriesUnder(job.Label(), added));
  }

  lemma Restored(known: multiset<Entry>, part: multiset<Entry>, added: multiset<Entry>)
    requires part <= known
    ensures (part + added) + (known - part) == known + added
  {
  }

  lemma Larger(seen: multiset<Entry>, known: multiset<Entry>, added: multiset<Entry>)
    requires seen <= known && |added| > 0
    ensures seen <= known + added && |seen| < |known + added|
  {
    assert known == seen + (known - seen);
  }

  lemma TouchedSnapshot(db: Db, db': Db, lost: map<nat, multiset<Entry>>, lost': map<nat, multiset<Entry>>, p: Proc,
                        added: multiset<Entry>)
    requires PhaseInv(db, lost, p) && p.phase.HasRead? && |added| > 0
    requires p.phase.id in db'.rows && db'.rows[p.phase.id].tag == db.rows[p.phase.id].tag
    requires EverWritten(db', lost', p.phase.id) == EverWritten(db, lost, p.phase.id) + added
    ensures PhaseInv(db', lost', p.(phase := p.phase.(touched := true)))
  {
    Larger(p.phase.seen, EverWritten(db, lost, p.phase.id), added);
  }

  /** A written row leaves every other snapshot of it touched and short of something. */
  lemma TouchedKept(s: State, p: nat, q: nat)
    requires Inv(s) && At(s, p) && s.procs[p].phase.HasRead? && At(s, q) && q != p
    ensures PhaseInv(Written(s, p).db, Written(s, p).lost, TouchOne(s.procs[q], s.procs[p].phase.id))
  {
    var s', id := Written(s, p), s.procs[p].phase.id;
    assert PhaseInv(s.db, s.lost, s.procs[p]) && PhaseInv(s.db, s.lost, s.procs[q]);
    WriteKnown(s, p);
    if s.procs[q].phase.HasRead? && s.procs[q].phase.id == id {
      var job := s.procs[p].job;
      TouchedSnapshot(s.db, s'.db, s.lost, s'.lost, s.procs[q],
                      EntriesUnder(job.Label(), Objects(job.Rows()[..Fitting(job, s.procs[p].phase.detail)])));
    } else {
      PhaseKept(s.db, s'.db, s.lost, s'.lost, s.procs[q]);
    }
  }

  lemma OwnAfterWrite(s: State, p: nat)
    requires Inv(s) && At(s, p) && s.procs[p].phase.HasRead?
    ensures PhaseInv(Written(s, p).db, Written(s, p).lost, Written(s, p).procs[p])
  {
    assert PhaseInv(s.db, s.lost, s.procs[p]);
    RowsAreLone(s.procs[p].job);
  }

  lemma WriteStepInv(s: State, p: nat, s': State)
    requires Inv(s) && At(s, p) && s.procs[p].phase.HasRead? && s' == Written(s, p)
    ensures Inv(s')
  {
    WriteTable(s, p);
    WriteMoves(s, p);
    LockWrite(s, p, s');
    OwnAfterWrite(s, p);
    forall q | q in s.procs && q != p ensures PhaseInv(s'.db, s'.lost, s'.procs[q]) {
      TouchedKept(s, p, q);
    }
  }

  lemma WriteTable(s: State, p: nat)
    requires Inv(s) && At(s, p) && s.procs[p].phase.HasRead?
    ensures var s' := Written(s, p);
            s'.db.Valid() && WithinCap(s'.db) && forall id :: id in s'.lost ==> id in s'.db.rows
  {
    assert PhaseInv(s.db, s.lost, s.procs[p]);
  }

  lemma InsertStepInv(s: State, a: Action)
    requires Inv(s) && Enabled(s, a) && a.InsertRow?
    ensures Inv(Apply(s, a))
  {
    var s', rows := Apply(s, a), s.procs[a.p].phase.rows;
    assert PhaseInv(s.db, s.lost, s.procs[a.p]);
    LockStep(s, a);
    InsertManyRows(s.db, rows);
    forall q | q in s.procs && q != a.p ensures PhaseInv(s'.db, s'.lost, s.procs[q]) {
      assert PhaseInv(s.db, s.lost, s.procs[q]);
      PhaseKept(s.db, s'.db, s.lost, s'.lost, s.procs[q]);
    }
  }

  lemma RefreshStepInv(s: State, a: Action)
    requires Inv(s) && Enabled(s, a) && a.Refresh?
    ensures Inv(Apply(s, a))
  {
    var s' := Apply(s, a);
    assert PhaseInv(s.db, s.lost, s.procs[a.p]);
    LockStep(s, a);
    forall q | q in s.procs && q != a.p ensures PhaseInv(s'.db, s'.lost, s.procs[q]) {
      assert PhaseInv(s.db, s.lost, s.procs[q]);
      PhaseKept(s.db, s'.db, s.lost, s'.lost, s.procs[q]);
    }
  }

  // A query reads the row as it is.
  lemma QueryReads(s: State, a: Action)
    requires Inv(s) && Enabled(s, a) && a.Query?
    ensures PhaseInv(s.db, s.lost, Apply(s, a).procs[a.p])
  {
    var job := s.procs[a.p].job;
    assert PhaseInv(s.db, s.lost, s.procs[a.p]);
    RowsAreLone(job);
    if Fits(s.db, job, a.choice) {
      PromotionKeepsEntries(job.Label(), s.db.rows[a.choice.value].detail, COMMON);
    }
  }

  // A step that leaves the table alone and moves one process.
  lemma QuietKeeps(s: State, s': State, p: nat)
    requires Inv(s) && LockInv(s') && s'.db == s.db && s'.lost == s.lost
    requires p in s'.procs && s'.procs == s.procs[p := s'.procs[p]] && PhaseInv(s.db, s.lost, s'.procs[p])
    ensures Inv(s')
  {
    forall q | q in s'.procs ensures PhaseInv(s'.db, s'.lost, s'.procs[q]) {
      if q != p { assert PhaseInv(s.db, s.lost, s.procs[q]); }
    }
  }

  // Where a step that leaves the table alone moves its process.
  lemma QuietOwn(s: State, a: Action)
    requires Inv(s) && Enabled(s, a) && (a.Lock? || a.QueryEdit? || a.Direct?)
    ensures PhaseInv(s.db, s.lost, Apply(s, a).procs[a.p])
  {
    assert PhaseInv(s.db, s.lost, s.procs[a.p]);
    RowsAreLone(s.procs[a.p].job);
  }

  lemma QuietStepInv(s: State, a: Action, s': State)
    requires Inv(s) && Enabled(s, a) && !a.Write? && !a.InsertRow? && !a.Refresh? && s' == Apply(s, a)
    ensures Inv(s')
  {
    LockStep(s, a);
    if a.Query? {
      QueryReads(s, a);
    } else if !a.Begin? {
      QuietOwn(s, a);
    }
    QuietKeeps(s, s', a.p);
  }

  lemma StepInv(s: State, a: Action)
    requires Inv(s) && Enabled(s, a)
    ensures Inv(Apply(s, a))
  {
    match a
    case Write(p) => WriteStepInv(s, p, Apply(s, a));
    case InsertRow(_) => InsertStepInv(s, a);
    case Refresh(_) => RefreshStepInv(s, a);
    case _ => QuietStepInv(s, a, Apply(s, a));
  }
}
