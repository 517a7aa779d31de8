/**
 The accept loop and its graceful drain: two watch channels used as reference counts.  The
 signal channel closes when its only receiver, held by the task that waits for the shutdown, is
 dropped; the close channel closes when the loop's receiver and that of every connection are gone.
 */
module ServeDrain {
  import opened Sets

  // A connection task: whether its signal branch has fired, and how often it was asked to drain.
  datatype Conn = Live(fired: bool, asked: nat) | Finished(asked: nat)

  datatype Main = Accepting | Draining | Returned | Failed

  // The task that holds the signal receiver: it waits for the shutdown, has learnt of it, is through.
  datatype Watcher = Waits | Resolved | Gone

  // `signals` and `receivers` count the receivers of the two channels, `pending` the connections in
  // the listener's backlog.
  datatype State = State(watcher: Watcher, signals: nat, main: Main, conns: map<nat, Conn>,
                         receivers: nat, pending: nat)

  datatype Step =
    Ask | DropSignal | Arrive | Accept(c: nat) | AcceptFails | Break | Fire(c: nat) | Finish(c: nat) | Return

  const START: State := State(Waits, 1, Accepting, map[], 1, 0)

  predicate IsLive(s: State, c: nat) { c in s.conns && s.conns[c].Live? }

  predicate Enabled(s: State, step: Step) {
    match step
    case Ask => s.watcher == Waits
    case DropSignal => s.watcher == Resolved
    case Arrive => true
    // The select is not biased: a waiting connection may be taken even when the signal is there too.
    case Accept(c) => s.main == Accepting && s.pending > 0 && c !in s.conns
    case AcceptFails => s.main == Accepting
    case Break => s.main == Accepting && s.signals == 0
    case Fire(c) => IsLive(s, c) && s.signals == 0 && !s.conns[c].fired
    case Finish(c) => IsLive(s, c)
    case Return => s.main == Draining && s.receivers == 0
  }

  function Less(n: nat): nat { if n > 0 then n - 1 else 0 }

  function Apply(s: State, step: Step): State
    requires Enabled(s, step)
  {
    match step
    case Ask => s.(watcher := Resolved)
    case DropSignal => s.(watcher := Gone, signals := Less(s.signals))
    case Arrive => s.(pending := s.pending + 1)
    case Accept(c) => s.(conns := s.conns[c := Live(false, 0)], receivers := s.receivers + 1, pending := s.pending - 1)
    case AcceptFails => s.(main := Failed, receivers := Less(s.receivers))
    case Break => s.(main := Draining, receivers := Less(s.receivers))
    case Fire(c) => s.(conns := s.conns[c := Live(true, s.conns[c].asked + 1)])
    case Finish(c) => s.(conns := s.conns[c := Finished(s.conns[c].asked)], receivers := Less(s.receivers))
    case Return => s.(main := Returned)
  }

  predicate Runs(s: State, steps: seq<Step>)
    decreases |steps|
  {
    steps == [] || (Enabled(s, steps[0]) && Runs(Apply(s, steps[0]), steps[1..]))
  }

  function After(s: State, steps: seq<Step>): State
    requires Runs(s, steps)
    decreases |steps|
  {
    if steps == [] then s else After(Apply(s, steps[0]), steps[1..])
  }

  // ---------- the invariant ----------

  function LiveOnes(conns: map<nat, Conn>): set<nat> { set c | c in conns && conns[c].Live? }

  /** The close receivers are the loop's, while it accepts, and one per live connection. */
  ghost predicate Counted(s: State) {
    && s.receivers == |LiveOnes(s.conns)| + (if s.main == Accepting then 1 else 0)
    && s.signals == if s.watcher == Gone then 0 else 1
  }

  /** A live connection has been asked to drain exactly if its signal branch fired, a finished one at most once. */
  ghost predicate AskedOnce(s: State) {
    forall c :: c in s.conns ==>
      && s.conns[c].asked <= 1
      && (s.conns[c].Live? ==> (s.conns[c].fired <==> s.conns[c].asked == 1))
      && (s.conns[c].asked == 1 ==> s.signals == 0)
  }

  ghost predicate Inv(s: State) {
    && Counted(s) && AskedOnce(s)
    && (s.main == Draining || s.main == Returned ==> s.signals == 0)
    && (s.main == Returned ==> LiveOnes(s.conns) == {})
  }

  lemma LiveAfter(conns: map<nat, Conn>, c: nat, conn: Conn)
    ensures LiveOnes(conns[c := conn]) == if conn.Live? then LiveOnes(conns) + {c} else LiveOnes(conns) - {c}
  {
  }

  lemma FireKeepsLive(conns: map<nat, Conn>, c: nat, asked: nat)
    requires c in conns && conns[c].Live?
    ensures LiveOnes(conns[c := Live(true, asked)]) == LiveOnes(conns)
  {
  }

  lemma FinishCounts(conns: map<nat, Conn>, c: nat, asked: nat)
    requires c in conns && conns[c].Live?
    ensures |LiveOnes(conns[c := Finished(asked)])| == |LiveOnes(conns)| - 1
  {
    LiveAfter(conns, c, Finished(asked));
    assert LiveOnes(conns) == (LiveOnes(conns) - {c}) + {c};
  }

  lemma AcceptCounts(conns: map<nat, Conn>, c: nat)
    requires c !in conns
    ensures |LiveOnes(conns[c := Live(false, 0)])| == |LiveOnes(conns)| + 1
  {
    LiveAfter(conns, c, Live(false, 0));
  }

  lemma StepCounts(s: State, step: Step)
    requires Counted(s) && Enabled(s, step)
    ensures Counted(Apply(s, step))
  {
    match step
    case Accept(c) => AcceptCounts(s.conns, c);
    case Fire(c) => FireKeepsLive(s.conns, c, s.conns[c].asked + 1);
    case Finish(c) => FinishCounts(s.conns, c, s.conns[c].asked);
    case _ =>
  }

  lemma StepAsks(s: State, step: Step)
    requires AskedOnce(s) && Enabled(s, step)
    ensures AskedOnce(Apply(s, step))
  {
  }

  lemma StepInv(s: State, step: Step)
    requires Inv(s) && Enabled(s, step)
    ensures Inv(Apply(s, step))
  {
    StepCounts(s, step);
    StepAsks(s, step);
  }

  lemma {:induction false} RunInv(s: State, steps: seq<Step>)
    requires Inv(s) && Runs(s, steps)
    ensures Inv(After(s, steps))
    decreases |steps|
  {
    if steps != [] {
      StepInv(s, steps[0]);
      RunInv(Apply(s, steps[0]), steps[1..]);
    }
  }

  lemma StartInv()
    ensures Inv(START)
  {
  }

  // ---------- safety ----------

  lemma NoneLive(s: State)
    requires LiveOnes(s.conns) == {}
    ensures forall c :: c in s.conns ==> s.conns[c].Finished?
  {
    forall c | c in s.conns ensures s.conns[c].Finished? {
      assert c !in LiveOnes(s.conns);
    }
  }

  /** When serving returns normally after shutdown no connection is live, and each was asked to drain at most once. */
  lemma ReturnedMeansDrained(steps: seq<Step>)
    requires Runs(START, steps) && After(START, steps).main == Returned
    ensures var s := After(START, steps);
            s.watcher == Gone && s.receivers == 0
            && forall c :: c in s.conns ==> s.conns[c].Finished? && s.conns[c].asked <= 1
  {
    StartInv();
    RunInv(START, steps);
    NoneLive(After(START, steps));
  }

  /** The wait at the end can end just when the last connection has finished, never earlier and never stuck. */
  lemma ReturnEnabledIff(steps: seq<Step>)
    requires Runs(START, steps)
    ensures var s := After(START, steps);
            s.main == Draining ==> (Enabled(s, Return) <==> forall c :: c in s.conns ==> s.conns[c].Finished?)
  {
    StartInv();
    RunInv(START, steps);
    var s := After(START, steps);
    if s.main == Draining {
      if forall c :: c in s.conns ==> s.conns[c].Finished? {
        assert LiveOnes(s.conns) == {};
      }
      if Enabled(s, Return) {
        assert LiveOnes(s.conns) == {};
        NoneLive(s);
      }
    }
  }

  /** Once the loop has left off accepting, no connection is ever added. */
  lemma {:induction false} NoneAcceptedAfterBreak(s: State, steps: seq<Step>)
    requires s.main != Accepting && Runs(s, steps)
    ensures After(s, steps).conns.Keys == s.conns.Keys && After(s, steps).main != Accepting
    decreases |steps|
  {
    if steps != [] {
      NoneAcceptedAfterBreak(Apply(s, steps[0]), steps[1..]);
    }
  }

  /**
   Once the shutdown is asked for, the signal receiver is about to be dropped or is dropped; and then
   every live connection, late ones included, can be asked to drain, or has been.
   */
  lemma LiveConnectionsObserve(steps: seq<Step>, c: nat)
    requires Runs(START, steps) && After(START, steps).watcher != Waits && IsLive(After(START, steps), c)
    ensures var s := After(START, steps);
            if s.watcher == Resolved then Enabled(s, DropSignal) else Enabled(s, Fire(c)) || s.conns[c].asked == 1
  {
    StartInv();
    RunInv(START, steps);
  }

  // ---------- the window between the signal and the loop noticing it ----------

  // The connections accepted although the shutdown had already been asked for.
  function Late(s: State, steps: seq<Step>): set<nat>
    requires Runs(s, steps)
    decreases |steps|
  {
    if steps == [] then {}
    else
      (if steps[0].Accept? && s.watcher != Waits then {steps[0].c} else {}) + Late(Apply(s, steps[0]), steps[1..])
  }

  lemma Prepend(s: State, step: Step, s': State, steps: seq<Step>)
    requires Enabled(s, step) && s' == Apply(s, step) && Runs(s', steps)
    ensures Runs(s, [step] + steps) && After(s, [step] + steps) == After(s', steps)
    ensures Late(s, [step] + steps) == (if step.Accept? && s.watcher != Waits then {step.c} else {}) + Late(s', steps)
  {
    assert ([step] + steps)[1..] == steps;
  }

  // A connection that is alone is asked to drain and finishes, and serving returns.
  lemma DrainsAlone(s: State) returns (steps: seq<Step>)
    requires s == State(Gone, 0, Accepting, map[7 := Live(false, 0)], 2, 0)
    ensures Runs(s, steps) && After(s, steps).main == Returned && Late(s, steps) == {}
  {
    var s1 := Apply(s, Break);
    var s2 := Apply(s1, Fire(7));
    var s3 := Apply(s2, Finish(7));
    Prepend(s3, Return, Apply(s3, Return), []);
    Prepend(s2, Finish(7), s3, [Return] + []);
    Prepend(s1, Fire(7), s2, [Finish(7)] + ([Return] + []));
    steps := [Break] + ([Fire(7)] + ([Finish(7)] + ([Return] + [])));
    Prepend(s, Break, s1, [Fire(7)] + ([Finish(7)] + ([Return] + [])));
  }

  /** A connection can still be accepted after the shutdown signal: the loop may take it before it notices. */
  lemma AcceptAfterSignalIsPossible() returns (steps: seq<Step>)
    ensures Runs(START, steps) && After(START, steps).main == Returned && Late(START, steps) == {7}
  {
    var s1 := Apply(START, Arrive);
    var s2 := Apply(s1, Ask);
    var s3 := Apply(s2, DropSignal);
    var s4 := Apply(s3, Accept(7));
    var tail := DrainsAlone(s4);
    Prepend(s3, Accept(7), s4, tail);
    tail := [Accept(7)] + tail;
    Prepend(s2, DropSignal, s3, tail);
    tail := [DropSignal] + tail;
    Prepend(s1, Ask, s2, tail);
    steps := [Arrive] + ([Ask] + tail);
    Prepend(START, Arrive, s1, [Ask] + tail);
  }

  ghost predicate NoArrivals(steps: seq<Step>) { forall i :: 0 <= i < |steps| ==> steps[i] != Arrive }

  // Some continuation without further arrivals accepts a connection late.
  ghost predicate CanBeLate(s: State) {
    exists more :: Runs(s, more) && NoArrivals(more) && Late(s, more) != {}
  }

  lemma {:induction false} Unused(ids: set<nat>) returns (c: nat)
    ensures forall id :: id in ids ==> id < c
  {
    c := 0;
    if ids != {} {
      var id :| id in ids;
      var d := Unused(ids - {id});
      assert forall i :: i in ids ==> i == id || i in ids - {id};
      c := if id < d then d else id + 1;
    }
  }

  lemma {:induction false} EmptyBacklogIsSafe(s: State, more: seq<Step>)
    requires s.pending == 0 && Runs(s, more) && NoArrivals(more)
    ensures Late(s, more) == {}
    decreases |more|
  {
    if more != [] {
      assert more[0] != Arrive;
      EmptyBacklogIsSafe(Apply(s, more[0]), more[1..]);
    }
  }

  /**
   Exactly when the promise "none accepted after the signal" is in danger: while the loop still
   accepts after the shutdown was asked for, a connection may be taken if and only if one waits in
   the backlog.
   */
  lemma LateAcceptPossibleIff(s: State)
    requires s.main == Accepting && s.watcher != Waits
    ensures CanBeLate(s) <==> s.pending > 0
  {
    if s.pending > 0 {
      var c := Unused(s.conns.Keys);
      assert c !in s.conns;
      var more := [Accept(c)];
      assert more[1..] == [] && Late(s, more) == {c} + {};
      assert Runs(s, more) && NoArrivals(more) && c in Late(s, more);
    } else {
      forall more | Runs(s, more) && NoArrivals(more) ensures Late(s, more) == {} { EmptyBacklogIsSafe(s, more); }
    }
  }

  /** The backlog when the shutdown is asked for, and the arrivals from then until the loop leaves off accepting. */
  function Exposed(s: State, steps: seq<Step>): nat
    requires Runs(s, steps)
    decreases |steps|
  {
    if steps == [] then 0
    else
      (if s.main != Accepting then 0
       else if steps[0] == Ask then s.pending
       else if steps[0] == Arrive && s.watcher != Waits then 1 else 0)
      + Exposed(Apply(s, steps[0]), steps[1..])
  }

  lemma OneMoreAtMost(c: nat, late: set<nat>)
    ensures |{c} + late| <= 1 + |late|
  {
    if c in late { assert {c} + late == late; }
  }

  /** Late connections number at most that backlog and those arrivals. */
  lemma {:induction false} LateAtMostExposed(s: State, steps: seq<Step>)
    requires Runs(s, steps)
    ensures |Late(s, steps)| <= Exposed(s, steps) + if s.main == Accepting && s.watcher != Waits then s.pending else 0
    decreases |steps|
  {
    if steps != [] {
      var s', rest := Apply(s, steps[0]), steps[1..];
      LateAtMostExposed(s', rest);
      if steps[0].Accept? && s.watcher != Waits {
        OneMoreAtMost(steps[0].c, Late(s', rest));
      } else {
        assert Late(s, steps) == Late(s', rest);
      }
    }
  }

  lemma {:induction false} LateOnesAreKept(s: State, steps: seq<Step>)
    requires Runs(s, steps)
    ensures s.conns.Keys + Late(s, steps) <= After(s, steps).conns.Keys
    decreases |steps|
  {
    if steps != [] { LateOnesAreKept(Apply(s, steps[0]), steps[1..]); }
  }

  /** Whatever was accepted late has finished, like the others, when serving returns. */
  lemma LateOnesAreDrained(steps: seq<Step>, c: nat)
    requires Runs(START, steps) && After(START, steps).main == Returned && c in Late(START, steps)
    ensures var s := After(START, steps);
            c in s.conns && s.conns[c].Finished? && s.conns[c].asked <= 1
  {
    LateOnesAreKept(START, steps);
    ReturnedMeansDrained(steps);
  }

  // ---------- progress ----------

  function Unasked(conns: map<nat, Conn>): set<nat> { set c | c in conns && conns[c].Live? && !conns[c].fired }

  // The steps a drain has left at most: one `Fire` and one `Finish` per live connection, and `Return`.
  function StepsLeft(s: State): nat {
    |LiveOnes(s.conns)| + |Unasked(s.conns)| + if s.main == Draining then 1 else 0
  }

  // Arrivals are not the server's steps.
  function OwnSteps(steps: seq<Step>): nat
    decreases |steps|
  {
    if steps == [] then 0 else (if steps[0] == Arrive then 0 else 1) + OwnSteps(steps[1..])
  }

  lemma UnaskedShrinks(conns: map<nat, Conn>, c: nat, conn: Conn)
    requires c in conns && conns[c].Live? && (conn.Finished? || (conn.fired && !conns[c].fired))
    ensures |Unasked(conns[c := conn])| == |Unasked(conns)| - if conns[c].fired then 0 else 1
  {
    if conns[c].fired {
      assert Unasked(conns[c := conn]) == Unasked(conns);
    } else {
      assert Unasked(conns) == Unasked(conns[c := conn]) + {c} && c !in Unasked(conns[c := conn]);
    }
  }

  lemma DrainStep(s: State, step: Step)
    requires Inv(s) && (s.main == Draining || s.main == Returned) && Enabled(s, step)
    ensures StepsLeft(Apply(s, step)) + (if step == Arrive then 0 else 1) <= StepsLeft(s)
    ensures Apply(s, step).main == Draining || Apply(s, step).main == Returned
  {
    match step
    case Fire(c) =>
      FireKeepsLive(s.conns, c, s.conns[c].asked + 1);
      UnaskedShrinks(s.conns, c, Live(true, s.conns[c].asked + 1));
    case Finish(c) =>
      FinishCounts(s.conns, c, s.conns[c].asked);
      UnaskedShrinks(s.conns, c, Finished(s.conns[c].asked));
    case _ =>
  }

  /** Every run of the drain is short, whatever it chooses: at most two steps per live connection and the return. */
  lemma {:induction false} DrainIsShort(s: State, steps: seq<Step>)
    requires Inv(s) && (s.main == Draining || s.main == Returned) && Runs(s, steps)
    ensures OwnSteps(steps) <= StepsLeft(s) <= 2 * |LiveOnes(s.conns)| + 1
    decreases |steps|
  {
    SubsetSize(Unasked(s.conns), LiveOnes(s.conns));
    if steps != [] {
      DrainStep(s, steps[0]);
      StepInv(s, steps[0]);
      DrainIsShort(Apply(s, steps[0]), steps[1..]);
    }
  }

  /** A drain is never stuck: until it has returned, a connection can finish or it can return. */
  lemma DrainGoesOn(steps: seq<Step>) returns (step: Step)
    requires Runs(START, steps) && After(START, steps).main == Draining
    ensures step != Arrive && Enabled(After(START, steps), step)
  {
    StartInv();
    RunInv(START, steps);
    var s := After(START, steps);
    if LiveOnes(s.conns) == {} {
      step := Return;
    } else {
      var c :| c in LiveOnes(s.conns);
      step := Finish(c);
    }
  }
}
