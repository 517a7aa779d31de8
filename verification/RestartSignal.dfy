/**
 The restart request: a flag and a `Notify` with one stored permit, any number of requesters,
 and the run loop waiting, giving up and waiting again.  Every atomic action is one step.
 */
module RestartSignal {

  // Where the single waiter is.  `Checking` has created its `notified` future and is about to read
  // the flag; `Polling` has read it unset and is about to poll; `Parked` is registered; `Woken` has
  // been handed a notification it has not yet consumed; `Returned` has left `wait`.
  datatype Waiter = Idle | Checking | Polling | Parked | Woken | Returned

  // `between` counts the requesters that have stored the flag and not yet notified.
  datatype State = State(requested: bool, permit: bool, waiter: Waiter, between: nat)

  datatype Step = Store | Notify | StartWait | Check | Poll | Wake | Cancel

  const START: State := State(false, false, Idle, 0)

  predicate Enabled(s: State, step: Step) {
    match step
    case Store => true
    case Notify => s.between > 0
    case StartWait => s.waiter == Idle || s.waiter == Returned
    case Check => s.waiter == Checking
    case Poll => s.waiter == Polling
    case Wake => s.waiter == Woken
    case Cancel => s.waiter == Parked || s.waiter == Woken
  }

  function Apply(s: State, step: Step): State
    requires Enabled(s, step)
  {
    match step
    case Store => s.(requested := true, between := s.between + 1)
    case Notify =>
      var s' := s.(between := s.between - 1);
      if s.waiter == Parked then s'.(waiter := Woken) else s'.(permit := true)
    case StartWait => s.(waiter := Checking)
    case Check => s.(waiter := if s.requested then Returned else Polling)
    case Poll => if s.permit then s.(permit := false, waiter := Checking) else s.(waiter := Parked)
    case Wake => s.(waiter := Checking)
    // Dropping a future that has been handed a notification passes it on, here into the permit.
    case Cancel => s.(waiter := Idle, permit := s.permit || s.waiter == Woken)
  }

  predicate Runs(s: State, steps: seq<Step>)
    decreases |steps|, 0
  {
    steps == [] || (Runs(s, steps[..|steps| - 1]) && Enabled(After(s, steps[..|steps| - 1]), steps[|steps| - 1]))
  }

  function After(s: State, steps: seq<Step>): State
    requires Runs(s, steps)
    decreases |steps|, 1
  {
    if steps == [] then s else Apply(After(s, steps[..|steps| - 1]), steps[|steps| - 1])
  }

  /** The flag is up, the waiter is parked, and nothing is left that would wake it. */
  predicate Lost(s: State) {
    s.requested && s.waiter == Parked && !s.permit && s.between == 0
  }

  // What holds in every reachable state: a waiter that has seen the flag down can still be woken
  // once it is up, and a requester in between has raised it.
  predicate Inv(s: State) {
    && (s.between > 0 ==> s.requested)
    && (s.permit ==> s.requested)
    && (s.waiter == Woken ==> s.requested)
    && (s.waiter == Returned ==> s.requested)
    && (s.waiter == Polling && s.requested ==> s.permit || s.between > 0)
    && (s.waiter == Parked ==> !s.permit)
    && (s.waiter == Parked && s.requested ==> s.between > 0)
  }

  lemma {:induction false} Reachable(steps: seq<Step>)
    requires Runs(START, steps)
    ensures Inv(After(START, steps))
    decreases |steps|
  {
    if steps != [] {
      Reachable(steps[..|steps| - 1]);
    }
  }

  /** No restart request is ever lost, whatever the interleaving and however often a wait is given up. */
  lemma {:induction false} NoRequestIsLost(steps: seq<Step>)
    requires Runs(START, steps)
    ensures !Lost(After(START, steps))
  {
    Reachable(steps);
  }

  /** A wait returns only when a restart has been requested in the run. */
  lemma {:induction false} ReturnsOnlyWhenRequested(steps: seq<Step>)
    requires Runs(START, steps)
    ensures After(START, steps).waiter == Returned ==> Store in steps
    decreases |steps|
  {
    Reachable(steps);
    RequestedByStore(steps);
  }

  lemma {:induction false} RequestedByStore(steps: seq<Step>)
    requires Runs(START, steps)
    ensures After(START, steps).requested <==> Store in steps
    decreases |steps|
  {
    if steps != [] {
      RequestedByStore(steps[..|steps| - 1]);
      assert steps == steps[..|steps| - 1] + [steps[|steps| - 1]];
    }
  }

  // The waiter's own next step, when it has one.
  function OwnStep(s: State): (step: Step)
    requires s.waiter in {Checking, Polling, Woken}
    ensures Enabled(s, step)
  {
    if s.waiter == Checking then Check else if s.waiter == Polling then Poll else Wake
  }

  /**
   Once a restart is requested and every requester has notified, a waiting waiter is never stuck:
   it has a step of its own, and returns within two of them.
   */
  lemma {:induction false} WaiterGetsThrough(steps: seq<Step>)
    requires Runs(START, steps)
    ensures var s := After(START, steps);
            s.requested && s.between == 0 && s.waiter !in {Idle, Returned} ==>
              && s.waiter in {Checking, Polling, Woken}
              && var next := Apply(s, OwnStep(s));
                 next.waiter == Returned
                 || (next.waiter == Checking && Apply(next, OwnStep(next)).waiter == Returned)
  {
    Reachable(steps);
  }

  // ---------- one permit per notification ----------

  function Count(steps: seq<Step>, step: Step): nat {
    if steps == [] then 0 else Count(steps[..|steps| - 1], step) + if steps[|steps| - 1] == step then 1 else 0
  }

  // How often the waiter was let go on: by a stored permit, or by a notification handed to it.
  function LetGo(steps: seq<Step>): nat
    requires Runs(START, steps)
  {
    if steps == [] then 0
    else
      var init, last := steps[..|steps| - 1], steps[|steps| - 1];
      LetGo(init) + if last == Wake || (last == Poll && After(START, init).permit) then 1 else 0
  }

  /** Every notification lets the waiter go on at most once: a permit that is used is gone. */
  lemma {:induction false} OneWakePerNotification(steps: seq<Step>)
    requires Runs(START, steps)
    ensures var s := After(START, steps);
            LetGo(steps) + (if s.permit then 1 else 0) + (if s.waiter == Woken then 1 else 0) <= Count(steps, Notify)
    decreases |steps|
  {
    if steps != [] { OneWakePerNotification(steps[..|steps| - 1]); }
  }
}
