/**
 The state that server generations of one process hand on: which socket is bound, whether the last
 attempt to change its address failed, and how many generations there have been.
 */
module Generations {
  import opened Options

  // A bound socket and the address it was configured with.
  datatype Bound = Bound(socket: nat, addr: string)

  const ATTEMPTS: nat := 30

  // What the operating system answers to the bind attempts: a socket, or a refusal.
  type Binds = seq<Option<nat>>

  // The first of the attempts lo, lo + 1, ..., hi - 1 that succeeds, or hi.
  function FirstBound(binds: Binds, lo: nat, hi: nat): (k: nat)
    requires lo <= hi <= |binds|
    ensures lo <= k <= hi
    ensures k < hi ==> binds[k].Some?
    ensures forall i :: lo <= i < k ==> binds[i].None?
    decreases hi - lo
  {
    if lo == hi || binds[lo].Some? then lo else FirstBound(binds, lo + 1, hi)
  }

  datatype Acquired = Acquired(ok: bool, current: Option<Bound>, attempts: nat)

  function Acquire(current: Option<Bound>, addr: string, retry: bool, binds: Binds): Acquired
    requires |binds| >= ATTEMPTS
  {
    if current.Some? && current.value.addr == addr then Acquired(true, current, 0)
    else
      var limit := if retry then ATTEMPTS else 1;
      var k := FirstBound(binds, 0, limit);
      if k < limit then Acquired(true, Some(Bound(binds[k].value, addr)), k + 1) else Acquired(false, current, limit)
  }

  /**
   A held listener is never given up for nothing: a failed acquisition leaves it as it was after at
   most 30 attempts, and a successful one leaves a listener on the address asked for, the old
   socket itself if that was the address already.
   */
  lemma AcquireKeepsListener(current: Option<Bound>, addr: string, retry: bool, binds: Binds)
    requires |binds| >= ATTEMPTS
    ensures var a := Acquire(current, addr, retry, binds);
            && a.attempts <= (if retry then 30 else 1)
            && (a.ok <==> a.current.Some? && a.current.value.addr == addr)
            && (!a.ok ==> a.current == current && a.attempts == (if retry then 30 else 1))
            && (forall i :: 0 <= i < (if a.ok then a.attempts - 1 else a.attempts) ==> binds[i].None?)
            && (current.Some? ==> a.current.Some?)
            && (current.Some? && current.value.addr == addr ==> a.current == current && a.attempts == 0)
            && (a.ok && a.attempts > 0 ==> binds[a.attempts - 1] == Some(a.current.value.socket))
  {
  }

  // ---------- one process ----------

  datatype Reason = Shutdown | Restart

  // What the surroundings decide for one generation: whether it gets as far as binding, the address
  // in its configuration, the bind answers, whether the socket can be duplicated, and why it stops.
  datatype Round = Round(starts: bool, addr: string, binds: Binds, duplicates: bool, reason: Reason)

  // What can be seen when a generation goes on past its acquisition.
  datatype Record = Record(generation: nat, configured: string, listener: Option<Bound>, failure: Option<string>)

  datatype Server = Server(listener: Option<Bound>, failure: Option<string>, generation: nat, first: bool)

  predicate UsableBinds(rounds: seq<Round>) { forall i :: 0 <= i < |rounds| ==> |rounds[i].binds| >= ATTEMPTS }

  function FailureText(addr: string, current: Bound): string {
    "the restart could not bind " + addr + "; still listening on " + current.addr
  }

  // The server after the acquisition step of a round, and whether the round goes on.
  function Step(s: Server, r: Round): (Server, bool)
    requires |r.binds| >= ATTEMPTS
  {
    var s1 := s.(generation := s.generation + 1);
    if !r.starts then (s1, false)
    else
      var a := Acquire(s.listener, r.addr, !s.first, r.binds);
      if a.ok then (s1.(listener := a.current, failure := None), true)
      else if a.current.None? then (s1.(listener := a.current), false)
      else (s1.(listener := a.current, failure := Some(FailureText(r.addr, a.current.value))), true)
  }

  function Records(s: Server, rounds: seq<Round>): seq<Record>
    requires UsableBinds(rounds)
    decreases |rounds|
  {
    if rounds == [] then []
    else
      var (s', goes) := Step(s, rounds[0]);
      if !goes then []
      else
        [Record(s'.generation, rounds[0].addr, s'.listener, s'.failure)]
        + if rounds[0].duplicates && rounds[0].reason == Restart then Records(s'.(first := false), rounds[1..]) else []
  }

  /** The process: its listener, failure record and counter live across generations. */
  class Process {
    var listener: Option<Bound>
    var failure: Option<string>
    var generation: nat

    constructor (listener: Option<Bound>)
      ensures this.listener == listener && failure == None && generation == 0
    {
      this.listener, failure, generation := listener, None, 0;
    }

    method AcquireListener(addr: string, retry: bool, binds: Binds) returns (ok: bool, attempts: nat)
      requires |binds| >= ATTEMPTS
      modifies this`listener
      ensures Acquired(ok, listener, attempts) == Acquire(old(listener), addr, retry, binds)
    {
      attempts := 0;
      if listener.Some? && listener.value.addr == addr { return true, 0; }
      var limit := if retry then ATTEMPTS else 1;
      while attempts < limit
        invariant 0 <= attempts <= limit && listener == old(listener)
        invariant FirstBound(binds, attempts, limit) == FirstBound(binds, 0, limit)
      {
        if binds[attempts].Some? {
          listener := Some(Bound(binds[attempts].value, addr));
          return true, attempts + 1;
        }
        attempts := attempts + 1;
      }
      ok := false;
    }

    /** One generation up to its acquisition step; `goes` says whether it goes on from there. */
    method StartGeneration(round: Round, first: bool) returns (goes: bool)
      requires |round.binds| >= ATTEMPTS
      modifies this
      ensures (Server(listener, failure, generation, first), goes)
               == Step(old(Server(listener, failure, generation, first)), round)
      ensures old(listener).Some? ==> listener.Some?
    {
      AcquireKeepsListener(listener, round.addr, !first, round.binds);
      generation := generation + 1;
      if !round.starts { return false; }
      var ok, attempts := AcquireListener(round.addr, !first, round.binds);
      if ok {
        failure := None;
        return true;
      }
      if listener.None? { return false; }
      failure := Some(FailureText(round.addr, listener.value));
      goes := true;
    }

    /** The generation loop; it ends with a shutdown, an error, or when `rounds` says no more. */
    method RunServerFlow(rounds: seq<Round>) returns (ghost records: seq<Record>)
      requires UsableBinds(rounds)
      modifies this
      ensures records == Records(old(Server(listener, failure, generation, true)), rounds)
      ensures old(listener).Some? ==> listener.Some?
    {
      records := [];
      var first, i := true, 0;
      while i < |rounds|
        invariant 0 <= i <= |rounds|
        invariant records + Records(Server(listener, failure, generation, first), rounds[i..])
               == Records(old(Server(listener, failure, generation, true)), rounds)
        invariant old(listener).Some? ==> listener.Some?
      {
        ghost var before := Server(listener, failure, generation, first);
        var goes := StartGeneration(rounds[i], first);
        ghost var s := Server(listener, failure, generation, first);
        if !goes {
          RecordsStop(before, rounds, i, s);
          return;
        }
        records := RecordsGo(before, rounds, i, s, records);
        if !rounds[i].duplicates || rounds[i].reason != Restart { return; }
        first := false;
        i := i + 1;
      }
    }
  }

  lemma RecordsStop(s: Server, rounds: seq<Round>, i: nat, s': Server)
    requires UsableBinds(rounds) && i < |rounds| && Step(s, rounds[i]) == (s', false)
    ensures Records(s, rounds[i..]) == []
  {
  }

  lemma RecordsGo(s: Server, rounds: seq<Round>, i: nat, s': Server, before: seq<Record>) returns (records: seq<Record>)
    requires UsableBinds(rounds) && i < |rounds| && Step(s, rounds[i]) == (s', true)
    ensures before + Records(s, rounds[i..])
         == records + if rounds[i].duplicates && rounds[i].reason == Restart
                      then Records(s'.(first := false), rounds[i + 1..]) else []
  {
    assert rounds[i..][0] == rounds[i] && rounds[i..][1..] == rounds[i + 1..];
    records := before + [Record(s'.generation, rounds[i].addr, s'.listener, s'.failure)];
  }

  // ---------- across all generations ----------

  /**
   In every generation that goes on: a listener is held; a failure is recorded exactly when its
   address is not the configured one; and a listener on the configured address is carried over as
   the same socket.  Generation numbers strictly increase.
   */
  lemma {:induction false} EveryGeneration(s: Server, rounds: seq<Round>)
    requires UsableBinds(rounds)
    ensures GoodRecords(s.generation, Records(s, rounds))
    decreases |rounds|
  {
    if rounds != [] {
      var (s', goes) := Step(s, rounds[0]);
      FirstIsGood(s, rounds[0]);
      if goes && rounds[0].duplicates && rounds[0].reason == Restart {
        var next := s'.(first := false);
        var rest := Records(next, rounds[1..]);
        EveryGeneration(next, rounds[1..]);
        if rest != [] { FirstRecord(next, rounds[1..]); }
        GoodPrepend(s.generation, Record(s'.generation, rounds[0].addr, s'.listener, s'.failure), rest);
      }
    }
  }

  // The recorded text names the address that was asked for, then the one that is still served.
  ghost predicate GoodRecord(r: Record) {
    && r.listener.Some?
    && r.failure == if r.listener.value.addr == r.configured then None
                    else Some("the restart could not bind " + r.configured
                              + "; still listening on " + r.listener.value.addr)
  }

  // A listener that is already on the configured address is carried over.
  ghost predicate CarriedOver(before: Record, r: Record) {
    before.listener.Some? && r.configured == before.listener.value.addr ==> r.listener == before.listener
  }

  ghost predicate GoodRecords(generation: nat, rs: seq<Record>) {
    && (forall i :: 0 <= i < |rs| ==> GoodRecord(rs[i]) && rs[i].generation == generation + 1 + i)
    && (forall i :: 0 < i < |rs| ==> CarriedOver(rs[i - 1], rs[i]))
  }

  lemma GoodPrepend(generation: nat, r: Record, rest: seq<Record>)
    requires GoodRecord(r) && r.generation == generation + 1 && GoodRecords(generation + 1, rest)
    requires rest != [] ==> CarriedOver(r, rest[0])
    ensures GoodRecords(generation, [r] + rest)
  {
  }

  lemma FirstIsGood(s: Server, r: Round)
    requires |r.binds| >= ATTEMPTS
    ensures Step(s, r).0.generation == s.generation + 1
    ensures var (s', goes) := Step(s, r);
            goes ==> GoodRecord(Record(s'.generation, r.addr, s'.listener, s'.failure))
  {
  }

  lemma FirstRecord(s: Server, rounds: seq<Round>)
    requires UsableBinds(rounds) && Records(s, rounds) != []
    ensures s.listener.Some? && Records(s, rounds)[0].configured == s.listener.value.addr ==>
              Records(s, rounds)[0].listener == s.listener
  {
  }

  /** Once a listener is held, no generation ends for lack of one. */
  lemma HeldListenerAlwaysGoesOn(s: Server, r: Round)
    requires |r.binds| >= ATTEMPTS && s.listener.Some? && r.starts
    ensures Step(s, r).1 && Step(s, r).0.listener.Some?
  {
  }

  // ---------- which generation ends on which socket ----------

  // The listener a generation finds.
  function Found(s: Server, records: seq<Record>, i: nat): Option<Bound>
    requires i <= |records|
  {
    if i == 0 then s.listener else records[i - 1].listener
  }

  ghost predicate SomeBinds(binds: Binds, limit: nat) { exists j :: 0 <= j < limit && j < |binds| && binds[j].Some? }

  // `k` is the first attempt that succeeds.
  ghost predicate FirstToBind(binds: Binds, k: nat) {
    k < |binds| && binds[k].Some? && forall j :: 0 <= j < k ==> binds[j].None?
  }

  /** What the listener is after a generation that may try `limit` times to bind. */
  ghost predicate EndsOn(found: Option<Bound>, r: Round, limit: nat, listener: Option<Bound>) {
    if found.Some? && found.value.addr == r.addr then listener == found
    else if SomeBinds(r.binds, limit) then
      exists k: nat :: k < limit && FirstToBind(r.binds, k) && listener == Some(Bound(r.binds[k].value, r.addr))
    else listener == found
  }

  lemma AcquireEndsOn(s: Server, r: Round)
    requires |r.binds| >= ATTEMPTS
    ensures Step(s, r).1 ==> EndsOn(s.listener, r, if s.first then 1 else 30, Step(s, r).0.listener)
    ensures Step(s, r).1 <==>
            r.starts && (s.listener.Some? || SomeBinds(r.binds, if s.first then 1 else 30))
  {
    var limit := if s.first then 1 else 30;
    var k := FirstBound(r.binds, 0, limit);
    assert k < limit ==> FirstToBind(r.binds, k);
  }

  /**
   Over all generations: a listener on the configured address is kept; otherwise the generation ends
   on that address, with the first socket that could be bound, if and only if one of its first 30
   attempts succeeds, or, for the first generation of the process, its only attempt; and otherwise it
   stays where it was.
   */
  lemma {:induction false} EveryAcquisition(s: Server, rounds: seq<Round>, i: nat)
    requires UsableBinds(rounds) && i < |Records(s, rounds)|
    ensures i < |rounds| && Records(s, rounds)[i].configured == rounds[i].addr
    ensures EndsOn(Found(s, Records(s, rounds), i), rounds[i], if i == 0 && s.first then 1 else 30,
                   Records(s, rounds)[i].listener)
    decreases i
  {
    AcquireEndsOn(s, rounds[0]);
    if i > 0 {
      var next := Step(s, rounds[0]).0.(first := false);
      LaterRecords(s, rounds, next);
      EveryAcquisition(next, rounds[1..], i - 1);
      FoundLater(s, next, Records(s, rounds), Records(next, rounds[1..]), i);
    }
  }

  lemma LaterRecords(s: Server, rounds: seq<Round>, next: Server)
    requires UsableBinds(rounds) && |Records(s, rounds)| > 1 && next == Step(s, rounds[0]).0.(first := false)
    ensures rounds != [] && Records(s, rounds)[1..] == Records(next, rounds[1..])
    ensures Records(s, rounds)[0].listener == next.listener
  {
  }

  lemma FoundLater(s: Server, next: Server, records: seq<Record>, later: seq<Record>, i: nat)
    requires 0 < i < |records| && later == records[1..] && records[0].listener == next.listener
    ensures Found(s, records, i) == Found(next, later, i - 1) && records[i] == later[i - 1]
  {
  }

  /**
   The process goes on to another generation exactly when the last one stopped for a restart and the
   next one starts up; the first one needs a listener or a successful attempt to bind.
   */
  lemma {:induction false} GoesOnIff(s: Server, rounds: seq<Round>, i: nat)
    requires UsableBinds(rounds) && i <= |Records(s, rounds)|
    ensures i == 0 ==>
              (0 < |Records(s, rounds)| <==>
               0 < |rounds| && rounds[0].starts
               && (s.listener.Some? || SomeBinds(rounds[0].binds, if s.first then 1 else 30)))
    ensures i > 0 ==>
              i <= |rounds|
              && (i < |Records(s, rounds)| <==>
                  i < |rounds| && rounds[i - 1].duplicates && rounds[i - 1].reason == Restart && rounds[i].starts)
    decreases i
  {
    if rounds != [] { AcquireEndsOn(s, rounds[0]); }
    if i > 0 {
      var next := Step(s, rounds[0]).0.(first := false);
      AcquireKeepsListener(s.listener, rounds[0].addr, !s.first, rounds[0].binds);
      if rounds[0].duplicates && rounds[0].reason == Restart {
        assert Records(s, rounds)[1..] == Records(next, rounds[1..]);
        GoesOnIff(next, rounds[1..], i - 1);
      }
    }
  }
}
