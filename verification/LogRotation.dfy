/**
 The rotating server log: a chain of files shifted in place, at the granularity of the
 events written.  File 0 is the log itself, file i its backup `.i`.
 */
module LogRotation {
  import opened Options
  import opened Sequences

  type Byte = bv8
  type Chunk = seq<Byte>
  type Files = map<nat, seq<Chunk>>

  // The open handle with the length it believes the file has, or none.
  datatype Slot = Closed | Open(written: nat)

  // How an attempt to open the log ends.  If its length cannot be read it is taken to be empty.
  datatype Opening = Opened | Unmeasured | Refused

  // What the operating system refuses during one write.  A failed write has passed on some bytes.
  datatype Faults = Faults(reopen: Opening, remove: bool, renames: set<nat>, rotateOpen: Opening, write: Option<nat>)

  const NO_FAULTS: Faults := Faults(Opened, false, {}, Opened, None)

  datatype Log = Log(files: Files, slot: Slot)

  function Size(file: seq<Chunk>): nat {
    if file == [] then 0 else Size(file[..|file| - 1]) + |file[|file| - 1]|
  }

  function At(files: Files, i: nat): seq<Chunk> {
    if i in files then files[i] else []
  }

  /** The backups n, n - 1, ..., 1 and then the log itself. */
  function Chain(files: Files, n: nat): seq<Chunk> {
    if n == 0 then At(files, 0) else At(files, n) + Chain(files, n - 1)
  }

  /** The handle is on the log file, and believes it no longer than it is. */
  ghost predicate Loose(log: Log) {
    log.slot.Open? ==> 0 in log.files && log.slot.written <= Size(log.files[0])
  }

  /** The handle knows the length of the log file. */
  ghost predicate Valid(log: Log) {
    log.slot.Open? ==> 0 in log.files && log.slot.written == Size(log.files[0])
  }

  // ---------- the operations on values ----------

  function Rename(files: Files, i: nat, fails: set<nat>): Files {
    if i in files && i !in fails then (files - {i})[i + 1 := files[i]] else files
  }

  /** The renames i, i - 1, ..., 0, each onto the next backup. */
  function Shift(files: Files, i: nat, fails: set<nat>): Files
    decreases i
  {
    var once := Rename(files, i, fails);
    if i == 0 then once else Shift(once, i - 1, fails)
  }

  function Reopened(files: Files): Log {
    var files' := files[0 := At(files, 0)];
    Log(files', Open(Size(files'[0])))
  }

  function OpenedAs(files: Files, o: Opening): Log {
    match o
    case Opened => Reopened(files)
    case Unmeasured => Reopened(files).(slot := Open(0))
    case Refused => Log(files, Closed)
  }

  function Rotated(files: Files, maxBackups: nat, f: Faults): Log {
    if maxBackups == 0 then
      if f.rotateOpen.Refused? then Log(files, Closed) else Log(files[0 := []], Open(0))
    else
      var removed := if f.remove then files else files - {maxBackups};
      var shifted := Shift(removed, maxBackups - 1, f.renames);
      OpenedAs(shifted, f.rotateOpen)
  }

  predicate OverCap(slot: Slot, chunk: Chunk, maxBytes: nat) {
    maxBytes > 0 && slot.Open? && slot.written + |chunk| > maxBytes
  }

  // What a write adds to the chain: an empty chunk adds nothing.
  function Whole(chunk: Chunk): seq<Chunk> { if chunk == [] then [] else [chunk] }

  // The bytes of an event that reached the file before the write failed.
  function Cut(chunk: Chunk, passed: nat): (r: Chunk)
    ensures r <= chunk
  {
    if passed < |chunk| then chunk[..passed] else chunk
  }

  function Appended(log: Log, chunk: Chunk, f: Faults): Log {
    if log.slot.Closed? then log
    else if f.write.Some? then Log(log.files[0 := At(log.files, 0) + Whole(Cut(chunk, f.write.value))], Closed)
    else Log(log.files[0 := At(log.files, 0) + [chunk]], Open(log.slot.written + |chunk|))
  }

  function Written(log: Log, chunk: Chunk, maxBytes: nat, maxBackups: nat, f: Faults): Log {
    if chunk == [] || (log.slot.Closed? && f.reopen.Refused?) then log
    else
      var live := if log.slot.Closed? then OpenedAs(log.files, f.reopen) else log;
      var ready := if OverCap(live.slot, chunk, maxBytes) then Rotated(live.files, maxBackups, f) else live;
      Appended(ready, chunk, f)
  }

  // Whether a write rotates.
  predicate Rotates(log: Log, chunk: Chunk, maxBytes: nat) {
    chunk != [] && OverCap(if log.slot.Closed? then Reopened(log.files).slot else log.slot, chunk, maxBytes)
  }

  // ---------- the log as it is programmed ----------

  class RotatingLog {
    const maxBytes: nat
    const maxBackups: nat
    var files: Files
    var slot: Slot

    ghost function Value(): Log reads this { Log(files, slot) }

    /** Open the log over whatever the directory already holds. */
    constructor (existing: Files, maxBytes: nat, maxBackups: nat, measured: bool)
      ensures Value() == OpenedAs(existing, if measured then Opened else Unmeasured)
      ensures Loose(Value()) && (measured ==> Valid(Value()))
      ensures this.maxBytes == maxBytes && this.maxBackups == maxBackups
    {
      this.maxBytes := maxBytes;
      this.maxBackups := maxBackups;
      files := existing[0 := At(existing, 0)];
      slot := Open(if measured then Size(At(existing, 0)) else 0);
    }

    method Reopen(o: Opening) returns (ok: bool)
      modifies this
      ensures ok == !o.Refused?
      ensures Value() == if o.Refused? then old(Value()) else OpenedAs(old(files), o)
    {
      if o.Refused? { return false; }
      files := files[0 := At(files, 0)];
      slot := Open(if o.Opened? then Size(files[0]) else 0);
      ok := true;
    }

    method Rotate(f: Faults)
      modifies this
      ensures Value() == Rotated(old(files), maxBackups, f)
    {
      slot := Closed;
      if maxBackups == 0 {
        if !f.rotateOpen.Refused? {
          files := files[0 := []];
          slot := Open(0);
        }
        return;
      }
      if !f.remove { files := files - {maxBackups}; }
      ghost var removed := files;
      var i := maxBackups - 1;
      while i > 0
        invariant 0 <= i < maxBackups && slot == Closed
        invariant Shift(files, i, f.renames) == Shift(removed, maxBackups - 1, f.renames)
      {
        files := Rename(files, i, f.renames);
        i := i - 1;
      }
      files := Rename(files, 0, f.renames);
      var _ := Reopen(f.rotateOpen);
    }

    /** Write one event, rotating first if the cap would be exceeded; a failure drops the event. */
    method WriteChunk(chunk: Chunk, f: Faults)
      modifies this
      ensures Value() == Written(old(Value()), chunk, maxBytes, maxBackups, f)
    {
      if chunk == [] { return; }
      if slot.Closed? {
        var ok := Reopen(f.reopen);
        if !ok { return; }
      }
      var overCap := maxBytes > 0 && slot.Open? && slot.written + |chunk| > maxBytes;
      if overCap { Rotate(f); }
      if slot.Open? {
        if f.write.Some? {
          files := files[0 := At(files, 0) + Whole(Cut(chunk, f.write.value))];
          slot := Closed;
        } else {
          files := files[0 := At(files, 0) + [chunk]];
          slot := Open(slot.written + |chunk|);
        }
      }
    }
  }

  // ---------- one fault-free rotation ----------

  /** Every file moves up by one, provided the place above the topmost is free. */
  lemma {:induction false} ShiftMovesUp(files: Files, i: nat)
    requires i + 1 !in files
    decreases i
    ensures var r := Shift(files, i, {});
            && 0 !in r
            && (forall j: nat :: j <= i ==> (j + 1 in r <==> j in files) && At(r, j + 1) == At(files, j))
            && (forall j: nat :: j > i + 1 ==> (j in r <==> j in files) && At(r, j) == At(files, j))
  {
    var once := Rename(files, i, {});
    if i > 0 {
      ShiftMovesUp(once, i - 1);
      var r := Shift(once, i - 1, {});
      forall j: nat | j <= i ensures (j + 1 in r <==> j in files) && At(r, j + 1) == At(files, j) {
        if j < i { assert At(r, j + 1) == At(once, j); } else { assert At(r, j + 1) == At(once, j + 1); }
      }
    }
  }

  lemma {:induction false} ChainMovesUp(files: Files, shifted: Files, n: nat)
    requires forall j: nat :: j < n ==> At(shifted, j + 1) == At(files, j)
    requires At(shifted, 0) == []
    ensures Chain(shifted, n) == if n == 0 then [] else Chain(files, n - 1)
  {
    if n > 0 {
      ChainMovesUp(files, shifted, n - 1);
    }
  }

  /** A rotation drops the oldest backup and nothing else. */
  lemma RotationDropsOldest(files: Files, n: nat)
    ensures var r := Rotated(files, n, NO_FAULTS);
            && Valid(r) && r.slot == Open(0) && r.files[0] == []
            && Chain(files, n) == At(files, n) + Chain(r.files, n)
            && (forall j :: 0 < j <= n ==> At(r.files, j) == At(files, j - 1))
            && (forall j: nat :: j > n ==> (j in r.files <==> j in files) && At(r.files, j) == At(files, j))
  {
    if n > 0 { BackupsMoveUp(files, n); }
  }

  lemma BackupsMoveUp(files: Files, n: nat)
    requires n > 0
    ensures var r := Rotated(files, n, NO_FAULTS);
            && Valid(r) && r.slot == Open(0) && r.files[0] == []
            && Chain(files, n) == At(files, n) + Chain(r.files, n)
            && (forall j: nat :: 0 < j <= n ==> At(r.files, j) == At(files, j - 1))
            && (forall j: nat :: j > n ==> (j in r.files <==> j in files) && At(r.files, j) == At(files, j))
  {
    var removed := files - {n};
    ShiftMovesUp(removed, n - 1);
    var shifted := Shift(removed, n - 1, {});
    var r := Reopened(shifted);
    assert r == Rotated(files, n, NO_FAULTS);
    forall j: nat | 0 < j <= n ensures At(r.files, j) == At(files, j - 1) {
      assert At(shifted, j - 1 + 1) == At(removed, j - 1);
    }
    assert forall j: nat :: j < n ==> At(r.files, j + 1) == At(files, j);
    ChainMovesUp(files, r.files, n);
  }

  // The open log a write goes to, after the rotation if there is one.
  function Ready(log: Log, chunk: Chunk, maxBytes: nat, n: nat): Log {
    var live := if log.slot.Closed? then Reopened(log.files) else log;
    if OverCap(live.slot, chunk, maxBytes) then Rotated(live.files, n, NO_FAULTS) else live
  }

  lemma ReadyKeepsSuffix(log: Log, chunk: Chunk, maxBytes: nat, n: nat) returns (dropped: seq<Chunk>)
    requires Valid(log)
    ensures var ready := Ready(log, chunk, maxBytes, n);
            && Valid(ready) && ready.slot.Open?
            && dropped + Chain(ready.files, n) == Chain(log.files, n)
            && (forall j: nat :: j > n ==>
                  (j in ready.files <==> j in log.files) && At(ready.files, j) == At(log.files, j))
  {
    var live := if log.slot.Closed? then Reopened(log.files) else log;
    ChainAgrees(live.files, log.files, n);
    dropped := [];
    if OverCap(live.slot, chunk, maxBytes) {
      RotationDropsOldest(live.files, n);
      dropped := At(live.files, n);
    }
  }

  /** The chain after a fault-free write is what was there before and the chunk, less the oldest backup. */
  lemma WriteKeepsSuffix(log: Log, chunk: Chunk, maxBytes: nat, n: nat) returns (dropped: seq<Chunk>)
    requires Valid(log)
    ensures var log' := Written(log, chunk, maxBytes, n, NO_FAULTS);
            && Valid(log')
            && dropped + Chain(log'.files, n) == Chain(log.files, n) + Whole(chunk)
            && (forall j: nat :: j > n ==>
                  (j in log'.files <==> j in log.files) && At(log'.files, j) == At(log.files, j))
  {
    if chunk == [] {
      dropped := [];
      assert [] + Chain(log.files, n) == Chain(log.files, n) + [];
    } else {
      dropped := ReadyKeepsSuffix(log, chunk, maxBytes, n);
      WrittenIsAppended(log, chunk, maxBytes, n);
      AppendStep(Ready(log, chunk, maxBytes, n), Chain(log.files, n), dropped, chunk, n);
    }
  }

  lemma WrittenIsAppended(log: Log, chunk: Chunk, maxBytes: nat, n: nat)
    requires chunk != []
    ensures Written(log, chunk, maxBytes, n, NO_FAULTS) == Appended(Ready(log, chunk, maxBytes, n), chunk, NO_FAULTS)
  {
  }

  lemma AppendStep(ready: Log, before: seq<Chunk>, dropped: seq<Chunk>, chunk: Chunk, n: nat)
    requires Valid(ready) && ready.slot.Open? && dropped + Chain(ready.files, n) == before
    ensures var log' := Appended(ready, chunk, NO_FAULTS);
            && Valid(log') && dropped + Chain(log'.files, n) == before + [chunk]
            && (forall j: nat :: j > n ==>
                  (j in log'.files <==> j in ready.files) && At(log'.files, j) == At(ready.files, j))
  {
    AppendToChain(ready.files, chunk, n);
    SizeAppend(At(ready.files, 0), chunk);
    Associate(dropped, Chain(ready.files, n), [chunk]);
  }

  lemma SizeAppend(file: seq<Chunk>, chunk: Chunk)
    ensures Size(file + [chunk]) == Size(file) + |chunk|
  {
  }

  lemma {:induction false} ChainAgrees(a: Files, b: Files, n: nat)
    requires forall j: nat :: j <= n ==> At(a, j) == At(b, j)
    ensures Chain(a, n) == Chain(b, n)
  {
    if n > 0 { ChainAgrees(a, b, n - 1); }
  }

  lemma {:induction false} AppendToChain(files: Files, chunk: Chunk, n: nat)
    ensures Chain(files[0 := At(files, 0) + [chunk]], n) == Chain(files, n) + [chunk]
  {
    if n > 0 { AppendToChain(files, chunk, n - 1); }
  }

  // ---------- runs ----------

  ghost function Run(log: Log, chunks: seq<Chunk>, faults: seq<Faults>, maxBytes: nat, n: nat): Log
    requires |faults| == |chunks|
    decreases |chunks|
  {
    if chunks == [] then log
    else
      var k := |chunks| - 1;
      Written(Run(log, chunks[..k], faults[..k], maxBytes, n), chunks[k], maxBytes, n, faults[k])
  }

  function NonEmpty(chunks: seq<Chunk>): seq<Chunk> {
    if chunks == [] then []
    else
      var k := |chunks| - 1;
      NonEmpty(chunks[..k]) + Whole(chunks[k])
  }

  ghost predicate Healthy(faults: seq<Faults>) {
    forall i :: 0 <= i < |faults| ==> faults[i] == NO_FAULTS
  }

  ghost predicate IsSuffix(a: seq<Chunk>, b: seq<Chunk>) {
    |a| <= |b| && a == b[|b| - |a|..]
  }

  /**
   Retention.  In every run without I/O errors the backups from the oldest to the log itself
   read as a suffix of what the chain held at the start followed by everything written, in whole
   chunks; `written` is always the length of the log file; files above the last backup are
   untouched, so none is ever created.
   */
  lemma {:induction false} RunRetainsSuffix(log: Log, chunks: seq<Chunk>, faults: seq<Faults>, maxBytes: nat, n: nat)
    requires |faults| == |chunks| && Valid(log) && Healthy(faults)
    ensures var r := Run(log, chunks, faults, maxBytes, n);
            && Valid(r)
            && IsSuffix(Chain(r.files, n), Chain(log.files, n) + NonEmpty(chunks))
            && (forall j: nat :: j > n ==> (j in r.files <==> j in log.files) && At(r.files, j) == At(log.files, j))
    decreases |chunks|
  {
    if chunks == [] {
      assert Chain(log.files, n) + [] == Chain(log.files, n);
    } else {
      var k := |chunks| - 1;
      RunRetainsSuffix(log, chunks[..k], faults[..k], maxBytes, n);
      var mid := Run(log, chunks[..k], faults[..k], maxBytes, n);
      var dropped := WriteKeepsSuffix(mid, chunks[k], maxBytes, n);
      Associate(Chain(log.files, n), NonEmpty(chunks[..k]), Whole(chunks[k]));
      SuffixStep(Chain(mid.files, n), Chain(log.files, n) + NonEmpty(chunks[..k]), Whole(chunks[k]), dropped,
                 Chain(Run(log, chunks, faults, maxBytes, n).files, n));
    }
  }

  lemma SuffixStep(a: seq<Chunk>, b: seq<Chunk>, more: seq<Chunk>, dropped: seq<Chunk>, c: seq<Chunk>)
    requires IsSuffix(a, b) && dropped + c == a + more
    ensures IsSuffix(c, b + more)
  {
    var gone := b[..|b| - |a|];
    assert b + more == gone + (a + more) == gone + (dropped + c) == (gone + dropped) + c;
  }

  // ---------- how much is retained ----------

  /** After each write the log file is within the cap, or it is exactly one oversized event. */
  lemma FileWithinCapOrOneChunk(log: Log, chunk: Chunk, maxBytes: nat, n: nat)
    requires Valid(log) && chunk != [] && maxBytes > 0
    ensures var file := At(Written(log, chunk, maxBytes, n, NO_FAULTS).files, 0);
            Size(file) <= maxBytes || (file == [chunk] && |chunk| > maxBytes)
  {
    var ready := Ready(log, chunk, maxBytes, n);
    WrittenIsAppended(log, chunk, maxBytes, n);
    SizeAppend(At(ready.files, 0), chunk);
    ReadyHasRoom(log, chunk, maxBytes, n);
    assert At(ready.files, 0) == [] ==> Size(At(ready.files, 0)) == 0 && [] + [chunk] == [chunk];
  }

  // The log a write goes to is empty, or has room for the event.
  lemma ReadyHasRoom(log: Log, chunk: Chunk, maxBytes: nat, n: nat)
    requires Valid(log) && maxBytes > 0
    ensures var ready := Ready(log, chunk, maxBytes, n);
            ready.slot.Open? && (At(ready.files, 0) == [] || Size(At(ready.files, 0)) + |chunk| <= maxBytes)
  {
    var live := if log.slot.Closed? then Reopened(log.files) else log;
    if OverCap(live.slot, chunk, maxBytes) { RotationDropsOldest(live.files, n); }
  }

  function Min(a: nat, b: nat): nat { if a <= b then a else b }

  /** The r newest pairs of neighbouring files together exceed the cap. */
  ghost predicate PairsExceed(files: Files, r: nat, maxBytes: nat) {
    forall i: nat :: i < r ==> Size(At(files, i)) + Size(At(files, i + 1)) > maxBytes
  }

  lemma ReadyFiles(log: Log, chunk: Chunk, maxBytes: nat, n: nat)
    requires Valid(log) && chunk != []
    ensures var ready := Ready(log, chunk, maxBytes, n);
            if Rotates(log, chunk, maxBytes)
            then At(ready.files, 0) == []
                 && (forall j: nat :: 0 < j <= n ==> At(ready.files, j) == At(log.files, j - 1))
                 && Size(At(log.files, 0)) + |chunk| > maxBytes
            else forall j: nat :: At(ready.files, j) == At(log.files, j)
  {
    var live := if log.slot.Closed? then Reopened(log.files) else log;
    assert forall j: nat :: At(live.files, j) == At(log.files, j);
    RotationDropsOldest(live.files, n);
  }

  lemma PairsAfterRotation(before: Files, after: Files, chunk: Chunk, n: nat, r: nat, maxBytes: nat)
    requires PairsExceed(before, Min(r, n), maxBytes) && Size(At(before, 0)) + |chunk| > maxBytes
    requires Size(At(after, 0)) == |chunk| && forall j: nat :: 0 < j <= n ==> At(after, j) == At(before, j - 1)
    ensures PairsExceed(after, Min(r + 1, n), maxBytes)
  {
  }

  /** Each rotation leaves behind one more pair of neighbours that would not have fitted together. */
  lemma WriteKeepsPairs(log: Log, chunk: Chunk, maxBytes: nat, n: nat, r: nat)
    requires Valid(log) && PairsExceed(log.files, Min(r, n), maxBytes)
    ensures PairsExceed(Written(log, chunk, maxBytes, n, NO_FAULTS).files,
                        Min(if Rotates(log, chunk, maxBytes) then r + 1 else r, n), maxBytes)
  {
    if chunk != [] {
      var ready := Ready(log, chunk, maxBytes, n);
      var after := Written(log, chunk, maxBytes, n, NO_FAULTS).files;
      var dropped := ReadyKeepsSuffix(log, chunk, maxBytes, n);
      WrittenIsAppended(log, chunk, maxBytes, n);
      ReadyFiles(log, chunk, maxBytes, n);
      SizeAppend(At(ready.files, 0), chunk);
      assert forall j: nat :: j > 0 ==> At(after, j) == At(ready.files, j);
      if Rotates(log, chunk, maxBytes) {
        PairsAfterRotation(log.files, after, chunk, n, r, maxBytes);
      }
    }
  }

  ghost function Rotations(log: Log, chunks: seq<Chunk>, faults: seq<Faults>, maxBytes: nat, n: nat): nat
    requires |faults| == |chunks|
    decreases |chunks|
  {
    if chunks == [] then 0
    else
      var k := |chunks| - 1;
      Rotations(log, chunks[..k], faults[..k], maxBytes, n)
      + if Rotates(Run(log, chunks[..k], faults[..k], maxBytes, n), chunks[k], maxBytes) then 1 else 0
  }

  lemma {:induction false} RunKeepsPairs(log: Log, chunks: seq<Chunk>, faults: seq<Faults>, maxBytes: nat, n: nat)
    requires |faults| == |chunks| && Valid(log) && Healthy(faults)
    ensures PairsExceed(Run(log, chunks, faults, maxBytes, n).files,
                        Min(Rotations(log, chunks, faults, maxBytes, n), n), maxBytes)
    decreases |chunks|
  {
    if chunks != [] {
      var k := |chunks| - 1;
      RunKeepsPairs(log, chunks[..k], faults[..k], maxBytes, n);
      RunRetainsSuffix(log, chunks[..k], faults[..k], maxBytes, n);
      WriteKeepsPairs(Run(log, chunks[..k], faults[..k], maxBytes, n), chunks[k], maxBytes, n,
                      Rotations(log, chunks[..k], faults[..k], maxBytes, n));
    }
  }

  lemma {:induction false} SizeConcat(a: seq<Chunk>, b: seq<Chunk>)
    ensures Size(a + b) == Size(a) + Size(b)
    decreases |b|
  {
    if b == [] {
      assert a + b == a;
    } else {
      SizeConcat(a, b[..|b| - 1]);
      assert a + b == (a + b[..|b| - 1]) + [b[|b| - 1]];
      SizeAppend(a + b[..|b| - 1], b[|b| - 1]);
    }
  }

  lemma {:induction false} PairsAddUp(files: Files, n: nat, maxBytes: nat)
    requires n >= 1 && PairsExceed(files, n, maxBytes)
    ensures Size(Chain(files, n)) > (n + 1) / 2 * maxBytes
    decreases n
  {
    SizeConcat(At(files, n), Chain(files, n - 1));
    if n == 1 {
      assert Size(At(files, 0)) + Size(At(files, 1)) > maxBytes;
    } else {
      SizeConcat(At(files, n - 1), Chain(files, n - 2));
      assert Size(At(files, n - 1)) + Size(At(files, n - 1 + 1)) > maxBytes;
      if n > 2 {
        PairsAddUp(files, n - 2, maxBytes);
        assert (n + 1) / 2 == (n - 2 + 1) / 2 + 1;
        Distribute((n - 1) / 2, maxBytes);
      }
    }
  }

  lemma Distribute(k: nat, m: nat)
    ensures (k + 1) * m == k * m + m
  {
  }

  /**
   Once as many rotations as backups have happened, the chain holds more than half of what its
   files could: at least floor((n + 1) / 2) times the cap.
   */
  lemma RunRetainsHalf(log: Log, chunks: seq<Chunk>, faults: seq<Faults>, maxBytes: nat, n: nat)
    requires |faults| == |chunks| && Valid(log) && Healthy(faults)
    requires 1 <= n <= Rotations(log, chunks, faults, maxBytes, n)
    ensures Size(Chain(Run(log, chunks, faults, maxBytes, n).files, n)) > (n + 1) / 2 * maxBytes
  {
    RunKeepsPairs(log, chunks, faults, maxBytes, n);
    PairsAddUp(Run(log, chunks, faults, maxBytes, n).files, n, maxBytes);
  }

  // ---------- with failing operations ----------

  /** `a` is `b` with some chunks left out and some cut short: nothing reordered, repeated or invented. */
  ghost predicate Sub(a: seq<Chunk>, b: seq<Chunk>)
    decreases |b|
  {
    a == [] || (b != [] && ((a[0] <= b[0] && Sub(a[1..], b[1..])) || Sub(a, b[1..])))
  }

  lemma {:induction false} SubReflexive(a: seq<Chunk>)
    ensures Sub(a, a)
  {
    if a != [] { SubReflexive(a[1..]); }
  }

  lemma {:induction false} SubConcat(a: seq<Chunk>, b: seq<Chunk>, c: seq<Chunk>, d: seq<Chunk>)
    requires Sub(a, b) && Sub(c, d)
    ensures Sub(a + c, b + d)
    decreases |b|
  {
    if b == [] {
      assert a + c == c && b + d == d;
    } else {
      assert (b + d)[1..] == b[1..] + d && (b + d)[0] == b[0];
      if a == [] {
        SubConcat([], b[1..], c, d);
        assert [] + c == c;
        assert a + c == [] + c;
      } else if a[0] <= b[0] && Sub(a[1..], b[1..]) {
        SubConcat(a[1..], b[1..], c, d);
        assert (a + c)[1..] == a[1..] + c;
      } else {
        SubConcat(a, b[1..], c, d);
      }
    }
  }

  lemma {:induction false} SubTransitive(a: seq<Chunk>, b: seq<Chunk>, c: seq<Chunk>)
    requires Sub(a, b) && Sub(b, c)
    ensures Sub(a, c)
    decreases |c|
  {
    if a != [] && c != [] {
      if b[0] <= c[0] && Sub(b[1..], c[1..]) {
        if a[0] <= b[0] && Sub(a[1..], b[1..]) {
          SubTransitive(a[1..], b[1..], c[1..]);
        } else {
          SubTransitive(a, b[1..], c[1..]);
        }
      } else {
        SubTransitive(a, b, c[1..]);
      }
    }
  }

  /** Pointwise smaller files make a smaller chain. */
  lemma {:induction false} ChainSub(a: Files, b: Files, n: nat)
    requires forall j: nat :: j <= n ==> Sub(At(a, j), At(b, j))
    ensures Sub(Chain(a, n), Chain(b, n))
  {
    if n > 0 {
      ChainSub(a, b, n - 1);
      SubConcat(At(a, n), At(b, n), Chain(a, n - 1), Chain(b, n - 1));
    }
  }

  lemma SubOfTail(dropped: seq<Chunk>, rest: seq<Chunk>)
    ensures Sub(rest, dropped + rest)
  {
    SubReflexive(rest);
    SubConcat([], dropped, rest, rest);
    assert [] + rest == rest;
  }

  /** A rename onto the topmost place drops what was there and shifts nothing else in the reading order. */
  lemma RenameTop(files: Files, i: nat, fails: set<nat>)
    requires i in files && i !in fails
    ensures Chain(Rename(files, i, fails), i + 1) == Chain(files, i)
  {
    var r := Rename(files, i, fails);
    assert At(r, i + 1) == At(files, i) && At(r, i) == [];
    if i == 0 {
      assert At(files, 0) + [] == At(files, 0);
    } else {
      ChainAgrees(r, files, i - 1);
      NothingInFront(At(r, i), Chain(r, i - 1));
      assert Chain(r, i) == Chain(files, i - 1);
    }
  }

  lemma NothingInFront(nothing: seq<Chunk>, rest: seq<Chunk>)
    requires nothing == []
    ensures nothing + rest == rest
  {
  }

  /** A rename, done or failed, never puts a chunk out of order. */
  lemma {:induction false} RenameSub(files: Files, i: nat, fails: set<nat>, n: nat)
    requires i < n
    ensures Sub(Chain(Rename(files, i, fails), n), Chain(files, n))
    decreases n
  {
    if !(i in files && i !in fails) {
      SubReflexive(Chain(files, n));
    } else if i + 1 < n {
      var r := Rename(files, i, fails);
      RenameSub(files, i, fails, n - 1);
      SubReflexive(At(files, n));
      SubConcat(At(r, n), At(files, n), Chain(r, n - 1), Chain(files, n - 1));
    } else {
      RenameTop(files, i, fails);
      SubOfTail(At(files, n), Chain(files, i));
    }
  }

  lemma {:induction false} ShiftSub(files: Files, i: nat, fails: set<nat>, n: nat)
    requires i < n
    ensures Sub(Chain(Shift(files, i, fails), n), Chain(files, n))
    decreases i
  {
    RenameSub(files, i, fails, n);
    if i > 0 {
      var once := Rename(files, i, fails);
      ShiftSub(once, i - 1, fails, n);
      SubTransitive(Chain(Shift(once, i - 1, fails), n), Chain(once, n), Chain(files, n));
    }
  }

  lemma ReopenSub(files: Files, n: nat)
    ensures Chain(Reopened(files).files, n) == Chain(files, n)
  {
  }

  // Opening changes no file, and is measured unless it says otherwise.
  lemma OpenedSub(files: Files, o: Opening, n: nat)
    ensures Loose(OpenedAs(files, o)) && (!o.Unmeasured? ==> Valid(OpenedAs(files, o)))
    ensures Chain(OpenedAs(files, o).files, n) == Chain(files, n)
  {
    ReopenSub(files, n);
  }

  lemma RemovedSub(files: Files, n: nat, removed: Files)
    requires removed == files || removed == files - {n}
    ensures Sub(Chain(removed, n), Chain(files, n))
  {
    forall j: nat | j <= n ensures Sub(At(removed, j), At(files, j)) {
      SubReflexive(At(files, j));
    }
    ChainSub(removed, files, n);
  }

  lemma RotatedSub(files: Files, n: nat, f: Faults)
    ensures Loose(Rotated(files, n, f)) && (!f.rotateOpen.Unmeasured? ==> Valid(Rotated(files, n, f)))
    ensures Sub(Chain(Rotated(files, n, f).files, n), Chain(files, n))
  {
    if n == 0 {
      SubReflexive(Chain(files, n));
    } else {
      var removed := if f.remove then files else files - {n};
      var shifted := Shift(removed, n - 1, f.renames);
      RemovedSub(files, n, removed);
      ShiftSub(removed, n - 1, f.renames, n);
      SubTransitive(Chain(shifted, n), Chain(removed, n), Chain(files, n));
      OpenedSub(shifted, f.rotateOpen, n);
    }
  }

  // Some prefix of the event, or nothing of it, is behind what was there.
  lemma CutSub(files: seq<Chunk>, chunk: Chunk, cut: Chunk)
    requires cut <= chunk
    ensures Sub(files + Whole(cut), files + [chunk])
  {
    SubReflexive(files);
    SubConcat(files, files, Whole(cut), [chunk]);
  }

  lemma AppendedSub(ready: Log, chunk: Chunk, f: Faults, n: nat)
    requires Loose(ready) && chunk != []
    ensures Loose(Appended(ready, chunk, f)) && (Valid(ready) ==> Valid(Appended(ready, chunk, f)))
    ensures Sub(Chain(Appended(ready, chunk, f).files, n), Chain(ready.files, n) + [chunk])
  {
    var cut := if f.write.Some? then Cut(chunk, f.write.value) else chunk;
    CutSub(Chain(ready.files, n), chunk, cut);
    CutSub(Chain(ready.files, n), chunk, []);
    assert Chain(ready.files, n) + [] == Chain(ready.files, n);
    SizeAppend(At(ready.files, 0), chunk);
    if ready.slot.Open? {
      if cut == [] {
        assert At(ready.files, 0) + [] == At(ready.files, 0);
        ChainAgrees(Appended(ready, chunk, f).files, ready.files, n);
      } else {
        AppendToChain(ready.files, cut, n);
      }
    }
  }

  // The open log a write goes to, whatever fails before.
  function ReadyWith(log: Log, chunk: Chunk, maxBytes: nat, n: nat, f: Faults): Log {
    var live := if log.slot.Closed? then OpenedAs(log.files, f.reopen) else log;
    if OverCap(live.slot, chunk, maxBytes) then Rotated(live.files, n, f) else live
  }

  predicate Measured(f: Faults) { !f.reopen.Unmeasured? && !f.rotateOpen.Unmeasured? }

  lemma ReadySub(log: Log, chunk: Chunk, maxBytes: nat, n: nat, f: Faults)
    requires Loose(log)
    ensures var ready := ReadyWith(log, chunk, maxBytes, n, f);
            && Loose(ready) && (Valid(log) && Measured(f) ==> Valid(ready))
            && Sub(Chain(ready.files, n), Chain(log.files, n))
  {
    var live := if log.slot.Closed? then OpenedAs(log.files, f.reopen) else log;
    OpenedSub(log.files, f.reopen, n);
    RotatedSub(live.files, n, f);
    SubReflexive(Chain(live.files, n));
  }

  lemma WrittenSub(log: Log, chunk: Chunk, maxBytes: nat, n: nat, f: Faults)
    requires Loose(log)
    ensures var log' := Written(log, chunk, maxBytes, n, f);
            && Loose(log') && (Valid(log) && Measured(f) ==> Valid(log'))
            && Sub(Chain(log'.files, n), Chain(log.files, n) + Whole(chunk))
  {
    if chunk == [] || (log.slot.Closed? && f.reopen.Refused?) {
      SubReflexive(Chain(log.files, n));
      SubConcat(Chain(log.files, n), Chain(log.files, n), [], Whole(chunk));
      assert Chain(log.files, n) + [] == Chain(log.files, n);
    } else {
      var ready := ReadyWith(log, chunk, maxBytes, n, f);
      ReadySub(log, chunk, maxBytes, n, f);
      AppendedSub(ready, chunk, f, n);
      SubReflexive([chunk]);
      SubConcat(Chain(ready.files, n), Chain(log.files, n), [chunk], [chunk]);
      SubTransitive(Chain(Appended(ready, chunk, f).files, n), Chain(ready.files, n) + [chunk],
                    Chain(log.files, n) + [chunk]);
    }
  }

  /**
   Whatever opens, length queries, removes, renames and writes fail, in whatever combination: the
   chain reads as a subsequence of what it held at the start followed by everything written, events
   whose write failed cut short at most; and `written` is never more than the length of the log
   file, and exactly that unless a length query failed.
   */
  lemma {:induction false} RunNeverReorders(log: Log, chunks: seq<Chunk>, faults: seq<Faults>, maxBytes: nat, n: nat)
    requires |faults| == |chunks| && Loose(log)
    ensures var r := Run(log, chunks, faults, maxBytes, n);
            && Sub(Chain(r.files, n), Chain(log.files, n) + NonEmpty(chunks)) && Loose(r)
            && (Valid(log) && (forall i :: 0 <= i < |faults| ==> Measured(faults[i])) ==> Valid(r))
    decreases |chunks|
  {
    if chunks == [] {
      assert Chain(log.files, n) + [] == Chain(log.files, n);
      SubReflexive(Chain(log.files, n));
    } else {
      var k := |chunks| - 1;
      RunNeverReorders(log, chunks[..k], faults[..k], maxBytes, n);
      var mid := Run(log, chunks[..k], faults[..k], maxBytes, n);
      var added := Whole(chunks[k]);
      WrittenSub(mid, chunks[k], maxBytes, n, faults[k]);
      SubReflexive(added);
      var all := Chain(log.files, n) + NonEmpty(chunks[..k]);
      SubConcat(Chain(mid.files, n), all, added, added);
      Associate(Chain(log.files, n), NonEmpty(chunks[..k]), added);
      SubTransitive(Chain(Run(log, chunks, faults, maxBytes, n).files, n), Chain(mid.files, n) + added, all + added);
    }
  }

  /** With a cap of 0 the log is never rotated: every event is behind the ones before it in the one file. */
  lemma NoCapNoRotation(log: Log, chunk: Chunk, n: nat)
    requires log.slot.Open? && chunk != []
    ensures !Rotates(log, chunk, 0)
    ensures Written(log, chunk, 0, n, NO_FAULTS)
         == Log(log.files[0 := At(log.files, 0) + [chunk]], Open(log.slot.written + |chunk|))
  {
  }

  /** A write rotates exactly when there is a cap and the event would push the log over it. */
  lemma RotatesIff(log: Log, chunk: Chunk, maxBytes: nat)
    requires Valid(log) && chunk != []
    ensures Rotates(log, chunk, maxBytes) <==> maxBytes > 0 && Size(At(log.files, 0)) + |chunk| > maxBytes
  {
  }
}
