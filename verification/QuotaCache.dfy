/**
 Storage-quota accounting: reservations of uncommitted bytes per user and library, and the
 short-lived snapshots of committed usage.  Every method runs under one mutex, so a concurrent
 history is a sequence of calls.
 */
module QuotaCache {
  import opened Options

  // What a reservation is kept under.
  datatype Key = Key(user: int, repo: string)

  type Reserved = map<Key, int>

  const RESERVED_MAX: nat := 8192
  const USAGE_MAX: nat := 4096
  const USAGE_TTL: int := 500

  // ---------- sums ----------

  ghost function Total(m: Reserved, user: int): int
    decreases |m|
  {
    if m == map[] then 0
    else
      var k :| k in m;
      assert m.Keys == (m - {k}).Keys + {k};
      (if k.user == user then m[k] else 0) + Total(m - {k}, user)
  }

  function Get(m: Reserved, k: Key): int { if k in m then m[k] else 0 }

  lemma {:induction false} TotalRemove(m: Reserved, user: int, k: Key)
    requires k in m
    ensures Total(m, user) == (if k.user == user then m[k] else 0) + Total(m - {k}, user)
    decreases |m|
  {
    var j :| j in m && Total(m, user) == (if j.user == user then m[j] else 0) + Total(m - {j}, user);
    if j != k {
      assert m.Keys == (m - {j}).Keys + {j};
      assert m.Keys == (m - {k}).Keys + {k};
      TotalRemove(m - {j}, user, k);
      TotalRemove(m - {k}, user, j);
      assert m - {j} - {k} == m - {k} - {j};
    }
  }

  lemma TotalSet(m: Reserved, user: int, k: Key, n: int)
    ensures Total(m[k := n], user) == Total(m, user) + if k.user == user then n - Get(m, k) else 0
  {
    TotalRemove(m[k := n], user, k);
    assert m[k := n] - {k} == m - {k};
    if k in m {
      TotalRemove(m, user, k);
    } else {
      assert m - {k} == m;
    }
  }

  lemma TotalDrop(m: Reserved, user: int, k: Key)
    ensures Total(m - {k}, user) == Total(m, user) - if k.user == user then Get(m, k) else 0
  {
    if k in m {
      TotalRemove(m, user, k);
    } else {
      assert m - {k} == m;
    }
  }

  lemma {:induction false} TotalNotNegative(m: Reserved, user: int)
    requires AllPositive(m)
    ensures Total(m, user) >= 0
    decreases |m|
  {
    if m != map[] {
      var k :| k in m;
      assert m.Keys == (m - {k}).Keys + {k};
      TotalRemove(m, user, k);
      TotalNotNegative(m - {k}, user);
    }
  }

  // ---------- the calls on values ----------

  datatype Call =
    | Reserve(key: Key, delta: int, committed: int, quota: int)
    | Release(key: Key)

  ghost predicate AllPositive(m: Reserved) { forall k :: k in m ==> m[k] > 0 }

  function Retained(m: Reserved): Reserved { map k | k in m && m[k] > 0 :: m[k] }

  ghost predicate Fits(m: Reserved, c: Call)
    requires c.Reserve?
  {
    c.committed + Total(m, c.key.user) + c.delta <= c.quota
  }

  // The call is answered Ok and asks for something.
  ghost predicate Accepts(m: Reserved, c: Call) { c.Reserve? && c.delta > 0 && Fits(m, c) }

  // The map is full, also after dropping what is not positive, and the key would be a new one.
  predicate Full(m: Reserved, k: Key) { |m| >= RESERVED_MAX && k !in m && |Retained(m)| >= RESERVED_MAX }

  ghost function Apply(m: Reserved, c: Call): Reserved {
    match c
    case Release(key) => m - {key}
    case Reserve(key, delta, _, _) =>
      if !Accepts(m, c) then m
      else
        var base := if |m| >= RESERVED_MAX && key !in m then Retained(m) else m;
        if Full(m, key) then base else base[key := Get(base, key) + delta]
  }

  // ---------- the cache as it is programmed ----------

  class QuotaCache {
    var usage: map<int, (int, int)>
    var reserved: Reserved

    constructor ()
      ensures usage == map[] && reserved == map[]
    {
      usage, reserved := map[], map[];
    }

    /** Bytes reserved by a user across every library. */
    method ReservedTotal(user: int) returns (sum: int)
      ensures sum == Total(reserved, user)
    {
      sum := 0;
      var rest := reserved;
      while rest != map[]
        invariant sum + Total(rest, user) == Total(reserved, user)
        decreases |rest|
      {
        var k :| k in rest;
        assert rest.Keys == (rest - {k}).Keys + {k};
        TotalRemove(rest, user, k);
        if k.user == user { sum := sum + rest[k]; }
        rest := rest - {k};
      }
    }

    /** Reserve when the bytes fit; the check and the insertion are one step. */
    method ReserveIfFits(key: Key, delta: int, committed: int, quota: int) returns (ok: bool)
      modifies this
      ensures ok <==> delta <= 0 || committed + Total(old(reserved), key.user) + delta <= quota
      ensures reserved == Apply(old(reserved), Reserve(key, delta, committed, quota))
      ensures usage == old(usage)
    {
      if delta <= 0 { return true; }
      var sum := ReservedTotal(key.user);
      if committed + sum + delta > quota { return false; }
      if |reserved| >= RESERVED_MAX && key !in reserved {
        reserved := Retained(reserved);
        if |reserved| >= RESERVED_MAX { return true; }
      }
      reserved := reserved[key := Get(reserved, key) + delta];
      ok := true;
    }

    /** Drop the reservation of one user and library, and say how much it was. */
    method ReleaseRepo(key: Key) returns (released: int)
      modifies this
      ensures released == Get(old(reserved), key)
      ensures reserved == Apply(old(reserved), Release(key)) && usage == old(usage)
    {
      released := Get(reserved, key);
      reserved := reserved - {key};
    }

    method CachedUsage(user: int, now: int) returns (snapshot: Option<int>)
      ensures snapshot == Cached(usage, user, now)
    {
      if user in usage && now - usage[user].1 < USAGE_TTL {
        snapshot := Some(usage[user].0);
      } else {
        snapshot := None;
      }
    }

    method StoreUsage(user: int, bytes: int, now: int)
      modifies this
      ensures usage == Stored(old(usage), user, bytes, now) && reserved == old(reserved)
    {
      if |usage| >= USAGE_MAX {
        usage := map u | u in usage && now - usage[u].1 < USAGE_TTL :: usage[u];
      }
      if |usage| < USAGE_MAX {
        usage := usage[user := (bytes, now)];
      }
    }

    method InvalidateUsage(user: int)
      modifies this
      ensures usage == old(usage) - {user} && reserved == old(reserved)
    {
      usage := usage - {user};
    }
  }

  // ---------- what every call keeps ----------

  ghost predicate Inv(m: Reserved) { AllPositive(m) && |m| <= RESERVED_MAX }

  /** Nothing stored is ever without bytes, so dropping such entries drops nothing. */
  lemma RetainKeepsAll(m: Reserved)
    requires AllPositive(m)
    ensures Retained(m) == m
  {
  }

  lemma CallKeepsInv(m: Reserved, c: Call)
    requires Inv(m)
    ensures Inv(Apply(m, c))
  {
    RetainKeepsAll(m);
    match c
    case Release(key) =>
      if key in m { assert m.Keys == (m - {key}).Keys + {key}; } else { assert m - {key} == m; }
    case Reserve(key, delta, _, _) =>
      if Accepts(m, c) && !Full(m, key) { SetKeepsInv(m, key, Get(m, key) + delta); }
  }

  lemma SetKeepsInv(m: Reserved, key: Key, n: int)
    requires Inv(m) && n > 0 && (key in m || |m| < RESERVED_MAX)
    ensures Inv(m[key := n])
  {
    var m' := m[key := n];
    if key in m { assert m'.Keys == m.Keys; } else { assert m'.Keys == m.Keys + {key}; }
  }

  /** An accepted call fails open, storing nothing, exactly when 8192 keys exist and its key is new. */
  lemma FailsOpenIff(m: Reserved, c: Call)
    requires Inv(m) && Accepts(m, c)
    ensures Apply(m, c) == m <==> |m| == 8192 && c.key !in m
    ensures Full(m, c.key) <==> |m| == 8192 && c.key !in m
    ensures Apply(m, c) != m ==> Apply(m, c) == m[c.key := Get(m, c.key) + c.delta]
  {
    RetainKeepsAll(m);
    var m' := m[c.key := Get(m, c.key) + c.delta];
    assert m'[c.key] == Get(m, c.key) + c.delta;
  }

  /** A call changes at most its own key. */
  lemma OthersUntouched(m: Reserved, c: Call, k: Key)
    requires Inv(m) && k != c.key
    ensures Get(Apply(m, c), k) == Get(m, k)
  {
  }

  lemma CallTotal(m: Reserved, c: Call, user: int)
    requires Inv(m)
    ensures Total(Apply(m, c), user) == Total(m, user)
              + if c.key.user != user then 0
                else if c.Release? then -Get(m, c.key)
                else if Accepts(m, c) && !Full(m, c.key) then c.delta else 0
  {
    RetainKeepsAll(m);
    match c
    case Release(key) => TotalDrop(m, user, key);
    case Reserve(key, delta, _, _) => TotalSet(m, user, key, Get(m, key) + delta);
  }

  // ---------- runs ----------

  ghost function After(calls: seq<Call>): Reserved {
    if calls == [] then map[] else Apply(After(calls[..|calls| - 1]), calls[|calls| - 1])
  }

  lemma {:induction false} RunKeepsInv(calls: seq<Call>)
    ensures Inv(After(calls))
  {
    if calls != [] {
      RunKeepsInv(calls[..|calls| - 1]);
      CallKeepsInv(After(calls[..|calls| - 1]), calls[|calls| - 1]);
    }
  }

  /** The calls of one user state a committed usage that is not negative and a quota of at most q. */
  ghost predicate Bounded(calls: seq<Call>, user: int, q: int) {
    forall i :: 0 <= i < |calls| && calls[i].Reserve? && calls[i].key.user == user ==>
                  calls[i].committed >= 0 && calls[i].quota <= q
  }

  /** In every run the user's reservations stay within the quota; other users' calls do not count. */
  lemma {:induction false} ReservedWithinQuota(calls: seq<Call>, user: int, q: int)
    requires Bounded(calls, user, q)
    ensures 0 <= Total(After(calls), user) <= if q > 0 then q else 0
    ensures calls != [] && calls[|calls| - 1].key.user != user ==>
              Total(After(calls), user) == Total(After(calls[..|calls| - 1]), user)
  {
    RunKeepsInv(calls);
    TotalNotNegative(After(calls), user);
    if calls != [] {
      var init, c := calls[..|calls| - 1], calls[|calls| - 1];
      assert forall i :: 0 <= i < |init| ==> init[i] == calls[i];
      ReservedWithinQuota(init, user, q);
      RunKeepsInv(init);
      CallTotal(After(init), c, user);
      if c.Release? && c.key in After(init) { assert After(init)[c.key] > 0; }
    }
  }

  /** The user's total is what the reservations of the user add up to, and no entry of another user counts. */
  lemma TotalOfOne(m: Reserved, k: Key, n: int, user: int)
    ensures Total(map[], user) == 0
    ensures k !in m ==> Total(m[k := n], user) == Total(m, user) + if k.user == user then n else 0
  {
    TotalSet(m, user, k, n);
  }

  /**
   Admission over every run.  A call for something is refused if and only if its bytes, with the
   user's reservations and the committed usage, would exceed the quota; a refused call changes
   nothing, and an admitted one adds exactly its bytes to its own key, unless 8192 other keys exist.
   */
  lemma AdmissionIsExact(calls: seq<Call>, key: Key, delta: int, committed: int, quota: int)
    ensures var m, c := After(calls), Reserve(key, delta, committed, quota);
            var admitted := delta > 0 && committed + Total(m, key.user) + delta <= quota;
            After(calls + [c]) ==
            if admitted && (key in m || |m| < 8192) then m[key := Get(m, key) + delta] else m
  {
    var c := Reserve(key, delta, committed, quota);
    assert (calls + [c])[..|calls|] == calls;
    RunKeepsInv(calls);
    CallIsExact(After(calls), c);
  }

  lemma CallIsExact(m: Reserved, c: Call)
    requires Inv(m) && c.Reserve?
    ensures Apply(m, c) ==
            if c.delta > 0 && c.committed + Total(m, c.key.user) + c.delta <= c.quota && (c.key in m || |m| < 8192)
            then m[c.key := Get(m, c.key) + c.delta] else m
  {
    if Accepts(m, c) { FailsOpenIff(m, c); }
  }

  // ---------- the ledger ----------

  // Bytes of one key: accepted, handed back by releases, and accepted without being recorded.
  datatype Ledger = Ledger(accepted: int, released: int, unrecorded: int)

  ghost function Posted(l: Ledger, m: Reserved, c: Call, k: Key): Ledger {
    if c.key != k then l
    else if c.Release? then l.(released := l.released + Get(m, k))
    else if !Accepts(m, c) then l
    else
      var unrecorded := if |m| == RESERVED_MAX && k !in m then c.delta else 0;
      l.(accepted := l.accepted + c.delta, unrecorded := l.unrecorded + unrecorded)
  }

  ghost function LedgerOf(calls: seq<Call>, k: Key): Ledger {
    if calls == [] then Ledger(0, 0, 0)
    else
      var init := calls[..|calls| - 1];
      Posted(LedgerOf(init, k), After(init), calls[|calls| - 1], k)
  }

  /** Conservation: accepted bytes are reserved still, or were released, or were let through unrecorded. */
  lemma {:induction false} LedgerBalances(calls: seq<Call>, k: Key)
    ensures var l := LedgerOf(calls, k);
            l.accepted == Get(After(calls), k) + l.released + l.unrecorded
  {
    if calls != [] {
      var init, c := calls[..|calls| - 1], calls[|calls| - 1];
      LedgerBalances(init, k);
      RunKeepsInv(init);
      if c.key != k {
        OthersUntouched(After(init), c, k);
      } else if Accepts(After(init), c) {
        FailsOpenIff(After(init), c);
      }
    }
  }

  // ---------- usage snapshots ----------

  type Usage = map<int, (int, int)>

  function Cached(usage: Usage, user: int, now: int): Option<int> {
    if user in usage && now - usage[user].1 < USAGE_TTL then Some(usage[user].0) else None
  }

  // The snapshots that a full map keeps when one more is stored.
  function Kept(usage: Usage, now: int): Usage {
    if |usage| >= USAGE_MAX then map u | u in usage && now - usage[u].1 < USAGE_TTL :: usage[u] else usage
  }

  function Stored(usage: Usage, user: int, bytes: int, now: int): Usage {
    var kept := Kept(usage, now);
    if |kept| < USAGE_MAX then kept[user := (bytes, now)] else kept
  }

  datatype Event = Store(user: int, bytes: int, at: int) | Invalidate(user: int)

  function Happened(usage: Usage, e: Event): Usage {
    match e
    case Store(user, bytes, at) => Stored(usage, user, bytes, at)
    case Invalidate(user) => usage - {user}
  }

  function Snapshots(events: seq<Event>): Usage {
    if events == [] then map[] else Happened(Snapshots(events[..|events| - 1]), events[|events| - 1])
  }

  ghost predicate Uninvalidated(events: seq<Event>, i: nat, user: int) {
    forall j :: i < j < |events| ==> events[j] != Invalidate(user)
  }

  // What is held for a user after an event is what it stored, or what was held before.
  lemma StoredOrHeld(usage: Usage, user: int, e: Event)
    requires user in Happened(usage, e)
    ensures var held := Happened(usage, e)[user];
            || e == Store(user, held.0, held.1)
            || (user in usage && usage[user] == held && e != Invalidate(user))
  {
  }

  lemma {:induction false} SnapshotHasSource(events: seq<Event>, user: int) returns (i: nat)
    requires user in Snapshots(events)
    ensures i < |events| && Uninvalidated(events, i, user)
    ensures events[i] == Store(user, Snapshots(events)[user].0, Snapshots(events)[user].1)
    decreases |events|
  {
    var init, e, held := events[..|events| - 1], events[|events| - 1], Snapshots(events)[user];
    StoredOrHeld(Snapshots(init), user, e);
    if e == Store(user, held.0, held.1) {
      i := |events| - 1;
    } else {
      i := SnapshotHasSource(init, user);
    }
  }

  /** A snapshot that is served was stored less than 500 ms ago, and no commit has invalidated it since. */
  lemma ServedSnapshotIsFresh(events: seq<Event>, user: int, now: int) returns (i: nat)
    requires Cached(Snapshots(events), user, now).Some?
    ensures i < |events| && Uninvalidated(events, i, user)
    ensures events[i].Store? && events[i].user == user && now - events[i].at < 500
    ensures Cached(Snapshots(events), user, now) == Some(events[i].bytes)
  {
    i := SnapshotHasSource(events, user);
  }

  // ---------- the latest snapshot ----------

  /** The store at `j` finds as many fresh snapshots as the map may hold, and is dropped. */
  predicate Dropped(events: seq<Event>, j: nat)
    requires j < |events| && events[j].Store?
  {
    |Kept(Snapshots(events[..j]), events[j].at)| >= 4096
  }

  /** The user's last event is the store at `j`. */
  ghost predicate IsLatest(events: seq<Event>, j: nat, user: int) {
    && j < |events| && events[j].Store? && events[j].user == user
    && forall k :: j < k < |events| ==> events[k].user != user
  }

  lemma LatestInit(events: seq<Event>, j: nat, user: int)
    requires IsLatest(events, j, user) && j < |events| - 1
    ensures IsLatest(events[..|events| - 1], j, user) && events[|events| - 1].user != user
    ensures events[..|events| - 1][..j + 1] == events[..j + 1]
  {
  }

  // Other users' events leave a snapshot alone, or evict it.
  lemma {:induction false} OthersLeaveIt(events: seq<Event>, j: nat, user: int)
    requires IsLatest(events, j, user) && user in Snapshots(events)
    ensures user in Snapshots(events[..j + 1]) && Snapshots(events)[user] == Snapshots(events[..j + 1])[user]
    decreases |events|
  {
    if j == |events| - 1 {
      assert events[..j + 1] == events;
    } else {
      LatestInit(events, j, user);
      StoredOrHeld(Snapshots(events[..|events| - 1]), user, events[|events| - 1]);
      OthersLeaveIt(events[..|events| - 1], j, user);
    }
  }

  lemma DroppedOrHeld(events: seq<Event>, j: nat)
    requires j < |events| && events[j].Store?
    ensures var e := events[j];
            Snapshots(events[..j + 1]) ==
            if Dropped(events, j) then Kept(Snapshots(events[..j]), e.at)
            else Kept(Snapshots(events[..j]), e.at)[e.user := (e.bytes, e.at)]
  {
    assert events[..j + 1][..j] == events[..j];
  }

  /**
   What is held for a user is what the user's latest store stored, unless the store found 4096 fresh
   snapshots: then it was dropped, and what is held is what was held before it.
   */
  lemma LatestIsHeld(events: seq<Event>, j: nat, user: int)
    requires IsLatest(events, j, user) && user in Snapshots(events)
    ensures !Dropped(events, j) ==> Snapshots(events)[user] == (events[j].bytes, events[j].at)
    ensures Dropped(events, j) ==>
              user in Snapshots(events[..j]) && Snapshots(events)[user] == Snapshots(events[..j])[user]
  {
    OthersLeaveIt(events, j, user);
    DroppedOrHeld(events, j);
  }

  /**
   A snapshot that is served shows the user's latest store if and only if that store was not dropped,
   or happens to equal the older one.
   */
  lemma ServedIsLatestIff(events: seq<Event>, j: nat, user: int, now: int)
    requires IsLatest(events, j, user) && Cached(Snapshots(events), user, now).Some?
    ensures var before := Snapshots(events[..j]);
            Cached(Snapshots(events), user, now) == Some(events[j].bytes) <==>
            !Dropped(events, j) || (user in before && before[user].0 == events[j].bytes)
  {
    LatestIsHeld(events, j, user);
  }

  // Stores of the users 0, 1, ..., n - 1 at one time.
  function Filling(n: nat): seq<Event> { if n == 0 then [] else Filling(n - 1) + [Store(n - 1, 0, 0)] }

  lemma OneMoreStored(usage: Usage, user: int)
    requires |usage| < USAGE_MAX && user !in usage
    ensures Stored(usage, user, 0, 0) == usage[user := (0, 0)] && |usage[user := (0, 0)]| == |usage| + 1
  {
    assert usage[user := (0, 0)].Keys == usage.Keys + {user};
  }

  lemma {:induction false} FillingFills(n: nat)
    requires n <= USAGE_MAX
    ensures |Filling(n)| == n && |Snapshots(Filling(n))| == n
    ensures forall u :: u in Snapshots(Filling(n)) <==> 0 <= u < n
    ensures forall u :: u in Snapshots(Filling(n)) ==> Snapshots(Filling(n))[u] == (0, 0)
  {
    if n > 0 {
      FillingFills(n - 1);
      assert Filling(n)[..n - 1] == Filling(n - 1);
      OneMoreStored(Snapshots(Filling(n - 1)), n - 1);
    }
  }

  /** With 4096 fresh snapshots a user's second store is dropped, and the first one is still served. */
  lemma FullCacheServesOld() returns (events: seq<Event>)
    ensures events != [] && IsLatest(events, |events| - 1, 0) && events[|events| - 1].bytes == 1
    ensures Cached(Snapshots(events), 0, 0) == Some(0)
  {
    var filled := Filling(USAGE_MAX);
    FillingFills(USAGE_MAX);
    events := filled + [Store(0, 1, 0)];
    assert events[..|filled|] == filled;
    var all := Snapshots(filled);
    assert forall u :: u in all ==> all[u] == (0, 0);
    assert Kept(all, 0) == all;
    DroppedOrHeld(events, |filled|);
    assert events[..|filled| + 1] == events;
  }

  // Every store so far happened at or before `now`.
  ghost predicate NotLater(events: seq<Event>, now: int) {
    forall k :: 0 <= k < |events| && events[k].Store? ==> events[k].at <= now
  }

  // A snapshot that is not out of date is evicted by nobody.
  lemma {:induction false} FreshStays(events: seq<Event>, j: nat, user: int, now: int)
    requires IsLatest(events, j, user) && !Dropped(events, j) && NotLater(events, now) && now - events[j].at < 500
    ensures user in Snapshots(events) && Snapshots(events)[user] == (events[j].bytes, events[j].at)
    decreases |events|
  {
    DroppedOrHeld(events, j);
    if j == |events| - 1 {
      assert events[..j + 1] == events;
    } else {
      var init, e := events[..|events| - 1], events[|events| - 1];
      LatestInit(events, j, user);
      assert init[..j] == events[..j];
      assert forall k :: 0 <= k < |init| ==> init[k] == events[k];
      FreshStays(init, j, user, now);
      OtherEventKeeps(Snapshots(init), user, e, now);
    }
  }

  lemma OtherEventKeeps(usage: Usage, user: int, e: Event, now: int)
    requires user in usage && now - usage[user].1 < 500 && e.user != user && (e.Store? ==> e.at <= now)
    ensures user in Happened(usage, e) && Happened(usage, e)[user] == usage[user]
  {
  }

  /** The user's latest store, if it was not dropped, is served exactly while it is less than 500 ms old. */
  lemma LatestIsServedIff(events: seq<Event>, j: nat, user: int, now: int)
    requires IsLatest(events, j, user) && !Dropped(events, j) && NotLater(events, now)
    ensures Cached(Snapshots(events), user, now)
         == if now - events[j].at < 500 then Some(events[j].bytes) else None
  {
    if now - events[j].at < 500 {
      FreshStays(events, j, user, now);
    } else if user in Snapshots(events) {
      LatestIsHeld(events, j, user);
    }
  }
}
