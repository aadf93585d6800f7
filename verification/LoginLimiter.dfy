/**
  The login limiter of the Admin (internal/admin/login_limit.go): failures per key in a window, a lock when they reach a
  maximum, and a purge of expired buckets when the table is large.

  Instants are integers (nanoseconds); 0 is Go's zero `time.Time`, which lies before every reading of the clock.
 */
module LoginLimiter {
  import opened Optional

  const WINDOW: int := 300_000_000_000
  const LOCK: int := 900_000_000_000
  const MAX_LIMITER_KEYS: nat := 50_000
  const LOGIN_MAX_FAILS: int := 5

  datatype Bucket = Bucket(fails: int, windowAt: int, lockedUntil: int)

  type Table = map<string, Bucket>

  // ----- one bucket

  /** What `blocked` does to a bucket it looks at. */
  function Touch(b: Bucket, now: int): Bucket {
    if now < b.lockedUntil || now - b.windowAt <= WINDOW then b else b.(fails := 0, windowAt := now)
  }

  /** The bucket `failN` counts in: created when missing, its window restarted when it is over. */
  function Opened(ob: Option<Bucket>, now: int): Bucket {
    var b := if ob.None? then Bucket(0, now, 0) else ob.value;
    if now - b.windowAt > WINDOW then b.(fails := 0, windowAt := now) else b
  }

  /** What `failN` does to the bucket of its key. */
  function FailBucket(ob: Option<Bucket>, now: int, max: int): Bucket {
    var b := Opened(ob, now);
    if b.fails + 1 >= max then Bucket(0, now, now + LOCK) else b.(fails := b.fails + 1)
  }

  /** The purge condition of `failN`. */
  predicate Expired(b: Bucket, now: int) {
    now > b.lockedUntil && now - b.windowAt > WINDOW
  }

  // ----- the whole table

  function Project(t: Table, k: string): Option<Bucket> {
    if k in t then Some(t[k]) else None
  }

  function AfterBlocked(t: Table, keys: seq<string>, now: int): Table {
    map k | k in t :: if k in keys then Touch(t[k], now) else t[k]
  }

  function AfterPurge(t: Table, now: int): Table {
    map k | k in t && !Expired(t[k], now) :: t[k]
  }

  function AfterFail(t: Table, key: string, max: int, now: int): Table {
    var u := if |t| > MAX_LIMITER_KEYS then AfterPurge(t, now) else t;
    u[key := FailBucket(Project(u, key), now, max)]
  }

  function AfterSuccess(t: Table, keys: seq<string>): Table {
    map k | k in t && k !in keys :: t[k]
  }

  /** `w` is the wait `blocked` reports: the longest remaining lock among the keys, 0 if none is locked. */
  ghost predicate IsWait(t: Table, keys: seq<string>, now: int, w: int) {
    && w >= 0
    && (forall k :: k in keys && k in t ==> t[k].lockedUntil - now <= w)
    && (w > 0 ==> exists k :: k in keys && k in t && t[k].lockedUntil - now == w)
  }

  class Limiter {
    var byKey: Table

    constructor ()
      ensures byKey == map[]
    {
      byKey := map[];
    }

    method Blocked(keys: seq<string>, now: int) returns (isBlocked: bool, wait: int)
      modifies this
      ensures byKey == AfterBlocked(old(byKey), keys, now)
      ensures IsWait(old(byKey), keys, now, wait)
      ensures isBlocked <==> exists k :: k in keys && k in old(byKey) && now < old(byKey)[k].lockedUntil
    {
      wait := 0;
      ghost var t := byKey;
      for i := 0 to |keys|
        invariant byKey == AfterBlocked(t, keys[..i], now)
        invariant IsWait(t, keys[..i], now, wait)
      {
        var key := keys[i];
        assert keys[..i + 1] == keys[..i] + [key];
        if key in byKey {
          var b := byKey[key];
          assert b.lockedUntil == t[key].lockedUntil;
          if now < b.lockedUntil {
            if b.lockedUntil - now > wait {
              wait := b.lockedUntil - now;
            }
          } else if now - b.windowAt > WINDOW {
            byKey := byKey[key := b.(fails := 0, windowAt := now)];
          }
        }
      }
      assert keys[..|keys|] == keys;
      isBlocked := wait > 0;
    }

    method FailN(key: string, max: int, now: int)
      modifies this
      ensures byKey == AfterFail(old(byKey), key, max, now)
    {
      if |byKey| > MAX_LIMITER_KEYS {
        Purge(now);
      }
      var b := if key in byKey then byKey[key] else Bucket(0, now, 0);
      if now - b.windowAt > WINDOW {
        b := b.(fails := 0, windowAt := now);
      }
      b := b.(fails := b.fails + 1);
      if b.fails >= max {
        b := Bucket(0, now, now + LOCK);
      }
      byKey := byKey[key := b];
    }

    /** The deletion loop inside `failN`: whatever the order of the keys, exactly the expired buckets go. */
    method Purge(now: int)
      modifies this
      ensures byKey == AfterPurge(old(byKey), now)
    {
      ghost var t := byKey;
      var todo := byKey.Keys;
      while todo != {}
        invariant todo <= t.Keys
        invariant byKey == map k | k in t && (k in todo || !Expired(t[k], now)) :: t[k]
        decreases todo
      {
        var k :| k in todo;
        if Expired(byKey[k], now) {
          byKey := byKey - {k};
        }
        todo := todo - {k};
      }
    }

    method Success(keys: seq<string>)
      modifies this
      ensures byKey == AfterSuccess(old(byKey), keys)
    {
      ghost var t := byKey;
      for i := 0 to |keys|
        invariant byKey == AfterSuccess(t, keys[..i])
      {
        assert keys[..i + 1] == keys[..i] + [keys[i]];
        byKey := byKey - {keys[i]};
      }
      assert keys[..|keys|] == keys;
    }
  }

  // ----- runs

  datatype Op = Blocked(keys: seq<string>) | Fail(key: string, max: int) | Success(keys: seq<string>)

  datatype Event = Event(at: int, op: Op)

  function Step(t: Table, e: Event): Table {
    match e.op
    case Blocked(keys) => AfterBlocked(t, keys, e.at)
    case Fail(key, max) => AfterFail(t, key, max, e.at)
    case Success(keys) => AfterSuccess(t, keys)
  }

  function Run(t: Table, evs: seq<Event>): Table
    decreases |evs|
  {
    if evs == [] then t else Run(Step(t, evs[0]), evs[1..])
  }

  /** The clock never goes back, and is past the zero instant. */
  ghost predicate Monotone(evs: seq<Event>, from: int) {
    && 0 < from
    && (forall i :: 0 <= i < |evs| ==> from <= evs[i].at)
    && (forall i, j :: 0 <= i < j < |evs| ==> evs[i].at <= evs[j].at)
  }

  predicate FailsKey(e: Event, k: string) {
    e.op.Fail? && e.op.key == k
  }

  predicate ClearsKey(e: Event, k: string) {
    e.op.Success? && k in e.op.keys
  }

  /** This event locks key `k`. */
  predicate Locks(ob: Option<Bucket>, k: string, e: Event) {
    FailsKey(e, k) && Opened(ob, e.at).fails + 1 >= e.op.max
  }

  // ----- the life of one key: the table only decides, by its size, whether a failure also purges

  function KeyStep(ob: Option<Bucket>, k: string, e: Event, purge: bool): Option<Bucket> {
    match e.op
    case Blocked(keys) => if ob.Some? && k in keys then Some(Touch(ob.value, e.at)) else ob
    case Fail(key, max) =>
      var p := if purge && ob.Some? && Expired(ob.value, e.at) then None else ob;
      if key == k then Some(FailBucket(p, e.at, max)) else p
    case Success(keys) => if k in keys then None else ob
  }

  lemma StepProjects(t: Table, k: string, e: Event)
    ensures Project(Step(t, e), k) == KeyStep(Project(t, k), k, e, |t| > MAX_LIMITER_KEYS)
  {
  }

  /** A bucket is never ahead of the clock. */
  ghost predicate Sane(ob: Option<Bucket>, now: int) {
    ob.Some? ==> 0 <= ob.value.fails && ob.value.windowAt <= now && ob.value.lockedUntil <= now + LOCK
  }

  lemma StepSane(ob: Option<Bucket>, k: string, e: Event, purge: bool, now: int)
    requires Sane(ob, now) && 0 < now <= e.at
    ensures Sane(KeyStep(ob, k, e, purge), e.at)
  {
  }

  // ----- a lock needs max failures in the window

  /** Failures of `k` recorded in `evs` at or after `from`. */
  function CountSince(evs: seq<Event>, k: string, from: int): nat {
    if evs == [] then 0
    else CountSince(evs[..|evs| - 1], k, from) +
         (if FailsKey(evs[|evs| - 1], k) && evs[|evs| - 1].at >= from then 1 else 0)
  }

  lemma {:induction false} CountAntitone(evs: seq<Event>, k: string, from: int, later: int)
    requires from <= later
    ensures CountSince(evs, k, later) <= CountSince(evs, k, from)
  {
    if evs != [] {
      CountAntitone(evs[..|evs| - 1], k, from, later);
    }
  }

  lemma CountSnoc(evs: seq<Event>, e: Event, k: string, from: int)
    ensures CountSince(evs + [e], k, from) ==
            CountSince(evs, k, from) + (if FailsKey(e, k) && e.at >= from then 1 else 0)
  {
    assert (evs + [e])[..|evs|] == evs;
  }

  lemma {:induction false} RunSnoc(t: Table, evs: seq<Event>, e: Event)
    ensures Run(t, evs + [e]) == Step(Run(t, evs), e)
    decreases |evs|
  {
    if evs == [] {
      assert evs + [e] == [e];
    } else {
      assert (evs + [e])[1..] == evs[1..] + [e];
      RunSnoc(Step(t, evs[0]), evs[1..], e);
    }
  }

  /** Every counted failure of the current window is in the history. */
  ghost predicate Counted(ob: Option<Bucket>, evs: seq<Event>, k: string) {
    ob.Some? ==> 0 <= ob.value.fails <= CountSince(evs, k, ob.value.windowAt)
  }

  lemma CountedStep(ob: Option<Bucket>, evs: seq<Event>, k: string, e: Event, purge: bool)
    requires Counted(ob, evs, k)
    requires ob.Some? ==> ob.value.windowAt <= e.at
    ensures Counted(KeyStep(ob, k, e, purge), evs + [e], k)
  {
    var next := KeyStep(ob, k, e, purge);
    if next.Some? {
      CountSnoc(evs, e, k, next.value.windowAt);
    }
  }

  lemma {:induction false} RunCounted(evs: seq<Event>, k: string, now: int)
    requires Monotone(evs, 1) && 1 <= now && (evs != [] ==> now == evs[|evs| - 1].at)
    ensures Counted(Project(Run(map[], evs), k), evs, k)
    ensures Sane(Project(Run(map[], evs), k), now)
  {
    if evs != [] {
      var before, e := evs[..|evs| - 1], evs[|evs| - 1];
      assert evs == before + [e];
      var was := if before == [] then 1 else before[|before| - 1].at;
      RunCounted(before, k, was);
      RunSnoc(map[], before, e);
      var t := Run(map[], before);
      StepProjects(t, k, e);
      StepSane(Project(t, k), k, e, |t| > MAX_LIMITER_KEYS, was);
      CountedStep(Project(t, k), before, k, e, |t| > MAX_LIMITER_KEYS);
    }
  }

  /** Over every run: whenever a failure locks a key, at least `max` failures of it fell in the window before. */
  lemma LockNeedsMaxFailures(evs: seq<Event>, e: Event, k: string)
    requires Monotone(evs + [e], 1)
    requires Locks(Project(Run(map[], evs), k), k, e)
    ensures CountSince(evs + [e], k, e.at - 300_000_000_000) >= e.op.max
  {
    assert forall i :: 0 <= i < |evs| ==> (evs + [e])[i] == evs[i];
    assert (evs + [e])[|evs|] == e;
    var now := if evs == [] then 1 else evs[|evs| - 1].at;
    RunCounted(evs, k, now);
    var t := Run(map[], evs);
    StepProjects(t, k, e);
    CountSnoc(evs, e, k, e.at - WINDOW);
    if k in t && e.at - t[k].windowAt <= WINDOW {
      CountAntitone(evs, k, e.at - WINDOW, t[k].windowAt);
    }
  }

  // ----- a lock holds until it ends

  /** This event takes the bucket of `k` away: a success on the key, or a failure that purges it (and may start another). */
  predicate Removes(t: Table, e: Event, k: string)
    requires k in t
  {
    ClearsKey(e, k) || (e.op.Fail? && |t| > MAX_LIMITER_KEYS && Expired(t[k], e.at))
  }

  /** An event that leaves the bucket never moves the end of its lock back; one before that end leaves it, success aside. */
  lemma LockStep(t: Table, e: Event, k: string)
    requires k in t && 0 < e.at && t[k].lockedUntil <= e.at + LOCK
    ensures !Removes(t, e, k) ==>
              k in Step(t, e) && t[k].lockedUntil <= Step(t, e)[k].lockedUntil <= e.at + LOCK
    ensures e.at <= t[k].lockedUntil && !ClearsKey(e, k) ==> !Removes(t, e, k)
  {
    StepProjects(t, k, e);
  }

  /** No event of the run takes the bucket away. */
  ghost predicate BucketStays(t: Table, evs: seq<Event>, k: string)
    decreases |evs|
  {
    k in t && (evs != [] ==> !Removes(t, evs[0], k) && BucketStays(Step(t, evs[0]), evs[1..], k))
  }

  lemma {:induction false} LockEndGrows(t: Table, evs: seq<Event>, k: string, from: int)
    requires Monotone(evs, from) && BucketStays(t, evs, k) && t[k].lockedUntil <= from + LOCK
    ensures k in Run(t, evs) && t[k].lockedUntil <= Run(t, evs)[k].lockedUntil
    decreases |evs|
  {
    if evs != [] {
      LockStep(t, evs[0], k);
      LockEndGrows(Step(t, evs[0]), evs[1..], k, evs[0].at);
    }
  }

  /** Over every run: as long as its bucket exists, the end of a key's lock never decreases. */
  lemma LockEndNeverDecreases(before: seq<Event>, evs: seq<Event>, k: string, from: int)
    requires Monotone(before, 1) && Monotone(evs, from) && (before != [] ==> before[|before| - 1].at <= from)
    requires BucketStays(Run(map[], before), evs, k)
    ensures k in Run(Run(map[], before), evs)
    ensures Run(map[], before)[k].lockedUntil <= Run(Run(map[], before), evs)[k].lockedUntil
  {
    var now := if before == [] then 1 else before[|before| - 1].at;
    RunCounted(before, k, now);
    LockEndGrows(Run(map[], before), evs, k, from);
  }

  lemma {:induction false} LockHoldsFrom(t: Table, evs: seq<Event>, k: string, from: int, until: int)
    requires Monotone(evs, from) && k in t && until <= t[k].lockedUntil <= from + LOCK
    requires forall i :: 0 <= i < |evs| ==> evs[i].at < until && !ClearsKey(evs[i], k)
    ensures k in Run(t, evs) && until <= Run(t, evs)[k].lockedUntil
    decreases |evs|
  {
    if evs != [] {
      LockStep(t, evs[0], k);
      LockHoldsFrom(Step(t, evs[0]), evs[1..], k, evs[0].at, until);
    }
  }

  /**
    Over every run: once a failure has locked a key, any operations on any keys (purges included) before the end of the
    lock and without `success` on the key leave it locked, and `blocked` reports at least the time that remains.
   */
  lemma LockHoldsUntilItEnds(before: seq<Event>, e: Event, after: seq<Event>, k: string, now: int, keys: seq<string>)
    requires Monotone(before + [e], 1) && Monotone(after, e.at) && Locks(Project(Run(map[], before), k), k, e)
    requires forall i :: 0 <= i < |after| ==> after[i].at < e.at + 900_000_000_000 && !ClearsKey(after[i], k)
    requires now < e.at + 900_000_000_000 && k in keys
    ensures var t := Run(Run(map[], before + [e]), after);
            && k in t && e.at + 900_000_000_000 <= t[k].lockedUntil
            && forall w :: IsWait(t, keys, now, w) ==> w >= e.at + 900_000_000_000 - now > 0
  {
    var t := Run(map[], before);
    RunSnoc(map[], before, e);
    StepProjects(t, k, e);
    var u := Step(t, e);
    assert u[k].lockedUntil == e.at + LOCK;
    LockHoldsFrom(u, after, k, e.at, e.at + LOCK);
  }

  // ----- how many failures go unlocked

  function CountFails(evs: seq<Event>, k: string): nat {
    if evs == [] then 0 else (if FailsKey(evs[0], k) then 1 else 0) + CountFails(evs[1..], k)
  }

  /** No event of the run locks or clears `k`, and all its failures are judged against the same maximum. */
  ghost predicate Unlocked(t: Table, evs: seq<Event>, k: string, max: int)
    decreases |evs|
  {
    evs != [] ==>
      && !ClearsKey(evs[0], k)
      && !Locks(Project(t, k), k, evs[0])
      && (FailsKey(evs[0], k) ==> evs[0].op.max == max)
      && Unlocked(Step(t, evs[0]), evs[1..], k, max)
  }

  /** Failures that the bucket can still absorb without a lock before `start + WINDOW`. */
  function Budget(ob: Option<Bucket>, start: int, max: int): int {
    if ob.None? then max - 1
    else if ob.value.windowAt >= start then max - 1 - ob.value.fails
    else (max - 1 - ob.value.fails) + (max - 1)
  }

  ghost predicate Below(ob: Option<Bucket>, max: int) {
    ob.Some? ==> 0 <= ob.value.fails < max
  }

  lemma LocksIff(ob: Option<Bucket>, k: string, e: Event, max: int)
    requires FailsKey(e, k) && e.op.max == max && Sane(ob, e.at)
    ensures !Locks(ob, k, e) ==> Below(Some(FailBucket(ob, e.at, max)), max)
  {
  }

  lemma BudgetStep(ob: Option<Bucket>, k: string, e: Event, purge: bool, start: int, max: int)
    requires max >= 1 && Below(ob, max) && Sane(ob, e.at)
    requires start <= e.at <= start + WINDOW
    requires !ClearsKey(e, k) && !Locks(ob, k, e) && (FailsKey(e, k) ==> e.op.max == max)
    ensures var next := KeyStep(ob, k, e, purge);
            && Below(next, max)
            && Budget(next, start, max) + (if FailsKey(e, k) then 1 else 0) <= Budget(ob, start, max)
  {
    if FailsKey(e, k) {
      LocksIff(ob, k, e, max);
      if ob.Some? && Expired(ob.value, e.at) {
        assert FailBucket(ob, e.at, max).fails == FailBucket(None, e.at, max).fails;
      }
    }
  }

  lemma {:induction false} BudgetBoundsRun(t: Table, evs: seq<Event>, k: string, start: int, now: int, max: int)
    requires max >= 1 && Below(Project(t, k), max) && Sane(Project(t, k), now) && 0 < now
    requires Monotone(evs, now) && start <= now
    requires forall i :: 0 <= i < |evs| ==> evs[i].at <= start + WINDOW
    requires Unlocked(t, evs, k, max)
    ensures CountFails(evs, k) <= Budget(Project(t, k), start, max) <= 2 * (max - 1)
    decreases |evs|
  {
    if evs != [] {
      var e := evs[0];
      StepProjects(t, k, e);
      StepSane(Project(t, k), k, e, |t| > MAX_LIMITER_KEYS, now);
      BudgetStep(Project(t, k), k, e, |t| > MAX_LIMITER_KEYS, start, max);
      BudgetBoundsRun(Step(t, e), evs[1..], k, start, e.at, max);
    }
  }

  lemma BelowStep(ob: Option<Bucket>, k: string, e: Event, purge: bool, max: int)
    requires max >= 1 && Below(ob, max) && (FailsKey(e, k) ==> e.op.max == max)
    ensures Below(KeyStep(ob, k, e, purge), max)
  {
  }

  lemma {:induction false} RunBelow(evs: seq<Event>, k: string, max: int)
    requires max >= 1 && forall i :: 0 <= i < |evs| && FailsKey(evs[i], k) ==> evs[i].op.max == max
    ensures Below(Project(Run(map[], evs), k), max)
  {
    if evs != [] {
      var before, e := evs[..|evs| - 1], evs[|evs| - 1];
      assert evs == before + [e];
      RunBelow(before, k, max);
      RunSnoc(map[], before, e);
      var t := Run(map[], before);
      StepProjects(t, k, e);
      BelowStep(Project(t, k), k, e, |t| > MAX_LIMITER_KEYS, max);
    }
  }

  /**
    Over every run: in a stretch of at most WINDOW during which the key is neither locked nor cleared, at most 2*(max-1)
    failures of it are recorded, because the window restarts at most once.
   */
  lemma UnlockedFailuresBounded(before: seq<Event>, evs: seq<Event>, k: string, start: int, max: int)
    requires max >= 1 && Monotone(before, 1) && Monotone(evs, start)
    requires before != [] ==> before[|before| - 1].at <= start
    requires forall i :: 0 <= i < |before| && FailsKey(before[i], k) ==> before[i].op.max == max
    requires forall i :: 0 <= i < |evs| ==> evs[i].at <= start + 300_000_000_000
    requires Unlocked(Run(map[], before), evs, k, max)
    ensures CountFails(evs, k) <= 2 * (max - 1)
  {
    var now := if before == [] then 1 else before[|before| - 1].at;
    RunCounted(before, k, now);
    RunBelow(before, k, max);
    BudgetBoundsRun(Run(map[], before), evs, k, start, start, max);
  }

  /**
    One failure, outright. The count starts at 1 with the window when there is no bucket or its window of five minutes is
    over, and grows by 1 otherwise; when it reaches the maximum the key is locked for fifteen minutes, with a count of 0 and
    a window that starts there.
   */
  lemma FailureMeans(ob: Option<Bucket>, k: string, at: int, max: int)
    ensures var anew := ob.None? || at - ob.value.windowAt > 300_000_000_000;
            var count := if anew then 1 else ob.value.fails + 1;
            var b := KeyStep(ob, k, Event(at, Fail(k, max)), false);
            if count >= max then b == Some(Bucket(0, at, at + 900_000_000_000))
            else b == Some(Bucket(count, if anew then at else ob.value.windowAt, if ob.None? then 0 else ob.value.lockedUntil))
  {
  }

  /** A key without a bucket is locked by its max-th failure within the window at the latest, whatever else happens. */
  lemma NewKeyLocksInTime(t: Table, evs: seq<Event>, k: string, start: int, max: int)
    requires max >= 1 && k !in t && Monotone(evs, start)
    requires forall i :: 0 <= i < |evs| ==> evs[i].at <= start + 300_000_000_000
    requires Unlocked(t, evs, k, max)
    ensures CountFails(evs, k) <= max - 1
  {
    BudgetBoundsRun(t, evs, k, start, start, max);
  }

  /** A success releases its keys: no wait is reported for them, they start anew, and no other key is touched. */
  lemma SuccessReleases(t: Table, keys: seq<string>, k: string, now: int, w: int)
    ensures IsWait(AfterSuccess(t, keys), keys, now, w) ==> w == 0
    ensures Project(AfterSuccess(t, keys), k) == if k in keys then None else Project(t, k)
  {
  }

  // ----- the purge: not invisible in general

  /** What a client of key `k` sees of an event: the remaining lock told by `blocked`, or whether a failure locks. */
  function Observed(ob: Option<Bucket>, k: string, e: Event): int {
    match e.op
    case Blocked(keys) => if ob.Some? && k in keys && e.at < ob.value.lockedUntil then ob.value.lockedUntil - e.at else 0
    case Fail(_, _) => if Locks(ob, k, e) then 1 else 0
    case Success(_) => 0
  }

  function KeyRun(ob: Option<Bucket>, k: string, evs: seq<Event>): Option<Bucket>
    decreases |evs|
  {
    if evs == [] then ob else KeyRun(KeyStep(ob, k, evs[0], false), k, evs[1..])
  }

  /** The observations of a run without purge. */
  function Seen(ob: Option<Bucket>, k: string, evs: seq<Event>): seq<int>
    decreases |evs|
  {
    if evs == [] then [] else [Observed(ob, k, evs[0])] + Seen(KeyStep(ob, k, evs[0], false), k, evs[1..])
  }

  /** The observations of a run in which each failure may purge, as `purges` says. */
  function SeenPurging(ob: Option<Bucket>, k: string, evs: seq<Event>, purges: seq<bool>): seq<int>
    requires |purges| == |evs|
    decreases |evs|
  {
    if evs == [] then []
    else [Observed(ob, k, evs[0])] + SeenPurging(KeyStep(ob, k, evs[0], purges[0]), k, evs[1..], purges[1..])
  }

  /** Buckets no later operation tells apart: the same window, and locks equal or both over. */
  ghost predicate Alike(b: Bucket, c: Bucket, now: int) {
    && b.fails == c.fails && b.windowAt == c.windowAt
    && (b.lockedUntil == c.lockedUntil || (b.lockedUntil < now && c.lockedUntil < now))
  }

  ghost predicate AlikeOrGone(kept: Option<Bucket>, purged: Option<Bucket>, now: int) {
    match (kept, purged)
    case (None, None) => true
    case (Some(b), Some(c)) => Alike(b, c, now)
    case (Some(b), None) => Expired(b, now)
    case (None, Some(_)) => false
  }

  /** No `blocked` call on `k` meets an expired bucket of the run without purge. */
  ghost predicate NoExpiredLook(ob: Option<Bucket>, k: string, evs: seq<Event>)
    decreases |evs|
  {
    evs != [] ==>
      && (evs[0].op.Blocked? && k in evs[0].op.keys && ob.Some? ==> !Expired(ob.value, evs[0].at))
      && NoExpiredLook(KeyStep(ob, k, evs[0], false), k, evs[1..])
  }

  lemma AlikeStep(kept: Option<Bucket>, purged: Option<Bucket>, k: string, e: Event, purge: bool, now: int)
    requires 0 < now <= e.at && AlikeOrGone(kept, purged, now)
    requires e.op.Blocked? && k in e.op.keys && kept.Some? ==> !Expired(kept.value, e.at)
    ensures Observed(kept, k, e) == Observed(purged, k, e)
    ensures AlikeOrGone(KeyStep(kept, k, e, false), KeyStep(purged, k, e, purge), e.at)
  {
  }

  /** Purging, on any schedule, is invisible to runs whose `blocked` calls on the key never meet an expired bucket. */
  lemma {:induction false} PurgeInvisible(kept: Option<Bucket>, purged: Option<Bucket>, k: string, evs: seq<Event>,
                                          purges: seq<bool>, now: int)
    requires |purges| == |evs| && Monotone(evs, now) && AlikeOrGone(kept, purged, now)
    requires NoExpiredLook(kept, k, evs)
    ensures Seen(kept, k, evs) == SeenPurging(purged, k, evs, purges)
    decreases |evs|
  {
    if evs != [] {
      AlikeStep(kept, purged, k, evs[0], purges[0], now);
      PurgeInvisible(KeyStep(kept, k, evs[0], false), KeyStep(purged, k, evs[0], purges[0]), k, evs[1..], purges[1..], evs[0].at);
    }
  }

  // ----- exactly what later operations can tell apart

  /** All failures of the key are judged against the same maximum. */
  ghost predicate OneMax(evs: seq<Event>, k: string, max: int) {
    forall i :: 0 <= i < |evs| && FailsKey(evs[i], k) ==> evs[i].op.max == max
  }

  /** Some later run sees a difference. */
  ghost predicate ToldApart(b: Option<Bucket>, c: Option<Bucket>, k: string, now: int, max: int) {
    exists evs :: Monotone(evs, now) && OneMax(evs, k, max) && Seen(b, k, evs) != Seen(c, k, evs)
  }

  /** When the lock ends, 0 if there is none any more. */
  function LockEnd(ob: Option<Bucket>, now: int): int {
    if ob.Some? && now < ob.value.lockedUntil then ob.value.lockedUntil else 0
  }

  predicate Live(b: Bucket, now: int) {
    now - b.windowAt <= WINDOW
  }

  /**
    The same lock; and, unless a single failure locks, the same bucket: both missing, both with a window that is over, or
    both in the same window with the same count.
   */
  predicate Indistinct(ob: Option<Bucket>, oc: Option<Bucket>, now: int, max: int) {
    && LockEnd(ob, now) == LockEnd(oc, now)
    && (max >= 2 ==>
          && ob.Some? == oc.Some?
          && (ob.Some? ==>
                && Live(ob.value, now) == Live(oc.value, now)
                && (Live(ob.value, now) ==> ob.value.fails == oc.value.fails && ob.value.windowAt == oc.value.windowAt)))
  }

  /** A count that the maximum allows. */
  predicate Possible(ob: Option<Bucket>, now: int, max: int) {
    ob.Some? ==> 0 <= ob.value.fails && (ob.value.fails == 0 || ob.value.fails < max) && ob.value.windowAt <= now
  }

  lemma PossibleStep(ob: Option<Bucket>, k: string, e: Event, now: int, max: int)
    requires Possible(ob, now, max) && now <= e.at && (FailsKey(e, k) ==> e.op.max == max)
    ensures Possible(KeyStep(ob, k, e, false), e.at, max)
  {
  }

  lemma IndistinctStep(ob: Option<Bucket>, oc: Option<Bucket>, k: string, e: Event, now: int, max: int)
    requires 0 < now <= e.at && Indistinct(ob, oc, now, max) && Possible(ob, now, max) && Possible(oc, now, max)
    requires FailsKey(e, k) ==> e.op.max == max
    ensures Observed(ob, k, e) == Observed(oc, k, e)
    ensures Indistinct(KeyStep(ob, k, e, false), KeyStep(oc, k, e, false), e.at, max)
  {
  }

  lemma {:induction false} IndistinctSeesSame(b: Option<Bucket>, c: Option<Bucket>, k: string, evs: seq<Event>, now: int, max: int)
    requires Monotone(evs, now) && OneMax(evs, k, max)
    requires Indistinct(b, c, now, max) && Possible(b, now, max) && Possible(c, now, max)
    ensures Seen(b, k, evs) == Seen(c, k, evs)
    decreases |evs|
  {
    if evs != [] {
      hide Indistinct, Possible, KeyStep, Observed;
      var e := evs[0];
      IndistinctStep(b, c, k, e, now, max);
      PossibleStep(b, k, e, now, max);
      PossibleStep(c, k, e, now, max);
      IndistinctSeesSame(KeyStep(b, k, e, false), KeyStep(c, k, e, false), k, evs[1..], e.at, max);
    }
  }

  lemma SeenCons(ob: Option<Bucket>, k: string, e: Event, rest: seq<Event>)
    ensures Seen(ob, k, [e] + rest) == [Observed(ob, k, e)] + Seen(KeyStep(ob, k, e, false), k, rest)
  {
    assert ([e] + rest)[1..] == rest;
  }

  /** What can be told apart after an event can be told apart before it. */
  lemma ToldApartBefore(b: Option<Bucket>, c: Option<Bucket>, k: string, e: Event, now: int, max: int)
    requires 0 < now <= e.at && (FailsKey(e, k) ==> e.op.max == max)
    requires ToldApart(KeyStep(b, k, e, false), KeyStep(c, k, e, false), k, e.at, max)
    ensures ToldApart(b, c, k, now, max)
  {
    hide KeyStep, Observed;
    var b', c' := KeyStep(b, k, e, false), KeyStep(c, k, e, false);
    var rest :| Monotone(rest, e.at) && OneMax(rest, k, max) && Seen(b', k, rest) != Seen(c', k, rest);
    var evs := [e] + rest;
    SeenCons(b, k, e, rest);
    SeenCons(c, k, e, rest);
    assert Seen(b, k, evs)[1..] == Seen(b', k, rest) && Seen(c, k, evs)[1..] == Seen(c', k, rest);
    assert Monotone(evs, now) && OneMax(evs, k, max);
  }

  /** `n` failures of `k` at one instant. */
  function Burst(k: string, at: int, max: int, n: nat): seq<Event> {
    if n == 0 then [] else [Event(at, Fail(k, max))] + Burst(k, at, max, n - 1)
  }

  lemma {:induction false} BurstFacts(k: string, at: int, max: int, n: nat)
    requires at > 0
    ensures Monotone(Burst(k, at, max, n), at) && OneMax(Burst(k, at, max, n), k, max)
    ensures forall i :: 0 <= i < |Burst(k, at, max, n)| ==> Burst(k, at, max, n)[i].at == at
  {
    if n > 0 {
      BurstFacts(k, at, max, n - 1);
    }
  }

  /** A burst that stays below the maximum never locks; one that reaches it does. */
  lemma {:induction false} BurstSeen(ob: Option<Bucket>, k: string, at: int, max: int, n: nat)
    requires n >= 1 && 0 <= Opened(ob, at).fails && Opened(ob, at).fails + n <= max
    ensures var s := Seen(ob, k, Burst(k, at, max, n));
            |s| == n && s[n - 1] == (if Opened(ob, at).fails + n == max then 1 else 0)
    decreases n
  {
    var e, rest := Event(at, Fail(k, max)), Burst(k, at, max, n - 1);
    var next := KeyStep(ob, k, e, false);
    SeenCons(ob, k, e, rest);
    if n == 1 {
      assert Seen(next, k, rest) == [];
    } else {
      assert Opened(next, at).fails == Opened(ob, at).fails + 1;
      BurstSeen(next, k, at, max, n - 1);
    }
  }

  /** Buckets that count differently at some later instant. */
  lemma CountsApart(b: Option<Bucket>, c: Option<Bucket>, k: string, now: int, at: int, max: int)
    requires 0 < now <= at && Possible(b, at, max) && Possible(c, at, max)
    requires Opened(b, at).fails < Opened(c, at).fails
    ensures ToldApart(b, c, k, now, max) && ToldApart(c, b, k, now, max)
  {
    hide Seen;
    var n := max - Opened(c, at).fails;
    BurstSeen(b, k, at, max, n);
    BurstSeen(c, k, at, max, n);
    BurstFacts(k, at, max, n);
    var evs := Burst(k, at, max, n);
    assert Monotone(evs, now);
    assert Seen(b, k, evs)[n - 1] != Seen(c, k, evs)[n - 1];
    assert Seen(b, k, evs) != Seen(c, k, evs);
    assert Seen(c, k, evs) != Seen(b, k, evs);
  }

  /** The same positive count in two different windows: the earlier one ends first. */
  lemma WindowsApart(b: Bucket, c: Bucket, k: string, now: int, max: int)
    requires 0 < now && Possible(Some(b), now, max) && Possible(Some(c), now, max)
    requires b.fails == c.fails > 0 && b.windowAt < c.windowAt && Live(b, now)
    ensures ToldApart(Some(b), Some(c), k, now, max) && ToldApart(Some(c), Some(b), k, now, max)
  {
    CountsApart(Some(b), Some(c), k, now, b.windowAt + WINDOW + 1, max);
  }

  /** The same after one failure at `at` that restarts one window (or starts it) and counts in the other. */
  lemma RestartApart(b: Bucket, oc: Option<Bucket>, k: string, now: int, at: int, max: int)
    requires max >= 2 && 0 < now <= at && Possible(Some(b), now, max) && Possible(oc, now, max)
    requires b.fails == 0 && b.windowAt < at && Live(b, at)
    requires Opened(oc, at).fails == 0 && b.windowAt < Opened(oc, at).windowAt
    ensures ToldApart(Some(b), oc, k, now, max) && ToldApart(oc, Some(b), k, now, max)
  {
    var e := Event(at, Fail(k, max));
    var b', c' := KeyStep(Some(b), k, e, false), KeyStep(oc, k, e, false);
    assert b'.value.windowAt == b.windowAt && b'.value.fails == c'.value.fails == 1;
    WindowsApart(b'.value, c'.value, k, at, max);
    ToldApartBefore(Some(b), oc, k, e, now, max);
    ToldApartBefore(oc, Some(b), k, e, now, max);
  }

  /** A live bucket against a missing one or one whose window is over. */
  lemma LiveApart(b: Bucket, oc: Option<Bucket>, k: string, now: int, max: int)
    requires max >= 2 && 0 < now && Possible(Some(b), now, max) && Possible(oc, now, max)
    requires Live(b, now) && (oc.Some? ==> !Live(oc.value, now))
    ensures ToldApart(Some(b), oc, k, now, max) && ToldApart(oc, Some(b), k, now, max)
  {
    if b.fails > 0 {
      CountsApart(oc, Some(b), k, now, now, max);
    } else {
      RestartApart(b, oc, k, now, if b.windowAt < now then now else now + 1, max);
    }
  }

  /** An expired bucket against a missing one: a look restarts the window of the first only. */
  lemma OverApart(b: Bucket, k: string, now: int, max: int)
    requires max >= 2 && 0 < now && Possible(Some(b), now, max) && !Live(b, now) && b.lockedUntil <= now
    ensures ToldApart(Some(b), None, k, now, max) && ToldApart(None, Some(b), k, now, max)
  {
    var e := Event(now, Op.Blocked([k]));
    var b' := b.(fails := 0, windowAt := now);
    assert KeyStep(Some(b), k, e, false) == Some(b') && KeyStep(None, k, e, false) == None;
    RestartApart(b', None, k, now, now + 1, max);
    ToldApartBefore(Some(b), None, k, e, now, max);
    ToldApartBefore(None, Some(b), k, e, now, max);
  }

  lemma BothLiveApart(b: Bucket, c: Bucket, k: string, now: int, max: int)
    requires max >= 2 && 0 < now && Possible(Some(b), now, max) && Possible(Some(c), now, max)
    requires Live(b, now) && Live(c, now) && (b.fails != c.fails || b.windowAt != c.windowAt)
    ensures ToldApart(Some(b), Some(c), k, now, max)
  {
    if b.fails < c.fails {
      CountsApart(Some(b), Some(c), k, now, now, max);
    } else if c.fails < b.fails {
      CountsApart(Some(c), Some(b), k, now, now, max);
    } else if b.windowAt < c.windowAt {
      if b.fails > 0 {
        WindowsApart(b, c, k, now, max);
      } else {
        RestartApart(b, Some(c), k, now, now, max);
      }
    } else {
      if b.fails > 0 {
        WindowsApart(c, b, k, now, max);
      } else {
        RestartApart(c, Some(b), k, now, now, max);
      }
    }
  }

  lemma LocksApart(b: Option<Bucket>, c: Option<Bucket>, k: string, now: int, max: int)
    requires 0 < now && LockEnd(b, now) != LockEnd(c, now)
    ensures ToldApart(b, c, k, now, max)
  {
    var e := Event(now, Op.Blocked([k]));
    assert [e] + [] == [e];
    SeenCons(b, k, e, []);
    SeenCons(c, k, e, []);
    assert Observed(b, k, e) != Observed(c, k, e);
    assert Seen(b, k, [e])[0] != Seen(c, k, [e])[0];
    assert Monotone([e], now) && OneMax([e], k, max);
  }

  /** Exactly which buckets of a key some later run tells apart. */
  lemma ToldApartIff(b: Option<Bucket>, c: Option<Bucket>, k: string, now: int, max: int)
    requires 0 < now && Possible(b, now, max) && Possible(c, now, max)
    ensures ToldApart(b, c, k, now, max) <==> !Indistinct(b, c, now, max)
  {
    hide ToldApart;
    if Indistinct(b, c, now, max) {
      IndistinctNotTold(b, c, k, now, max);
    } else if LockEnd(b, now) != LockEnd(c, now) {
      LocksApart(b, c, k, now, max);
    } else if b.Some? && Live(b.value, now) {
      if c.Some? && Live(c.value, now) {
        BothLiveApart(b.value, c.value, k, now, max);
      } else {
        LiveApart(b.value, c, k, now, max);
      }
    } else if c.Some? && Live(c.value, now) {
      LiveApart(c.value, b, k, now, max);
    } else if b.Some? {
      OverApart(b.value, k, now, max);
    } else {
      OverApart(c.value, k, now, max);
    }
  }

  lemma IndistinctNotTold(b: Option<Bucket>, c: Option<Bucket>, k: string, now: int, max: int)
    requires 0 < now && Possible(b, now, max) && Possible(c, now, max) && Indistinct(b, c, now, max)
    ensures !ToldApart(b, c, k, now, max)
  {
    hide Seen, Possible, Indistinct;
    forall evs | Monotone(evs, now) && OneMax(evs, k, max) ensures Seen(b, k, evs) == Seen(c, k, evs) {
      IndistinctSeesSame(b, c, k, evs, now, max);
    }
  }

  // ----- exactly when the purge of an expired bucket can show

  /** Looks at the key and anything about other keys. */
  ghost predicate Quiet(evs: seq<Event>, k: string) {
    forall i :: 0 <= i < |evs| ==> !FailsKey(evs[i], k) && !ClearsKey(evs[i], k)
  }

  /** Where a window that began at `w` begins after these events: at the last look that found it over. */
  function RestartedAt(w: int, k: string, evs: seq<Event>): int
    decreases |evs|
  {
    if evs == [] then w
    else
      var e := evs[0];
      RestartedAt(if e.op.Blocked? && k in e.op.keys && e.at - w > WINDOW then e.at else w, k, evs[1..])
  }

  /** What quiet events make of an expired bucket, and of a missing one. */
  lemma {:induction false} QuietRun(b: Bucket, k: string, evs: seq<Event>, now: int)
    requires Monotone(evs, now) && Quiet(evs, k) && b.lockedUntil < now && b.windowAt <= now && (Live(b, now) ==> b.fails == 0)
    ensures KeyRun(None, k, evs) == None
    ensures var r := RestartedAt(b.windowAt, k, evs);
            && b.windowAt <= r
            && (KeyRun(Some(b), k, evs) == Some(b.(windowAt := r)) || KeyRun(Some(b), k, evs) == Some(b.(fails := 0, windowAt := r)))
            && (b.fails == 0 || r == b.windowAt || KeyRun(Some(b), k, evs).value.fails == 0)
    ensures RestartedAt(b.windowAt, k, evs) <= if evs == [] then now else evs[|evs| - 1].at
    decreases |evs|
  {
    if evs != [] {
      var e := evs[0];
      var next := if e.op.Blocked? && k in e.op.keys then Touch(b, e.at) else b;
      assert KeyStep(Some(b), k, e, false) == Some(next) && KeyStep(None, k, e, false) == None;
      QuietRun(next, k, evs[1..], e.at);
    }
  }

  lemma {:induction false} KeyRunSnoc(ob: Option<Bucket>, k: string, evs: seq<Event>, e: Event)
    ensures KeyRun(ob, k, evs + [e]) == KeyStep(KeyRun(ob, k, evs), k, e, false)
    decreases |evs|
  {
    if evs == [] {
      assert [] + [e] == [e] && [e][1..] == [];
    } else {
      assert (evs + [e])[1..] == evs[1..] + [e];
      KeyRunSnoc(KeyStep(ob, k, evs[0], false), k, evs[1..], e);
    }
  }

  /**
    The purge of an expired bucket, exactly. Nothing shows while the key is only looked at. At its next failure or success,
    at `e.at`, later answers or locks can differ from those without the purge if and only if it is a failure that does not
    lock by itself, and the last look that found the window over, at `r`, opened a window in which the failure falls but
    does not start: `r < e.at <= r + WINDOW`.
   */
  lemma PurgeVisibleIff(b: Bucket, k: string, now: int, quiet: seq<Event>, e: Event, max: int)
    requires Expired(b, now) && Monotone(quiet + [e], now) && Quiet(quiet, k)
    requires ClearsKey(e, k) || (FailsKey(e, k) && e.op.max == max)
    ensures Seen(Some(b), k, quiet) == Seen(None, k, quiet)
    ensures var r := RestartedAt(b.windowAt, k, quiet);
            ToldApart(KeyRun(Some(b), k, quiet + [e]), KeyRun(None, k, quiet + [e]), k, e.at, max)
            <==> FailsKey(e, k) && max >= 2 && r < e.at <= r + WINDOW
  {
    QuietPart(quiet, e, now);
    QuietRun(b, k, quiet, now);
    QuietSeen(b, k, quiet, now);
    KeyRunSnoc(Some(b), k, quiet, e);
    KeyRunSnoc(None, k, quiet, e);
    NextOperation(KeyRun(Some(b), k, quiet).value, b, RestartedAt(b.windowAt, k, quiet), k, e, max);
  }

  lemma QuietPart(quiet: seq<Event>, e: Event, now: int)
    requires Monotone(quiet + [e], now)
    ensures Monotone(quiet, now) && now <= e.at && (quiet != [] ==> quiet[|quiet| - 1].at <= e.at)
  {
    var all := quiet + [e];
    assert all[|quiet|] == e;
    assert forall i :: 0 <= i < |quiet| ==> all[i] == quiet[i];
  }

  lemma NextOperation(kept: Bucket, b: Bucket, r: int, k: string, e: Event, max: int)
    requires ClearsKey(e, k) || (FailsKey(e, k) && e.op.max == max)
    requires kept.windowAt == r <= e.at && kept.lockedUntil == b.lockedUntil < e.at && 0 < e.at
    requires Live(kept, e.at) ==> kept.fails == 0
    ensures ToldApart(KeyStep(Some(kept), k, e, false), KeyStep(None, k, e, false), k, e.at, max)
            <==> FailsKey(e, k) && max >= 2 && r < e.at <= r + WINDOW
  {
    hide ToldApart;
    ToldApartIff(KeyStep(Some(kept), k, e, false), KeyStep(None, k, e, false), k, e.at, max);
  }

  lemma {:induction false} QuietSeen(b: Bucket, k: string, evs: seq<Event>, now: int)
    requires Monotone(evs, now) && Quiet(evs, k) && b.lockedUntil < now
    ensures Seen(Some(b), k, evs) == Seen(None, k, evs)
    decreases |evs|
  {
    if evs != [] {
      var e := evs[0];
      var next := if e.op.Blocked? && k in e.op.keys then Touch(b, e.at) else b;
      assert KeyStep(Some(b), k, e, false) == Some(next) && KeyStep(None, k, e, false) == None;
      QuietSeen(next, k, evs[1..], e.at);
    }
  }

  /** At the moment of the purge nothing is decided yet: some later run tells it, unless a single failure locks. */
  lemma PurgeCanShowIff(b: Bucket, k: string, now: int, max: int)
    requires Expired(b, now) && 0 < now && Possible(Some(b), now, max)
    ensures ToldApart(Some(b), None, k, now, max) <==> max >= 2
  {
    hide ToldApart;
    ToldApartIff(Some(b), None, k, now, max);
  }

  // ----- a purge that changes a lock, from an empty table

  /** Names of other clients, all different. */
  function OtherName(i: nat): string {
    seq(i + 1, _ => 'x')
  }

  /** One failure of each of `n` other clients, at the first instant. */
  function Crowd(n: nat): (evs: seq<Event>)
    ensures |evs| == n && forall i :: 0 <= i < n ==> evs[i].at == 1
  {
    if n == 0 then [] else Crowd(n - 1) + [Event(1, Fail(OtherName(n - 1), LOGIN_MAX_FAILS))]
  }

  lemma {:induction false} CrowdTable(n: nat)
    requires n <= MAX_LIMITER_KEYS
    ensures var t := Run(map[], Crowd(n));
            |t| == n && forall key :: key in t ==> 1 <= |key| <= n && key[0] == 'x'
  {
    if n > 0 {
      CrowdTable(n - 1);
      var t, e := Run(map[], Crowd(n - 1)), Event(1, Fail(OtherName(n - 1), LOGIN_MAX_FAILS));
      RunSnoc(map[], Crowd(n - 1), e);
      OneMoreKey(t, e);
    }
  }

  lemma OneMoreKey(t: Table, e: Event)
    requires e.op.Fail? && e.op.key !in t && |t| <= MAX_LIMITER_KEYS
    ensures Step(t, e).Keys == t.Keys + {e.op.key} && |Step(t, e)| == |t| + 1
  {
    assert Step(t, e).Keys == t.Keys + {e.op.key};
    assert |Step(t, e).Keys| == |t.Keys| + 1;
    assert |Step(t, e).Keys| == |Step(t, e)| && |t.Keys| == |t|;
  }

  const LATE: Event := Event(2 * WINDOW + 4, Fail("k", LOGIN_MAX_FAILS))

  /**
    After the crowd, key `k` fails once. More than a window later another client fails, which purges if the table is too
    large; then `k` is looked at, fails once, and fails three times when one of the two possible windows has just ended.
   */
  function Story(n: nat): seq<Event> {
    Crowd(n) + [Event(1, Fail("k", LOGIN_MAX_FAILS))] + [Event(WINDOW + 2, Fail("o", LOGIN_MAX_FAILS))] +
    [Event(WINDOW + 3, Blocked(["k"]))] + [Event(WINDOW + 4, Fail("k", LOGIN_MAX_FAILS))] + [LATE] + [LATE] + [LATE]
  }

  lemma StoryMonotone(n: nat)
    ensures Monotone(Story(n) + [LATE], 1)
  {
    var evs := Story(n) + [LATE];
    assert forall i :: 0 <= i <= n ==> evs[i].at == 1;
    assert |evs| == n + 8 && evs[n + 1].at == WINDOW + 2 && evs[n + 2].at == WINDOW + 3 && evs[n + 3].at == WINDOW + 4;
    assert forall i :: n + 4 <= i < n + 8 ==> evs[i].at == 2 * WINDOW + 4;
  }

  /** The table once `k` has failed and the other client is about to. */
  lemma StoryBegins(n: nat)
    requires n <= MAX_LIMITER_KEYS
    ensures var t := Run(map[], Crowd(n) + [Event(1, Fail("k", LOGIN_MAX_FAILS))]);
            |t| == n + 1 && Project(t, "k") == Some(Bucket(1, 1, 0))
  {
    var e := Event(1, Fail("k", LOGIN_MAX_FAILS));
    CrowdTable(n);
    RunSnoc(map[], Crowd(n), e);
    var t := Run(map[], Crowd(n));
    assert "k"[0] == 'k' && "k" !in t;
    OneMoreKey(t, e);
    StepProjects(t, "k", e);
  }

  /** The bucket of `k` after three more failures, whether or not those purge. */
  lemma ThreeLate(t: Table, b: Bucket)
    requires Project(t, "k") == Some(b) && b.lockedUntil == 0 && b.fails == 1 && WINDOW + 3 <= b.windowAt <= WINDOW + 4
    ensures Project(Step(Step(Step(t, LATE), LATE), LATE), "k") ==
            Some(if b.windowAt == WINDOW + 4 then Bucket(4, WINDOW + 4, 0) else Bucket(3, LATE.at, 0))
  {
    hide Step;
    var t1 := Step(t, LATE);
    var t2 := Step(t1, LATE);
    StepProjects(t, "k", LATE);
    StepProjects(t1, "k", LATE);
    StepProjects(t2, "k", LATE);
  }

  /** The bucket of `k` at the end, by whether the other client's failure found the table too large. */
  lemma StoryEnds(n: nat)
    requires n <= MAX_LIMITER_KEYS
    ensures Project(Run(map[], Story(n)), "k") ==
            Some(if n == MAX_LIMITER_KEYS then Bucket(4, WINDOW + 4, 0) else Bucket(3, LATE.at, 0))
  {
    hide Step, Run;
    var e1, e2, e3 := Event(WINDOW + 2, Fail("o", LOGIN_MAX_FAILS)), Event(WINDOW + 3, Blocked(["k"])),
                      Event(WINDOW + 4, Fail("k", LOGIN_MAX_FAILS));
    var s0 := Crowd(n) + [Event(1, Fail("k", LOGIN_MAX_FAILS))];
    var s3 := s0 + [e1] + [e2] + [e3];
    StoryBegins(n);
    RunSnoc(map[], s0, e1);
    RunSnoc(map[], s0 + [e1], e2);
    RunSnoc(map[], s0 + [e1] + [e2], e3);
    var t0 := Run(map[], s0);
    var t1 := Step(t0, e1);
    var t2 := Step(t1, e2);
    StepProjects(t0, "k", e1);
    StepProjects(t1, "k", e2);
    StepProjects(t2, "k", e3);
    RunSnoc(map[], s3, LATE);
    RunSnoc(map[], s3 + [LATE], LATE);
    RunSnoc(map[], s3 + [LATE] + [LATE], LATE);
    ThreeLate(Step(t2, e3), Project(Step(t2, e3), "k").value);
  }

  /**
    A concrete case, from an empty table: the same failures of the same key lock it when 50,000 other clients have failed
    before, whose number makes the next failure purge, and do not when one fewer has.
   */
  lemma PurgeChangesALock()
    ensures var crowded, fewer := Story(50_000), Story(49_999);
            && Monotone(crowded + [LATE], 1) && Monotone(fewer + [LATE], 1)
            && Locks(Project(Run(map[], crowded), "k"), "k", LATE)
            && !Locks(Project(Run(map[], fewer), "k"), "k", LATE)
  {
    hide Run, Story;
    StoryMonotone(MAX_LIMITER_KEYS);
    StoryMonotone(MAX_LIMITER_KEYS - 1);
    StoryEnds(MAX_LIMITER_KEYS);
    StoryEnds(MAX_LIMITER_KEYS - 1);
  }
}
