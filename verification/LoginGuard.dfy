// Lock-out after repeated login failures, with lazy purging of expired entries. The
// machine that purges is compared with the one that never does.

module LoginGuard {
  import opened Options

  datatype Fail = Fail(count: nat, firstAt: int, lockUntil: int)
  type Table = map<string, Fail>

  datatype Config = Config(maxFails: int, window: int, lockFor: int, purgeAt: Option<nat>)

  const LOGIN := Config(5, 900, 900, Some(10000))

  /** Go's zero time, earlier than any clock reading. */
  const ZERO_TIME := 0

  // ----- the machine

  predicate Locked(t: Table, key: string, now: int) { key in t && t[key].lockUntil > now }

  /** Go's `Round(time.Minute)`: to the nearest minute, halves away from zero. */
  function ToMinute(seconds: int): int {
    if seconds >= 0 then (seconds + 30) / 60 * 60 else -((30 - seconds) / 60 * 60)
  }

  lemma ToMinuteIsNearest(seconds: int)
    ensures ToMinute(seconds) % 60 == 0
    ensures if seconds >= 0 then -30 < ToMinute(seconds) - seconds <= 30 else -30 <= ToMinute(seconds) - seconds < 30
  {
  }

  predicate OutOfWindow(c: Config, f: Fail, now: int) { now - f.firstAt > c.window }

  predicate Expired(c: Config, f: Fail, now: int) { f.lockUntil < now && OutOfWindow(c, f, now) }

  function Purged(c: Config, t: Table, now: int): Table { map k | k in t && !Expired(c, t[k], now) :: t[k] }

  predicate Purges(c: Config, t: Table, key: string) { key !in t && c.purgeAt.Some? && |t| >= c.purgeAt.value }

  function Bumped(c: Config, f: Fail, now: int): Fail {
    Fail(f.count + 1, f.firstAt, if f.count + 1 >= c.maxFails then now + c.lockFor else f.lockUntil)
  }

  function Record(c: Config, t: Table, key: string, now: int): Table {
    if key in t && !OutOfWindow(c, t[key], now) then t[key := Bumped(c, t[key], now)]
    else (if Purges(c, t, key) then Purged(c, t, now) else t)[key := Fail(1, now, ZERO_TIME)]
  }

  datatype Event = Check(key: string, now: int) | Failure(key: string, now: int) | Reset(key: string, now: int)

  /** What a caller sees: a lock or none, or the entry a failure leaves behind. */
  datatype Answer = Seen(locked: bool) | Left(entry: Fail) | Cleared

  function After(c: Config, t: Table, e: Event): Table {
    match e
    case Check(_, _) => t
    case Failure(key, now) => Record(c, t, key, now)
    case Reset(key, _) => t - {key}
  }

  function Answers(c: Config, t: Table, e: Event): Answer {
    match e
    case Check(key, now) => Seen(Locked(t, key, now))
    case Failure(key, now) => Left(Record(c, t, key, now)[key])
    case Reset(_, _) => Cleared
  }

  function Play(c: Config, t: Table, events: seq<Event>): seq<Answer>
    decreases |events|
  {
    if events == [] then [] else [Answers(c, t, events[0])] + Play(c, After(c, t, events[0]), events[1..])
  }

  function Final(c: Config, t: Table, events: seq<Event>): Table
    decreases |events|
  {
    if events == [] then t else Final(c, After(c, t, events[0]), events[1..])
  }

  ghost predicate Clocked(events: seq<Event>, from: int) {
    events != [] ==> from <= events[0].now && Clocked(events[1..], events[0].now)
  }

  // ----- purging is invisible

  /** The purged table misses only entries that have expired. */
  ghost predicate Sim(c: Config, t: Table, full: Table, now: int) {
    && (forall k :: k in t ==> k in full && full[k] == t[k])
    && (forall k :: k in full && k !in t ==> Expired(c, full[k], now))
  }

  lemma StepSim(c: Config, t: Table, full: Table, from: int, e: Event)
    requires Sim(c, t, full, from) && from <= e.now
    ensures Answers(c, t, e) == Answers(c.(purgeAt := None), full, e)
    ensures Sim(c, After(c, t, e), After(c.(purgeAt := None), full, e), e.now)
  {
  }

  /** Under a non-decreasing clock every check and every failure answers as if nothing were ever purged. */
  lemma {:induction false} PurgingIsInvisible(c: Config, t: Table, full: Table, from: int, events: seq<Event>)
    requires Sim(c, t, full, from) && Clocked(events, from)
    ensures Play(c, t, events) == Play(c.(purgeAt := None), full, events)
    decreases |events|
  {
    if events != [] {
      StepSim(c, t, full, from, events[0]);
      var full' := After(c.(purgeAt := None), full, events[0]);
      PurgingIsInvisible(c, After(c, t, events[0]), full', events[0].now, events[1..]);
    }
  }

  // ----- what the table means

  lemma {:induction false} FinalNext(c: Config, t: Table, events: seq<Event>, n: nat)
    requires n < |events|
    ensures Final(c, t, events[..n + 1]) == After(c, Final(c, t, events[..n]), events[n])
    decreases |events|
  {
    if n == 0 {
      assert events[..1][1..] == [];
    } else {
      FinalNext(c, After(c, t, events[0]), events[1..], n - 1);
      assert events[..n + 1][1..] == events[1..][..n] && events[..n][1..] == events[1..][..n - 1];
    }
  }

  lemma {:induction false} PlayAt(c: Config, t: Table, events: seq<Event>, n: nat)
    requires n < |events|
    ensures |Play(c, t, events)| == |events|
    ensures Play(c, t, events)[n] == Answers(c, Final(c, t, events[..n]), events[n])
    decreases |events|
  {
    var t' := After(c, t, events[0]);
    if |events| == 1 {
      assert Play(c, t', events[1..]) == [];
    } else {
      PlayAt(c, t', events[1..], if n > 0 then n - 1 else 0);
    }
    if n > 0 { assert events[..n][1..] == events[1..][..n - 1]; }
  }

  /** The failure that opened the key's window: its first since a reset, and then each first one out of the window. */
  function Opener(c: Config, events: seq<Event>, key: string): (o: Option<nat>)
    ensures o.Some? ==> o.value < |events|
    decreases |events|
  {
    if events == [] then None
    else
      var n := |events| - 1;
      var o := Opener(c, events[..n], key);
      if events[n].key != key || events[n].Check? then o
      else if events[n].Reset? then None
      else if o.Some? && events[n].now - events[o.value].now <= c.window then o
      else Some(n)
  }

  /** Failures of the key from `from` on. */
  function FailuresFrom(events: seq<Event>, from: nat, key: string): nat
    decreases |events|
  {
    if |events| <= from then 0
    else
      var n := |events| - 1;
      FailuresFrom(events[..n], from, key) + (if events[n].Failure? && events[n].key == key then 1 else 0)
  }

  /** The time of the key's last failure. */
  function LastFailure(events: seq<Event>, key: string): int
    decreases |events|
  {
    if events == [] then ZERO_TIME
    else
      var n := |events| - 1;
      if events[n].Failure? && events[n].key == key then events[n].now else LastFailure(events[..n], key)
  }

  /** Opened once and failed often enough, from the second failure on. */
  function LockOf(c: Config, count: nat, last: int): int {
    if count >= 2 && count >= c.maxFails then last + c.lockFor else ZERO_TIME
  }

  /** Without purging the table holds for each key its open window, the failures since, and the lock of the last. */
  lemma {:induction false} TableIsHistory(c: Config, events: seq<Event>, key: string)
    requires c.purgeAt.None?
    ensures var t, o := Final(c, map[], events), Opener(c, events, key);
      && (key in t <==> o.Some?)
      && (o.Some? ==> var count := FailuresFrom(events, o.value, key);
            count > 0 && t[key] == Fail(count, events[o.value].now, LockOf(c, count, LastFailure(events, key))))
    decreases |events|
  {
    if events != [] {
      var n := |events| - 1;
      TableIsHistory(c, events[..n], key);
      FinalNext(c, map[], events, n);
      assert events[..n + 1] == events;
    }
  }

  /** A failure sets a lock exactly when it is at least the allowed number of its key in the window open at it. */
  lemma FailureLocks(c: Config, events: seq<Event>, from: int, n: nat)
    requires Clocked(events, from) && n < |events| && events[n].Failure?
    ensures var key, now := events[n].key, events[n].now;
      var o := Opener(c, events[..n + 1], key);
      && o.Some? && |Play(c, map[], events)| == |events|
      && var count := FailuresFrom(events[..n + 1], o.value, key);
      Play(c, map[], events)[n] ==
        Left(Fail(count, events[o.value].now, if count >= 2 && count >= c.maxFails then now + c.lockFor else ZERO_TIME))
  {
    var plain := c.(purgeAt := None);
    PurgingIsInvisible(c, map[], map[], from, events);
    PlayAt(plain, map[], events, n);
    OpenerIgnoresPurging(c, events[..n + 1], events[n].key);
    TableIsHistory(plain, events[..n + 1], events[n].key);
    FinalNext(plain, map[], events, n);
    assert events[..n + 1][..n] == events[..n];
  }

  /** With the login settings: from the fifth failure within a quarter of an hour on, for a quarter of an hour. */
  lemma LoginLocks(events: seq<Event>, from: int, n: nat)
    requires Clocked(events, from) && n < |events| && events[n].Failure?
    ensures var key, now := events[n].key, events[n].now;
      var o, before := Opener(LOGIN, events[..n + 1], key), Opener(LOGIN, events[..n], key);
      && o.Some? && now - events[o.value].now <= 900
      && (o == Some(n) <==> before.None? || now - events[before.value].now > 900) && (o == Some(n) || o == before)
      && |Play(LOGIN, map[], events)| == |events|
      && var failures := |set i: nat | o.value <= i <= n && events[i].Failure? && events[i].key == key|;
      Play(LOGIN, map[], events)[n] == Left(Fail(failures, events[o.value].now, if failures >= 5 then now + 900 else 0))
  {
    var key := events[n].key;
    FailureLocks(LOGIN, events, from, n);
    var o := Opener(LOGIN, events[..n + 1], key).value;
    assert events[..n + 1][..n] == events[..n];
    FailuresCount(events, o, n + 1, key);
    assert FailuresOf(events, o, n + 1, key) ==
      set i: nat | o <= i <= n && events[i].Failure? && events[i].key == key;
  }

  function FailuresOf(events: seq<Event>, from: nat, n: nat, key: string): set<nat>
    requires n <= |events|
  {
    set i: nat | from <= i < n && events[i].Failure? && events[i].key == key
  }

  lemma FailuresOfNext(events: seq<Event>, from: nat, n: nat, key: string)
    requires 0 < n <= |events|
    ensures FailuresOf(events, from, n, key) == FailuresOf(events, from, n - 1, key) +
      if from <= n - 1 && events[n - 1].Failure? && events[n - 1].key == key then {n - 1} else {}
  {
  }

  lemma {:induction false} FailuresCount(events: seq<Event>, from: nat, n: nat, key: string)
    requires n <= |events|
    ensures FailuresFrom(events[..n], from, key) == |FailuresOf(events, from, n, key)|
    decreases n
  {
    if n <= from {
      assert FailuresOf(events, from, n, key) == {};
    } else {
      FailuresCount(events, from, n - 1, key);
      FailuresOfNext(events, from, n, key);
      assert events[..n][..n - 1] == events[..n - 1];
    }
  }

  lemma {:induction false} OpenerIgnoresPurging(c: Config, events: seq<Event>, key: string)
    ensures Opener(c.(purgeAt := None), events, key) == Opener(c, events, key)
    decreases |events|
  {
    if events != [] { OpenerIgnoresPurging(c, events[..|events| - 1], key); }
  }

  // ----- a lock lasts

  /** Failures of this key are recorded only while it is not locked, as requests one after another do. */
  ghost predicate Guarded(c: Config, t: Table, events: seq<Event>, key: string)
    decreases |events|
  {
    events != [] ==>
      && (events[0].Failure? && events[0].key == key ==> !Locked(t, key, events[0].now))
      && Guarded(c, After(c, t, events[0]), events[1..], key)
  }

  ghost predicate NoReset(events: seq<Event>, key: string) { forall e :: e in events && e.Reset? ==> e.key != key }

  /** A set lock lasts until its time or a reset. */
  lemma {:induction false} LockLasts(c: Config, t: Table, events: seq<Event>, key: string, from: int, now: int)
    requires Locked(t, key, now) && Clocked(events, from) && (forall e :: e in events ==> e.now <= now)
    requires Guarded(c, t, events, key) && NoReset(events, key)
    ensures Locked(Final(c, t, events), key, now) && Final(c, t, events)[key] == t[key]
    decreases |events|
  {
    if events != [] {
      var e := events[0];
      assert e in events;
      assert Locked(t, key, e.now);
      assert key in After(c, t, e) && After(c, t, e)[key] == t[key];
      LockLasts(c, After(c, t, e), events[1..], key, e.now, now);
    }
  }

  /** A failure recorded during a lock keeps it exactly while the failure window is still open. */
  lemma FailureWhileLocked(c: Config, t: Table, key: string, now: int)
    requires Locked(t, key, now) && c.lockFor > 0 && now >= ZERO_TIME
    ensures Locked(Record(c, t, key, now), key, now) <==> !OutOfWindow(c, t[key], now)
  {
  }

  /** With the login settings a lock can be lost: five failures, the last late in the window, and one more after it. */
  lemma LostLockExample()
    ensures var early := [Failure("a", 1000), Failure("a", 1100), Failure("a", 1200), Failure("a", 1300)];
      var t := Final(LOGIN, map[], early + [Failure("a", 1800)]);
      Locked(t, "a", 2000) && !Locked(Record(LOGIN, t, "a", 2000), "a", 2000)
  {
    var one: Table, two: Table := map["a" := Fail(1, 1000, 0)], map["a" := Fail(2, 1000, 0)];
    var three: Table, four: Table := map["a" := Fail(3, 1000, 0)], map["a" := Fail(4, 1000, 0)];
    var five: Table := map["a" := Fail(5, 1000, 2700)];
    assert Record(LOGIN, map[], "a", 1000) == one && Record(LOGIN, one, "a", 1100) == two;
    assert Record(LOGIN, two, "a", 1200) == three && Record(LOGIN, three, "a", 1300) == four;
    assert Record(LOGIN, four, "a", 1800) == five;
    var e2, e3, e4, e5 := Failure("a", 1100), Failure("a", 1200), Failure("a", 1300), Failure("a", 1800);
    assert Final(LOGIN, four, [e5]) == five;
    assert [e4, e5][1..] == [e5] && Final(LOGIN, three, [e4, e5]) == five;
    assert [e3, e4, e5][1..] == [e4, e5] && Final(LOGIN, two, [e3, e4, e5]) == five;
    assert [e2, e3, e4, e5][1..] == [e3, e4, e5] && Final(LOGIN, one, [e2, e3, e4, e5]) == five;
    var events := [Failure("a", 1000), e2, e3, e4, e5];
    assert events[1..] == [e2, e3, e4, e5];
    assert [Failure("a", 1000), e2, e3, e4] + [e5] == events;
  }

  // ----- the guard in memory

  class LoginFail {
    var count: nat
    var firstAt: int
    var lockUntil: int

    constructor (firstAt: int)
      ensures count == 1 && this.firstAt == firstAt && lockUntil == ZERO_TIME
    {
      count, this.firstAt, lockUntil := 1, firstAt, ZERO_TIME;
    }
  }

  class Guard {
    const config: Config
    var fails: map<string, LoginFail>
    ghost var View: Table
    ghost var Repr: set<object>

    /** Each key has a record of its own, and View is what the records hold. */
    ghost predicate Valid()
      reads this, Repr
    {
      && this !in Repr && View.Keys == fails.Keys
      && (forall k :: k in fails ==> Holds(fails[k], View[k]))
      && (forall j, k :: j in fails && k in fails && j != k ==> fails[j] != fails[k])
    }

    ghost predicate Holds(f: LoginFail, r: Fail)
      reads this, Repr
    {
      f in Repr && r == Fail(f.count, f.firstAt, f.lockUntil)
    }

    constructor (config: Config)
      ensures this.config == config && Valid() && View == map[] && Repr == {}
    {
      this.config := config;
      fails, View, Repr := map[], map[], {};
    }

    /** Reads the clock a second time for the time left, which is given to the nearest minute. */
    method IsLocked(key: string, now: int, later: int) returns (b: bool, left: int)
      requires Valid()
      ensures b == Locked(View, key, now) == (key in View && View[key].lockUntil > now)
      ensures !b ==> left == 0
      ensures b ==> left % 60 == 0 && -30 <= left - (View[key].lockUntil - later) <= 30
    {
      if key !in fails { return false, 0; }
      assert Holds(fails[key], View[key]);
      if fails[key].lockUntil > now {
        ToMinuteIsNearest(fails[key].lockUntil - later);
        return true, ToMinute(fails[key].lockUntil - later);
      }
      return false, 0;
    }

    method RecordFailure(key: string, now: int)
      requires Valid()
      modifies this`fails, this`View, this`Repr, Repr
      ensures Valid() && fresh(Repr - old(Repr))
      ensures View == Record(config, old(View), key, now)
    {
      assert key in fails ==> Holds(fails[key], View[key]);
      if key !in fails || now - fails[key].firstAt > config.window {
        var full := config.purgeAt.Some? && key !in fails && |fails| >= config.purgeAt.value;
        assert full == Purges(config, View, key) by { assert |fails.Keys| == |View.Keys|; }
        if full {
          PurgeExpired(now);
        }
        var f := new LoginFail(now);
        Put(key, f);
        return;
      }
      Bump(key, now);
    }

    method Put(key: string, f: LoginFail)
      requires Valid() && f !in Repr
      modifies this`fails, this`View, this`Repr
      ensures Valid() && Repr == old(Repr) + {f}
      ensures View == old(View)[key := Fail(f.count, f.firstAt, f.lockUntil)]
    {
      assert forall k :: k in fails ==> Holds(fails[k], View[k]);
      fails, View, Repr := fails[key := f], View[key := Fail(f.count, f.firstAt, f.lockUntil)], Repr + {f};
    }

    method Bump(key: string, now: int)
      requires Valid() && key in View
      modifies this`View, Repr
      ensures Valid() && View == old(View)[key := Bumped(config, old(View)[key], now)]
    {
      var f := fails[key];
      assert Holds(f, View[key]);
      f.count := f.count + 1;
      if f.count >= config.maxFails {
        f.lockUntil := now + config.lockFor;
      }
      View := View[key := Fail(f.count, f.firstAt, f.lockUntil)];
    }

    method ResetKey(key: string)
      requires Valid()
      modifies this`fails, this`View
      ensures Valid() && View == old(View) - {key}
    {
      fails, View := fails - {key}, View - {key};
    }

    method PurgeExpired(now: int)
      requires Valid()
      modifies this`fails, this`View
      ensures Valid() && View == Purged(config, old(View), now)
    {
      ghost var was := View;
      var keys := fails.Keys;
      while keys != {}
        invariant keys <= View.Keys && Valid()
        invariant forall k :: k in View ==> k in was && View[k] == was[k]
        invariant forall k :: k in was && k !in keys ==> (k in View <==> !Expired(config, was[k], now))
      {
        var k :| k in keys;
        PurgeOne(k, now);
        keys := keys - {k};
      }
      PurgedIs(config, was, View, now);
    }

    method PurgeOne(k: string, now: int)
      requires Valid() && k in View
      modifies this`fails, this`View
      ensures Valid() && View == if Expired(config, old(View)[k], now) then old(View) - {k} else old(View)
    {
      var f := fails[k];
      assert Holds(f, View[k]);
      if f.lockUntil < now && now - f.firstAt > config.window {
        ResetKey(k);
      }
    }
  }

  lemma PurgedIs(c: Config, t: Table, rest: Table, now: int)
    requires forall k :: k in rest ==> k in t && rest[k] == t[k]
    requires forall k :: k in t ==> (k in rest <==> !Expired(c, t[k], now))
    ensures rest == Purged(c, t, now)
  {
  }
}
