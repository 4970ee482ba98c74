// Counting of refused bearer tokens per address in fixed one-minute windows, with lazy
// purging of windows that are over.

module BearerGuard {
  import opened Options

  datatype Window = Window(count: nat, end: int)
  type Table = map<string, Window>

  const MAX_KEYS := 10000
  const MAX_FAILURES := 10
  const MINUTE := 60

  // ----- the machine; `purgeAt` is the size from which it purges

  predicate Over(w: Window, now: int) { now > w.end }

  function Purged(t: Table, now: int): Table { map k | k in t && !Over(t[k], now) :: t[k] }

  function Record(t: Table, purging: bool, ip: string, now: int): Table {
    if ip in t && !Over(t[ip], now) then t[ip := Window(t[ip].count + 1, t[ip].end)]
    else (if purging && ip !in t && |t| >= MAX_KEYS then Purged(t, now) else t)[ip := Window(1, now + MINUTE)]
  }

  predicate Limited(t: Table, ip: string, now: int) { ip in t && !Over(t[ip], now) && t[ip].count + 1 > MAX_FAILURES }

  datatype Call = Call(ip: string, now: int)

  function Play(t: Table, purging: bool, calls: seq<Call>): seq<bool>
    decreases |calls|
  {
    if calls == [] then []
    else
      var Call(ip, now) := calls[0];
      [Limited(t, ip, now)] + Play(Record(t, purging, ip, now), purging, calls[1..])
  }

  ghost predicate Clocked(calls: seq<Call>, from: int) {
    calls != [] ==> from <= calls[0].now && Clocked(calls[1..], calls[0].now)
  }

  ghost predicate Sim(t: Table, full: Table, now: int) {
    && (forall k :: k in t ==> k in full && full[k] == t[k])
    && (forall k :: k in full && k !in t ==> Over(full[k], now))
  }

  /** Under a non-decreasing clock every call answers as if nothing were ever purged. */
  lemma {:induction false} PurgingIsInvisible(t: Table, full: Table, from: int, calls: seq<Call>)
    requires Sim(t, full, from) && Clocked(calls, from)
    ensures Play(t, true, calls) == Play(full, false, calls)
    decreases |calls|
  {
    if calls != [] {
      var c := calls[0];
      assert Limited(t, c.ip, c.now) == Limited(full, c.ip, c.now);
      PurgingIsInvisible(Record(t, true, c.ip, c.now), Record(full, false, c.ip, c.now), c.now, calls[1..]);
    }
  }

  // ----- what a window means

  function After(t: Table, purging: bool, calls: seq<Call>): Table
    decreases |calls|
  {
    if calls == [] then t
    else
      var last := calls[|calls| - 1];
      Record(After(t, purging, calls[..|calls| - 1]), purging, last.ip, last.now)
  }

  lemma {:induction false} AfterFirst(t: Table, purging: bool, calls: seq<Call>)
    requires calls != []
    ensures After(t, purging, calls) == After(Record(t, purging, calls[0].ip, calls[0].now), purging, calls[1..])
    decreases |calls|
  {
    var n := |calls| - 1;
    if n > 0 {
      AfterFirst(t, purging, calls[..n]);
      assert calls[..n][1..] == calls[1..][..n - 1];
    }
  }

  lemma {:induction false} PlayAt(t: Table, purging: bool, calls: seq<Call>, n: nat)
    requires n < |calls|
    ensures |Play(t, purging, calls)| == |calls|
    ensures Play(t, purging, calls)[n] == Limited(After(t, purging, calls[..n]), calls[n].ip, calls[n].now)
    decreases |calls|
  {
    var t' := Record(t, purging, calls[0].ip, calls[0].now);
    if |calls| == 1 {
      assert Play(t', purging, calls[1..]) == [];
    } else {
      PlayAt(t', purging, calls[1..], if n > 0 then n - 1 else 0);
    }
    if n > 0 {
      AfterFirst(t, purging, calls[..n]);
      assert calls[..n][1..] == calls[1..][..n - 1];
    }
  }

  /** The call that opened the window of this address: its first one, and then each first one after a window is over. */
  function Opener(calls: seq<Call>, ip: string): (o: Option<nat>)
    ensures o.Some? ==> o.value < |calls|
    decreases |calls|
  {
    if calls == [] then None
    else
      var n := |calls| - 1;
      var o := Opener(calls[..n], ip);
      if calls[n].ip != ip then o
      else if o.Some? && calls[n].now <= calls[o.value].now + MINUTE then o
      else Some(n)
  }

  /** How many calls of the address there are from `from` on. */
  function CallsFrom(calls: seq<Call>, from: nat, ip: string): nat
    decreases |calls|
  {
    if |calls| <= from then 0
    else
      var n := |calls| - 1;
      CallsFrom(calls[..n], from, ip) + (if calls[n].ip == ip then 1 else 0)
  }

  /** Without purging the table holds for each address the window its opener began and the calls since. */
  lemma {:induction false} TableIsHistory(calls: seq<Call>, ip: string)
    ensures var t, o := After(map[], false, calls), Opener(calls, ip);
      && (ip in t <==> o.Some?)
      && (o.Some? ==> t[ip] == Window(CallsFrom(calls, o.value, ip), calls[o.value].now + MINUTE))
    decreases |calls|
  {
    if calls != [] {
      TableIsHistory(calls[..|calls| - 1], ip);
    }
  }

  /** The opener's window takes in every call of the address since. */
  lemma {:induction false} WindowHolds(calls: seq<Call>, ip: string)
    ensures var o := Opener(calls, ip);
      && (o.Some? ==> calls[o.value].ip == ip)
      && forall i :: o.Some? && o.value <= i < |calls| && calls[i].ip == ip ==>
        calls[i].now <= calls[o.value].now + MINUTE
    decreases |calls|
  {
    if calls != [] {
      WindowHolds(calls[..|calls| - 1], ip);
    }
  }

  /** Whatever other addresses do, a call is refused exactly when ten of its own precede it in its window. */
  lemma RefusedFromEleventh(calls: seq<Call>, from: int, n: nat)
    requires Clocked(calls, from) && n < |calls|
    ensures var ip := calls[n].ip;
      var o := Opener(calls[..n + 1], ip);
      && o.Some? && calls[o.value].ip == ip && calls[n].now <= calls[o.value].now + 60
      && |Play(map[], true, calls)| == |calls|
      && (Play(map[], true, calls)[n] <==> |set i: nat | o.value <= i < n && calls[i].ip == ip| >= 10)
    // a window opens with the first call, and again with the first after the one before is over
    ensures var ip := calls[n].ip;
      var o, before := Opener(calls[..n + 1], ip), Opener(calls[..n], ip);
      && (o == Some(n) <==> before.None? || calls[n].now > calls[before.value].now + 60)
      && (o == Some(n) || o == before)
  {
    PurgingIsInvisible(map[], map[], from, calls);
    PlayAt(map[], false, calls, n);
    TableIsHistory(calls[..n], calls[n].ip);
    WindowHolds(calls[..n + 1], calls[n].ip);
    assert calls[..n + 1][..n] == calls[..n];
    CallsCount(calls, Opener(calls[..n + 1], calls[n].ip).value, n, calls[n].ip);
  }

  function CallsOf(calls: seq<Call>, from: nat, n: nat, ip: string): set<nat>
    requires n <= |calls|
  {
    set i: nat | from <= i < n && calls[i].ip == ip
  }

  lemma CallsOfNext(calls: seq<Call>, from: nat, n: nat, ip: string)
    requires 0 < n <= |calls|
    ensures CallsOf(calls, from, n, ip) ==
      CallsOf(calls, from, n - 1, ip) + if from <= n - 1 && calls[n - 1].ip == ip then {n - 1} else {}
  {
  }

  lemma {:induction false} CallsCount(calls: seq<Call>, from: nat, n: nat, ip: string)
    requires n <= |calls|
    ensures CallsFrom(calls[..n], from, ip) == |CallsOf(calls, from, n, ip)|
    decreases n
  {
    if n <= from {
      assert CallsOf(calls, from, n, ip) == {};
    } else {
      CallsCount(calls, from, n - 1, ip);
      CallsOfNext(calls, from, n, ip);
      assert calls[..n][..n - 1] == calls[..n - 1];
    }
  }

  // ----- the guard in memory

  class FailBucket {
    var count: nat
    const end: int

    constructor (end: int)
      ensures count == 1 && this.end == end
    {
      count, this.end := 1, end;
    }
  }

  class Guard {
    var buckets: map<string, FailBucket>
    ghost var View: Table
    ghost var Repr: set<object>

    ghost predicate Valid()
      reads this, Repr
    {
      && this !in Repr && View.Keys == buckets.Keys
      && (forall k :: k in buckets ==> Holds(buckets[k], View[k]))
      && (forall j, k :: j in buckets && k in buckets && j != k ==> buckets[j] != buckets[k])
    }

    ghost predicate Holds(b: FailBucket, w: Window)
      reads this, Repr
    {
      b in Repr && w == Window(b.count, b.end)
    }

    constructor ()
      ensures Valid() && View == map[] && Repr == {}
    {
      buckets, View, Repr := map[], map[], {};
    }

    method RecordFailure(ip: string, now: int) returns (limited: bool)
      requires Valid()
      modifies this`buckets, this`View, this`Repr, Repr
      ensures Valid() && fresh(Repr - old(Repr))
      ensures limited == Limited(old(View), ip, now)
      ensures View == Record(old(View), true, ip, now)
    {
      assert ip in buckets ==> Holds(buckets[ip], View[ip]);
      if ip !in buckets || now > buckets[ip].end {
        var full := ip !in buckets && |buckets| >= MAX_KEYS;
        assert |buckets.Keys| == |View.Keys|;
        if full {
          PurgeExpired(now);
        }
        var b := new FailBucket(now + MINUTE);
        Put(ip, b);
        return false;
      }
      limited := Count(ip);
    }

    method Put(ip: string, b: FailBucket)
      requires Valid() && b !in Repr
      modifies this`buckets, this`View, this`Repr
      ensures Valid() && Repr == old(Repr) + {b} && View == old(View)[ip := Window(b.count, b.end)]
    {
      assert forall k :: k in buckets ==> Holds(buckets[k], View[k]);
      buckets, View, Repr := buckets[ip := b], View[ip := Window(b.count, b.end)], Repr + {b};
    }

    method Count(ip: string) returns (limited: bool)
      requires Valid() && ip in View
      modifies this`View, Repr
      ensures Valid() && View == old(View)[ip := Window(old(View)[ip].count + 1, old(View)[ip].end)]
      ensures limited == (View[ip].count > MAX_FAILURES)
    {
      var b := buckets[ip];
      assert Holds(b, View[ip]);
      b.count := b.count + 1;
      View := View[ip := Window(b.count, b.end)];
      limited := b.count > MAX_FAILURES;
    }

    method PurgeExpired(now: int)
      requires Valid()
      modifies this`buckets, this`View
      ensures Valid() && View == Purged(old(View), now)
    {
      ghost var was := View;
      var keys := buckets.Keys;
      while keys != {}
        invariant keys <= View.Keys && Valid()
        invariant forall k :: k in View ==> k in was && View[k] == was[k]
        invariant forall k :: k in was && k !in keys ==> (k in View <==> !Over(was[k], now))
      {
        var k :| k in keys;
        PurgeOne(k, now);
        keys := keys - {k};
      }
      assert View == Purged(was, now);
    }

    method PurgeOne(k: string, now: int)
      requires Valid() && k in View
      modifies this`buckets, this`View
      ensures Valid() && View == if Over(old(View)[k], now) then old(View) - {k} else old(View)
    {
      var b := buckets[k];
      assert Holds(b, View[k]);
      if now > b.end {
        buckets, View := buckets - {k}, View - {k};
      }
    }
  }
}
