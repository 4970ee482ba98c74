// Sliding-window rate limiting, as a machine on lists of time stamps. The list machine
// drops old stamps and purges idle buckets; the definition it must agree with looks at
// the whole history of calls and drops nothing.

module RateWindow {
  import opened Options

  type Buckets = map<string, seq<int>>

  /** At most `limit` accepted calls per key and window; buckets are purged from `purgeAt` keys on, if at all. */
  datatype Config = Config(limit: int, window: int, purgeAt: Option<nat>)

  // ----- the machine

  function Fresh(stamps: seq<int>, cutoff: int): seq<int> {
    if stamps == [] then []
    else
      var n := |stamps| - 1;
      if stamps[n] > cutoff then Fresh(stamps[..n], cutoff) + [stamps[n]] else Fresh(stamps[..n], cutoff)
  }

  function Purged(b: Buckets, cutoff: int): Buckets {
    map k | k in b && !Idle(b[k], cutoff) :: b[k]
  }

  /** Empty, or the last stamp is out of the window. */
  predicate Idle(stamps: seq<int>, cutoff: int) { stamps == [] || stamps[|stamps| - 1] <= cutoff }

  predicate Purges(c: Config, b: Buckets, ip: string) { ip !in b && c.purgeAt.Some? && |b| >= c.purgeAt.value }

  function Stamps(b: Buckets, ip: string): seq<int> { if ip in b then b[ip] else [] }

  function Rest(c: Config, b: Buckets, ip: string, cutoff: int): Buckets {
    if Purges(c, b, ip) then Purged(b, cutoff) else b
  }

  function Kept(c: Config, b: Buckets, ip: string, now: int): seq<int> {
    Fresh(Stamps(Rest(c, b, ip, now - c.window), ip), now - c.window)
  }

  predicate Allows(c: Config, b: Buckets, ip: string, now: int) { |Kept(c, b, ip, now)| < c.limit }

  function Allow(c: Config, b: Buckets, ip: string, now: int): Buckets {
    var kept := Kept(c, b, ip, now);
    Rest(c, b, ip, now - c.window)[ip := if |kept| < c.limit then kept + [now] else kept]
  }

  // ----- the history

  datatype Call = Call(ip: string, now: int)

  ghost predicate Clocked(calls: seq<Call>) { forall i, j :: 0 <= i < j < |calls| ==> calls[i].now <= calls[j].now }

  /** Call i leads from bucket table i to table i + 1 and gets answer i; the first table is empty. */
  ghost predicate Played(c: Config, calls: seq<Call>, tables: seq<Buckets>, answers: seq<bool>) {
    && |answers| == |calls| && |tables| == |calls| + 1 && tables[0] == map[]
    && forall i :: 0 <= i < |calls| ==> PlayedAt(c, calls, tables, answers, i)
  }

  ghost predicate PlayedAt(c: Config, calls: seq<Call>, tables: seq<Buckets>, answers: seq<bool>, i: nat)
    requires |answers| == |calls| && |tables| == |calls| + 1 && i < |calls|
  {
    && tables[i + 1] == Allow(c, tables[i], calls[i].ip, calls[i].now)
    && answers[i] == Allows(c, tables[i], calls[i].ip, calls[i].now)
  }

  /** Times of the accepted ones among the first n calls of one key, oldest first. */
  function Accepted(calls: seq<Call>, answers: seq<bool>, ip: string, n: nat): seq<int>
    requires |answers| == |calls| && n <= |calls|
  {
    if n == 0 then []
    else
      var before := Accepted(calls, answers, ip, n - 1);
      if answers[n - 1] && calls[n - 1].ip == ip then before + [calls[n - 1].now] else before
  }

  // ----- lists of stamps

  ghost predicate Ordered(s: seq<int>) { forall i, j :: 0 <= i < j < |s| ==> s[i] <= s[j] }

  lemma FreshAppend(s: seq<int>, t: int, cutoff: int)
    ensures Fresh(s + [t], cutoff) == if t > cutoff then Fresh(s, cutoff) + [t] else Fresh(s, cutoff)
  {
    assert (s + [t])[..|s|] == s;
  }

  lemma {:induction false} FreshTwice(s: seq<int>, early: int, late: int)
    requires early <= late
    ensures Fresh(Fresh(s, early), late) == Fresh(s, late)
    decreases |s|
  {
    if s != [] {
      var n := |s| - 1;
      FreshTwice(s[..n], early, late);
      FreshAppend(Fresh(s[..n], early), s[n], late);
    }
  }

  lemma {:induction false} FreshIn(s: seq<int>, cutoff: int, t: int)
    requires t in Fresh(s, cutoff)
    ensures t in s && t > cutoff
    decreases |s|
  {
    var n := |s| - 1;
    if t in Fresh(s[..n], cutoff) { FreshIn(s[..n], cutoff, t); }
  }

  lemma OrderedInit(s: seq<int>)
    requires Ordered(s) && s != []
    ensures Ordered(s[..|s| - 1]) && UpTo(s[..|s| - 1], s[|s| - 1])
  {
  }

  lemma OrderedAppend(s: seq<int>, last: int)
    requires Ordered(s) && UpTo(s, last)
    ensures Ordered(s + [last])
  {
    assert forall i :: 0 <= i < |s| ==> s[i] in s;
  }

  lemma {:induction false} FreshOrdered(s: seq<int>, cutoff: int)
    requires Ordered(s)
    ensures Ordered(Fresh(s, cutoff))
    decreases |s|
  {
    if s != [] {
      var n := |s| - 1;
      OrderedInit(s);
      FreshOrdered(s[..n], cutoff);
      forall t | t in Fresh(s[..n], cutoff) ensures t <= s[n] { FreshIn(s[..n], cutoff, t); }
      OrderedAppend(Fresh(s[..n], cutoff), s[n]);
    }
  }

  /** The last stamp of an ordered bucket decides for all: this is why looking at it alone is enough to purge. */
  lemma {:induction false} IdleIsEmpty(s: seq<int>, cutoff: int)
    requires Ordered(s) && Idle(s, cutoff)
    ensures Fresh(s, cutoff) == []
    decreases |s|
  {
    if s != [] {
      OrderedInit(s);
      if |s| > 1 { assert s[..|s| - 1][|s| - 2] in s[..|s| - 1]; }
      IdleIsEmpty(s[..|s| - 1], cutoff);
    }
  }

  ghost predicate UpTo(s: seq<int>, now: int) { forall t :: t in s ==> t <= now }

  // ----- the invariant that makes purging and compaction invisible

  /** Above every cutoff still to come the bucket says what the history says. */
  ghost predicate Agrees(b: Buckets, ip: string, accepted: seq<int>, horizon: int) {
    Ordered(Stamps(b, ip)) && SameAbove(Stamps(b, ip), accepted, horizon)
  }

  ghost predicate SameAbove(s: seq<int>, t: seq<int>, horizon: int) {
    forall cutoff :: cutoff >= horizon ==> Fresh(s, cutoff) == Fresh(t, cutoff)
  }

  /** Dropping idle buckets and old stamps changes nothing above the cutoff. */
  lemma RestAgrees(c: Config, b: Buckets, ip: string, cutoff: int, key: string, accepted: seq<int>, horizon: int)
    requires Agrees(b, key, accepted, horizon) && horizon <= cutoff
    ensures Agrees(Rest(c, b, ip, cutoff), key, accepted, cutoff)
    ensures Stamps(Rest(c, b, ip, cutoff), key) == Stamps(b, key) || Stamps(Rest(c, b, ip, cutoff), key) == []
    ensures key == ip ==> Stamps(Rest(c, b, ip, cutoff), key) == Stamps(b, key)
  {
    var was := Stamps(b, key);
    forall later | later >= cutoff ensures Fresh(Stamps(Rest(c, b, ip, cutoff), key), later) == Fresh(was, later) {
      if key in b && Idle(was, cutoff) { IdleIsEmpty(was, later); }
    }
    forall later | later >= cutoff ensures Fresh(was, later) == Fresh(accepted, later) {}
  }

  lemma KeptAgrees(c: Config, b: Buckets, ip: string, now: int, accepted: seq<int>, horizon: int)
    requires Agrees(b, ip, accepted, horizon) && horizon <= now - c.window
    ensures Kept(c, b, ip, now) == Fresh(accepted, now - c.window) == Fresh(Stamps(b, ip), now - c.window)
  {
    RestAgrees(c, b, ip, now - c.window, ip, accepted, horizon);
  }

  lemma AllowsAgrees(c: Config, b: Buckets, ip: string, now: int, accepted: seq<int>, horizon: int)
    requires Agrees(b, ip, accepted, horizon) && horizon <= now - c.window
    ensures Allows(c, b, ip, now) <==> |Fresh(accepted, now - c.window)| < c.limit
  {
    KeptAgrees(c, b, ip, now, accepted, horizon);
  }

  lemma AllowAgreesOther(c: Config, b: Buckets, ip: string, now: int, key: string, accepted: seq<int>, horizon: int)
    requires key != ip
    requires Agrees(b, key, accepted, horizon) && horizon <= now - c.window && UpTo(Stamps(b, key), now)
    ensures Agrees(Allow(c, b, ip, now), key, accepted, now - c.window) && UpTo(Stamps(Allow(c, b, ip, now), key), now)
  {
    RestAgrees(c, b, ip, now - c.window, key, accepted, horizon);
    assert Stamps(Allow(c, b, ip, now), key) == Stamps(Rest(c, b, ip, now - c.window), key);
  }

  lemma KeptAt(s: seq<int>, accepted: seq<int>, cutoff: int, now: int, later: int)
    requires later >= cutoff && Fresh(s, later) == Fresh(accepted, later)
    ensures Fresh(Fresh(s, cutoff), later) == Fresh(accepted, later)
    ensures Fresh(Fresh(s, cutoff) + [now], later) == Fresh(accepted + [now], later)
  {
    FreshTwice(s, cutoff, later);
    FreshAppend(Fresh(s, cutoff), now, later);
    FreshAppend(accepted, now, later);
  }

  lemma KeptOrdered(s: seq<int>, cutoff: int, now: int)
    requires Ordered(s) && UpTo(s, now)
    ensures Ordered(Fresh(s, cutoff)) && Ordered(Fresh(s, cutoff) + [now])
    ensures UpTo(Fresh(s, cutoff), now) && UpTo(Fresh(s, cutoff) + [now], now)
  {
    var kept := Fresh(s, cutoff);
    FreshOrdered(s, cutoff);
    forall t | t in kept ensures t <= now { FreshIn(s, cutoff, t); }
    OrderedAppend(kept, now);
  }

  lemma KeptStaysSame(s: seq<int>, accepted: seq<int>, cutoff: int, now: int)
    requires SameAbove(s, accepted, cutoff)
    ensures SameAbove(Fresh(s, cutoff), accepted, cutoff)
    ensures SameAbove(Fresh(s, cutoff) + [now], accepted + [now], cutoff)
  {
    forall later | later >= cutoff
      ensures Fresh(Fresh(s, cutoff), later) == Fresh(accepted, later)
      ensures Fresh(Fresh(s, cutoff) + [now], later) == Fresh(accepted + [now], later)
    {
      KeptAt(s, accepted, cutoff, now, later);
    }
  }

  lemma AllowAgrees(c: Config, b: Buckets, ip: string, now: int, key: string, accepted: seq<int>, horizon: int)
    requires Agrees(b, key, accepted, horizon) && horizon <= now - c.window && UpTo(Stamps(b, key), now)
    ensures Agrees(Allow(c, b, ip, now), key,
      if Allows(c, b, ip, now) && key == ip then accepted + [now] else accepted, now - c.window)
    ensures UpTo(Stamps(Allow(c, b, ip, now), key), now)
  {
    if key != ip {
      AllowAgreesOther(c, b, ip, now, key, accepted, horizon);
    } else {
      var cutoff := now - c.window;
      var kept := Kept(c, b, ip, now);
      KeptAgrees(c, b, ip, now, accepted, horizon);
      KeptOrdered(Stamps(b, ip), cutoff, now);
      KeptStaysSame(Stamps(b, ip), accepted, cutoff, now);
      assert Stamps(Allow(c, b, ip, now), ip) == if Allows(c, b, ip, now) then kept + [now] else kept;
    }
  }

  lemma {:induction false} PlayAgrees(
      c: Config, calls: seq<Call>, tables: seq<Buckets>, answers: seq<bool>, key: string, n: nat, now: int)
    requires Played(c, calls, tables, answers) && Clocked(calls) && n <= |calls|
    requires forall i :: 0 <= i < n ==> calls[i].now <= now
    ensures Agrees(tables[n], key, Accepted(calls, answers, key, n), now - c.window)
    ensures UpTo(Stamps(tables[n], key), now)
    decreases n
  {
    if n > 0 {
      var call := calls[n - 1];
      PlayAgrees(c, calls, tables, answers, key, n - 1, call.now);
      assert PlayedAt(c, calls, tables, answers, n - 1);
      AllowAgrees(c, tables[n - 1], call.ip, call.now, key, Accepted(calls, answers, key, n - 1), call.now - c.window);
    }
  }

  /** Positions of the accepted ones among the first n calls of a key, strictly after one time and up to another. */
  function AcceptedIn(calls: seq<Call>, answers: seq<bool>, key: string, n: nat, after: int, upTo: int): set<nat>
    requires |answers| == |calls| && n <= |calls|
  {
    set i: nat | i < n && answers[i] && calls[i].ip == key && after < calls[i].now <= upTo
  }

  lemma AcceptedInNext(calls: seq<Call>, answers: seq<bool>, key: string, n: nat, after: int, upTo: int)
    requires |answers| == |calls| && 0 < n <= |calls|
    ensures |AcceptedIn(calls, answers, key, n, after, upTo)| == |AcceptedIn(calls, answers, key, n - 1, after, upTo)| +
      if answers[n - 1] && calls[n - 1].ip == key && after < calls[n - 1].now <= upTo then 1 else 0
  {
    var before := AcceptedIn(calls, answers, key, n - 1, after, upTo);
    AcceptedInLast(calls, answers, key, n, after, upTo);
    assert n - 1 !in before;
  }

  lemma AcceptedInLast(calls: seq<Call>, answers: seq<bool>, key: string, n: nat, after: int, upTo: int)
    requires |answers| == |calls| && 0 < n <= |calls|
    ensures AcceptedIn(calls, answers, key, n, after, upTo) == AcceptedIn(calls, answers, key, n - 1, after, upTo) +
      if answers[n - 1] && calls[n - 1].ip == key && after < calls[n - 1].now <= upTo then {n - 1} else {}
  {
  }

  lemma {:induction false} FreshCounts(calls: seq<Call>, answers: seq<bool>, key: string, n: nat, cutoff: int, now: int)
    requires |answers| == |calls| && n <= |calls| && forall i :: 0 <= i < n ==> calls[i].now <= now
    ensures |Fresh(Accepted(calls, answers, key, n), cutoff)| == |AcceptedIn(calls, answers, key, n, cutoff, now)|
    decreases n
  {
    if n == 0 {
      assert AcceptedIn(calls, answers, key, n, cutoff, now) == {};
    } else {
      var was, call := Accepted(calls, answers, key, n - 1), calls[n - 1];
      FreshCounts(calls, answers, key, n - 1, cutoff, now);
      AcceptedInNext(calls, answers, key, n, cutoff, now);
      if answers[n - 1] && call.ip == key {
        FreshAppend(was, call.now, cutoff);
        assert Accepted(calls, answers, key, n) == was + [call.now];
      } else {
        assert Accepted(calls, answers, key, n) == was;
      }
    }
  }

  lemma AcceptedInAll(calls: seq<Call>, answers: seq<bool>, key: string, n: nat, after: int, now: int)
    requires |answers| == |calls| && n <= |calls| && forall i :: 0 <= i < n ==> calls[i].now <= now
    ensures AcceptedIn(calls, answers, key, n, after, now) ==
      set i: nat | i < n && answers[i] && calls[i].ip == key && after < calls[i].now
  {
  }

  /** A call is allowed exactly when fewer than `limit` earlier accepted ones of its key lie in the window. */
  lemma AnswersAreHistorical(c: Config, calls: seq<Call>, tables: seq<Buckets>, answers: seq<bool>, n: nat)
    requires Played(c, calls, tables, answers) && Clocked(calls) && n < |calls|
    ensures answers[n] <==> |Fresh(Accepted(calls, answers, calls[n].ip, n), calls[n].now - c.window)| < c.limit
    ensures answers[n] <==>
      |set i: nat | i < n && answers[i] && calls[i].ip == calls[n].ip && calls[n].now - c.window < calls[i].now|
        < c.limit
  {
    var call := calls[n];
    ClockedBefore(calls, n);
    FreshCounts(calls, answers, call.ip, n, call.now - c.window, call.now);
    AcceptedInAll(calls, answers, call.ip, n, call.now - c.window, call.now);
    PlayAgrees(c, calls, tables, answers, call.ip, n, call.now);
    assert PlayedAt(c, calls, tables, answers, n);
    AllowsAgrees(c, tables[n], call.ip, call.now, Accepted(calls, answers, call.ip, n), call.now - c.window);
  }

  // ----- no window holds more than the limit

  lemma SubsetSize(a: set<nat>, b: set<nat>)
    requires a <= b
    ensures |a| <= |b|
  {
    assert b == a + (b - a);
  }

  lemma OneMore(c: Config, calls: seq<Call>, tables: seq<Buckets>, answers: seq<bool>, key: string, start: int, n: nat)
    requires Played(c, calls, tables, answers) && Clocked(calls) && 0 < n <= |calls|
    requires answers[n - 1] && calls[n - 1].ip == key && calls[n - 1].now <= start + c.window
    ensures |AcceptedIn(calls, answers, key, n - 1, start, start + c.window)| < c.limit
  {
    var now := calls[n - 1].now;
    ClockedBefore(calls, n - 1);
    AnswersAreHistorical(c, calls, tables, answers, n - 1);
    FreshCounts(calls, answers, key, n - 1, now - c.window, now);
    var before := AcceptedIn(calls, answers, key, n - 1, start, start + c.window);
    var recent := AcceptedIn(calls, answers, key, n - 1, now - c.window, now);
    forall i | i in before ensures i in recent {}
    SubsetSize(before, recent);
  }

  lemma ClockedBefore(calls: seq<Call>, n: nat)
    requires Clocked(calls) && n < |calls|
    ensures forall i :: 0 <= i < n ==> calls[i].now <= calls[n].now
  {
  }

  lemma {:induction false} WindowHolds(
      c: Config, calls: seq<Call>, tables: seq<Buckets>, answers: seq<bool>, key: string, start: int, n: nat)
    requires Played(c, calls, tables, answers) && Clocked(calls) && n <= |calls| && c.limit >= 0
    ensures |AcceptedIn(calls, answers, key, n, start, start + c.window)| <= c.limit
    decreases n
  {
    if n == 0 {
      assert AcceptedIn(calls, answers, key, n, start, start + c.window) == {};
    } else {
      WindowHolds(c, calls, tables, answers, key, start, n - 1);
      AcceptedInNext(calls, answers, key, n, start, start + c.window);
      if answers[n - 1] && calls[n - 1].ip == key && calls[n - 1].now <= start + c.window {
        OneMore(c, calls, tables, answers, key, start, n);
      }
    }
  }

  /** No window-long interval holds more than `limit` accepted calls of one key. */
  lemma WindowBound(
      c: Config, calls: seq<Call>, tables: seq<Buckets>, answers: seq<bool>, key: string, start: int, n: nat)
    requires Played(c, calls, tables, answers) && Clocked(calls) && n <= |calls| && c.limit >= 0
    ensures |set i: nat | i < n && answers[i] && calls[i].ip == key && start < calls[i].now <= start + c.window|
      <= c.limit
  {
    WindowHolds(c, calls, tables, answers, key, start, n);
  }

  /** Registrations: at most five of an address in any hour. */
  lemma RegistrationBound(
      calls: seq<Call>, tables: seq<Buckets>, answers: seq<bool>, ip: string, start: int)
    requires Played(Config(5, 3600, Some(10000)), calls, tables, answers) && Clocked(calls)
    ensures |set i: nat | i < |calls| && answers[i] && calls[i].ip == ip && start < calls[i].now <= start + 3600| <= 5
  {
    WindowBound(Config(5, 3600, Some(10000)), calls, tables, answers, ip, start, |calls|);
  }

  /** Magic links: at most three of an address in any quarter of an hour. */
  lemma MagicLinkBound(
      calls: seq<Call>, tables: seq<Buckets>, answers: seq<bool>, ip: string, start: int)
    requires Played(Config(3, 900, None), calls, tables, answers) && Clocked(calls)
    ensures |set i: nat | i < |calls| && answers[i] && calls[i].ip == ip && start < calls[i].now <= start + 900| <= 3
  {
    WindowBound(Config(3, 900, None), calls, tables, answers, ip, start, |calls|);
  }
}
