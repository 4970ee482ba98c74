// Saved-search alerts: an email is queued first and the pair is marked afterwards, so a
// failed mark may repeat an email and nothing else can.

module Alerts {

  datatype Pair = Pair(listing: string, search: string)
  datatype Search = Search(id: string, user: string)

  /** `sent` is the table of notified pairs, `outbox` the emails queued, `failed` the marks that did not go through. */
  datatype State = State(sent: set<Pair>, outbox: seq<Pair>, failed: seq<Pair>)

  datatype Outcome = Emitted | Skipped | ReadFailed | LookupFailed | EnqueueFailed | MarkFailed

  predicate IsError(o: Outcome) { !o.Emitted? && !o.Skipped? }

  /** Everything that delivering one pair can do. */
  ghost predicate Delivered(s: State, s': State, p: Pair, o: Outcome) {
    match o
    case Emitted => p !in s.sent && s' == s.(outbox := s.outbox + [p], sent := s.sent + {p})
    case Skipped => s' == s.(sent := s.sent + {p})
    case MarkFailed => p !in s.sent && (s'.outbox == s.outbox || s'.outbox == s.outbox + [p])
      && s'.sent == s.sent && s'.failed == s.failed + [p]
    case _ => s' == s
  }

  /** Emails queued for a pair: at most one, plus one for each failed mark of that pair. */
  ghost predicate Budget(s: State) { forall p :: WithinBudget(s, p) }

  ghost predicate WithinBudget(s: State, p: Pair) {
    multiset(s.outbox)[p] <= multiset(s.failed)[p] + if p in s.sent then 1 else 0
  }

  ghost predicate Step(s: State, s': State) { exists p, o :: Delivered(s, s', p, o) }

  lemma CountPush(s: seq<Pair>, p: Pair, q: Pair)
    ensures multiset(s + [p])[q] == multiset(s)[q] + if p == q then 1 else 0
  {
  }

  lemma DeliveredKeepsBudget(s: State, s': State, p: Pair, o: Outcome, q: Pair)
    requires WithinBudget(s, q) && Delivered(s, s', p, o)
    ensures WithinBudget(s', q)
  {
    match o {
      case Emitted => CountPush(s.outbox, p, q);
      case MarkFailed =>
        CountPush(s.outbox, p, q);
        CountPush(s.failed, p, q);
      case _ =>
    }
  }

  lemma StepKeepsBudget(s: State, s': State)
    requires Budget(s) && Step(s, s')
    ensures Budget(s')
  {
    var p, o :| Delivered(s, s', p, o);
    forall q ensures WithinBudget(s', q) {
      assert WithinBudget(s, q);
      DeliveredKeepsBudget(s, s', p, o, q);
    }
  }

  ghost predicate Chain(run: seq<State>) { |run| > 0 && forall i :: 0 <= i < |run| - 1 ==> StepAt(run, i) }

  ghost predicate StepAt(run: seq<State>, i: nat)
    requires i + 1 < |run|
  {
    Step(run[i], run[i + 1])
  }

  /** Deliveries from the empty tables on, over as many scans as there were. */
  ghost predicate Run(run: seq<State>) { Chain(run) && run[0] == State({}, [], []) }

  /** Over any run, the emails of a pair number at most one plus its failed marks, and a marked pair gets no more. */
  lemma {:induction false} EmailsBounded(run: seq<State>, n: nat, p: Pair)
    requires Run(run) && n < |run|
    ensures Budget(run[n]) && multiset(run[n].outbox)[p] <= 1 + multiset(run[n].failed)[p]
  {
    if n > 0 {
      EmailsBounded(run, n - 1, p);
      assert StepAt(run, n - 1);
      StepKeepsBudget(run[n - 1], run[n]);
    }
    assert WithinBudget(run[n], p);
  }

  lemma MarkedGetsNoMore(s: State, s': State, q: Pair, o: Outcome, p: Pair)
    requires Delivered(s, s', q, o) && p in s.sent
    ensures p in s'.sent && multiset(s'.outbox)[p] == multiset(s.outbox)[p]
  {
  }

  lemma {:induction false} MarkedIsFinal(run: seq<State>, i: nat, j: nat, p: Pair)
    requires Run(run) && i <= j < |run| && p in run[i].sent
    ensures p in run[j].sent && multiset(run[j].outbox)[p] == multiset(run[i].outbox)[p]
    decreases j - i
  {
    if i < j {
      MarkedIsFinal(run, i, j - 1, p);
      assert StepAt(run, j - 1);
      var q, o :| Delivered(run[j - 1], run[j], q, o);
      MarkedGetsNoMore(run[j - 1], run[j], q, o, p);
    }
  }

  /** Which of the calls of one delivery go through. */
  datatype Calls = Calls(read: bool, lookup: bool, queue: bool, mark: bool)

  /** What goes through in one pass. */
  datatype Fate = Fate(searched: bool, matched: nat -> bool, calls: (nat, nat) -> Calls)

  ghost predicate AllGo(fate: Fate) {
    && fate.searched && (forall i :: fate.matched(i))
    && forall i, j :: fate.calls(i, j) == Calls(true, true, true, true)
  }

  class Worker {
    var sent: set<Pair>
    var outbox: seq<Pair>
    ghost var failed: seq<Pair>

    ghost function S(): State
      reads this
    {
      State(sent, outbox, failed)
    }

    constructor ()
      ensures S() == State({}, [], [])
    {
      sent, outbox, failed := {}, [], [];
    }

    method MarkSent(p: Pair, goes: bool) returns (ok: bool)
      modifies this`sent, this`failed
      ensures ok == goes
      ensures ok ==> sent == old(sent) + {p} && failed == old(failed)
      ensures !ok ==> sent == old(sent) && failed == old(failed) + [p]
    {
      if goes {
        sent := sent + {p};
      } else {
        failed := failed + [p];
      }
      ok := goes;
    }

    /** `emails` holds the addresses that can be resolved; `go` says which of the four calls go through. */
    method Deliver(emails: map<string, string>, listing: string, ss: Search, go: Calls) returns (o: Outcome)
      modifies this
      ensures Delivered(old(S()), S(), Pair(listing, ss.id), o)
      ensures !IsError(o) ==> Pair(listing, ss.id) in sent
      ensures o == Skipped ==> Pair(listing, ss.id) in old(sent) || NoAddress(emails, ss)
      ensures Pair(listing, ss.id) in old(sent) ==> S() == old(S())
      // the first call that fails decides, and so does a pair that is marked or has no address
      ensures var p, hasAddress := Pair(listing, ss.id), ss.user in emails && emails[ss.user] != "";
        && (o == ReadFailed <==> !go.read)
        && (o == LookupFailed <==> go.read && p !in old(sent) && !go.lookup)
        && (o == EnqueueFailed <==> go.read && p !in old(sent) && go.lookup && hasAddress && !go.queue)
        && (o == Emitted <==> go.read && p !in old(sent) && go.lookup && hasAddress && go.queue && go.mark)
        && (o == MarkFailed <==> go.read && p !in old(sent) && go.lookup && (hasAddress ==> go.queue) && !go.mark)
        && (o == Skipped <==> go.read && (p in old(sent) || (go.lookup && !hasAddress && go.mark)))
        && outbox == (if go.read && p !in old(sent) && go.lookup && hasAddress && go.queue
                      then old(outbox) + [p] else old(outbox))
        && sent == (if o == Emitted || o == Skipped then old(sent) + {p} else old(sent))
    {
      var p := Pair(listing, ss.id);
      if !go.read { return ReadFailed; }
      if p in sent {
        assert sent + {p} == sent;
        return Skipped;
      }
      if !go.lookup { return LookupFailed; }
      if ss.user !in emails || emails[ss.user] == "" {
        var marked := MarkSent(p, go.mark);
        return if marked then Skipped else MarkFailed;
      }
      if !go.queue { return EnqueueFailed; }
      outbox := outbox + [p];
      var marked := MarkSent(p, go.mark);
      return if marked then Emitted else MarkFailed;
    }

    /**
     * One pass over the published listings and the saved searches each of them matches. `fate` says what goes
     * through: the search for listings, the matching of listing i, and the calls for its search j.
     */
    method ScanOnce(emails: map<string, string>, published: seq<string>, matching: string -> seq<Search>, fate: Fate)
      returns (count: nat, ok: bool)
      modifies this
      ensures Reached(old(S()), S())
      ensures ok ==> Marked(published, matching, sent) && |outbox| == |old(outbox)| + count
      ensures |old(outbox)| + count <= |outbox| <= |old(outbox)| + count + 1
      ensures Marked(published, matching, old(sent)) ==> S() == old(S()) && count == 0
      ensures old(outbox) <= outbox
      // a pass without failures succeeds, and a pass that succeeds has queued every new pair with an address
      ensures AllGo(fate) ==> ok
      ensures ok && (forall l, ss, tt :: ss in matching(l) && tt in matching(l) && ss.id == tt.id ==> ss == tt) ==>
        forall l, ss :: l in published && ss in matching(l) ==>
        || Pair(l, ss.id) in old(sent) || ss.user !in emails || emails[ss.user] == ""
        || Pair(l, ss.id) in outbox[|old(outbox)|..]
    {
      count := 0;
      assert Chain([S()]) && [S()][0] == S();
      if !fate.searched { return 0, false; }
      for i := 0 to |published|
        invariant Scanning(emails, published, matching, old(S()), S(), count)
        invariant Marked(published[..i], matching, sent)
      {
        if !fate.matched(i) { return count, false; }
        count, ok := ScanListing(emails, published, matching, i, fate, count, old(S()));
        if !ok { return count, false; }
        MarkedNext(published, matching, sent, i);
      }
      assert published[..|published|] == published;
      EverySearchSettled(emails, published, matching, old(sent), sent, outbox[|old(outbox)|..]);
      return count, true;
    }

    /** The inner loop: the saved searches that listing i matches. */
    method ScanListing(
        emails: map<string, string>, published: seq<string>, matching: string -> seq<Search>, i: nat, fate: Fate,
        before: nat, ghost start: State)
      returns (count: nat, ok: bool)
      requires i < |published| && Scanning(emails, published, matching, start, S(), before)
      modifies this
      ensures old(sent) <= sent
      ensures ok ==> Scanning(emails, published, matching, start, S(), count)
      ensures ok ==> forall k :: 0 <= k < |matching(published[i])| ==>
        Pair(published[i], matching(published[i])[k].id) in sent
      ensures Stopped(published, matching, start, S(), count)
      ensures (forall j :: fate.calls(i, j) == Calls(true, true, true, true)) ==> ok
    {
      count := before;
      var searches := matching(published[i]);
      for j := 0 to |searches|
        invariant Scanning(emails, published, matching, start, S(), count) && old(sent) <= sent
        invariant forall k :: 0 <= k < j ==> Pair(published[i], searches[k].id) in sent
      {
        count, ok := DeliverNext(emails, published, matching, i, j, fate, count, start);
        if !ok { return count, false; }
      }
      return count, true;
    }

    method DeliverNext(
        emails: map<string, string>, published: seq<string>, matching: string -> seq<Search>, i: nat, j: nat,
        fate: Fate, before: nat, ghost start: State)
      returns (count: nat, ok: bool)
      requires i < |published| && j < |matching(published[i])|
      requires Scanning(emails, published, matching, start, S(), before)
      modifies this
      ensures old(sent) <= sent
      ensures ok ==> Scanning(emails, published, matching, start, S(), count)
      ensures ok ==> Pair(published[i], matching(published[i])[j].id) in sent
      ensures Stopped(published, matching, start, S(), count)
      ensures fate.calls(i, j) == Calls(true, true, true, true) ==> ok
    {
      ghost var t := S();
      var l, ss := published[i], matching(published[i])[j];
      var o := Deliver(emails, l, ss, fate.calls(i, j));
      ScanNext(emails, published, matching, start, t, S(), before, l, ss, o);
      count, ok := if o == Emitted then before + 1 else before, !IsError(o);
    }

    /** A pass without error leaves every scanned matching pair marked, so an immediate second pass emits nothing. */
    method ScanTwice(
        emails: map<string, string>, published: seq<string>, matching: string -> seq<Search>, fate: Fate, again: Fate)
      returns (first: nat, ok: bool, second: nat)
      modifies this
      ensures ok ==> second == 0 && |outbox| == |old(outbox)| + first
    {
      first, ok := ScanOnce(emails, published, matching, fate);
      var done;
      second, done := ScanOnce(emails, published, matching, again);
    }
  }

  // ----- nobody is passed over

  predicate NoAddress(emails: map<string, string>, ss: Search) { ss.user !in emails || emails[ss.user] == "" }

  /** The pair is queued, or is that of a search whose owner has no address. */
  ghost predicate Settled(emails: map<string, string>, matching: string -> seq<Search>, p: Pair, queued: seq<Pair>) {
    p in queued || exists ss :: ss in matching(p.listing) && ss.id == p.search && NoAddress(emails, ss)
  }

  ghost predicate AllSettled(
    emails: map<string, string>, matching: string -> seq<Search>, was: set<Pair>, sent: set<Pair>, queued: seq<Pair>)
  {
    forall p :: p in sent && p !in was ==> Settled(emails, matching, p, queued)
  }

  /** Where a pass that began in s and has emitted `count` emails can be. */
  ghost predicate Scanning(
    emails: map<string, string>, published: seq<string>, matching: string -> seq<Search>, s: State, t: State,
    count: nat)
  {
    && Reached(s, t) && s.sent <= t.sent && s.outbox <= t.outbox && |t.outbox| == |s.outbox| + count
    && (Marked(published, matching, s.sent) ==> t == s && count == 0)
    && AllSettled(emails, matching, s.sent, t.sent, t.outbox[|s.outbox|..])
  }

  /** Where a pass can have stopped: an email may be out whose mark failed. */
  ghost predicate Stopped(published: seq<string>, matching: string -> seq<Search>, s: State, t: State, count: nat) {
    && Reached(s, t) && s.outbox <= t.outbox && |s.outbox| + count <= |t.outbox| <= |s.outbox| + count + 1
    && (Marked(published, matching, s.sent) ==> t == s && count == 0)
  }

  lemma SettleOne(
      emails: map<string, string>, matching: string -> seq<Search>, was: set<Pair>, sent: set<Pair>, queued: seq<Pair>,
      l: string, ss: Search, more: seq<Pair>)
    requires AllSettled(emails, matching, was, sent, queued) && ss in matching(l)
    requires NoAddress(emails, ss) || Pair(l, ss.id) in more || Pair(l, ss.id) in sent
    ensures AllSettled(emails, matching, was, sent + {Pair(l, ss.id)}, queued + more)
  {
    var p := Pair(l, ss.id);
    forall q | q in sent + {p} && q !in was ensures Settled(emails, matching, q, queued + more) {
      if q in sent { assert Settled(emails, matching, q, queued); }
    }
  }

  lemma ScanNext(
      emails: map<string, string>, published: seq<string>, matching: string -> seq<Search>, s: State, t: State,
      u: State, count: nat, l: string, ss: Search, o: Outcome)
    requires Scanning(emails, published, matching, s, t, count) && l in published && ss in matching(l)
    requires Delivered(t, u, Pair(l, ss.id), o)
    requires o == Skipped ==> Pair(l, ss.id) in t.sent || NoAddress(emails, ss)
    requires Pair(l, ss.id) in t.sent ==> u == t
    ensures !IsError(o) ==>
      Scanning(emails, published, matching, s, u, if o == Emitted then count + 1 else count)
    ensures o != Emitted ==> Stopped(published, matching, s, u, count)
    ensures o == Emitted ==> Stopped(published, matching, s, u, count + 1)
    ensures t.sent <= u.sent
  {
    Extend(s, t, u, Pair(l, ss.id), o);
    if !IsError(o) {
      var more := if o == Emitted then [Pair(l, ss.id)] else [];
      SettleOne(emails, matching, s.sent, t.sent, t.outbox[|s.outbox|..], l, ss, more);
      assert u.outbox[|s.outbox|..] == t.outbox[|s.outbox|..] + more;
    }
  }

  lemma MarkedNext(published: seq<string>, matching: string -> seq<Search>, sent: set<Pair>, i: nat)
    requires i < |published| && Marked(published[..i], matching, sent)
    requires forall k :: 0 <= k < |matching(published[i])| ==> Pair(published[i], matching(published[i])[k].id) in sent
    ensures Marked(published[..i + 1], matching, sent)
  {
    assert published[..i + 1] == published[..i] + [published[i]];
    forall l, ss | l in published[..i + 1] && ss in matching(l) ensures Pair(l, ss.id) in sent {
      if l !in published[..i] {
        var k :| 0 <= k < |matching(l)| && matching(l)[k] == ss;
      }
    }
  }

  lemma EverySearchSettled(
      emails: map<string, string>, published: seq<string>, matching: string -> seq<Search>, was: set<Pair>,
      sent: set<Pair>, queued: seq<Pair>)
    requires Marked(published, matching, sent) && AllSettled(emails, matching, was, sent, queued)
    ensures (forall l, ss, tt :: ss in matching(l) && tt in matching(l) && ss.id == tt.id ==> ss == tt) ==>
      forall l, ss :: l in published && ss in matching(l) ==>
      Pair(l, ss.id) in was || ss.user !in emails || emails[ss.user] == "" || Pair(l, ss.id) in queued
  {
    forall l, ss | l in published && ss in matching(l)
        && forall m, s, t :: s in matching(m) && t in matching(m) && s.id == t.id ==> s == t
      ensures Pair(l, ss.id) in was || ss.user !in emails || emails[ss.user] == "" || Pair(l, ss.id) in queued
    {
      if Pair(l, ss.id) !in was { assert Settled(emails, matching, Pair(l, ss.id), queued); }
    }
  }

  /** Every matching pair of these listings is in the table. */
  ghost predicate Marked(listings: seq<string>, matching: string -> seq<Search>, sent: set<Pair>) {
    forall l, ss :: l in listings && ss in matching(l) ==> Pair(l, ss.id) in sent
  }

  /** Joined by deliveries. */
  ghost predicate Reached(s: State, s': State) { exists run :: Chain(run) && run[0] == s && run[|run| - 1] == s' }

  lemma Extend(s: State, t: State, u: State, p: Pair, o: Outcome)
    requires Reached(s, t) && Delivered(t, u, p, o)
    ensures Reached(s, u)
  {
    var run :| Chain(run) && run[0] == s && run[|run| - 1] == t;
    var longer := run + [u];
    assert Step(t, u);
    forall i | 0 <= i < |longer| - 1 ensures StepAt(longer, i) { if i < |run| - 1 { assert StepAt(run, i); } }
    assert Chain(longer) && longer[0] == s && longer[|longer| - 1] == u;
  }
}
