// The migration runner: each migration runs in one transaction with the row that records
// its version, so a run that fails or crashes anywhere can be resumed by the next.

module Migrations {
  import opened Options

  datatype Migration = Migration(version: int, sql: string)

  /** `data` is the schema and its contents, `versions` the rows of schema_version, `log` what ran, in order. */
  datatype State<D> = State(data: D, versions: set<int>, log: seq<Migration>)

  /** A row of the history table of the former runner. */
  datatype Legacy = Legacy(version: int, applied: bool)

  type Exec<!D> = (D, string) -> Option<D>

  // ----- what one run does

  function Backfilled(rows: seq<Legacy>): set<int> { set r | r in rows && r.applied && r.version >= 3 :: r.version }

  function Apply<D>(exec: Exec<D>, s: State<D>, m: Migration): Option<State<D>> {
    if m.version in s.versions then Some(s)
    else match exec(s.data, m.sql)
      case None => None
      case Some(d) => Some(State(d, s.versions + {m.version}, s.log + [m]))
  }

  function Process<D>(exec: Exec<D>, s: State<D>, migs: seq<Migration>): Option<State<D>> {
    if migs == [] then Some(s)
    else match Process(exec, s, migs[..|migs| - 1])
      case None => None
      case Some(t) => Apply(exec, t, migs[|migs| - 1])
  }

  /** An interrupted run: it copies some legacy rows, and only after all of them gets through some migrations. */
  ghost predicate Partial<D(!new)>(exec: Exec<D>, rows: seq<Legacy>, migs: seq<Migration>, s: State<D>, s': State<D>) {
    || (exists k :: 0 <= k <= |rows| && s' == s.(versions := s.versions + Backfilled(rows[..k])))
    || (exists n :: 0 <= n <= |migs| &&
          Process(exec, s.(versions := s.versions + Backfilled(rows)), migs[..n]) == Some(s'))
  }

  ghost predicate Complete<D(!new)>(exec: Exec<D>, rows: seq<Legacy>, migs: seq<Migration>, s: State<D>, s': State<D>) {
    Process(exec, s.(versions := s.versions + Backfilled(rows)), migs) == Some(s')
  }

  // ----- resuming

  lemma {:induction false} ProcessRecords<D>(exec: Exec<D>, s: State<D>, migs: seq<Migration>)
    requires Process(exec, s, migs).Some?
    ensures Process(exec, s, migs).value.versions == s.versions + set m | m in migs :: m.version
    decreases |migs|
  {
    if migs != [] {
      var init := migs[..|migs| - 1];
      ProcessRecords(exec, s, init);
      assert migs == init + [migs[|migs| - 1]];
      assert (set m | m in migs :: m.version) == (set m | m in init :: m.version) + {migs[|migs| - 1].version};
    }
  }

  /** Starting over after n migrations changes nothing up to n and goes on from there. */
  lemma {:induction false} Resume<D>(exec: Exec<D>, base: State<D>, c: State<D>, migs: seq<Migration>, n: nat, k: nat)
    requires n <= |migs| && k <= |migs| && Process(exec, base, migs[..n]) == Some(c)
    ensures Process(exec, c, migs[..k]) == if k <= n then Some(c) else Process(exec, base, migs[..k])
    decreases k
  {
    if k > 0 {
      Resume(exec, base, c, migs, n, k - 1);
      assert migs[..k][..k - 1] == migs[..k - 1];
      if k <= n {
        ProcessRecords(exec, base, migs[..n]);
        assert migs[..n][k - 1] in migs[..n];
      }
    }
  }

  /** Where interrupted runs can leave the database that started at `s0`. */
  ghost predicate Midway<D(!new)>(exec: Exec<D>, rows: seq<Legacy>, migs: seq<Migration>, s0: State<D>, s: State<D>) {
    || (s.data == s0.data && s.log == s0.log && s0.versions <= s.versions <= s0.versions + Backfilled(rows))
    || (exists n :: 0 <= n <= |migs| && Process(exec, Base(rows, s0), migs[..n]) == Some(s))
  }

  function Base<D>(rows: seq<Legacy>, s0: State<D>): State<D> { s0.(versions := s0.versions + Backfilled(rows)) }

  lemma RebaseMidway<D(!new)>(exec: Exec<D>, rows: seq<Legacy>, migs: seq<Migration>, s0: State<D>, s: State<D>, k: nat)
    requires Midway(exec, rows, migs, s0, s) && k <= |rows|
    ensures Midway(exec, rows, migs, s0, s.(versions := s.versions + Backfilled(rows[..k])))
    ensures exists n :: 0 <= n <= |migs| && Process(exec, Base(rows, s0), migs[..n]) == Some(Base(rows, s))
  {
    assert Backfilled(rows[..k]) <= Backfilled(rows);
    if n :| 0 <= n <= |migs| && Process(exec, Base(rows, s0), migs[..n]) == Some(s) {
      ProcessRecords(exec, Base(rows, s0), migs[..n]);
      assert Base(rows, s) == s == s.(versions := s.versions + Backfilled(rows[..k]));
    } else {
      assert Base(rows, s) == Base(rows, s0);
      assert Process(exec, Base(rows, s0), migs[..0]) == Some(Base(rows, s));
    }
  }

  lemma PartialKeepsMidway<D(!new)>(
      exec: Exec<D>, rows: seq<Legacy>, migs: seq<Migration>, s0: State<D>, s: State<D>, s': State<D>)
    requires Midway(exec, rows, migs, s0, s) && Partial(exec, rows, migs, s, s')
    ensures Midway(exec, rows, migs, s0, s')
  {
    if k :| 0 <= k <= |rows| && s' == s.(versions := s.versions + Backfilled(rows[..k])) {
      RebaseMidway(exec, rows, migs, s0, s, k);
    } else {
      var k :| 0 <= k <= |migs| && Process(exec, Base(rows, s), migs[..k]) == Some(s');
      RebaseMidway(exec, rows, migs, s0, s, 0);
      var n :| 0 <= n <= |migs| && Process(exec, Base(rows, s0), migs[..n]) == Some(Base(rows, s));
      Resume(exec, Base(rows, s0), Base(rows, s), migs, n, k);
    }
  }

  ghost predicate Interrupted<D(!new)>(exec: Exec<D>, rows: seq<Legacy>, migs: seq<Migration>, states: seq<State<D>>) {
    |states| > 0 && forall i :: 0 <= i < |states| - 1 ==> PartialAt(exec, rows, migs, states, i)
  }

  ghost predicate PartialAt<D(!new)>(
      exec: Exec<D>, rows: seq<Legacy>, migs: seq<Migration>, states: seq<State<D>>, i: nat)
    requires i + 1 < |states|
  {
    Partial(exec, rows, migs, states[i], states[i + 1])
  }

  lemma {:induction false} InterruptedIsMidway<D(!new)>(
      exec: Exec<D>, rows: seq<Legacy>, migs: seq<Migration>, states: seq<State<D>>, i: nat)
    requires Interrupted(exec, rows, migs, states) && i < |states|
    ensures Midway(exec, rows, migs, states[0], states[i])
  {
    if i > 0 {
      InterruptedIsMidway(exec, rows, migs, states, i - 1);
      assert PartialAt(exec, rows, migs, states, i - 1);
      PartialKeepsMidway(exec, rows, migs, states[0], states[i - 1], states[i]);
    }
  }

  /** After any interrupted runs, one successful run ends exactly where a single uninterrupted run would have. */
  lemma CrashesLeaveNoTrace<D(!new)>(
      exec: Exec<D>, rows: seq<Legacy>, migs: seq<Migration>, states: seq<State<D>>, end: State<D>)
    requires Interrupted(exec, rows, migs, states) && Complete(exec, rows, migs, states[|states| - 1], end)
    ensures Complete(exec, rows, migs, states[0], end)
  {
    var s0, s := states[0], states[|states| - 1];
    InterruptedIsMidway(exec, rows, migs, states, |states| - 1);
    RebaseMidway(exec, rows, migs, s0, s, 0);
    var n :| 0 <= n <= |migs| && Process(exec, Base(rows, s0), migs[..n]) == Some(Base(rows, s));
    assert migs[..|migs|] == migs;
    Resume(exec, Base(rows, s0), Base(rows, s), migs, n, |migs|);
  }

  // ----- exactly once, in order, never what is already known

  function Todo(migs: seq<Migration>, known: set<int>): seq<Migration> {
    if migs == [] then []
    else
      var last := migs[|migs| - 1];
      var before := Todo(migs[..|migs| - 1], known);
      if last.version in known then before else before + [last]
  }

  function RunAll<D>(exec: Exec<D>, d: D, todo: seq<Migration>): Option<D> {
    if todo == [] then Some(d)
    else match RunAll(exec, d, todo[..|todo| - 1])
      case None => None
      case Some(e) => exec(e, todo[|todo| - 1].sql)
  }

  ghost predicate DistinctVersions(migs: seq<Migration>) {
    forall i, j :: 0 <= i < j < |migs| ==> migs[i].version != migs[j].version
  }

  lemma RunAllNext<D>(exec: Exec<D>, d: D, todo: seq<Migration>, m: Migration)
    ensures RunAll(exec, d, todo + [m]) == match RunAll(exec, d, todo) case None => None case Some(e) => exec(e, m.sql)
  {
    assert (todo + [m])[..|todo|] == todo;
  }

  /** The last migration is pending after the others exactly when it was unknown at the start. */
  lemma LastIsPending<D>(exec: Exec<D>, s: State<D>, migs: seq<Migration>)
    requires migs != [] && DistinctVersions(migs) && Process(exec, s, migs[..|migs| - 1]).Some?
    ensures var last := migs[|migs| - 1];
      last.version in Process(exec, s, migs[..|migs| - 1]).value.versions <==> last.version in s.versions
  {
    var init, last := migs[..|migs| - 1], migs[|migs| - 1];
    ProcessRecords(exec, s, init);
    forall m | m in init ensures m.version != last.version { var i :| 0 <= i < |init| && migs[i] == m; }
  }

  /** With distinct versions a run executes exactly the unknown migrations, each once, in list order. */
  lemma {:induction false} ExactlyOnce<D>(exec: Exec<D>, s: State<D>, migs: seq<Migration>)
    requires forall i, j :: 0 <= i < j < |migs| ==> migs[i].version != migs[j].version
    ensures Process(exec, s, migs).Some? <==> RunAll(exec, s.data, Todo(migs, s.versions)).Some?
    ensures Process(exec, s, migs).Some? ==>
      && Process(exec, s, migs).value.log == s.log + Todo(migs, s.versions)
      && Some(Process(exec, s, migs).value.data) == RunAll(exec, s.data, Todo(migs, s.versions))
    decreases |migs|
  {
    if migs != [] {
      var init, last := migs[..|migs| - 1], migs[|migs| - 1];
      ExactlyOnce(exec, s, init);
      RunAllNext(exec, s.data, Todo(init, s.versions), last);
      if Process(exec, s, init).Some? {
        LastIsPending(exec, s, migs);
      }
    }
  }

  lemma {:induction false} TodoHolds(migs: seq<Migration>, known: set<int>)
    ensures forall m :: m in Todo(migs, known) <==> m in migs && m.version !in known
  {
    if migs != [] {
      TodoHolds(migs[..|migs| - 1], known);
      assert migs == migs[..|migs| - 1] + [migs[|migs| - 1]];
    }
  }

  /** The first n migrations are done: the unknown ones among them ran in order, and their versions are recorded. */
  ghost predicate IsPrefix<D(!new)>(rows: seq<Legacy>, migs: seq<Migration>, s0: State<D>, s: State<D>, n: nat)
    requires n <= |migs|
  {
    var done := set m | m in migs[..n] :: m.version;
    && s.log == s0.log + Todo(migs[..n], s0.versions + Backfilled(rows))
    && s0.versions + done <= s.versions <= s0.versions + Backfilled(rows) + done
  }

  /** On every interrupted history what ran is a prefix of the plan, versions match it, legacy ones never ran. */
  lemma HistoryIsPrefix<D(!new)>(exec: Exec<D>, rows: seq<Legacy>, migs: seq<Migration>, states: seq<State<D>>, i: nat)
    requires Interrupted(exec, rows, migs, states) && i < |states|
    requires forall j, k :: 0 <= j < k < |migs| ==> migs[j].version != migs[k].version
    ensures exists n :: 0 <= n <= |migs| && IsPrefix(rows, migs, states[0], states[i], n)
    ensures forall m :: m in states[i].log ==>
      || m in states[0].log
      || (m.version !in states[0].versions
          && !exists r :: r in rows && r.applied && r.version >= 3 && r.version == m.version)
  {
    var s0, s := states[0], states[i];
    var known := s0.versions + Backfilled(rows);
    InterruptedIsMidway(exec, rows, migs, states, i);
    if n :| 0 <= n <= |migs| && Process(exec, Base(rows, s0), migs[..n]) == Some(s) {
      ProcessRecords(exec, Base(rows, s0), migs[..n]);
      ExactlyOnce(exec, Base(rows, s0), migs[..n]);
      TodoHolds(migs[..n], known);
      assert IsPrefix(rows, migs, s0, s, n);
    } else {
      assert migs[..0] == [] && s.log == s0.log + Todo(migs[..0], known);
      assert IsPrefix(rows, migs, s0, s, 0);
    }
  }

  /** Without distinct versions a migration can be skipped for good: its namesake has taken its record. */
  lemma NamesakeIsSkipped<D>(exec: Exec<D>, s: State<D>, m: Migration, namesake: Migration)
    requires m.version == namesake.version && m.version !in s.versions && exec(s.data, m.sql).Some?
    ensures Process(exec, s, [m, namesake]) == Apply(exec, s, m)
    ensures Process(exec, s, [m, namesake]).value.log == s.log + [m]
  {
    assert [m, namesake][..1] == [m] && [m][..0] == [];
    assert Process(exec, s, [m]) == Apply(exec, s, m);
  }

  // ----- the runner

  class Database<D(!new)> {
    var data: D
    var versions: set<int>
    var log: seq<Migration>

    function S(): State<D>
      reads this
    {
      State(data, versions, log)
    }

    constructor (data: D, versions: set<int>)
      ensures S() == State(data, versions, [])
    {
      this.data, this.versions, log := data, versions, [];
    }

    /** One transaction; when `crash` strikes before the commit, or the SQL fails, everything is rolled back. */
    method ApplyMigration(exec: Exec<D>, m: Migration, crash: bool) returns (ok: bool)
      modifies this
      ensures ok ==> Apply(exec, old(S()), m) == Some(S())
      ensures ok && m.version in old(versions) ==> S() == old(S())
      ensures ok && m.version !in old(versions) ==>
        exec(old(data), m.sql) == Some(data) && versions == old(versions) + {m.version} && log == old(log) + [m]
      ensures !ok ==> S() == old(S())
      ensures !crash && Apply(exec, old(S()), m).Some? ==> ok
    {
      if m.version in versions {
        return true;
      }
      var tx := exec(data, m.sql);
      if tx.None? || crash {
        return false;
      }
      data, versions, log := tx.value, versions + {m.version}, log + [m];
      return true;
    }

    /** Copies legacy versions one statement at a time; `stop` is how many it manages. */
    method Backfill(rows: seq<Legacy>, stop: nat) returns (ok: bool)
      modifies this
      ensures ok <==> stop >= |rows|
      ensures exists k :: 0 <= k <= |rows| && S() == old(S()).(versions := old(S()).versions + Backfilled(rows[..k]))
      ensures ok ==> S() == Base(rows, old(S()))
      // applied rows from version 3 on, and nothing else
      ensures data == old(data) && log == old(log) && old(versions) <= versions
      ensures ok ==> forall r :: r in rows && r.applied && r.version >= 3 ==> r.version in versions
      ensures forall v :: v in versions - old(versions) ==>
        exists r :: r in rows && r.applied && r.version >= 3 && r.version == v
    {
      for i := 0 to |rows|
        invariant i <= stop
        invariant S() == old(S()).(versions := old(S()).versions + Backfilled(rows[..i]))
      {
        if i == stop {
          assert forall r :: r in rows[..i] ==> r in rows;
          return false;
        }
        assert rows[..i + 1] == rows[..i] + [rows[i]];
        if rows[i].applied && rows[i].version >= 3 {
          versions := versions + {rows[i].version};
        }
      }
      assert rows[..|rows|] == rows;
      return true;
    }

    /** A run that is interrupted after `stop` legacy rows or in migration number `crashAt`, or not at all. */
    method Run(exec: Exec<D>, rows: seq<Legacy>, migs: seq<Migration>, stop: nat, crashAt: nat) returns (ok: bool)
      modifies this
      ensures Partial(exec, rows, migs, old(S()), S())
      ensures ok ==> Complete(exec, rows, migs, old(S()), S())
      ensures stop >= |rows| && crashAt >= |migs| && Process(exec, Base(rows, old(S())), migs).Some? ==> ok
      // recorded are the versions of before, of applied rows from version 3 on, and of migrations
      ensures ok ==> forall r :: r in rows && r.applied && r.version >= 3 ==> r.version in versions
      ensures ok ==> forall m :: m in migs ==> m.version in versions
      ensures forall v :: v in versions ==>
        || v in old(versions) || (exists m :: m in migs && m.version == v)
        || exists r :: r in rows && r.applied && r.version >= 3 && r.version == v
    {
      ok := Proceed(exec, rows, migs, stop, crashAt);
      PartialRecords(exec, rows, migs, old(S()), S());
      if ok { CompleteRecords(exec, rows, migs, old(S()), S()); }
    }

    method Proceed(exec: Exec<D>, rows: seq<Legacy>, migs: seq<Migration>, stop: nat, crashAt: nat) returns (ok: bool)
      modifies this
      ensures Partial(exec, rows, migs, old(S()), S())
      ensures ok ==> Complete(exec, rows, migs, old(S()), S())
      ensures stop >= |rows| && crashAt >= |migs| && Process(exec, Base(rows, old(S())), migs).Some? ==> ok
    {
      var copied := Backfill(rows, stop);
      if !copied {
        return false;
      }
      assert rows[..|rows|] == rows && migs[..|migs|] == migs;
      ghost var base := S();
      for i := 0 to |migs|
        invariant Process(exec, base, migs[..i]) == Some(S())
      {
        assert migs[..i + 1][..i] == migs[..i];
        var done := ApplyMigration(exec, migs[i], i == crashAt);
        if !done {
          if i != crashAt { ProcessStops(exec, base, migs, i + 1); }
          return false;
        }
      }
      return true;
    }
  }

  lemma PartialRecords<D(!new)>(exec: Exec<D>, rows: seq<Legacy>, migs: seq<Migration>, s: State<D>, s': State<D>)
    requires Partial(exec, rows, migs, s, s')
    ensures forall v :: v in s'.versions ==>
      || v in s.versions || (exists m :: m in migs && m.version == v)
      || exists r :: r in rows && r.applied && r.version >= 3 && r.version == v
  {
    if k :| 0 <= k <= |rows| && s' == s.(versions := s.versions + Backfilled(rows[..k])) {
      assert forall r :: r in rows[..k] ==> r in rows;
    } else {
      var n :| 0 <= n <= |migs| && Process(exec, Base(rows, s), migs[..n]) == Some(s');
      ProcessRecords(exec, Base(rows, s), migs[..n]);
      assert forall m :: m in migs[..n] ==> m in migs;
    }
  }

  lemma CompleteRecords<D(!new)>(exec: Exec<D>, rows: seq<Legacy>, migs: seq<Migration>, s: State<D>, s': State<D>)
    requires Complete(exec, rows, migs, s, s')
    ensures forall r :: r in rows && r.applied && r.version >= 3 ==> r.version in s'.versions
    ensures forall m :: m in migs ==> m.version in s'.versions
  {
    ProcessRecords(exec, Base(rows, s), migs);
    assert forall r :: r in rows && r.applied && r.version >= 3 ==> r.version in Backfilled(rows);
  }

  lemma {:induction false} ProcessStops<D>(exec: Exec<D>, s: State<D>, migs: seq<Migration>, n: nat)
    requires n <= |migs| && Process(exec, s, migs[..n]).None?
    ensures Process(exec, s, migs).None?
    decreases |migs| - n
  {
    if n < |migs| {
      assert migs[..n + 1][..n] == migs[..n];
      ProcessStops(exec, s, migs, n + 1);
    } else {
      assert migs[..n] == migs;
    }
  }
}
