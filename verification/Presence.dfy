// Attendance sheets, proxies and the quorum count.

module Presence {
  import opened Options
  import opened Sequences
  import opened Text

  type Id = nat

  datatype Attendance = Attendance(id: Id, assembly: Id, member: string, how: string)
  datatype Mandate = Mandate(id: Id, assembly: Id, principal: string, proxy: string)
  datatype Quorum = Quorum(eligible: nat, present: nat, represented: nat, attending: nat, reached: bool)

  datatype Error =
    | SamePerson | AssemblyNotFound | NotConvoked | StatusUnknown | PrincipalInactive | ProxyInactive | MandateExists
  datatype Outcome = Done(id: Id) | Failed(error: Error)

  // ----- who attends

  function Present(sheet: seq<Attendance>, a: Id, electorate: set<string>): set<string> {
    set r | r in sheet && r.assembly == a && r.member in electorate :: r.member
  }

  /** Eligible members who did not sign but whose proxy, also eligible, did. */
  function Represented(sheet: seq<Attendance>, mandates: seq<Mandate>, a: Id, electorate: set<string>): set<string> {
    var present := Present(sheet, a, electorate);
    set m | m in mandates && m.assembly == a && m.principal in electorate - present && m.proxy in present :: m.principal
  }

  function Attending(sheet: seq<Attendance>, mandates: seq<Mandate>, a: Id, electorate: set<string>): set<string> {
    Present(sheet, a, electorate) + Represented(sheet, mandates, a, electorate)
  }

  /** The electorate delivers a quorum: it is not empty and the attendance meets the threshold share. */
  predicate Reached(attending: nat, eligible: nat, threshold: real) {
    eligible > 0 && attending as real >= eligible as real * threshold
  }

  function SetOf(s: seq<string>): set<string> { set x | x in s }

  lemma {:induction false} SubsetSize(a: set<string>, b: set<string>)
    requires a <= b
    ensures |a| <= |b|
    decreases a
  {
    if a != {} {
      var x :| x in a;
      SubsetSize(a - {x}, b - {x});
    }
  }

  lemma {:induction false} SetOfSize(s: seq<string>)
    ensures |SetOf(s)| <= |s|
  {
    if s != [] {
      SetOfSize(s[1..]);
      assert s == [s[0]] + s[1..];
      assert SetOf(s) == SetOf(s[1..]) + {s[0]};
    }
  }

  /** Nobody is counted twice, nobody outside the electorate is counted. */
  lemma AttendingIsSound(sheet: seq<Attendance>, mandates: seq<Mandate>, a: Id, ids: seq<string>)
    ensures Present(sheet, a, SetOf(ids)) !! Represented(sheet, mandates, a, SetOf(ids))
    ensures |Attending(sheet, mandates, a, SetOf(ids))|
         == |Present(sheet, a, SetOf(ids))| + |Represented(sheet, mandates, a, SetOf(ids))| <= |ids|
  {
    SubsetSize(Attending(sheet, mandates, a, SetOf(ids)), SetOf(ids));
    SetOfSize(ids);
  }

  /** The member did not sign, and somebody eligible who holds a mandate of this member did. */
  ghost predicate StandsFor(sheet: seq<Attendance>, mandates: seq<Mandate>, a: Id, ids: seq<string>, member: string) {
    && (forall r :: r in sheet && r.assembly == a ==> r.member != member)
    && exists m, r ::
      && m in mandates && m.assembly == a && m.principal == member && m.proxy in ids
      && r in sheet && r.assembly == a && r.member == m.proxy
  }

  lemma AttendanceMeans(sheet: seq<Attendance>, mandates: seq<Mandate>, a: Id, ids: seq<string>)
    ensures Present(sheet, a, SetOf(ids)) ==
      set m | m in ids && exists r :: r in sheet && r.assembly == a && r.member == m
    ensures Represented(sheet, mandates, a, SetOf(ids)) == set m | m in ids && StandsFor(sheet, mandates, a, ids, m)
  {
    forall m | m in ids && StandsFor(sheet, mandates, a, ids, m)
      ensures m in Represented(sheet, mandates, a, SetOf(ids))
    {
      var x, r :| x in mandates && x.assembly == a && x.principal == m && x.proxy in ids
        && r in sheet && r.assembly == a && r.member == x.proxy;
      assert x.proxy in Present(sheet, a, SetOf(ids));
    }
    forall m | m in Represented(sheet, mandates, a, SetOf(ids))
      ensures m in ids && StandsFor(sheet, mandates, a, ids, m)
    {
      var x :| x in mandates && x.assembly == a && x.principal == m && x.proxy in Present(sheet, a, SetOf(ids));
      var r :| r in sheet && r.assembly == a && r.member == x.proxy;
      assert m !in Present(sheet, a, SetOf(ids));
    }
  }

  // ----- the store

  datatype State = State(statuses: map<Id, string>, sheet: seq<Attendance>, mandates: seq<Mandate>, nextId: Id)

  /** One signature per member and one mandate per principal, on each assembly. */
  ghost predicate Inv(s: State) {
    && (forall i, j :: 0 <= i < j < |s.sheet| ==>
      s.sheet[i].assembly != s.sheet[j].assembly || s.sheet[i].member != s.sheet[j].member)
    && (forall i, j :: 0 <= i < j < |s.mandates| ==>
          s.mandates[i].assembly != s.mandates[j].assembly || s.mandates[i].principal != s.mandates[j].principal)
    && (forall m :: m in s.mandates ==> m.principal != m.proxy)
    && (forall r :: r in s.sheet ==> r.assembly in s.statuses && s.statuses[r.assembly] == "convoked")
    && (forall m :: m in s.mandates ==> m.assembly in s.statuses && s.statuses[m.assembly] == "convoked")
  }

  predicate SignedBy(sheet: seq<Attendance>, a: Id, member: string) {
    exists r :: r in sheet && r.assembly == a && r.member == member
  }
  predicate MandatedBy(mandates: seq<Mandate>, a: Id, principal: string) {
    exists m :: m in mandates && m.assembly == a && m.principal == principal
  }
  predicate IsConvoked(s: State, a: Id) { a in s.statuses && s.statuses[a] == "convoked" }

  ghost predicate Signed(s: State, s': State, a: Id, member: string, how: string) {
    && IsConvoked(s, a)
    && s' == if SignedBy(s.sheet, a, member) then s
             else s.(sheet := s.sheet + [Attendance(s.nextId, a, member, how)], nextId := s.nextId + 1)
  }

  ghost predicate Mandated(s: State, s': State, a: Id, principal: string, proxy: string) {
    && IsConvoked(s, a) && principal != proxy && !MandatedBy(s.mandates, a, principal)
    && s' == s.(mandates := s.mandates + [Mandate(s.nextId, a, principal, proxy)], nextId := s.nextId + 1)
  }

  ghost predicate Step(s: State, s': State) {
    || s' == s
    || (exists a, member, how :: Signed(s, s', a, member, how))
    || (exists a, principal, proxy :: Mandated(s, s', a, principal, proxy))
  }

  /** No step removes anyone from the attendance. */
  lemma StepKeepsAttending(s: State, s': State, a: Id, electorate: set<string>)
    requires Step(s, s')
    ensures Attending(s.sheet, s.mandates, a, electorate) <= Attending(s'.sheet, s'.mandates, a, electorate)
  {
    assert s.sheet <= s'.sheet && s.mandates <= s'.mandates;
    forall r | r in s.sheet ensures r in s'.sheet {}
    forall m | m in s.mandates ensures m in s'.mandates {}
    var present, present' := Present(s.sheet, a, electorate), Present(s'.sheet, a, electorate);
    assert present <= present';
    forall x | x in Represented(s.sheet, s.mandates, a, electorate) && x !in present'
      ensures x in Represented(s'.sheet, s'.mandates, a, electorate)
    {
      var m :| m in s.mandates && m.assembly == a && m.principal == x && m.proxy in present;
      assert m in s'.mandates && m.proxy in present';
    }
  }

  ghost predicate Run(run: seq<State>) { forall i :: 0 <= i < |run| - 1 ==> StepAt(run, i) }

  ghost predicate StepAt(run: seq<State>, i: nat)
    requires i + 1 < |run|
  {
    Step(run[i], run[i + 1])
  }

  lemma {:induction false} AttendingGrows(run: seq<State>, i: nat, j: nat, a: Id, electorate: set<string>)
    requires Run(run) && i <= j < |run|
    ensures Attending(run[i].sheet, run[i].mandates, a, electorate)
      <= Attending(run[j].sheet, run[j].mandates, a, electorate)
    decreases j - i
  {
    if i < j {
      AttendingGrows(run, i, j - 1, a, electorate);
      assert StepAt(run, j - 1);
      StepKeepsAttending(run[j - 1], run[j], a, electorate);
    }
  }

  /** A quorum once reached stays reached, over any run of signatures and mandates. */
  lemma QuorumIsStable(run: seq<State>, i: nat, j: nat, a: Id, ids: seq<string>, threshold: real)
    requires Run(run) && i <= j < |run|
    requires |ids| > 0
    requires |Attending(run[i].sheet, run[i].mandates, a, SetOf(ids))| as real >= |ids| as real * threshold
    ensures |Attending(run[j].sheet, run[j].mandates, a, SetOf(ids))| as real >= |ids| as real * threshold
  {
    AttendingGrows(run, i, j, a, SetOf(ids));
    SubsetSize(
      Attending(run[i].sheet, run[i].mandates, a, SetOf(ids)), Attending(run[j].sheet, run[j].mandates, a, SetOf(ids)));
  }

  // ----- a deleted account

  /** The cascade takes the account's signatures and every mandate it gave or holds. */
  ghost predicate AccountDeleted(s: State, s': State, user: string) {
    && s'.statuses == s.statuses && s'.nextId == s.nextId
    && s'.sheet == Keep((r: Attendance) => r.member != user, s.sheet)
    && s'.mandates == Keep((m: Mandate) => m.principal != user && m.proxy != user, s.mandates)
  }

  /** Members represented by this one. */
  function RepresentedBy(s: State, a: Id, electorate: set<string>, user: string): set<string> {
    set m | m in s.mandates && m.assembly == a && m.proxy == user
      && m.principal in Represented(s.sheet, s.mandates, a, electorate) :: m.principal
  }

  /** A deletion takes away the member and those it represented, and nobody else. */
  lemma DeletionExact(s: State, s': State, a: Id, electorate: set<string>, user: string)
    requires Inv(s) && AccountDeleted(s, s', user)
    ensures Attending(s'.sheet, s'.mandates, a, electorate) ==
      Attending(s.sheet, s.mandates, a, electorate) - {user} - RepresentedBy(s, a, electorate, user)
    ensures Attending(s'.sheet, s'.mandates, a, electorate) == Attending(s.sheet, s.mandates, a, electorate) <==>
      user !in Attending(s.sheet, s.mandates, a, electorate)
  {
    var present, present' := Present(s.sheet, a, electorate), Present(s'.sheet, a, electorate);
    PresentAfter(s, s', a, electorate, user);
    KeepHolds((m: Mandate) => m.principal != user && m.proxy != user, s.mandates);
    var rep, rep' := Represented(s.sheet, s.mandates, a, electorate), Represented(s'.sheet, s'.mandates, a, electorate);
    forall x ensures x in rep' <==> x in rep && x != user && x !in RepresentedBy(s, a, electorate, user) {
      if x in rep {
        var m :| m in s.mandates && m.assembly == a && m.principal == x && m.proxy in present;
        if x != user && m.proxy != user {
          assert m in s'.mandates && m.proxy in present';
          OneMandate(s, m, a, x);
        }
      }
      if x in rep' {
        var m :| m in s'.mandates && m.assembly == a && m.principal == x && m.proxy in present';
        assert m in s.mandates;
        OneMandate(s, m, a, x);
      }
    }
    if user !in Attending(s.sheet, s.mandates, a, electorate) {
      forall x | x in rep ensures x !in RepresentedBy(s, a, electorate, user) {
        var m :| m in s.mandates && m.assembly == a && m.principal == x && m.proxy in present;
        OneMandate(s, m, a, x);
      }
    }
  }

  const ROW := Attendance(1, 0, "u", "manual")
  const MANDATE := Mandate(2, 0, "v", "u")

  lemma OneSignature(electorate: set<string>)
    requires "u" in electorate && "v" in electorate
    ensures Attending([ROW], [MANDATE], 0, electorate) == {"u", "v"}
  {
    assert "u"[0] != "v"[0];
    assert ROW in [ROW] && MANDATE in [MANDATE];
    assert Present([ROW], 0, electorate) == {"u"};
    assert Represented([ROW], [MANDATE], 0, electorate) == {"v"};
  }

  lemma NobodyLeft()
    ensures Keep((r: Attendance) => r.member != "u", [ROW]) == []
    ensures Keep((m: Mandate) => m.principal != "u" && m.proxy != "u", [MANDATE]) == []
  {
    assert [ROW][1..] == [] && [MANDATE][1..] == [];
  }

  const MET := State(map[0 := "convoked"], [ROW], [MANDATE], 3)
  const GONE := MET.(sheet := [], mandates := [])

  lemma MetIsValid()
    ensures Inv(MET) && AccountDeleted(MET, GONE, "u")
  {
    NobodyLeft();
    assert "u"[0] != "v"[0];
  }

  /** Two of three attend through one signature; its account goes, and nobody attends. */
  lemma DeletionLosesQuorum()
    ensures Inv(MET) && AccountDeleted(MET, GONE, "u")
    ensures Reached(|Attending(MET.sheet, MET.mandates, 0, {"u", "v", "w"})|, 3, 0.5)
    ensures !Reached(|Attending(GONE.sheet, GONE.mandates, 0, {"v", "w"})|, 2, 0.5)
  {
    MetIsValid();
    OneSignature({"u", "v", "w"});
    assert "u"[0] != "v"[0] && |{"u", "v"}| == 2;
    assert Attending([], [], 0, {"v", "w"}) == {};
  }

  lemma PresentAfter(s: State, s': State, a: Id, electorate: set<string>, user: string)
    requires AccountDeleted(s, s', user)
    ensures Present(s'.sheet, a, electorate) == Present(s.sheet, a, electorate) - {user}
  {
    KeepHolds((r: Attendance) => r.member != user, s.sheet);
  }

  lemma OneMandate(s: State, m: Mandate, a: Id, x: string)
    requires Inv(s) && m in s.mandates && m.assembly == a && m.principal == x
    ensures forall n :: n in s.mandates && n.assembly == a && n.principal == x ==> n == m
  {
    forall n | n in s.mandates && n.assembly == a && n.principal == x ensures n == m {
      var i :| 0 <= i < |s.mandates| && s.mandates[i] == m;
      var j :| 0 <= j < |s.mandates| && s.mandates[j] == n;
    }
  }

  class Store {
    const statuses: map<Id, string>
    var sheet: seq<Attendance>
    var mandates: seq<Mandate>
    var nextId: Id

    function S(): State
      reads this
    {
      State(statuses, sheet, mandates, nextId)
    }

    constructor (statuses: map<Id, string>)
      ensures S() == State(statuses, [], [], 0) && Inv(S())
    {
      this.statuses := statuses;
      sheet, mandates, nextId := [], [], 0;
    }

    method RecordMandate(members: string -> Option<string>, a: Id, principal: string, proxy: string)
      returns (r: Outcome)
      requires Inv(S())
      modifies this
      ensures Inv(S()) && Step(old(S()), S())
      ensures r == Failed(SamePerson) <==> Trim(principal) == Trim(proxy)
      ensures r == Failed(AssemblyNotFound) <==> Trim(principal) != Trim(proxy) && a !in statuses
      ensures r == Failed(NotConvoked) <==>
        Trim(principal) != Trim(proxy) && a in statuses && statuses[a] != "convoked"
      ensures r == Failed(PrincipalInactive) ==>
        members(Trim(principal)).Some? && members(Trim(principal)) != Some("active")
      ensures r == Failed(ProxyInactive) ==> members(Trim(principal)) == Some("active") != members(Trim(proxy))
      ensures r.Done? <==>
        && Trim(principal) != Trim(proxy) && a in statuses && statuses[a] == "convoked"
        && members(Trim(principal)) == Some("active") == members(Trim(proxy))
        && !exists m :: m in old(mandates) && m.assembly == a && m.principal == Trim(principal)
      ensures r.Done? ==> r.id == old(nextId) && S() == old(S()).(
        mandates := old(mandates) + [Mandate(r.id, a, Trim(principal), Trim(proxy))], nextId := r.id + 1)
      ensures r.Failed? ==> S() == old(S())
    {
      if Trim(principal) == Trim(proxy) {
        return Failed(SamePerson);
      }
      if a !in statuses {
        return Failed(AssemblyNotFound);
      }
      if statuses[a] != "convoked" {
        return Failed(NotConvoked);
      }
      var status := members(Trim(principal));
      if status.None? {
        return Failed(StatusUnknown);
      }
      if status.value != "active" {
        return Failed(PrincipalInactive);
      }
      status := members(Trim(proxy));
      if status.None? {
        return Failed(StatusUnknown);
      }
      if status.value != "active" {
        return Failed(ProxyInactive);
      }
      if MandatedBy(mandates, a, Trim(principal)) {
        return Failed(MandateExists);
      }
      var id := nextId;
      assert forall i :: 0 <= i < |mandates| ==> mandates[i] in mandates;
      mandates, nextId := mandates + [Mandate(id, a, Trim(principal), Trim(proxy))], nextId + 1;
      assert Mandated(old(S()), S(), a, Trim(principal), Trim(proxy));
      return Done(id);
    }

    /** Signing twice keeps the first signature and answers its id. */
    method SignAttendance(a: Id, member: string, how: string) returns (r: Outcome)
      requires Inv(S())
      modifies this
      ensures Inv(S()) && Step(old(S()), S())
      ensures r == Failed(AssemblyNotFound) <==> a !in statuses
      ensures r == Failed(NotConvoked) <==> a in statuses && statuses[a] != "convoked"
      ensures r.Done? <==> a in statuses && statuses[a] == "convoked"
      ensures mandates == old(mandates)
      ensures r.Failed? || (exists row :: row in old(sheet) && row.assembly == a && row.member == Trim(member)) ==>
        S() == old(S())
      ensures r.Done? && !(exists row :: row in old(sheet) && row.assembly == a && row.member == Trim(member)) ==>
        && sheet == old(sheet) + [Attendance(r.id, a, Trim(member), if Trim(how) == "" then "manual" else Trim(how))]
        && r.id == old(nextId) && nextId == r.id + 1
      ensures r.Done? ==>
        exists row :: row in sheet && row.id == r.id && row.assembly == a && row.member == Trim(member)
    {
      var channel := if Trim(how) == "" then "manual" else Trim(how);
      if a !in statuses {
        return Failed(AssemblyNotFound);
      }
      if statuses[a] != "convoked" {
        return Failed(NotConvoked);
      }
      if !SignedBy(sheet, a, Trim(member)) {
        assert forall i :: 0 <= i < |sheet| ==> sheet[i] in sheet;
        sheet, nextId := sheet + [Attendance(nextId, a, Trim(member), channel)], nextId + 1;
        assert sheet[|sheet| - 1] in sheet;
      }
      assert Signed(old(S()), S(), a, Trim(member), channel);
      var i := 0;
      while sheet[i].assembly != a || sheet[i].member != Trim(member)
        invariant 0 <= i < |sheet|
        invariant forall k :: 0 <= k < i ==> sheet[k].assembly != a || sheet[k].member != Trim(member)
        decreases |sheet| - i
      {
        i := i + 1;
      }
      return Done(sheet[i].id);
    }

    /** The rows of a SELECT come in any order. */
    method SelectSigned(a: Id) returns (rows: seq<string>)
      ensures forall m :: m in rows <==> SignedBy(sheet, a, m)
    {
      rows := [];
      var rest := set r | r in sheet && r.assembly == a :: r.member;
      while rest != {}
        invariant rest <= set r | r in sheet && r.assembly == a :: r.member
        invariant forall m :: m in rows <==> SignedBy(sheet, a, m) && m !in rest
      {
        var m :| m in rest;
        rows, rest := rows + [m], rest - {m};
      }
    }

    method SelectMandates(a: Id) returns (rows: seq<Mandate>)
      ensures forall m :: m in rows <==> m in mandates && m.assembly == a
    {
      rows := [];
      var rest := set m | m in mandates && m.assembly == a;
      while rest != {}
        invariant rest <= set m | m in mandates && m.assembly == a
        invariant forall m :: m in rows <==> m in mandates && m.assembly == a && m !in rest
      {
        var m :| m in rest;
        rows, rest := rows + [m], rest - {m};
      }
    }

    /** Counts over two row streams; `ids` may repeat a member, threshold is any share. */
    method ComputeQuorum(a: Id, ids: seq<string>, threshold: real) returns (q: Quorum)
      ensures q.eligible == |ids|
      ensures q.present == |Present(sheet, a, SetOf(ids))|
      ensures q.represented == |Represented(sheet, mandates, a, SetOf(ids))|
      ensures q.attending == |Attending(sheet, mandates, a, SetOf(ids))| <= q.eligible
      // an eligible member is present by signing, or represented by an eligible proxy who signed
      ensures q.present == |set m | m in ids && (exists r :: r in sheet && r.assembly == a && r.member == m)|
      ensures q.represented == |set m | m in ids && StandsFor(sheet, mandates, a, ids, m)|
      ensures q.attending == q.present + q.represented
      ensures q.reached <==> |ids| > 0 && q.attending as real >= |ids| as real * threshold
    {
      var eligible := SetOf(ids);
      var signed := SelectSigned(a);
      var present: set<string> := {};
      for i := 0 to |signed|
        invariant present == set m | m in signed[..i] && m in eligible
      {
        if signed[i] in eligible {
          present := present + {signed[i]};
        }
      }
      assert signed[..|signed|] == signed;
      assert present == Present(sheet, a, eligible);
      var rows := SelectMandates(a);
      var represented: set<string> := {};
      for i := 0 to |rows|
        invariant represented ==
          set m | m in rows[..i] && m.principal in eligible - present && m.proxy in present :: m.principal
      {
        var principal, proxy := rows[i].principal, rows[i].proxy;
        assert rows[..i + 1] == rows[..i] + [rows[i]];
        if principal !in eligible { continue; }
        if principal in present { continue; }
        if proxy !in eligible { continue; }
        if proxy !in present { continue; }
        represented := represented + {principal};
      }
      assert rows[..|rows|] == rows;
      assert represented == Represented(sheet, mandates, a, eligible);
      AttendingIsSound(sheet, mandates, a, ids);
      AttendanceMeans(sheet, mandates, a, ids);
      var attending := |present| + |represented|;
      var needed := -(-(|ids| as real * threshold)).Floor;
      q := Quorum(|ids|, |present|, |represented|, attending, |ids| > 0 && attending >= needed);
    }
  }
}
