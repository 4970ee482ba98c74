// The governance store: guarded inserts and updates, each proved to be one step of the
// state machine of module Governance or to change nothing, with the exact guard that fails.

module GovernanceStore {
  import opened Options
  import opened Sequences
  import opened Sorting
  import opened Text

  import opened Governance
  import opened MinutesText

  datatype Error =
    | NameMissing | BadStatus | AssemblyNotFound | NotDraft | NotConvoked | WordingMissing
    | BallotNotOpen | BadChoice | VoterInactive | StatusUnknown | AlreadyVoted | NotClosable
    | BallotNotClosed | AlreadyRecorded | RecordsPending | MinutesExist

  datatype Outcome = Done(id: Id) | Failed(error: Error)

  datatype Group = Group(choice: string, n: nat)

  /** What `GROUP BY choice` returns for one resolution, in any order. */
  ghost predicate GroupedBy(votes: seq<Vote>, r: Id, groups: seq<Group>) {
    && (forall i, j :: 0 <= i < j < |groups| ==> groups[i].choice != groups[j].choice)
    && (forall g :: g in groups ==> g.n == Count(votes, r, g.choice) > 0)
    && (forall c :: Count(votes, r, c) > 0 ==> exists g :: g in groups && g.choice == c)
  }

  lemma {:induction false} CountIsPositive(votes: seq<Vote>, r: Id, choice: string)
    ensures Count(votes, r, choice) > 0 <==> exists v :: v in votes && v.resolution == r && v.choice == choice
    decreases |votes|
  {
    if votes != [] {
      var init := votes[..|votes| - 1];
      CountIsPositive(init, r, choice);
      assert votes == init + [votes[|votes| - 1]];
    }
  }

  function GroupSize(groups: seq<Group>, choice: string): nat {
    if groups == [] then 0
    else
      var last := groups[|groups| - 1];
      GroupSize(groups[..|groups| - 1], choice) + (if last.choice == choice then last.n else 0)
  }

  lemma {:induction false} GroupSizeOf(groups: seq<Group>, choice: string)
    requires forall i, j :: 0 <= i < j < |groups| ==> groups[i].choice != groups[j].choice
    ensures (forall g :: g in groups ==> g.choice != choice) ==> GroupSize(groups, choice) == 0
    ensures forall g :: g in groups && g.choice == choice ==> GroupSize(groups, choice) == g.n
    decreases |groups|
  {
    if groups != [] {
      var init, last := groups[..|groups| - 1], groups[|groups| - 1];
      GroupSizeOf(init, choice);
      assert groups == init + [last];
      forall g | g in init ensures g.choice != last.choice {}
    }
  }

  lemma GroupSizeIsCount(votes: seq<Vote>, r: Id, groups: seq<Group>, choice: string)
    requires GroupedBy(votes, r, groups)
    ensures GroupSize(groups, choice) == Count(votes, r, choice)
  {
    GroupSizeOf(groups, choice);
    if Count(votes, r, choice) > 0 {
      var g :| g in groups && g.choice == choice;
    } else {
      forall g | g in groups ensures g.choice != choice {}
    }
  }

  function ById(): (Id, Id) -> bool { (x: Id, y: Id) => x <= y }

  function Earlier(): (Deliberation, Deliberation) -> bool {
    (d: Deliberation, e: Deliberation) => d.recordedAt < e.recordedAt || (d.recordedAt == e.recordedAt && d.id <= e.id)
  }

  class Store {
    var assemblies: map<Id, Assembly>
    var resolutions: map<Id, Resolution>
    var votes: seq<Vote>
    var register: seq<Deliberation>
    var minutes: map<Id, Minutes>
    var nextId: Id
    var clock: int

    function S(): State
      reads this
    {
      State(assemblies, resolutions, votes, register, minutes, nextId, clock)
    }

    constructor ()
      ensures S() == Empty && Inv(S())
    {
      assemblies, resolutions, votes, register, minutes, nextId, clock := map[], map[], [], [], map[], 0, 0;
    }

    method Create(name: string, agenda: string, status: string, scheduledAt: string) returns (r: Outcome)
      requires Inv(S())
      modifies this
      ensures Inv(S()) && Next(old(S()), S())
      ensures r == Failed(NameMissing) <==> Trim(name) == ""
      ensures r == Failed(BadStatus) <==>
        Trim(name) != "" && Trim(status) != "" && status !in {"drafting", "convoked", "cancelled"}
      ensures r.Done? <==> r != Failed(NameMissing) && r != Failed(BadStatus)
      ensures r.Failed? ==> S() == old(S())
      ensures r.Done? ==> r.id == old(nextId) && S() == old(S()).(
        assemblies := old(assemblies)[r.id := Assembly(
          Trim(name), Trim(agenda), if Trim(status) == "" then "drafting" else status, Trim(scheduledAt))],
        nextId := r.id + 1)
    {
      if Trim(name) == "" {
        return Failed(NameMissing);
      }
      var st := if Trim(status) == "" then "drafting" else status;
      if st !in ASSEMBLY_STATUSES {
        return Failed(BadStatus);
      }
      var id := nextId;
      var asm := Assembly(Trim(name), Trim(agenda), st, Trim(scheduledAt));
      assemblies, nextId := assemblies[id := asm], nextId + 1;
      assert AssemblyCreated(old(S()), S(), asm);
      NextKeepsInv(old(S()), S());
      return Done(id);
    }

    method MarkConvoked(id: Id) returns (r: Outcome)
      requires Inv(S())
      modifies this
      ensures Inv(S()) && Next(old(S()), S())
      ensures r == Failed(AssemblyNotFound) <==> id !in old(assemblies)
      ensures r == Failed(NotDraft) <==> id in old(assemblies) && old(assemblies)[id].status != "drafting"
      ensures r.Failed? ==> S() == old(S())
      ensures r.Done? <==> id in old(assemblies) && old(assemblies)[id].status == "drafting"
      ensures r.Done? ==>
        S() == old(S()).(assemblies := old(assemblies)[id := old(assemblies)[id].(status := "convoked")])
    {
      // UPDATE ... WHERE id = ? AND status = 'drafting', then the affected-row count
      var affected := 0;
      if id in assemblies && assemblies[id].status == "drafting" {
        assemblies := assemblies[id := assemblies[id].(status := "convoked")];
        affected := 1;
        assert AssemblyConvoked(old(S()), S(), id);
      }
      NextKeepsInv(old(S()), S());
      if affected == 0 {
        return Failed(if id in assemblies then NotDraft else AssemblyNotFound);
      }
      return Done(id);
    }

    method OpenResolution(a: Id, text: string) returns (r: Outcome)
      requires Inv(S())
      modifies this
      ensures Inv(S()) && Next(old(S()), S())
      ensures r == Failed(WordingMissing) <==> Trim(text) == ""
      ensures r == Failed(AssemblyNotFound) <==> Trim(text) != "" && a !in old(assemblies)
      ensures r == Failed(NotConvoked) <==>
        Trim(text) != "" && a in old(assemblies) && old(assemblies)[a].status != "convoked"
      ensures r.Failed? ==> S() == old(S())
      ensures r.Done? <==> Trim(text) != "" && a in old(assemblies) && old(assemblies)[a].status == "convoked"
      ensures r.Done? ==> r.id == old(nextId) && S() == old(S()).(
        resolutions := old(resolutions)[r.id := Resolution(a, Trim(text), "open")], nextId := r.id + 1)
    {
      if Trim(text) == "" {
        return Failed(WordingMissing);
      }
      if a !in assemblies {
        return Failed(AssemblyNotFound);
      }
      if assemblies[a].status != "convoked" {
        return Failed(NotConvoked);
      }
      var id := nextId;
      resolutions, nextId := resolutions[id := Resolution(a, Trim(text), "open")], nextId + 1;
      assert ResolutionOpened(old(S()), S(), a, Trim(text));
      NextKeepsInv(old(S()), S());
      return Done(id);
    }

    /** `members` answers a user's membership status, or nothing when the lookup fails; no checker, no check. */
    method CastVote(members: Option<string -> Option<string>>, res: Id, voter: string, choice: string)
      returns (r: Outcome)
      requires Inv(S())
      modifies this
      ensures Inv(S()) && Next(old(S()), S())
      ensures r == Failed(BadChoice) <==> Trim(choice) !in {"pour", "contre", "abstention"}
      ensures r == Failed(BallotNotOpen) <==>
        && Trim(choice) in {"pour", "contre", "abstention"}
        && !(res in old(resolutions) && old(resolutions)[res].status == "open")
      ensures var guarded := Trim(choice) in {"pour", "contre", "abstention"}
          && res in old(resolutions) && old(resolutions)[res].status == "open";
        var status := if members.Some? then members.value(Trim(voter)) else Some("active");
        var voted := exists v :: v in old(votes) && v.resolution == res && v.voter == Trim(voter);
        && (r == Failed(StatusUnknown) <==> guarded && status == None)
        && (r == Failed(VoterInactive) <==> guarded && status.Some? && status != Some("active"))
        && (r == Failed(AlreadyVoted) <==> guarded && status == Some("active") && voted)
        && (r.Done? <==> guarded && status == Some("active") && !voted)
      ensures r.Failed? ==> S() == old(S())
      ensures r.Done? ==> r.id == old(nextId) && S() == old(S()).(
        votes := old(votes) + [Vote(res, Trim(voter), Trim(choice))], nextId := r.id + 1)
    {
      if Trim(choice) !in CHOICES {
        return Failed(BadChoice);
      }
      if res !in resolutions || resolutions[res].status != "open" {
        return Failed(BallotNotOpen);
      }
      if members.Some? {
        var status := members.value(Trim(voter));
        if status.None? {
          return Failed(StatusUnknown);
        }
        if status.value != "active" {
          return Failed(VoterInactive);
        }
      }
      if Voted(votes, res, Trim(voter)) {
        return Failed(AlreadyVoted);
      }
      var id := nextId;
      votes, nextId := votes + [Vote(res, Trim(voter), Trim(choice))], nextId + 1;
      assert VoteCast(old(S()), S(), Vote(res, Trim(voter), Trim(choice)));
      NextKeepsInv(old(S()), S());
      return Done(id);
    }

    method CloseResolution(res: Id) returns (r: Outcome)
      requires Inv(S())
      modifies this
      ensures Inv(S()) && Next(old(S()), S())
      ensures r.Done? <==> res in old(resolutions) && old(resolutions)[res].status == "open"
      ensures r.Done? ==>
        S() == old(S()).(resolutions := old(resolutions)[res := old(resolutions)[res].(status := "closed")])
      ensures r.Failed? ==> r.error == NotClosable && S() == old(S())
    {
      var affected := 0;
      if res in resolutions && resolutions[res].status == "open" {
        resolutions := resolutions[res := resolutions[res].(status := "closed")];
        affected := 1;
        assert ResolutionClosed(old(S()), S(), res);
      }
      NextKeepsInv(old(S()), S());
      if affected == 0 {
        return Failed(NotClosable);
      }
      return Done(res);
    }

    /** The cascade of a deleted account, which the schema declares on ballots. */
    method DeleteAccount(user: string)
      requires Inv(S())
      modifies this`votes
      ensures Inv(S()) && Next(old(S()), S()) && AccountDeleted(old(S()), S(), user)
    {
      var kept := [];
      for i := 0 to |votes|
        invariant kept == Without(votes[..i], user)
      {
        assert votes[..i + 1][..i] == votes[..i];
        if votes[i].voter != user {
          kept := kept + [votes[i]];
        }
      }
      assert votes[..|votes|] == votes;
      votes := kept;
      assert AccountDeleted(old(S()), S(), user);
      NextKeepsInv(old(S()), S());
    }

    method GroupByChoice(res: Id) returns (groups: seq<Group>)
      ensures GroupedBy(votes, res, groups)
    {
      groups := [];
      var rest := set v | v in votes && v.resolution == res :: v.choice;
      ghost var done := {};
      while rest != {}
        invariant done + rest == set v | v in votes && v.resolution == res :: v.choice
        invariant done !! rest
        invariant forall g :: g in groups ==> g.choice in done && g.n == Count(votes, res, g.choice) > 0
        invariant forall c :: c in done ==> Group(c, Count(votes, res, c)) in groups
        invariant forall i, j :: 0 <= i < j < |groups| ==> groups[i].choice != groups[j].choice
      {
        var c :| c in rest;
        CountIsPositive(votes, res, c);
        assert forall i :: 0 <= i < |groups| ==> groups[i] in groups;
        groups := groups + [Group(c, Count(votes, res, c))];
        rest, done := rest - {c}, done + {c};
      }
      forall c | Count(votes, res, c) > 0 ensures exists g :: g in groups && g.choice == c {
        CountIsPositive(votes, res, c);
        assert Group(c, Count(votes, res, c)) in groups;
      }
    }

    /** The ballots by choice, whatever order the groups come in. */
    method Tally(res: Id) returns (t: Governance.Tally)
      requires Inv(S())
      ensures t == TallyOf(votes, res)
      ensures t.pour == |set v | v in votes && v.resolution == res && v.choice == "pour"|
      ensures t.contre == |set v | v in votes && v.resolution == res && v.choice == "contre"|
      ensures t.abstention == |set v | v in votes && v.resolution == res && v.choice == "abstention"|
      ensures t.total == |set v | v in votes && v.resolution == res|
    {
      var groups := GroupByChoice(res);
      t := Governance.Tally(0, 0, 0, 0);
      for i := 0 to |groups|
        invariant t.pour == GroupSize(groups[..i], "pour")
        invariant t.contre == GroupSize(groups[..i], "contre")
        invariant t.abstention == GroupSize(groups[..i], "abstention")
        invariant t.total == t.pour + t.contre + t.abstention
      {
        var g := groups[i];
        assert groups[..i + 1][..i] == groups[..i];
        assert g.choice in CHOICES by {
          assert g in groups;
          CountIsPositive(votes, res, g.choice);
        }
        assert GroupSize(groups[..i], g.choice) == 0 by {
          forall h | h in groups[..i] ensures h.choice != g.choice {}
          GroupSizeOf(groups[..i], g.choice);
        }
        match g.choice {
          case "pour" => t := t.(pour := g.n);
          case "contre" => t := t.(contre := g.n);
          case "abstention" => t := t.(abstention := g.n);
          case _ =>
        }
        t := t.(total := t.total + g.n);
      }
      assert groups[..|groups|] == groups;
      CountIsSize(votes, res, "pour");
      CountIsSize(votes, res, "contre");
      CountIsSize(votes, res, "abstention");
      GroupSizeIsCount(votes, res, groups, "pour");
      GroupSizeIsCount(votes, res, groups, "contre");
      GroupSizeIsCount(votes, res, groups, "abstention");
    }

    method RecordDeliberation(res: Id, now: int) returns (r: Outcome)
      requires Inv(S()) && clock <= now
      modifies this
      ensures Inv(S()) && Next(old(S()), S())
      ensures var closed := res in old(resolutions) && old(resolutions)[res].status == "closed";
        var recorded := exists d :: d in old(register) && d.resolution == res;
        && (r == Failed(BallotNotClosed) <==> !closed)
        && (r == Failed(AlreadyRecorded) <==> closed && recorded)
        && (r.Done? <==> closed && !recorded)
      ensures r.Failed? ==> S() == old(S())
      ensures r.Done? ==> DeliberationRecorded(old(S()), S(), res, now)
      ensures r.Done? ==> r.id == old(nextId) && S() == old(S()).(
        register := old(register) + [Deliberation(
          r.id, old(resolutions)[res].assembly, res, old(resolutions)[res].wording, TallyOf(old(votes), res), now)],
        nextId := r.id + 1, clock := now)
    {
      if res !in resolutions || resolutions[res].status != "closed" {
        return Failed(BallotNotClosed);
      }
      var t := Tally(res);
      if Recorded(register, res) {
        return Failed(AlreadyRecorded);
      }
      var id := nextId;
      var d := Deliberation(id, resolutions[res].assembly, res, resolutions[res].wording, t, now);
      register, nextId, clock := register + [d], nextId + 1, now;
      assert DeliberationRecorded(old(S()), S(), res, now);
      NextKeepsInv(old(S()), S());
      return Done(id);
    }

    /** `ORDER BY recorded_at, id` gives the order of recording. */
    method ListRegister(a: Id) returns (out: seq<Deliberation>)
      requires Inv(S())
      ensures out == RegisterOf(register, a)
      ensures forall d :: d in out <==> d in register && d.assembly == a
      ensures forall i, j :: 0 <= i < j < |out| ==> out[i].recordedAt <= out[j].recordedAt && out[i].id < out[j].id
    {
      out := [];
      for i := 0 to |register|
        invariant out == RegisterOf(register[..i], a)
      {
        assert register[..i + 1][..i] == register[..i];
        if register[i].assembly == a {
          out := out + [register[i]];
        }
      }
      assert register[..|register|] == register;
      RegisterOfMeans(register, a, nextId, clock);
      SortOfSorted(Earlier(), out);
      out := Sort(Earlier(), out);
    }

    /** Ids grow with time, so `ORDER BY created_at, id` is the order of ids. */
    method ClosedUnrecorded(a: Id) returns (out: seq<Id>)
      ensures forall r :: r in out <==> r in Pending(S(), a)
      ensures forall i, j :: 0 <= i < j < |out| ==> out[i] <= out[j]
    {
      var found := [];
      var rest := Pending(S(), a);
      while rest != {}
        invariant rest <= Pending(S(), a)
        invariant forall r :: r in found <==> r in Pending(S(), a) - rest
      {
        var r :| r in rest;
        found, rest := found + [r], rest - {r};
      }
      out := Sort(ById(), found);
      SortSorts(ById(), found);
      assert forall r :: r in out <==> r in multiset(out);
      assert forall r :: r in found <==> r in multiset(found);
    }

    /** The guards that come before the text is composed. */
    method MinutesRefusal(a: Id) returns (e: Option<Error>)
      requires Inv(S())
      ensures e == Some(AssemblyNotFound) <==> a !in assemblies
      ensures e == Some(NotConvoked) <==> a in assemblies && assemblies[a].status != "convoked"
      ensures var pending := exists res ::
          && res in resolutions && resolutions[res].assembly == a && resolutions[res].status == "closed"
          && !exists d :: d in register && d.resolution == res;
        && (e == Some(RecordsPending) <==> a in assemblies && assemblies[a].status == "convoked" && pending)
        && (e == None <==> a in assemblies && assemblies[a].status == "convoked" && !pending)
      ensures e == None ==> Pending(S(), a) == {}
    {
      if a !in assemblies {
        return Some(AssemblyNotFound);
      }
      if assemblies[a].status != "convoked" {
        return Some(NotConvoked);
      }
      var pending := ClosedUnrecorded(a);
      if |pending| > 0 {
        assert pending[0] in Pending(S(), a);
        SomethingPending(S(), a, pending[0]);
        return Some(RecordsPending);
      }
      assert Pending(S(), a) == {};
      NothingPending(S(), a);
      return None;
    }

    method GenerateMinutes(a: Id) returns (r: Outcome)
      requires Inv(S())
      modifies this
      ensures Inv(S()) && Next(old(S()), S())
      ensures r == Failed(AssemblyNotFound) <==> a !in old(assemblies)
      ensures r == Failed(NotConvoked) <==> a in old(assemblies) && old(assemblies)[a].status != "convoked"
      ensures var convoked := a in old(assemblies) && old(assemblies)[a].status == "convoked";
        var pending := exists res ::
          && res in old(resolutions) && old(resolutions)[res].assembly == a && old(resolutions)[res].status == "closed"
          && !exists d :: d in old(register) && d.resolution == res;
        && (r == Failed(RecordsPending) <==> convoked && pending)
        && (r == Failed(MinutesExist) <==> convoked && !pending && a in old(minutes))
        && (r.Done? <==> convoked && !pending && a !in old(minutes))
      ensures r.Failed? ==> S() == old(S())
      ensures r.Done? ==> MinutesGenerated(old(S()), S(), a)
      ensures r.Done? ==>
        && r.id == old(nextId) && a in minutes && minutes[a].id == r.id
        && S() == old(S()).(minutes := old(minutes)[a := minutes[a]], nextId := r.id + 1)
      // the text gives back number, wording and counts of each entry of the assembly
      ensures r.Done? ==> var listed := RegisterOf(old(register), a);
        (ReadMinutes(minutes[a].body) == Some(Readings(listed)) <==> forall d :: d in listed ==> '\n' !in d.wording)
    {
      var refusal := MinutesRefusal(a);
      if refusal.Some? {
        return Failed(refusal.value);
      }
      var listed := ListRegister(a);
      var body := ComposeBody(assemblies[a], listed);
      if a in minutes {
        return Failed(MinutesExist);
      }
      var id := nextId;
      minutes, nextId := minutes[a := Minutes(id, body)], nextId + 1;
      assert MinutesGenerated(old(S()), S(), a);
      NextKeepsInv(old(S()), S());
      return Done(id);
    }
  }

  lemma RegisterOfMeans(register: seq<Deliberation>, a: Id, nextId: Id, clock: int)
    requires InOrder(register, nextId, clock)
    ensures var out := RegisterOf(register, a);
      && (forall d :: d in out <==> d in register && d.assembly == a)
      && (forall i, j :: 0 <= i < j < |out| ==> out[i].recordedAt <= out[j].recordedAt && out[i].id < out[j].id)
      && Sorted(Earlier(), out)
  {
    var out := RegisterOf(register, a);
    RegisterOfOrder(register, a, nextId, clock);
    forall d ensures d in out <==> d in register && d.assembly == a { RegisterOfHolds(register, a, d); }
    forall i, j | 0 <= i < j < |out| ensures out[i].recordedAt <= out[j].recordedAt && out[i].id < out[j].id {
      assert Precedes(out[i], out[j]);
    }
  }

  lemma NothingPending(s: State, a: Id)
    requires Pending(s, a) == {}
    ensures !exists res ::
      && res in s.resolutions && s.resolutions[res].assembly == a && s.resolutions[res].status == "closed"
      && !exists d :: d in s.register && d.resolution == res
  {
    forall res | res in s.resolutions && s.resolutions[res].assembly == a && s.resolutions[res].status == "closed"
      ensures exists d :: d in s.register && d.resolution == res
    {
      assert res !in Pending(s, a);
    }
  }

  lemma SomethingPending(s: State, a: Id, res: Id)
    requires res in Pending(s, a)
    ensures exists res ::
      && res in s.resolutions && s.resolutions[res].assembly == a && s.resolutions[res].status == "closed"
      && !exists d :: d in s.register && d.resolution == res
  {
    assert res in s.resolutions && s.resolutions[res].assembly == a && s.resolutions[res].status == "closed";
  }

  method ComposeHeading(asm: Assembly) returns (b: string)
    ensures b == Heading(asm)
    ensures b == "Procès-verbal — " + asm.name + "\n\n" + "Ordre du jour :\n"
      + (if Trim(asm.agenda) == "" then "(non renseigné)" else Trim(asm.agenda)) + "\n\n"
      + "Délibérations consignées :\n"
  {
    var agenda := Trim(asm.agenda);
    if agenda == "" {
      agenda := "(non renseigné)";
    }
    b := "Procès-verbal — " + asm.name + "\n\n" + "Ordre du jour :\n" + agenda + "\n\n"
      + "Délibérations consignées :\n";
  }

  lemma AppendLine(heading: string, listed: seq<Deliberation>, i: nat)
    requires i < |listed|
    ensures heading + Lines(listed[..i]) + Line(i, listed[i]) == heading + Lines(listed[..i + 1])
  {
    assert listed[..i + 1][..i] == listed[..i];
    Associative(heading, Lines(listed[..i]), Line(i, listed[i]));
  }

  method ComposeLine(i: nat, d: Deliberation) returns (line: string)
    ensures line == Line(i, d)
  {
    line := Decimal(i + 1) + ". " + d.wording + " — Pour : " + Decimal(d.tally.pour)
      + " · Contre : " + Decimal(d.tally.contre) + " · Abstention : " + Decimal(d.tally.abstention)
      + " · Total des votes : " + Decimal(d.tally.total) + "\n";
  }

  /** The text is read back entry by entry, in order, exactly if no wording holds a line break. */
  method ComposeBody(asm: Assembly, listed: seq<Deliberation>) returns (b: string)
    ensures b == Body(asm, listed)
    ensures ReadMinutes(b) == Some(Readings(listed)) <==> forall d :: d in listed ==> '\n' !in d.wording
    ensures "Procès-verbal — " + asm.name + "\n\n" + "Ordre du jour :\n"
      + (if Trim(asm.agenda) == "" then "(non renseigné)" else Trim(asm.agenda)) + "\n\n"
      + "Délibérations consignées :\n"
      <= b
  {
    MinutesRead(asm, listed);
    b := ComposeHeading(asm);
    if |listed| == 0 {
      b := b + "Aucune délibération consignée.\n";
      return;
    }
    ghost var heading := b;
    for i := 0 to |listed|
      invariant heading <= b && b == heading + Lines(listed[..i])
    {
      AppendLine(heading, listed, i);
      var line := ComposeLine(i, listed[i]);
      b := b + line;
    }
    assert listed[..|listed|] == listed;
  }
}
