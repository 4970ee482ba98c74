// Assemblies, resolutions, ballots, the register of deliberations and the minutes, as a
// state machine. Steps are relations between states; the invariant and the whole-run
// theorems are about every run of these steps. Accounts may be deleted at any time, which
// takes their ballots along.

module Governance {
  import opened Text

  type Id = nat

  datatype Assembly = Assembly(name: string, agenda: string, status: string, scheduledAt: string)
  datatype Resolution = Resolution(assembly: Id, wording: string, status: string)
  datatype Vote = Vote(resolution: Id, voter: string, choice: string)
  datatype Tally = Tally(pour: nat, contre: nat, abstention: nat, total: nat)
  datatype Deliberation = Deliberation(
    id: Id, assembly: Id, resolution: Id, wording: string, tally: Tally, recordedAt: int)
  datatype Minutes = Minutes(id: Id, body: string)

  /** Ids are drawn from one growing counter; `clock` is the latest recording time. */
  datatype State = State(
    assemblies: map<Id, Assembly>, resolutions: map<Id, Resolution>, votes: seq<Vote>,
    register: seq<Deliberation>, minutes: map<Id, Minutes>, nextId: Id, clock: int)

  const ASSEMBLY_STATUSES := {"drafting", "convoked", "cancelled"}
  const CHOICES := {"pour", "contre", "abstention"}

  predicate HasStatus(s: State, a: Id, status: string) { a in s.assemblies && s.assemblies[a].status == status }
  predicate IsOpen(s: State, r: Id) { r in s.resolutions && s.resolutions[r].status == "open" }
  predicate IsClosed(s: State, r: Id) { r in s.resolutions && s.resolutions[r].status == "closed" }
  predicate Voted(votes: seq<Vote>, r: Id, voter: string) {
    exists v :: v in votes && v.resolution == r && v.voter == voter
  }
  predicate Recorded(register: seq<Deliberation>, r: Id) { exists d :: d in register && d.resolution == r }

  // ----- counting

  function Count(votes: seq<Vote>, r: Id, choice: string): nat {
    if votes == [] then 0
    else
      var last := votes[|votes| - 1];
      Count(votes[..|votes| - 1], r, choice) + (if last.resolution == r && last.choice == choice then 1 else 0)
  }

  function TallyOf(votes: seq<Vote>, r: Id): Tally {
    var pour, contre, abstention := Count(votes, r, "pour"), Count(votes, r, "contre"), Count(votes, r, "abstention");
    Tally(pour, contre, abstention, pour + contre + abstention)
  }

  function Voters(votes: seq<Vote>, r: Id): set<string> { set v | v in votes && v.resolution == r :: v.voter }

  ghost predicate OneVoteEach(votes: seq<Vote>) {
    && (forall v :: v in votes ==> v.choice in CHOICES)
    && (forall i, j :: 0 <= i < j < |votes| ==>
      votes[i].resolution != votes[j].resolution || votes[i].voter != votes[j].voter)
  }

  lemma TotalNext(votes: seq<Vote>, v: Vote, r: Id)
    requires v.choice in CHOICES
    ensures TallyOf(votes + [v], r).total == TallyOf(votes, r).total + if v.resolution == r then 1 else 0
  {
    assert (votes + [v])[..|votes|] == votes;
  }

  lemma VotersNext(votes: seq<Vote>, v: Vote, r: Id)
    ensures Voters(votes + [v], r) == if v.resolution == r then Voters(votes, r) + {v.voter} else Voters(votes, r)
  {
    forall w | w in votes ensures w in votes + [v] {}
    assert v in votes + [v];
  }

  lemma OneVoteInit(votes: seq<Vote>, v: Vote)
    requires OneVoteEach(votes + [v])
    ensures OneVoteEach(votes) && v.choice in CHOICES && v.voter !in Voters(votes, v.resolution) && v !in votes
  {
    var all := votes + [v];
    assert v in all && forall w :: w in votes ==> w in all;
    forall i, j | 0 <= i < j < |votes|
      ensures votes[i].resolution != votes[j].resolution || votes[i].voter != votes[j].voter
    {
      assert all[i] == votes[i] && all[j] == votes[j];
    }
    forall w | w in votes ensures w.resolution != v.resolution || w.voter != v.voter {
      var i :| 0 <= i < |votes| && votes[i] == w;
      assert all[i] == w && all[|votes|] == v;
    }
  }

  /** A tally counts each voter once. */
  lemma {:induction false} TotalIsVoters(votes: seq<Vote>, r: Id)
    requires OneVoteEach(votes)
    ensures TallyOf(votes, r).total == |Voters(votes, r)|
    decreases |votes|
  {
    if votes != [] {
      var init, last := votes[..|votes| - 1], votes[|votes| - 1];
      assert votes == init + [last];
      OneVoteInit(init, last);
      TotalIsVoters(init, r);
      TotalNext(init, last, r);
      VotersNext(init, last, r);
    }
  }

  function Ballots(votes: seq<Vote>, r: Id): set<Vote> { set v | v in votes && v.resolution == r }

  function Chosen(votes: seq<Vote>, r: Id, choice: string): set<Vote> {
    set v | v in votes && v.resolution == r && v.choice == choice
  }

  lemma BallotsNext(votes: seq<Vote>, v: Vote, r: Id, choice: string)
    ensures Ballots(votes + [v], r) == Ballots(votes, r) + if v.resolution == r then {v} else {}
    ensures Chosen(votes + [v], r, choice) ==
      Chosen(votes, r, choice) + if v.resolution == r && v.choice == choice then {v} else {}
  {
  }

  /** A count is the number of ballots, and the total that of all ballots on the resolution. */
  lemma {:induction false} CountIsSize(votes: seq<Vote>, r: Id, choice: string)
    requires OneVoteEach(votes)
    ensures Count(votes, r, choice) == |Chosen(votes, r, choice)|
    ensures TallyOf(votes, r).total == |Ballots(votes, r)|
    decreases |votes|
  {
    if votes != [] {
      var init, last := votes[..|votes| - 1], votes[|votes| - 1];
      assert votes == init + [last];
      OneVoteInit(init, last);
      CountIsSize(init, r, choice);
      BallotsNext(init, last, r, choice);
      TotalNext(init, last, r);
    }
  }

  lemma CountOther(votes: seq<Vote>, v: Vote, r: Id)
    requires v.resolution != r
    ensures TallyOf(votes + [v], r) == TallyOf(votes, r)
  {
    assert (votes + [v])[..|votes|] == votes;
  }

  // ----- ballots of a deleted account

  /** `ON DELETE CASCADE` of the voter. */
  function Without(votes: seq<Vote>, user: string): seq<Vote> {
    if votes == [] then []
    else
      var last := votes[|votes| - 1];
      Without(votes[..|votes| - 1], user) + (if last.voter == user then [] else [last])
  }

  lemma {:induction false} WithoutHolds(votes: seq<Vote>, user: string, v: Vote)
    ensures v in Without(votes, user) <==> v in votes && v.voter != user
    decreases |votes|
  {
    if votes != [] {
      WithoutHolds(votes[..|votes| - 1], user, v);
      assert votes == votes[..|votes| - 1] + [votes[|votes| - 1]];
    }
  }

  lemma {:induction false} WithoutKeepsOneVote(votes: seq<Vote>, user: string)
    requires OneVoteEach(votes)
    ensures OneVoteEach(Without(votes, user))
    decreases |votes|
  {
    if votes != [] {
      var init, last := votes[..|votes| - 1], votes[|votes| - 1];
      assert votes == init + [last];
      OneVoteInit(init, last);
      WithoutKeepsOneVote(init, user);
      forall v | v in Without(init, user) ensures v.resolution != last.resolution || v.voter != last.voter {
        WithoutHolds(init, user, v);
      }
      OneVoteNext(Without(init, user), last);
    }
  }

  lemma OneVoteNext(votes: seq<Vote>, v: Vote)
    requires OneVoteEach(votes) && v.choice in CHOICES
    requires forall w :: w in votes ==> w.resolution != v.resolution || w.voter != v.voter
    ensures OneVoteEach(votes + [v])
  {
    forall i | 0 <= i < |votes| ensures votes[i].resolution != v.resolution || votes[i].voter != v.voter {
      assert votes[i] in votes;
    }
  }

  /** No column of t exceeds that of u. */
  predicate AtMost(t: Tally, u: Tally) {
    t.pour <= u.pour && t.contre <= u.contre && t.abstention <= u.abstention && t.total <= u.total
  }

  lemma TallyNext(votes: seq<Vote>, v: Vote, r: Id)
    requires v.choice in CHOICES
    ensures AtMost(TallyOf(votes, r), TallyOf(votes + [v], r))
    ensures TallyOf(votes + [v], r) == Added(TallyOf(votes, r), v, r)
  {
    assert (votes + [v])[..|votes|] == votes;
  }

  /** One ballot more, when it is on this resolution. */
  function Added(t: Tally, v: Vote, r: Id): Tally {
    if v.resolution != r then t
    else Tally(
      t.pour + (if v.choice == "pour" then 1 else 0), t.contre + (if v.choice == "contre" then 1 else 0),
      t.abstention + (if v.choice == "abstention" then 1 else 0), t.total + 1)
  }

  /** Deleting an account takes votes from a tally exactly when the account voted there, and never adds any. */
  lemma {:induction false} DeletionExact(votes: seq<Vote>, user: string, r: Id)
    requires OneVoteEach(votes)
    ensures AtMost(TallyOf(Without(votes, user), r), TallyOf(votes, r))
    ensures TallyOf(Without(votes, user), r) == TallyOf(votes, r) <==> !Voted(votes, r, user)
    decreases |votes|
  {
    if votes != [] {
      var init, last := votes[..|votes| - 1], votes[|votes| - 1];
      assert votes == init + [last];
      OneVoteInit(init, last);
      DeletionExact(init, user, r);
      TallyNext(init, last, r);
      TallyNext(Without(init, user), last, r);
      assert Without(votes, user) == if last.voter == user then Without(init, user) else Without(init, user) + [last];
      VotedNext(init, last, r, user);
    }
  }

  lemma VotedNext(votes: seq<Vote>, v: Vote, r: Id, user: string)
    ensures Voted(votes + [v], r, user) <==> Voted(votes, r, user) || (v.resolution == r && v.voter == user)
  {
    if w :| w in votes && w.resolution == r && w.voter == user { assert w in votes + [v]; }
    if v.resolution == r && v.voter == user { assert v in votes + [v]; }
  }

  // ----- the text of the minutes

  function RegisterOf(register: seq<Deliberation>, a: Id): seq<Deliberation> {
    if register == [] then []
    else
      var n := |register| - 1;
      RegisterOf(register[..n], a) + (if register[n].assembly == a then [register[n]] else [])
  }

  lemma {:induction false} RegisterOfHolds(register: seq<Deliberation>, a: Id, d: Deliberation)
    ensures d in RegisterOf(register, a) <==> d in register && d.assembly == a
    decreases |register|
  {
    if register != [] {
      RegisterOfHolds(register[..|register| - 1], a, d);
      assert register == register[..|register| - 1] + [register[|register| - 1]];
    }
  }

  function Line(i: nat, d: Deliberation): string {
    Decimal(i + 1) + ". " + d.wording + " — Pour : " + Decimal(d.tally.pour) + " · Contre : " + Decimal(d.tally.contre)
      + " · Abstention : " + Decimal(d.tally.abstention) + " · Total des votes : " + Decimal(d.tally.total) + "\n"
  }

  function Lines(register: seq<Deliberation>): string {
    if register == [] then "" else Lines(register[..|register| - 1]) + Line(|register| - 1, register[|register| - 1])
  }

  function Heading(asm: Assembly): string {
    "Procès-verbal — " + asm.name + "\n\n" + "Ordre du jour :\n"
      + (if Trim(asm.agenda) == "" then "(non renseigné)" else Trim(asm.agenda)) + "\n\n"
      + "Délibérations consignées :\n"
  }

  function Body(asm: Assembly, register: seq<Deliberation>): string {
    Heading(asm) + if register == [] then "Aucune délibération consignée.\n" else Lines(register)
  }

  // ----- steps

  ghost predicate AssemblyCreated(s: State, s': State, asm: Assembly) {
    && asm.name != "" && asm.status in ASSEMBLY_STATUSES
    && s' == s.(assemblies := s.assemblies[s.nextId := asm], nextId := s.nextId + 1)
  }

  ghost predicate AssemblyConvoked(s: State, s': State, a: Id) {
    HasStatus(s, a, "drafting") && s' == s.(assemblies := s.assemblies[a := s.assemblies[a].(status := "convoked")])
  }

  ghost predicate ResolutionOpened(s: State, s': State, a: Id, wording: string) {
    && HasStatus(s, a, "convoked") && wording != ""
    && s' == s.(resolutions := s.resolutions[s.nextId := Resolution(a, wording, "open")], nextId := s.nextId + 1)
  }

  ghost predicate VoteCast(s: State, s': State, v: Vote) {
    && IsOpen(s, v.resolution) && v.choice in CHOICES && !Voted(s.votes, v.resolution, v.voter)
    && s' == s.(votes := s.votes + [v], nextId := s.nextId + 1)
  }

  ghost predicate ResolutionClosed(s: State, s': State, r: Id) {
    IsOpen(s, r) && s' == s.(resolutions := s.resolutions[r := s.resolutions[r].(status := "closed")])
  }

  ghost predicate DeliberationRecorded(s: State, s': State, r: Id, now: int) {
    && IsClosed(s, r) && !Recorded(s.register, r) && s.clock <= now
    && var d := Deliberation(
        s.nextId, s.resolutions[r].assembly, r, s.resolutions[r].wording, TallyOf(s.votes, r), now);
    s' == s.(register := s.register + [d], nextId := s.nextId + 1, clock := now)
  }

  ghost predicate MinutesGenerated(s: State, s': State, a: Id) {
    && HasStatus(s, a, "convoked") && Pending(s, a) == {} && a !in s.minutes
    && var m := Minutes(s.nextId, Body(s.assemblies[a], RegisterOf(s.register, a)));
    s' == s.(minutes := s.minutes[a := m], nextId := s.nextId + 1)
  }

  /** Any account, at any time; nothing else refers to accounts here. */
  ghost predicate AccountDeleted(s: State, s': State, user: string) {
    s' == s.(votes := Without(s.votes, user))
  }

  /** Closed resolutions of the assembly that the register does not hold yet. */
  function Pending(s: State, a: Id): set<Id> {
    set r | r in s.resolutions && s.resolutions[r].assembly == a && IsClosed(s, r) && !Recorded(s.register, r)
  }

  function ClosedOf(s: State, a: Id): set<Id> {
    set r | r in s.resolutions && s.resolutions[r].assembly == a && IsClosed(s, r)
  }

  ghost predicate Next(s: State, s': State) {
    || s' == s
    || (exists asm :: AssemblyCreated(s, s', asm))
    || (exists a :: AssemblyConvoked(s, s', a))
    || (exists a, wording :: ResolutionOpened(s, s', a, wording))
    || (exists v :: VoteCast(s, s', v))
    || (exists r :: ResolutionClosed(s, s', r))
    || (exists r, now :: DeliberationRecorded(s, s', r, now))
    || (exists a :: MinutesGenerated(s, s', a))
    || (exists user :: AccountDeleted(s, s', user))
  }

  const Empty := State(map[], map[], [], [], map[], 0, 0)

  ghost predicate Run(run: seq<State>) {
    |run| > 0 && run[0] == Empty && forall i :: 0 <= i < |run| - 1 ==> NextAt(run, i)
  }

  ghost predicate NextAt(run: seq<State>, i: nat)
    requires i + 1 < |run|
  {
    Next(run[i], run[i + 1])
  }

  // ----- the invariant

  ghost predicate Inv(s: State) {
    && (forall a :: a in s.assemblies ==> a < s.nextId)
    && (forall r :: r in s.resolutions ==> r < s.nextId && HasStatus(s, s.resolutions[r].assembly, "convoked"))
    && OneVoteEach(s.votes) && (forall v :: v in s.votes ==> v.resolution in s.resolutions)
    && (forall d :: d in s.register ==> Frozen(s, d))
    && InOrder(s.register, s.nextId, s.clock)
    && (forall a :: a in s.minutes ==> HasStatus(s, a, "convoked"))
  }

  /** The entry is about a closed resolution, adds up, and is not exceeded by the ballots left. */
  ghost predicate Frozen(s: State, d: Deliberation) {
    && IsClosed(s, d.resolution)
    && d.assembly == s.resolutions[d.resolution].assembly && d.wording == s.resolutions[d.resolution].wording
    && d.tally.total == d.tally.pour + d.tally.contre + d.tally.abstention
    && AtMost(TallyOf(s.votes, d.resolution), d.tally)
  }

  ghost predicate InOrder(register: seq<Deliberation>, nextId: Id, clock: int) {
    && (forall d :: d in register ==> d.id < nextId && d.recordedAt <= clock)
    && (forall i, j :: 0 <= i < j < |register| ==> Precedes(register[i], register[j]))
  }

  predicate Precedes(d: Deliberation, e: Deliberation) {
    d.id < e.id && d.recordedAt <= e.recordedAt && d.resolution != e.resolution
  }

  /** What one step may not touch: register and minutes only grow, and names, agendas and convocations stay. */
  ghost predicate Keeps(s: State, s': State) {
    && s.register <= s'.register
    && (forall a :: a in s.minutes ==> a in s'.minutes && s'.minutes[a] == s.minutes[a])
    && (forall a :: HasStatus(s, a, "convoked") ==> a in s'.assemblies && s'.assemblies[a] == s.assemblies[a])
    && (forall r :: IsClosed(s, r) ==> IsClosed(s', r) && s'.resolutions[r] == s.resolutions[r])
  }

  lemma AssemblyStepKeeps(s: State, s': State)
    requires Inv(s)
    requires (exists asm :: AssemblyCreated(s, s', asm)) || (exists a :: AssemblyConvoked(s, s', a))
    ensures Keeps(s, s')
  {
  }

  lemma ResolutionStepKeeps(s: State, s': State)
    requires Inv(s)
    requires (exists a, wording :: ResolutionOpened(s, s', a, wording)) || (exists r :: ResolutionClosed(s, s', r))
    ensures Keeps(s, s')
  {
  }

  lemma RecordStepKeeps(s: State, s': State)
    requires Inv(s)
    requires (exists v :: VoteCast(s, s', v)) || (exists r, now :: DeliberationRecorded(s, s', r, now))
      || (exists a :: MinutesGenerated(s, s', a)) || (exists user :: AccountDeleted(s, s', user))
    ensures Keeps(s, s')
  {
  }

  lemma NextKeeps(s: State, s': State)
    requires Inv(s) && Next(s, s')
    ensures Keeps(s, s')
  {
    if (exists asm :: AssemblyCreated(s, s', asm)) || (exists a :: AssemblyConvoked(s, s', a)) {
      AssemblyStepKeeps(s, s');
    } else if (exists a, wording :: ResolutionOpened(s, s', a, wording)) || (exists r :: ResolutionClosed(s, s', r)) {
      ResolutionStepKeeps(s, s');
    } else if s' != s {
      RecordStepKeeps(s, s');
    }
  }

  lemma VoteKeepsInv(s: State, s': State, v: Vote)
    requires Inv(s) && VoteCast(s, s', v)
    ensures Inv(s')
  {
    forall d | d in s'.register ensures Frozen(s', d) {
      assert Frozen(s, d);
      CountOther(s.votes, v, d.resolution);
    }
    assert OneVoteEach(s'.votes) by {
      forall i | 0 <= i < |s.votes| ensures s.votes[i].resolution != v.resolution || s.votes[i].voter != v.voter {
        assert s.votes[i] in s.votes;
      }
    }
  }

  lemma RecordKeepsInv(s: State, s': State, r: Id, now: int)
    requires Inv(s) && DeliberationRecorded(s, s', r, now)
    ensures Inv(s')
  {
    var n := |s.register|;
    assert s'.register[..n] == s.register;
    forall d | d in s'.register ensures Frozen(s', d) {
      if d in s.register { assert Frozen(s, d); }
    }
    forall i, j | 0 <= i < j < |s'.register| ensures Precedes(s'.register[i], s'.register[j]) {
      assert s'.register[i] == s.register[i] && s.register[i] in s.register;
      if j < n { assert Precedes(s.register[i], s.register[j]); }
    }
  }

  lemma TableKeepsInv(s: State, s': State)
    requires Inv(s) && Keeps(s, s')
    requires s'.votes == s.votes && s'.register == s.register && s'.clock == s.clock && s'.nextId >= s.nextId
    requires forall a :: a in s'.assemblies ==> a < s'.nextId
    requires forall r :: r in s'.resolutions ==> r < s'.nextId && HasStatus(s', s'.resolutions[r].assembly, "convoked")
    requires s.resolutions.Keys <= s'.resolutions.Keys
    requires forall a :: a in s'.minutes ==> HasStatus(s', a, "convoked")
    ensures Inv(s')
  {
    forall d | d in s'.register ensures Frozen(s', d) { assert Frozen(s, d); }
  }

  lemma AssemblyStepKeepsInv(s: State, s': State)
    requires Inv(s)
    requires (exists asm :: AssemblyCreated(s, s', asm)) || (exists a :: AssemblyConvoked(s, s', a))
    ensures Inv(s')
  {
    AssemblyStepKeeps(s, s');
    TableKeepsInv(s, s');
  }

  lemma ResolutionStepKeepsInv(s: State, s': State)
    requires Inv(s)
    requires (exists a, wording :: ResolutionOpened(s, s', a, wording)) || (exists r :: ResolutionClosed(s, s', r))
    ensures Inv(s')
  {
    ResolutionStepKeeps(s, s');
    TableKeepsInv(s, s');
  }

  lemma MinutesKeepInv(s: State, s': State, a: Id)
    requires Inv(s) && MinutesGenerated(s, s', a)
    ensures Inv(s')
  {
    RecordStepKeeps(s, s');
    TableKeepsInv(s, s');
  }

  lemma DeletionKeepsInv(s: State, s': State, user: string)
    requires Inv(s) && AccountDeleted(s, s', user)
    ensures Inv(s')
  {
    WithoutKeepsOneVote(s.votes, user);
    forall v | v in s'.votes ensures v.resolution in s'.resolutions { WithoutHolds(s.votes, user, v); }
    forall d | d in s'.register ensures Frozen(s', d) {
      assert Frozen(s, d);
      DeletionExact(s.votes, user, d.resolution);
    }
  }

  lemma NextKeepsInv(s: State, s': State)
    requires Inv(s) && Next(s, s')
    ensures Inv(s')
  {
    if v :| VoteCast(s, s', v) {
      VoteKeepsInv(s, s', v);
    } else if r, now :| DeliberationRecorded(s, s', r, now) {
      RecordKeepsInv(s, s', r, now);
    } else if a :| MinutesGenerated(s, s', a) {
      MinutesKeepInv(s, s', a);
    } else if user :| AccountDeleted(s, s', user) {
      DeletionKeepsInv(s, s', user);
    } else if (exists asm :: AssemblyCreated(s, s', asm)) || (exists a :: AssemblyConvoked(s, s', a)) {
      AssemblyStepKeepsInv(s, s');
    } else if s' != s {
      ResolutionStepKeepsInv(s, s');
    }
  }

  // ----- whole-run theorems

  lemma {:induction false} Reachable(run: seq<State>, n: nat)
    requires Run(run) && n < |run|
    ensures Inv(run[n])
  {
    if n > 0 {
      Reachable(run, n - 1);
      assert NextAt(run, n - 1);
      NextKeepsInv(run[n - 1], run[n]);
    }
  }

  lemma StepKeeps(run: seq<State>, k: nat)
    requires Run(run) && k + 1 < |run|
    ensures Keeps(run[k], run[k + 1])
  {
    Reachable(run, k);
    assert NextAt(run, k);
    NextKeeps(run[k], run[k + 1]);
  }

  lemma {:induction false} Later(run: seq<State>, i: nat, j: nat)
    requires Run(run) && i <= j < |run|
    ensures Keeps(run[i], run[j])
    decreases j - i
  {
    if i < j {
      Later(run, i, j - 1);
      StepKeeps(run, j - 1);
      KeepsOn(run[i], run[j - 1], run[j]);
    }
  }

  lemma PrefixOn(s: seq<Deliberation>, t: seq<Deliberation>, u: seq<Deliberation>)
    requires s <= t <= u
    ensures s <= u
  {
  }

  lemma KeepsOn(s: State, t: State, u: State)
    requires Keeps(s, t) && Keeps(t, u)
    ensures Keeps(s, u)
  {
    PrefixOn(s.register, t.register, u.register);
    forall a | HasStatus(s, a, "convoked") ensures a in u.assemblies && u.assemblies[a] == s.assemblies[a] {
      assert HasStatus(t, a, "convoked");
    }
  }

  /** In step k an account is deleted that has a ballot on the resolution. */
  ghost predicate LeftAt(run: seq<State>, k: nat, r: Id, user: string)
    requires k + 1 < |run|
  {
    AccountDeleted(run[k], run[k + 1], user) && Voted(run[k].votes, r, user)
  }

  ghost predicate VoterLeft(run: seq<State>, i: nat, j: nat, r: Id)
    requires j < |run|
  {
    exists k, user :: i <= k < j && LeftAt(run, k, r, user)
  }

  lemma StepTally(s: State, s': State, r: Id)
    requires Inv(s) && Next(s, s') && IsClosed(s, r)
    ensures AtMost(TallyOf(s'.votes, r), TallyOf(s.votes, r))
    ensures TallyOf(s'.votes, r) == TallyOf(s.votes, r) <==>
      !exists user :: AccountDeleted(s, s', user) && Voted(s.votes, r, user)
  {
    forall user | AccountDeleted(s, s', user)
      ensures AtMost(TallyOf(s'.votes, r), TallyOf(s.votes, r))
      ensures TallyOf(s'.votes, r) == TallyOf(s.votes, r) <==> !Voted(s.votes, r, user)
    {
      DeletionExact(s.votes, user, r);
    }
    if v :| VoteCast(s, s', v) {
      CountOther(s.votes, v, r);
    }
  }

  /** Live counts of a closed resolution only fall, and fall exactly when one of its voters leaves. */
  lemma {:induction false} LiveCounts(run: seq<State>, i: nat, j: nat, r: Id)
    requires Run(run) && i <= j < |run| && IsClosed(run[i], r)
    ensures AtMost(TallyOf(run[j].votes, r), TallyOf(run[i].votes, r))
    ensures TallyOf(run[j].votes, r) == TallyOf(run[i].votes, r) <==> !VoterLeft(run, i, j, r)
    decreases j - i
  {
    if i < j {
      var k := j - 1;
      LiveCounts(run, i, k, r);
      StaysClosed(run, i, k, r);
      StepTallyAt(run, k, r);
      VoterLeftNext(run, i, k, r);
    }
  }

  lemma StaysClosed(run: seq<State>, i: nat, j: nat, r: Id)
    requires Run(run) && i <= j < |run| && IsClosed(run[i], r)
    ensures IsClosed(run[j], r)
  {
    Later(run, i, j);
  }

  lemma StepTallyAt(run: seq<State>, k: nat, r: Id)
    requires Run(run) && k + 1 < |run| && IsClosed(run[k], r)
    ensures AtMost(TallyOf(run[k + 1].votes, r), TallyOf(run[k].votes, r))
    ensures TallyOf(run[k + 1].votes, r) == TallyOf(run[k].votes, r) <==> !exists user :: LeftAt(run, k, r, user)
  {
    var s, s' := run[k], run[k + 1];
    Reachable(run, k);
    assert NextAt(run, k);
    StepTally(s, s', r);
    forall user ensures LeftAt(run, k, r, user) <==> AccountDeleted(s, s', user) && Voted(s.votes, r, user) {}
  }

  lemma VoterLeftNext(run: seq<State>, i: nat, k: nat, r: Id)
    requires i <= k && k + 1 < |run|
    ensures VoterLeft(run, i, k + 1, r) <==> VoterLeft(run, i, k, r) || exists user :: LeftAt(run, k, r, user)
  {
    if user :| LeftAt(run, k, r, user) {
      assert VoterLeft(run, i, k + 1, r);
    }
  }

  /** The entry that a step records. */
  function Entry(s: State, s': State): Deliberation
    requires |s.register| < |s'.register|
  {
    s'.register[|s.register|]
  }

  /**
   * A recorded deliberation stays for ever with the counts of that moment, one per voter; live counts never exceed
   * them, and equal them exactly as long as no account with a ballot on the resolution is deleted.
   */
  lemma FrozenForever(run: seq<State>, m: nat, j: nat, r: Id, now: int)
    requires Run(run) && m < j < |run| && DeliberationRecorded(run[m], run[m + 1], r, now)
    ensures var d := Entry(run[m], run[m + 1]);
      && d in run[j].register && d.resolution == r && IsClosed(run[j], r)
      && d.tally == TallyOf(run[m].votes, r) && d.tally.total == |Voters(run[m].votes, r)|
      && d.tally.total == d.tally.pour + d.tally.contre + d.tally.abstention
      && AtMost(TallyOf(run[j].votes, r), d.tally)
      && (TallyOf(run[j].votes, r) == d.tally <==> !VoterLeft(run, m + 1, j, r))
  {
    assert Entry(run[m], run[m + 1]) in run[m + 1].register;
    Reachable(run, m);
    TotalIsVoters(run[m].votes, r);
    Later(run, m + 1, j);
    LiveCounts(run, m + 1, j, r);
  }

  /** Every entry was recorded by a step of the run. */
  lemma {:induction false} EntryWasRecorded(run: seq<State>, j: nat, d: Deliberation) returns (m: nat)
    requires Run(run) && j < |run| && d in run[j].register
    ensures m < j && DeliberationRecorded(run[m], run[m + 1], d.resolution, d.recordedAt)
    ensures Entry(run[m], run[m + 1]) == d
  {
    if j > 0 && d !in run[j - 1].register {
      m := j - 1;
      assert NextAt(run, m);
      NewEntry(run[m], run[j], d);
    } else {
      m := EntryWasRecorded(run, j - 1, d);
    }
  }

  lemma NewEntry(s: State, s': State, d: Deliberation)
    requires Next(s, s') && d in s'.register && d !in s.register
    ensures DeliberationRecorded(s, s', d.resolution, d.recordedAt) && Entry(s, s') == d
  {
  }

  lemma {:induction false} RegisterOfPrefix(register: seq<Deliberation>, more: seq<Deliberation>, a: Id)
    requires register <= more
    ensures RegisterOf(register, a) <= RegisterOf(more, a)
    decreases |more|
  {
    if |register| < |more| {
      RegisterOfPrefix(register, more[..|more| - 1], a);
    } else {
      assert register == more;
    }
  }

  /** Minutes list exactly the closed resolutions of that moment, each once, with counts not below the live ones. */
  lemma MinutesAreComplete(s: State, s': State, a: Id)
    requires Inv(s) && MinutesGenerated(s, s', a)
    ensures s'.minutes[a].body == Body(s.assemblies[a], RegisterOf(s.register, a))
    ensures (set d | d in RegisterOf(s.register, a) :: d.resolution) == ClosedOf(s, a)
    ensures forall i, j :: 0 <= i < j < |RegisterOf(s.register, a)| ==>
      RegisterOf(s.register, a)[i].resolution != RegisterOf(s.register, a)[j].resolution
    ensures forall d :: d in RegisterOf(s.register, a) ==> AtMost(TallyOf(s.votes, d.resolution), d.tally)
  {
    var listed := set d | d in RegisterOf(s.register, a) :: d.resolution;
    forall d ensures d in RegisterOf(s.register, a) <==> d in s.register && d.assembly == a {
      RegisterOfHolds(s.register, a, d);
    }
    forall d | d in s.register ensures Frozen(s, d) {}
    forall r | r in ClosedOf(s, a) ensures r in listed {
      assert r !in Pending(s, a);
      var d :| d in s.register && d.resolution == r;
      assert Frozen(s, d) && d in RegisterOf(s.register, a);
    }
    RegisterOfOrder(s.register, a, s.nextId, s.clock);
    forall i, j | 0 <= i < j < |RegisterOf(s.register, a)|
      ensures RegisterOf(s.register, a)[i].resolution != RegisterOf(s.register, a)[j].resolution
    {
      assert Precedes(RegisterOf(s.register, a)[i], RegisterOf(s.register, a)[j]);
    }
  }

  /** The counts in minutes are those recorded, and live exactly if no voter of the resolution left since. */
  lemma MinutesCounts(run: seq<State>, k: nat, a: Id, d: Deliberation) returns (m: nat)
    requires Run(run) && k + 1 < |run| && MinutesGenerated(run[k], run[k + 1], a)
    requires d in RegisterOf(run[k].register, a)
    ensures m < k && DeliberationRecorded(run[m], run[m + 1], d.resolution, d.recordedAt)
    ensures Entry(run[m], run[m + 1]) == d && d.tally == TallyOf(run[m].votes, d.resolution)
    ensures TallyOf(run[k].votes, d.resolution) == d.tally <==> !VoterLeft(run, m + 1, k, d.resolution)
  {
    RegisterOfHolds(run[k].register, a, d);
    m := EntryWasRecorded(run, k, d);
    FrozenForever(run, m, k, d.resolution, d.recordedAt);
  }

  /** The entries of one assembly are in order too. */
  lemma {:induction false} RegisterOfOrder(register: seq<Deliberation>, a: Id, nextId: Id, clock: int)
    requires InOrder(register, nextId, clock)
    ensures InOrder(RegisterOf(register, a), nextId, clock)
    decreases |register|
  {
    if register != [] {
      var n := |register| - 1;
      RegisterOfOrder(register[..n], a, nextId, clock);
      var was := RegisterOf(register[..n], a);
      forall i | 0 <= i < |was| ensures Precedes(was[i], register[n]) {
        RegisterOfHolds(register[..n], a, was[i]);
        var k :| 0 <= k < n && register[k] == was[i];
        assert Precedes(register[k], register[n]);
      }
      assert register[n] in register;
    }
  }

  /** Minutes generated from s to s' are unchanged in t, their lines a prefix of the register, the assembly convoked. */
  ghost predicate MinutesStand(s: State, s': State, t: State, a: Id) {
    && a in s'.minutes && a in t.minutes && t.minutes[a] == s'.minutes[a] && HasStatus(t, a, "convoked")
    && RegisterOf(s.register, a) <= RegisterOf(t.register, a)
    && t.minutes[a].body == Body(t.assemblies[a], RegisterOf(t.register, a)[..|RegisterOf(s.register, a)|])
  }

  lemma RegisterGrows(run: seq<State>, i: nat, j: nat, a: Id)
    requires Run(run) && i <= j < |run|
    ensures RegisterOf(run[i].register, a) <= RegisterOf(run[j].register, a)
  {
    Later(run, i, j);
    RegisterOfPrefix(run[i].register, run[j].register, a);
  }

  lemma StaysConvoked(run: seq<State>, i: nat, j: nat, a: Id)
    requires Run(run) && i <= j < |run| && HasStatus(run[i], a, "convoked")
    ensures a in run[j].assemblies && run[j].assemblies[a] == run[i].assemblies[a]
  {
    Later(run, i, j);
  }

  lemma MinutesStay(run: seq<State>, i: nat, j: nat, a: Id)
    requires Run(run) && i <= j < |run| && a in run[i].minutes
    ensures a in run[j].minutes && run[j].minutes[a] == run[i].minutes[a]
  {
    Later(run, i, j);
  }

  /** Minutes stand in every later state. */
  lemma MinutesForever(run: seq<State>, i: nat, j: nat, a: Id)
    requires Run(run) && i < j < |run| && MinutesGenerated(run[i], run[i + 1], a)
    ensures MinutesStand(run[i], run[i + 1], run[j], a)
  {
    ConvokedWithMinutes(run[i], run[i + 1], a);
    StandsLater(run, i, j, a);
    MinutesStandOn(run[i], run[i + 1], run[j], a);
  }

  lemma StandsLater(run: seq<State>, i: nat, j: nat, a: Id)
    requires Run(run) && i < j < |run| && HasStatus(run[i], a, "convoked") && a in run[i + 1].minutes
    ensures RegisterOf(run[i].register, a) <= RegisterOf(run[j].register, a)
    ensures a in run[j].assemblies && run[j].assemblies[a] == run[i].assemblies[a]
    ensures a in run[j].minutes && run[j].minutes[a] == run[i + 1].minutes[a]
  {
    RegisterGrows(run, i, j, a);
    StaysConvoked(run, i, j, a);
    MinutesStay(run, i + 1, j, a);
  }

  lemma ConvokedWithMinutes(s: State, s': State, a: Id)
    requires MinutesGenerated(s, s', a)
    ensures HasStatus(s, a, "convoked") && a in s'.minutes
  {
  }

  lemma MinutesStandOn(s: State, s': State, t: State, a: Id)
    requires MinutesGenerated(s, s', a) && RegisterOf(s.register, a) <= RegisterOf(t.register, a)
    requires a in t.assemblies && t.assemblies[a] == s.assemblies[a]
    requires a in t.minutes && t.minutes[a] == s'.minutes[a]
    ensures MinutesStand(s, s', t, a)
  {
    PrefixTaken(RegisterOf(s.register, a), RegisterOf(t.register, a));
  }

  lemma PrefixTaken(s: seq<Deliberation>, q: seq<Deliberation>)
    requires s <= q
    ensures q[..|s|] == s
  {
  }

  // ----- a voter who leaves

  const MEETING := Assembly("AG", "", "convoked", "")
  const ENTRY := Deliberation(3, 0, 1, "Q", Tally(1, 0, 0, 1), 0)

  const ASKED := Empty.(
    assemblies := map[0 := MEETING], resolutions := map[1 := Resolution(0, "Q", "open")], nextId := 2)
  const CAST := ASKED.(votes := [Vote(1, "u", "pour")], nextId := 3)
  const CLOSED := CAST.(resolutions := map[1 := Resolution(0, "Q", "closed")])
  const RECORDED := CLOSED.(register := [ENTRY], nextId := 4)
  const LEFT := RECORDED.(votes := [])

  /** One ballot is cast, counted and recorded; then its voter's account is deleted and minutes are generated. */
  function LeavingRun(): seq<State> {
    [Empty, Empty.(assemblies := map[0 := MEETING], nextId := 1), ASKED, CAST, CLOSED, RECORDED, LEFT,
      LEFT.(minutes := map[0 := Minutes(4, Body(MEETING, [ENTRY]))], nextId := 5)]
  }

  lemma CountOfOne()
    ensures TallyOf([Vote(1, "u", "pour")], 1) == Tally(1, 0, 0, 1) && Without([Vote(1, "u", "pour")], "u") == []
    ensures RegisterOf([ENTRY], 0) == [ENTRY]
  {
    var v := Vote(1, "u", "pour");
    assert [v][..0] == [] && [ENTRY][..0] == [];
  }

  lemma LeavingRunOpens()
    ensures forall i :: 0 <= i < 4 ==> NextAt(LeavingRun(), i)
  {
    assert AssemblyCreated(Empty, LeavingRun()[1], MEETING);
    assert ResolutionOpened(LeavingRun()[1], ASKED, 0, "Q");
    assert VoteCast(ASKED, CAST, Vote(1, "u", "pour"));
    assert ResolutionClosed(CAST, CLOSED, 1);
  }

  lemma LeavingRunCloses()
    ensures forall i :: 4 <= i < 7 ==> NextAt(LeavingRun(), i)
    ensures MinutesGenerated(LEFT, LeavingRun()[7], 0)
  {
    CountOfOne();
    assert DeliberationRecorded(CLOSED, RECORDED, 1, 0);
    assert AccountDeleted(RECORDED, LEFT, "u");
    assert ENTRY in LEFT.register && Pending(LEFT, 0) == {};
    assert MinutesGenerated(LEFT, LeavingRun()[7], 0);
  }

  /** The minutes say one vote for, and no ballot is left. */
  lemma LeavingExample()
    ensures var run := LeavingRun();
      && Run(run) && MinutesGenerated(run[6], run[7], 0) && run[7].minutes[0].body == Body(MEETING, [ENTRY])
      && ENTRY.tally == Tally(1, 0, 0, 1) && TallyOf(run[7].votes, 1) == Tally(0, 0, 0, 0)
  {
    LeavingRunOpens();
    LeavingRunCloses();
    var run := LeavingRun();
    assert |run| == 8;
  }
}
