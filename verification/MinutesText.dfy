// Reading minutes back: what the text of the minutes says, for a reader who knows its labels
// but not how it was written.

module MinutesText {
  import opened Options
  import opened Sequences
  import opened Text

  import opened Governance

  /** One numbered line: the number, the wording and the four counts. */
  datatype Reading = Reading(number: nat, wording: string, tally: Tally)

  // ----- numbers at either end

  function DigitsAtEnd(s: string): (k: nat)
    ensures k <= |s|
  {
    if s == "" || !IsDigit(s[|s| - 1]) then 0 else 1 + DigitsAtEnd(s[..|s| - 1])
  }

  function DigitsAtStart(s: string): (k: nat)
    ensures k <= |s|
  {
    if s == "" || !IsDigit(s[0]) then 0 else 1 + DigitsAtStart(s[1..])
  }

  datatype Cut = Cut(before: string, n: nat)

  /** The number at the end, and what comes before its label. */
  function CutCount(s: string, tag: string): Option<Cut> {
    var k := DigitsAtEnd(s);
    var front := s[..|s| - k];
    if k > 0 && |front| >= |tag| && front[|front| - |tag|..] == tag
    then Some(Cut(front[..|front| - |tag|], Value(s[|s| - k..])))
    else None
  }

  /** The number at the start, then a point and a blank, then the wording. */
  function ReadHead(s: string): Option<Reading> {
    var k := DigitsAtStart(s);
    if k > 0 && k + 2 <= |s| && s[k] == '.' && s[k + 1] == ' '
    then Some(Reading(Value(s[..k]), s[k + 2..], Tally(0, 0, 0, 0)))
    else None
  }

  /** Words in front of the four counts. */
  datatype Tags = Tags(pour: string, contre: string, abstention: string, total: string)

  /** Counts are read from the end, so a wording may hold anything. */
  function ReadCounts(s: string, t: Tags): Option<Reading> {
    match CutCount(s, t.total)
    case None => None
    case Some(total) => match CutCount(total.before, t.abstention)
      case None => None
      case Some(abstention) => match CutCount(abstention.before, t.contre)
        case None => None
        case Some(contre) => match CutCount(contre.before, t.pour)
          case None => None
          case Some(pour) => match ReadHead(pour.before)
            case None => None
            case Some(head) => Some(head.(tally := Tally(pour.n, contre.n, abstention.n, total.n)))
  }

  function ReadLine(line: string): Option<Reading> {
    if line == "" || line[|line| - 1] != '\n' then None
    else ReadCounts(
      line[..|line| - 1], Tags(" — Pour : ", " · Contre : ", " · Abstention : ", " · Total des votes : "))
  }

  lemma {:induction false} DigitsAtEndOf(p: string, d: string)
    requires p != "" && !IsDigit(p[|p| - 1]) && forall c :: c in d ==> IsDigit(c)
    ensures DigitsAtEnd(p + d) == |d|
    decreases |d|
  {
    if d == "" {
      assert p + d == p;
    } else {
      DigitsAtEndOf(p, d[..|d| - 1]);
      assert (p + d)[..|p + d| - 1] == p + d[..|d| - 1];
    }
  }

  lemma {:induction false} DigitsAtStartOf(d: string, p: string)
    requires p != "" && !IsDigit(p[0]) && forall c :: c in d ==> IsDigit(c)
    ensures DigitsAtStart(d + p) == |d|
    decreases |d|
  {
    if d == "" {
      assert d + p == p;
    } else {
      DigitsAtStartOf(d[1..], p);
      assert (d + p)[1..] == d[1..] + p;
    }
  }

  lemma CutCountOf(before: string, tag: string, n: nat)
    requires tag != "" && !IsDigit(tag[|tag| - 1])
    ensures CutCount(before + tag + Decimal(n), tag) == Some(Cut(before, n))
  {
    var front, d := before + tag, Decimal(n);
    DecimalDigits(n);
    DigitsAtEndOf(front, d);
    assert (front + d)[..|front|] == front && (front + d)[|front|..] == d;
    assert front[..|before|] == before && front[|before|..] == tag;
  }

  lemma ReadHeadOf(n: nat, wording: string)
    ensures ReadHead(Decimal(n) + ". " + wording) == Some(Reading(n, wording, Tally(0, 0, 0, 0)))
  {
    var d, rest := Decimal(n), ". " + wording;
    DecimalDigits(n);
    DigitsAtStartOf(d, rest);
    var s := d + rest;
    assert s == Decimal(n) + ". " + wording;
    assert s[..|d|] == d && s[|d|] == '.' && s[|d| + 1] == ' ' && s[|d| + 2..] == wording;
  }

  predicate IsTag(tag: string) { tag != "" && !IsDigit(tag[|tag| - 1]) }

  lemma CountsRead(n: nat, wording: string, y: Tally, t: Tags)
    requires IsTag(t.pour) && IsTag(t.contre) && IsTag(t.abstention) && IsTag(t.total)
    ensures ReadCounts(
      Decimal(n) + ". " + wording + t.pour + Decimal(y.pour) + t.contre + Decimal(y.contre)
        + t.abstention + Decimal(y.abstention) + t.total + Decimal(y.total), t) == Some(Reading(n, wording, y))
  {
    var head := Decimal(n) + ". " + wording;
    var pour := head + t.pour + Decimal(y.pour);
    var contre := pour + t.contre + Decimal(y.contre);
    var abstention := contre + t.abstention + Decimal(y.abstention);
    var total := abstention + t.total + Decimal(y.total);
    CutCountOf(abstention, t.total, y.total);
    CutCountOf(contre, t.abstention, y.abstention);
    CutCountOf(pour, t.contre, y.contre);
    CutCountOf(head, t.pour, y.pour);
    ReadHeadOf(n, wording);
    CutsRead(total, abstention, contre, pour, head, n, wording, y, t);
  }

  lemma CutsRead(
      total: string, abstention: string, contre: string, pour: string, head: string, n: nat, wording: string,
      y: Tally, t: Tags)
    requires CutCount(total, t.total) == Some(Cut(abstention, y.total))
    requires CutCount(abstention, t.abstention) == Some(Cut(contre, y.abstention))
    requires CutCount(contre, t.contre) == Some(Cut(pour, y.contre))
    requires CutCount(pour, t.pour) == Some(Cut(head, y.pour))
    requires ReadHead(head) == Some(Reading(n, wording, Tally(0, 0, 0, 0)))
    ensures ReadCounts(total, t) == Some(Reading(n, wording, y))
  {
  }

  lemma LineEnds(s: string)
    ensures (s + "\n") != "" && (s + "\n")[|s + "\n"| - 1] == '\n' && (s + "\n")[..|s + "\n"| - 1] == s
  {
  }

  /** A line says the number, the wording and each count under its own label. */
  lemma LineReads(i: nat, d: Deliberation)
    ensures ReadLine(Line(i, d)) == Some(Reading(i + 1, d.wording, d.tally))
  {
    var t := Tags(" — Pour : ", " · Contre : ", " · Abstention : ", " · Total des votes : ");
    CountsRead(i + 1, d.wording, d.tally, t);
    LineEnds(
      Decimal(i + 1) + ". " + d.wording + t.pour + Decimal(d.tally.pour) + t.contre + Decimal(d.tally.contre)
        + t.abstention + Decimal(d.tally.abstention) + t.total + Decimal(d.tally.total));
  }

  // ----- the whole text, from its end

  /** Where the last line begins. */
  function LastBreak(s: string): (k: nat)
    ensures k <= |s| && '\n' !in s[k..] && (k > 0 ==> s[k - 1] == '\n')
  {
    if s == "" || s[|s| - 1] == '\n' then |s|
    else
      var k := LastBreak(s[..|s| - 1]);
      assert s[k..] == s[..|s| - 1][k..] + [s[|s| - 1]];
      k
  }

  type Reader = string -> Option<Reading>

  /** Lines are read upwards until number one. */
  function ReadUp(read: Reader, b: string): Option<seq<Reading>>
    decreases |b|
  {
    if b == "" then None
    else
      var k := LastBreak(b[..|b| - 1]);
      match read(b[k..])
      case None => None
      case Some(e) =>
        if e.number == 1 then Some([e])
        else match ReadUp(read, b[..k])
          case None => None
          case Some(above) => Some(above + [e])
  }

  function ReadMinutes(b: string): Option<seq<Reading>> {
    if |b| >= 2 && b[|b| - 2..] == ".\n" then Some([]) else ReadUp(ReadLine, b)
  }

  function Readings(register: seq<Deliberation>): seq<Reading> {
    seq(|register|, i requires 0 <= i < |register| => Reading(i + 1, register[i].wording, register[i].tally))
  }

  predicate OneLineEach(register: seq<Deliberation>) { forall d :: d in register ==> '\n' !in d.wording }

  lemma LastBreakOf(p: string, q: string)
    requires p != "" && p[|p| - 1] == '\n' && '\n' !in q
    ensures LastBreak(p + q) == |p|
  {
    var k, s := LastBreak(p + q), p + q;
    assert s[|p| - 1] == '\n' && forall i :: |p| <= i < |s| ==> s[i] in q;
    assert forall i :: k <= i < |s| ==> s[i] in s[k..];
  }

  function Tail(y: Tally): string {
    " — Pour : " + Decimal(y.pour) + " · Contre : " + Decimal(y.contre)
      + " · Abstention : " + Decimal(y.abstention) + " · Total des votes : " + Decimal(y.total)
  }

  lemma {:induction false} AppendAll(h: string, a: string, b: string, c: string, d: string)
    ensures h + (a + b + c + d) == h + a + b + c + d
  {
    Associative(h, a + b + c, d);
    Associative(h, a + b, c);
    Associative(h, a, b);
  }

  lemma LineParts(i: nat, d: Deliberation)
    ensures Line(i, d) == Decimal(i + 1) + ". " + d.wording + Tail(d.tally) + "\n"
  {
    var head, y := Decimal(i + 1) + ". " + d.wording, d.tally;
    var pour, contre := Decimal(y.pour), Decimal(y.contre);
    var abstention, total := Decimal(y.abstention), Decimal(y.total);
    AppendAll(head, " — Pour : ", pour, " · Contre : ", contre);
    var front := " — Pour : " + pour + " · Contre : " + contre;
    AppendAll(head, front, " · Abstention : ", abstention, " · Total des votes : ");
    Associative(head, front + " · Abstention : " + abstention + " · Total des votes : ", total);
  }

  lemma TagsHaveNoBreak()
    ensures '\n' !in " — Pour : " && '\n' !in " · Contre : " && '\n' !in ". "
    ensures '\n' !in " · Abstention : " && '\n' !in " · Total des votes : "
  {
  }

  lemma DecimalHasNoBreak(n: nat)
    ensures '\n' !in Decimal(n)
  {
    DecimalDigits(n);
  }

  lemma TailHasNoBreak(y: Tally)
    ensures '\n' !in Tail(y) && Tail(y) != "" && IsDigit(Tail(y)[|Tail(y)| - 1])
  {
    TagsHaveNoBreak();
    DecimalHasNoBreak(y.pour);
    DecimalHasNoBreak(y.contre);
    DecimalHasNoBreak(y.abstention);
    DecimalHasNoBreak(y.total);
    DecimalDigits(y.total);
    var d := Decimal(y.total);
    assert d[|d| - 1] in d && Tail(y)[|Tail(y)| - 1] == d[|d| - 1];
  }

  lemma LineShape(i: nat, d: Deliberation)
    ensures Line(i, d) != "" && Line(i, d)[|Line(i, d)| - 1] == '\n' && |Line(i, d)| >= 2
    ensures IsDigit(Line(i, d)[|Line(i, d)| - 2])
    ensures '\n' !in d.wording ==> '\n' !in Line(i, d)[..|Line(i, d)| - 1]
  {
    LineParts(i, d);
    TailHasNoBreak(d.tally);
    TagsHaveNoBreak();
    DecimalHasNoBreak(i + 1);
    var rest := Decimal(i + 1) + ". " + d.wording + Tail(d.tally);
    assert Line(i, d) == rest + "\n" && (rest + "\n")[..|rest|] == rest;
    assert rest[|rest| - 1] == Tail(d.tally)[|Tail(d.tally)| - 1];
  }

  predicate EndsLine(s: string) { s != "" && s[|s| - 1] == '\n' }

  /** One line that is read as e. */
  predicate Says(read: Reader, line: string, e: Reading) {
    EndsLine(line) && '\n' !in line[..|line| - 1] && read(line) == Some(e)
  }

  lemma UpStep(read: Reader, front: string, line: string, e: Reading)
    requires EndsLine(front) && Says(read, line, e)
    ensures ReadUp(read, front + line) ==
      if e.number == 1 then Some([e])
      else match ReadUp(read, front) case None => None case Some(above) => Some(above + [e])
  {
    var b := front + line;
    assert b[..|b| - 1] == front + line[..|line| - 1];
    LastBreakOf(front, line[..|line| - 1]);
    assert b[|front|..] == line && b[..|front|] == front;
  }

  type Writer = (nat, Deliberation) -> string

  function Written(write: Writer, register: seq<Deliberation>): string {
    if register == [] then ""
    else
      var n := |register| - 1;
      Written(write, register[..n]) + write(n, register[n])
  }

  lemma {:induction false} LinesAreWritten(register: seq<Deliberation>)
    ensures Lines(register) == Written(Line, register)
    decreases |register|
  {
    if register != [] { LinesAreWritten(register[..|register| - 1]); }
  }

  predicate SaysEntry(read: Reader, write: Writer, i: nat, d: Deliberation) {
    '\n' !in d.wording ==> Says(read, write(i, d), Reading(i + 1, d.wording, d.tally))
  }

  lemma EndsWithLine(front: string, line: string)
    requires EndsLine(line)
    ensures EndsLine(front + line)
  {
    assert (front + line)[|front + line| - 1] == line[|line| - 1];
  }

  lemma {:induction false} UpReads(read: Reader, write: Writer, heading: string, register: seq<Deliberation>)
    requires forall i, d :: SaysEntry(read, write, i, d)
    requires EndsLine(heading) && OneLineEach(register)
    ensures EndsLine(heading + Written(write, register))
    ensures register != [] ==> ReadUp(read, heading + Written(write, register)) == Some(Readings(register))
    decreases |register|
  {
    if register == [] {
      assert heading + Written(write, register) == heading;
    } else {
      var n := |register| - 1;
      var d, front := register[n], heading + Written(write, register[..n]);
      OneLineInit(register);
      assert SaysEntry(read, write, n, d);
      UpReads(read, write, heading, register[..n]);
      var line, e := write(n, d), Reading(n + 1, d.wording, d.tally);
      assert Says(read, line, e);
      Associative(heading, Written(write, register[..n]), line);
      assert heading + Written(write, register) == front + line;
      EndsWithLine(front, line);
      UpStep(read, front, line, e);
      ReadingsNext(register);
      if n == 0 {
        assert register[..n] == [] && Readings(register) == [e];
      } else {
        assert |register[..n]| == n;
      }
    }
  }

  lemma OneLineInit(register: seq<Deliberation>)
    requires register != [] && OneLineEach(register)
    ensures OneLineEach(register[..|register| - 1]) && '\n' !in register[|register| - 1].wording
  {
    assert register[|register| - 1] in register;
  }

  lemma ReadingsNext(register: seq<Deliberation>)
    requires register != []
    ensures var n := |register| - 1;
      Readings(register) == Readings(register[..n]) + [Reading(n + 1, register[n].wording, register[n].tally)]
  {
  }

  lemma LineSays(i: nat, d: Deliberation)
    ensures SaysEntry(ReadLine, Line, i, d)
  {
    LineShape(i, d);
    LineReads(i, d);
  }

  lemma RegisterReads(heading: string, register: seq<Deliberation>)
    requires EndsLine(heading) && register != [] && OneLineEach(register)
    ensures ReadUp(ReadLine, heading + Lines(register)) == Some(Readings(register))
  {
    LinesAreWritten(register);
    forall i: nat, d ensures SaysEntry(ReadLine, Line, i, d) { LineSays(i, d); }
    UpReads(ReadLine, Line, heading, register);
  }

  // ----- what is read never holds a line break

  lemma CutInside(s: string, tag: string)
    ensures CutCount(s, tag).Some? ==> forall c :: c in CutCount(s, tag).value.before ==> c in s
  {
  }

  lemma ReadHeadInside(s: string)
    ensures ReadHead(s).Some? ==> forall c :: c in ReadHead(s).value.wording ==> c in s
  {
  }

  lemma ReadCountsInside(s: string, t: Tags)
    ensures ReadCounts(s, t).Some? ==> forall c :: c in ReadCounts(s, t).value.wording ==> c in s
  {
    if ReadCounts(s, t).Some? {
      var total := CutCount(s, t.total).value;
      var abstention := CutCount(total.before, t.abstention).value;
      var contre := CutCount(abstention.before, t.contre).value;
      var pour := CutCount(contre.before, t.pour).value;
      CutInside(s, t.total);
      CutInside(total.before, t.abstention);
      CutInside(abstention.before, t.contre);
      CutInside(contre.before, t.pour);
      ReadHeadInside(pour.before);
    }
  }

  lemma ReadLineInside(line: string)
    ensures TakesNoBreak(ReadLine, line)
  {
    if line != "" {
      ReadCountsInside(
        line[..|line| - 1], Tags(" — Pour : ", " · Contre : ", " · Abstention : ", " · Total des votes : "));
    }
  }

  predicate OneLineEachRead(es: seq<Reading>) { forall e :: e in es ==> '\n' !in e.wording }

  predicate TakesNoBreak(read: Reader, line: string) {
    line != "" && '\n' !in line[..|line| - 1] && read(line).Some? ==> '\n' !in read(line).value.wording
  }

  lemma {:induction false} UpReadsOneLineEach(read: Reader, b: string)
    requires forall line :: TakesNoBreak(read, line)
    ensures ReadUp(read, b).Some? ==> OneLineEachRead(ReadUp(read, b).value)
    decreases |b|
  {
    if b != "" {
      var k := LastBreak(b[..|b| - 1]);
      assert b[k..][..|b| - k - 1] == b[..|b| - 1][k..];
      assert TakesNoBreak(read, b[k..]);
      UpReadsOneLineEach(read, b[..k]);
    }
  }

  // ----- minutes

  lemma HeadingEnds(asm: Assembly)
    ensures Heading(asm) != "" && Heading(asm)[|Heading(asm)| - 1] == '\n'
  {
  }

  /** Minutes say number, wording and counts of each entry, in order, exactly if no wording holds a line break. */
  lemma MinutesRead(asm: Assembly, register: seq<Deliberation>)
    ensures ReadMinutes(Body(asm, register)) == Some(Readings(register)) <==> OneLineEach(register)
  {
    var b := Body(asm, register);
    if register == [] {
      NoneRead(asm);
    } else {
      LinesAreLines(Heading(asm), register);
      HeadingEnds(asm);
      if OneLineEach(register) {
        RegisterReads(Heading(asm), register);
      } else {
        forall line ensures TakesNoBreak(ReadLine, line) { ReadLineInside(line); }
        UpReadsOneLineEach(ReadLine, b);
        var d :| d in register && '\n' in d.wording;
        var i :| 0 <= i < |register| && register[i] == d;
        assert Readings(register)[i] in Readings(register);
      }
    }
  }

  lemma NoneRead(asm: Assembly)
    ensures ReadMinutes(Body(asm, [])) == Some([])
  {
    var none := "Aucune délibération consignée.\n";
    var b := Heading(asm) + none;
    assert b[|b| - 2..] == none[|none| - 2..] == ".\n";
  }

  lemma DigitBefore(front: string, line: string)
    requires |line| >= 2 && IsDigit(line[|line| - 2])
    ensures var b := front + line; b[|b| - 2..] != ".\n"
  {
    var b := front + line;
    assert b[|b| - 2] == line[|line| - 2] && b[|b| - 2..][0] == b[|b| - 2];
  }

  lemma LinesAreLines(heading: string, register: seq<Deliberation>)
    requires register != []
    ensures var b := heading + Lines(register); ReadMinutes(b) == ReadUp(ReadLine, b)
  {
    var n := |register| - 1;
    LineShape(n, register[n]);
    DigitBefore(heading + Lines(register[..n]), Line(n, register[n]));
    Associative(heading, Lines(register[..n]), Line(n, register[n]));
  }

  lemma Regroup(x: string, w: string, t: string, br: string, y: string, v: string, u: string)
    ensures x + (w + t + br + y + v) + u + br == (x + w + t + br) + (y + v + u + br)
  {
    AppendAll(x, w, t, br, y);
    Associative(x, w + t + br + y, v);
    AppendAll(x + w + t + br, y, v, u, br);
  }

  lemma OneLineForTwo(d: Deliberation, e: Deliberation, both: Deliberation)
    requires both.tally == e.tally
    requires both.wording == d.wording + Tail(d.tally) + "\n" + (Decimal(2) + ". ") + e.wording
    ensures Line(0, both) == Line(0, d) + Line(1, e)
  {
    LineParts(0, both);
    LineParts(0, d);
    LineParts(1, e);
    Regroup(Decimal(1) + ". ", d.wording, Tail(d.tally), "\n", Decimal(2) + ". ", e.wording, Tail(e.tally));
  }

  /** With a line break any two entries can be written as one: the text does not tell them apart. */
  lemma TwoInOne(d: Deliberation, e: Deliberation)
    ensures var both := e.(wording := d.wording + Tail(d.tally) + "\n" + (Decimal(2) + ". ") + e.wording);
      Lines([both]) == Lines([d, e])
  {
    var both := e.(wording := d.wording + Tail(d.tally) + "\n" + (Decimal(2) + ". ") + e.wording);
    OneLineForTwo(d, e, both);
    assert [d, e][..1] == [d] && [d][..0] == [] && [both][..0] == [];
  }

  lemma LeavingPieces()
    ensures Decimal(1) == "1" && Decimal(0) == "0" && Trim("") == ""
    ensures "1" + ". " + "Q" + " — Pour : " + "1" == "1. Q — Pour : 1"
    ensures " · Contre : " + "0" == " · Contre : 0" && " · Abstention : " + "0" == " · Abstention : 0"
    ensures " · Total des votes : " + "1" == " · Total des votes : 1"
    ensures "Procès-verbal — " + "AG" == "Procès-verbal — AG"
  {
  }

  /** The minutes of the voter who left, word for word. */
  lemma LeavingText()
    ensures LeavingRun()[7].minutes[0].body ==
      "Procès-verbal — AG" + "\n\n" + "Ordre du jour :\n" + "(non renseigné)" + "\n\n" + "Délibérations consignées :\n"
      + ("1. Q — Pour : 1" + " · Contre : 0" + " · Abstention : 0" + " · Total des votes : 1" + "\n")
  {
    LeavingPieces();
    LeavingLine();
    assert [ENTRY][..0] == [];
  }

  lemma LeavingLine()
    ensures Lines([ENTRY]) ==
      "1. Q — Pour : 1" + " · Contre : 0" + " · Abstention : 0" + " · Total des votes : 1" + "\n"
  {
    LeavingPieces();
    assert [ENTRY][..0] == [];
    var pour := "1. Q — Pour : 1";
    Associative(pour, " · Contre : ", "0");
    Associative(pour + " · Contre : 0", " · Abstention : ", "0");
    Associative(pour + " · Contre : 0" + " · Abstention : 0", " · Total des votes : ", "1");
  }
}
