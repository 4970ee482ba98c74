// Listings, silo definitions and filters, with the values SQLite's generated columns take.

module Listings {
  import opened Options
  import opened Text

  datatype Json =
    | JNull | JStr(s: string) | JNum(r: real) | JBool(b: bool)
    | JArr(items: seq<Json>) | JObj(fields: map<string, Json>)

  /** One step of a JSON path: `.name` or `[at]`. */
  datatype PathStep = Key(name: string) | Index(at: nat)

  datatype AttrDef = AttrDef(name: string, path: seq<PathStep>, kind: string)
  datatype Silo = Silo(id: string, attrs: seq<AttrDef>, ranges: seq<string>)

  datatype Listing = Listing(
    id: string, silo: string, owner: string, title: string, body: string, price: int,
    status: string, attrs: map<string, Json>, hidden: bool, createdAt: int)

  datatype Range = Range(min: Option<real>, max: Option<real>)
  datatype Filter = Filter(
    facets: map<string, string>, ranges: map<string, Range>, text: string, owner: string,
    status: string, sort: string, limit: int, offset: int)

  type Printed = s: string | s != "" witness "0"

  /**
   * Library behaviour: printing of numbers that are not small and whole and of what is inside an array or object,
   * SQLite's reading of numeric text, FTS quoting, matching and ranking, and the matcher's search for words.
   */
  datatype Engine = Engine(
    goNumber: real -> Printed, sqlNumber: real -> Printed, sqlReal: real -> Printed, readNumber: string -> Option<real>,
    goInner: Json -> string, sqlInner: Json -> string,
    quote: string -> string, hit: (string, Listing) -> bool, rank: (string, Listing) -> real,
    words: (string, string) -> bool)

  // ----- numbers as text

  predicate Whole(x: real) { x.Floor as real == x }

  /** Whole, and held exactly by a 64-bit float. */
  predicate Exact(x: real) { Whole(x) && -0x20_0000_0000_0000 <= x.Floor <= 0x20_0000_0000_0000 }

  /** Exponent notation of a whole number: its digits without trailing zeros, and a power of ten. */
  function Scientific(n: nat): string {
    var d := Decimal(n);
    var rest := DropZeros(d[1..]);
    var power := Decimal(|d| - 1);
    d[..1] + (if rest == "" then "" else "." + rest) + "e+" + (if |power| == 1 then "0" else "") + power
  }

  function DropZeros(s: string): string {
    if s != "" && s[|s| - 1] == '0' then DropZeros(s[..|s| - 1]) else s
  }

  /** Go's `%g`, with an exponent from a million on. */
  function GoNumber(e: Engine, r: real): string {
    if !Exact(r) then e.goNumber(r)
    else if -1000000 < r.Floor < 1000000 then SignedDecimal(r.Floor)
    else if r.Floor < 0 then "-" + Scientific(-r.Floor) else Scientific(r.Floor)
  }

  /** A JSON number in a text column; a whole one is an integer. */
  function SqlNumber(e: Engine, r: real): string { if Exact(r) then SignedDecimal(r.Floor) else e.sqlNumber(r) }

  /** A floating-point bound compared with a text column. */
  function SqlReal(e: Engine, r: real): string {
    if Whole(r) && -1_000_000_000_000_000 < r.Floor < 1_000_000_000_000_000 then SignedDecimal(r.Floor) + ".0"
    else e.sqlReal(r)
  }

  predicate AllDigits(s: string) { s != "" && forall i :: 0 <= i < |s| ==> IsDigit(s[i]) }

  function DropPointZero(s: string): string {
    if |s| > 2 && s[|s| - 2] == '.' && s[|s| - 1] == '0' then s[..|s| - 2] else s
  }

  function ReadDigits(s: string): Option<int> {
    if AllDigits(DropPointZero(s)) then Some(Value(DropPointZero(s))) else None
  }

  /** Digits, with a minus in front or a `.0` behind them. */
  function ReadWhole(s: string): Option<int> {
    if s == "" || s[0] != '-' then ReadDigits(s)
    else match ReadDigits(s[1..])
      case None => None
      case Some(n) => Some(-n)
  }

  /** A number starts with a digit, a sign, a point or white space. */
  function ReadNumber(e: Engine, s: string): Option<real> {
    var whole := ReadWhole(s);
    if whole.Some? && Exact(whole.value as real) then Some(whole.value as real)
    else if s != "" && (IsDigit(s[0]) || s[0] in "+-. \t\n\r\U{0B}\U{0C}") then e.readNumber(s)
    else None
  }

  lemma DecimalReadsBack(n: nat)
    ensures ReadDigits(Decimal(n)) == Some(n) == ReadDigits(Decimal(n) + ".0") && IsDigit(Decimal(n)[0])
  {
    var d := Decimal(n);
    DecimalDigits(n);
    forall i | 0 <= i < |d| ensures IsDigit(d[i]) { assert d[i] in d; }
    assert DropPointZero(d) == d;
    assert (d + ".0")[|d|] == '.' && (d + ".0")[|d| + 1] == '0' && (d + ".0")[..|d|] == d;
  }

  /** Nothing else is read as a whole number. */
  lemma ReadWholeOnly(s: string)
    requires ReadWhole(s).Some?
    ensures forall i :: 0 <= i < |s| ==>
      || IsDigit(s[i]) || (i == 0 && s[i] == '-')
      || (i == |s| - 2 && s[i] == '.' && s[i + 1] == '0')
    ensures exists i :: 0 <= i < |s| && IsDigit(s[i])
  {
    var body := if s[0] == '-' then s[1..] else s;
    var digits := DropPointZero(body);
    assert digits != "" && IsDigit(digits[0]);
    forall i | 0 <= i < |body| ensures IsDigit(body[i]) || (i == |body| - 2 && body[i] == '.' && body[i + 1] == '0') {
      if i < |digits| { assert IsDigit(digits[i]) && digits[i] == body[i]; }
    }
    forall i | 0 <= i < |s|
      ensures IsDigit(s[i]) || (i == 0 && s[i] == '-') || (i == |s| - 2 && s[i] == '.' && s[i + 1] == '0')
    {
      if s[0] == '-' && i > 0 { assert s[i] == body[i - 1] && (i < |s| - 1 ==> s[i + 1] == body[i]); }
    }
    assert s[if s[0] == '-' then 1 else 0] == digits[0];
  }

  lemma WholeParses(n: int)
    ensures ReadWhole(SignedDecimal(n)) == Some(n) == ReadWhole(SignedDecimal(n) + ".0")
  {
    var s := SignedDecimal(n);
    DecimalReadsBack(if n < 0 then -n else n);
    if n < 0 {
      assert s[1..] == Decimal(-n) && (s + ".0")[1..] == Decimal(-n) + ".0";
    } else {
      assert (s + ".0")[0] == s[0];
    }
  }

  /** What either language prints for a small whole number is read back as it, and so is SQLite's text of a real. */
  lemma WholeReadsBack(e: Engine, n: int)
    requires Exact(n as real)
    ensures ReadNumber(e, SignedDecimal(n)) == Some(n as real) == ReadNumber(e, SignedDecimal(n) + ".0")
  {
    WholeParses(n);
  }

  // ----- generated columns

  datatype Sql = Null | TextValue(s: string) | RealValue(r: real)

  function Lookup(v: Json, path: seq<PathStep>): Option<Json>
    decreases |path|
  {
    if path == [] then Some(v)
    else match path[0]
      case Key(k) => if v.JObj? && k in v.fields then Lookup(v.fields[k], path[1..]) else None
      case Index(n) => if v.JArr? && n < |v.items| then Lookup(v.items[n], path[1..]) else None
  }

  /** Column names ignore letter case; the first definition of a name creates the column, later ones are duplicates. */
  function Def(attrs: seq<AttrDef>, name: string): Option<AttrDef> {
    if attrs == [] then None
    else if Fold(attrs[0].name) == Fold(name) then Some(attrs[0])
    else Def(attrs[1..], name)
  }

  /** The first definition whose name agrees up to letter case. */
  lemma {:induction false} DefMeans(attrs: seq<AttrDef>, name: string)
    ensures Def(attrs, name).None? <==> forall k :: 0 <= k < |attrs| ==> Fold(attrs[k].name) != Fold(name)
    ensures Def(attrs, name).Some? ==> exists k ::
      && 0 <= k < |attrs| && attrs[k] == Def(attrs, name).value && Fold(attrs[k].name) == Fold(name)
      && forall i :: 0 <= i < k ==> Fold(attrs[i].name) != Fold(name)
    decreases |attrs|
  {
    if attrs != [] && Fold(attrs[0].name) != Fold(name) {
      DefMeans(attrs[1..], name);
      if Def(attrs, name).Some? {
        var k :| 0 <= k < |attrs[1..]| && attrs[1..][k] == Def(attrs, name).value
          && Fold(attrs[1..][k].name) == Fold(name)
          && forall i :: 0 <= i < k ==> Fold(attrs[1..][i].name) != Fold(name);
        assert attrs[k + 1] == attrs[1..][k];
        forall i | 0 <= i < k + 1 ensures Fold(attrs[i].name) != Fold(name) {
          if i > 0 { assert attrs[i] == attrs[1..][i - 1]; }
        }
      }
    }
  }

  function Stored(e: Engine, kind: string, v: Json): Sql {
    match v
    case JNull => Null
    case JStr(s) => if kind == "real" && ReadNumber(e, s).Some? then RealValue(ReadNumber(e, s).value) else TextValue(s)
    case JNum(r) => if kind == "real" then RealValue(r) else TextValue(SqlNumber(e, r))
    case JBool(b) => if kind == "real" then RealValue(if b then 1.0 else 0.0) else TextValue(if b then "1" else "0")
    case JArr(_) => TextValue("[" + e.sqlInner(v) + "]")
    case JObj(_) => TextValue("{" + e.sqlInner(v) + "}")
  }

  function Column(e: Engine, d: AttrDef, l: Listing): Sql {
    match Lookup(JObj(l.attrs), d.path)
    case None => Null
    case Some(v) => Stored(e, d.kind, v)
  }

  // ----- comparisons with a bound argument, by column affinity

  predicate Equals(e: Engine, kind: string, v: Sql, arg: string) {
    if kind == "real" && ReadNumber(e, arg).Some? then v == RealValue(ReadNumber(e, arg).value) else v == TextValue(arg)
  }

  /** Text sorts above every number; a text column compares as text. */
  predicate AtLeast(e: Engine, kind: string, v: Sql, bound: real) {
    match v
    case Null => false
    case RealValue(r) => r >= bound
    case TextValue(s) => kind == "real" || !Less(s, SqlReal(e, bound))
  }

  predicate AtMost(e: Engine, kind: string, v: Sql, bound: real) {
    match v
    case Null => false
    case RealValue(r) => r <= bound
    case TextValue(s) => kind != "real" && !Less(SqlReal(e, bound), s)
  }

  /** Go's `int64(x)` for values in range. */
  function Truncate(x: real): int { if x >= 0.0 then x.Floor else -((-x).Floor) }
}
