// The saved-search matcher, evaluated in Go rather than SQL, against the search's own
// reading of the same filter.

module Matcher {
  import opened Options
  import opened Text

  import opened Listings
  import opened Search

  /** An attribute as facet text. */
  function AsString(e: Engine, v: Json): string {
    match v
    case JStr(s) => s
    case JNum(r) => GoNumber(e, r)
    case JBool(b) => if b then "true" else "false"
    case JNull => "<nil>"
    case JArr(_) => "[" + e.goInner(v) + "]"
    case JObj(_) => "map[" + e.goInner(v) + "]"
  }

  function AsFloat(v: Json): Option<real> { if v.JNum? then Some(v.r) else None }

  predicate FacetAccepted(e: Engine, want: string, name: string, l: Listing) {
    want != "" ==> name in l.attrs && AsString(e, l.attrs[name]) == want
  }

  function RangedValue(name: string, l: Listing): Option<real> {
    if name == "price" then Some(l.price as real)
    else if name in l.attrs then AsFloat(l.attrs[name]) else None
  }

  predicate Within(rf: Range, v: real) { (rf.min.Some? ==> v >= rf.min.value) && (rf.max.Some? ==> v <= rf.max.value) }

  predicate RangeAccepted(rf: Range, name: string, l: Listing) {
    RangedValue(name, l).Some? && Within(rf, RangedValue(name, l).value)
  }

  /** Every criterion that is set holds, declared by the silo or not. */
  predicate Accepts(e: Engine, silo: Silo, f: Filter, l: Listing) {
    && l.silo == silo.id && (f.owner != "" ==> l.owner == f.owner) && (f.status != "" ==> l.status == f.status)
    && (forall name :: name in f.facets ==> FacetAccepted(e, f.facets[name], name, l))
    && (forall name :: name in f.ranges ==> RangeAccepted(f.ranges[name], name, l))
    && (Trim(f.text) != "" ==> e.words(Trim(f.text), l.title + " " + l.body))
  }

  /** Go ranges over a map in any order. */
  method MatchFilter(e: Engine, silo: Silo, f: Filter, l: Listing) returns (ok: bool)
    ensures ok <==> Accepts(e, silo, f, l)
  {
    if l.silo != silo.id { return false; }
    if f.owner != "" && l.owner != f.owner { return false; }
    if f.status != "" && l.status != f.status { return false; }
    var names := f.facets.Keys;
    while names != {}
      invariant names <= f.facets.Keys
      invariant forall name :: name in f.facets.Keys - names ==> FacetAccepted(e, f.facets[name], name, l)
    {
      var name :| name in names;
      names := names - {name};
      var want := f.facets[name];
      if want == "" { continue; }
      if name !in l.attrs || AsString(e, l.attrs[name]) != want { return false; }
    }
    names := f.ranges.Keys;
    while names != {}
      invariant names <= f.ranges.Keys
      invariant forall name :: name in f.ranges.Keys - names ==> RangeAccepted(f.ranges[name], name, l)
    {
      var name :| name in names;
      names := names - {name};
      var v: real;
      if name == "price" {
        v := l.price as real;
      } else {
        if name !in l.attrs { return false; }
        var got := AsFloat(l.attrs[name]);
        if got.None? { return false; }
        v := got.value;
      }
      var rf := f.ranges[name];
      if rf.min.Some? && v < rf.min.value { return false; }
      if rf.max.Some? && v > rf.max.value { return false; }
    }
    if Trim(f.text) != "" { return e.words(Trim(f.text), l.title + " " + l.body); }
    return true;
  }

  method MatchingSavedSearches(e: Engine, silo: Silo, saved: seq<Filter>, l: Listing) returns (out: seq<nat>)
    ensures forall i: nat :: i in out <==> i < |saved| && Accepts(e, silo, saved[i], l)
    ensures forall a, b :: 0 <= a < b < |out| ==> out[a] < out[b]
  {
    out := [];
    for i := 0 to |saved|
      invariant forall k: nat :: k in out <==> k < i && Accepts(e, silo, saved[k], l)
      invariant forall a, b :: 0 <= a < b < |out| ==> out[a] < out[b]
    {
      var ok := MatchFilter(e, silo, saved[i], l);
      if ok {
        assert forall a :: 0 <= a < |out| ==> out[a] in out;
        out := out + [i];
      }
    }
  }

  // ----- one facet: values

  /** Asking for the matcher's text of a value selects the value in a column of this kind. */
  predicate SelectsItself(e: Engine, kind: string, v: Json) {
    match v
    case JStr(_) => true
    case JNum(r) =>
      if Exact(r) && -1000000 < r.Floor < 1000000 then true
      else if kind == "real" then ReadNumber(e, GoNumber(e, r)) == Some(r)
      else !Exact(r) && e.goNumber(r) == e.sqlNumber(r)
    case JArr(_) => e.goInner(v) == e.sqlInner(v)
    case JObj(_) => false
    case JBool(_) => false
    case JNull => false
  }

  lemma TellTexts(n: int, k: nat)
    ensures SignedDecimal(n) != Scientific(k) && SignedDecimal(n) != "-" + Scientific(k)
  {
    DecimalDigits(if n < 0 then -n else n);
    assert "e+"[0] == 'e' && 'e' in Scientific(k) && 'e' in "-" + Scientific(k);
    assert 'e' !in SignedDecimal(n);
  }

  lemma NumberTexts(e: Engine, r: real)
    requires Exact(r)
    ensures GoNumber(e, r) == SqlNumber(e, r) <==> -1000000 < r.Floor < 1000000
  {
    TellTexts(r.Floor, if r.Floor < 0 then -r.Floor else r.Floor);
  }

  lemma NumberSelection(e: Engine, kind: string, r: real)
    ensures Equals(e, kind, Stored(e, kind, JNum(r)), GoNumber(e, r)) <==> SelectsItself(e, kind, JNum(r))
  {
    if Exact(r) {
      NumberTexts(e, r);
      WholeReadsBack(e, r.Floor);
    }
  }

  lemma SameInner(open: string, x: string, y: string, close: string)
    ensures open + x + close == open + y + close <==> x == y
  {
    if open + x + close == open + y + close {
      assert (open + x + close)[|open|..|open| + |x|] == x && (open + y + close)[|open|..|open| + |y|] == y;
      assert |open + x + close| == |open + y + close|;
    }
  }

  lemma SelfSelection(e: Engine, kind: string, v: Json)
    ensures Equals(e, kind, Stored(e, kind, v), AsString(e, v)) <==> SelectsItself(e, kind, v)
  {
    match v
    case JNum(r) => NumberSelection(e, kind, r);
    case JBool(b) => assert AsString(e, v)[0] == (if b then 't' else 'f') && "1"[0] == '1' && "0"[0] == '0';
    case JArr(_) =>
      SameInner("[", e.goInner(v), e.sqlInner(v), "]");
      BracketReads(e, AsString(e, v));
    case JObj(_) =>
      assert AsString(e, v)[0] == 'm' && ("{" + e.sqlInner(v) + "}")[0] == '{';
    case _ =>
  }

  lemma BracketReads(e: Engine, s: string)
    requires s != "" && s[0] in "[{" && s[|s| - 1] in "]}"
    ensures ReadNumber(e, s) == None
  {
    assert DropPointZero(s) == s && !IsDigit(s[0]);
  }

  lemma OwnColumn(e: Engine, d: AttrDef, name: string, l: Listing)
    requires d.path == [Key(name)]
    ensures Column(e, d, l) == if name in l.attrs then Stored(e, d.kind, l.attrs[name]) else Null
  {
    assert d.path[1..] == [];
    if name in l.attrs { assert Lookup(l.attrs[name], d.path[1..]) == Some(l.attrs[name]); }
  }

  /** Over its own key a value is found whenever accepted exactly if it selects itself; the converse also for null. */
  lemma FacetExact(e: Engine, d: AttrDef, name: string, l: Listing)
    requires d.path == [Key(name)] && name in l.attrs
    ensures (forall want | want != "" :: FacetAccepted(e, want, name, l) ==> Equals(e, d.kind, Column(e, d, l), want))
      <==> SelectsItself(e, d.kind, l.attrs[name])
    ensures d.kind != "real" ==>
      ((forall want | want != "" :: Equals(e, d.kind, Column(e, d, l), want) ==> FacetAccepted(e, want, name, l))
        <==> SelectsItself(e, d.kind, l.attrs[name]) || l.attrs[name].JNull?)
  {
    var v := l.attrs[name];
    var want := AsString(e, v);
    OwnColumn(e, d, name, l);
    SelfSelection(e, d.kind, v);
    assert FacetAccepted(e, want, name, l);
    if d.kind != "real" && !v.JNull? {
      assert Equals(e, d.kind, Column(e, d, l), Stored(e, d.kind, v).s);
    }
  }

  /** No other text reads as this number. */
  ghost predicate OnlyText(e: Engine, x: real, s: string) {
    forall want :: want != "" && ReadNumber(e, want) == Some(x) ==> want == s
  }

  /** Whatever text finds the value in a real column is the matcher's own. */
  ghost predicate FoundAlone(e: Engine, v: Json) {
    match Stored(e, "real", v)
    case Null => true
    case RealValue(x) => OnlyText(e, x, AsString(e, v))
    case TextValue(t) => t == AsString(e, v)
  }

  /** Of a whole number there are always two texts, with and without `.0`. */
  lemma TwoTexts(e: Engine, n: int, s: string)
    requires Exact(n as real)
    ensures !OnlyText(e, n as real, s)
  {
    WholeReadsBack(e, n);
    var one, two := SignedDecimal(n), SignedDecimal(n) + ".0";
    assert |one| != |two| && one != "" && two != "";
  }

  lemma NumberFound(e: Engine, x: real, s: string)
    ensures (forall want | want != "" :: Equals(e, "real", RealValue(x), want) ==> want == s) <==> OnlyText(e, x, s)
  {
    if !OnlyText(e, x, s) {
      var want :| want != "" && ReadNumber(e, want) == Some(x) && want != s;
      assert Equals(e, "real", RealValue(x), want);
    }
  }

  lemma TextFound(e: Engine, t: string, s: string)
    requires t != "" && ReadNumber(e, t) == None
    ensures (forall want | want != "" :: Equals(e, "real", TextValue(t), want) ==> want == s) <==> t == s
  {
    assert Equals(e, "real", TextValue(t), t);
  }

  lemma FoundAloneExact(e: Engine, v: Json)
    ensures (forall want | want != "" :: Equals(e, "real", Stored(e, "real", v), want) ==> want == AsString(e, v))
      <==> FoundAlone(e, v)
  {
    match Stored(e, "real", v)
    case Null =>
    case RealValue(x) => NumberFound(e, x, AsString(e, v));
    case TextValue(t) =>
      if v.JArr? || v.JObj? { BracketReads(e, t); }
      if t != "" { TextFound(e, t, AsString(e, v)); }
  }

  /** A whole number, a boolean, or a string that is a whole number. */
  predicate WholeInReal(v: Json) {
    match v
    case JNum(r) => Exact(r)
    case JBool(_) => true
    case JStr(s) => ReadWhole(s).Some? && Exact(ReadWhole(s).value as real)
    case _ => false
  }

  /** In a real column what is found is accepted exactly if it is found alone, as whole numbers never are. */
  lemma RealFacetExact(e: Engine, d: AttrDef, name: string, l: Listing)
    requires d.path == [Key(name)] && name in l.attrs && d.kind == "real"
    ensures (forall want | want != "" :: Equals(e, d.kind, Column(e, d, l), want) ==> FacetAccepted(e, want, name, l))
      <==> FoundAlone(e, l.attrs[name])
    ensures WholeInReal(l.attrs[name]) ==> !FoundAlone(e, l.attrs[name])
  {
    var v := l.attrs[name];
    OwnColumn(e, d, name, l);
    FoundAloneExact(e, v);
    if WholeInReal(v) {
      match v
      case JNum(r) => TwoTexts(e, r.Floor, GoNumber(e, r));
      case JBool(b) => if b { TwoTexts(e, 1, "true"); } else { TwoTexts(e, 0, "false"); }
      case JStr(s) => TwoTexts(e, ReadWhole(s).value, s);
    }
  }

  /** The text is what Go prints for the number it reads as, if it reads as any. */
  predicate Canonical(e: Engine, want: string) {
    ReadNumber(e, want).Some? ==> GoNumber(e, ReadNumber(e, want).value) == want
  }

  /** Over all numbers of a real column, a text finds only what it is accepted for exactly if it is canonical. */
  lemma CanonicalExact(e: Engine, d: AttrDef, name: string, want: string)
    requires d.path == [Key(name)] && d.kind == "real" && want != ""
    ensures (forall l: Listing | name in l.attrs && l.attrs[name].JNum? && Equals(e, d.kind, Column(e, d, l), want) ::
        FacetAccepted(e, want, name, l))
      <==> Canonical(e, want)
  {
    forall l: Listing | name in l.attrs && l.attrs[name].JNum?
      ensures Equals(e, d.kind, Column(e, d, l), want) <==> ReadNumber(e, want) == Some(l.attrs[name].r)
    {
      OwnColumn(e, d, name, l);
    }
    if !Canonical(e, want) {
      var l := Probe("", name, JNum(ReadNumber(e, want).value));
      assert l.attrs[name].JNum? && !FacetAccepted(e, want, name, l);
    }
  }

  // ----- one facet: paths

  function Probe(silo: string, name: string, v: Json): Listing {
    Listing("a", silo, "", "", "", 0, "", map[name := v], false, 0)
  }

  /** A value that holds v at the end of the path. */
  function Build(path: seq<PathStep>, v: Json): Json
    decreases |path|
  {
    if path == [] then v
    else
      var inner := Build(path[1..], v);
      match path[0]
      case Key(k) => JObj(map[k := inner])
      case Index(n) => JArr(seq(n, _ => JNull) + [inner])
  }

  lemma {:induction false} BuildLookup(path: seq<PathStep>, v: Json)
    ensures Lookup(Build(path, v), path) == Some(v)
    ensures path != [] ==> Build(path, v).JObj? || Build(path, v).JArr?
    decreases |path|
  {
    if path != [] { BuildLookup(path[1..], v); }
  }

  /** A column over another path sees a single text or number attribute as nothing, or as the whole object. */
  lemma ForeignColumn(e: Engine, d: AttrDef, silo: string, name: string, v: Json)
    requires d.path != [Key(name)] && (v.JStr? || v.JNum?)
    ensures var c := Column(e, d, Probe(silo, name, v)); c == Null || (c.TextValue? && c.s != "" && c.s[0] == '{')
  {
    if d.path != [] && d.path[0] == Key(name) {
      assert d.path == [d.path[0]] + d.path[1..];
      assert d.path[1..] != [] && Lookup(v, d.path[1..]) == None;
    }
  }

  /** Accepted strings are found exactly over the own key; found ones are accepted also if no string is ever read. */
  lemma PathExact(e: Engine, d: AttrDef, name: string)
    ensures (forall l: Listing, s | s != "" && name in l.attrs && l.attrs[name] == JStr(s) ::
        Equals(e, d.kind, Column(e, d, l), s))
      <==> d.path == [Key(name)]
    ensures (forall l: Listing, s | s != "" && Lookup(JObj(l.attrs), d.path) == Some(JStr(s)) ::
        FacetAccepted(e, s, name, l))
      <==> d.path == [Key(name)] || d.path == [] || d.path[0].Index?
  {
    if d.path == [Key(name)] {
      forall l: Listing, s | s != "" && name in l.attrs && l.attrs[name] == JStr(s)
        ensures Equals(e, d.kind, Column(e, d, l), s)
      {
        OwnColumn(e, d, name, l);
      }
      assert d.path[1..] == [];
    } else {
      var l := Probe("", name, JStr("X"));
      ForeignColumn(e, d, "", name, JStr("X"));
      assert l.attrs[name] == JStr("X") && !Equals(e, d.kind, Column(e, d, l), "X");
      if d.path != [] && d.path[0].Key? {
        ElsewhereFound(e, d, name);
      }
    }
  }

  lemma ElsewhereFound(e: Engine, d: AttrDef, name: string)
    requires d.path != [Key(name)] && d.path != [] && d.path[0].Key?
    ensures exists l: Listing ::
      Lookup(JObj(l.attrs), d.path) == Some(JStr("X")) && !FacetAccepted(e, "X", name, l)
  {
    var k, rest := d.path[0].name, d.path[1..];
    var l := Probe("", k, Build(rest, JStr("X")));
    BuildLookup(rest, JStr("X"));
    assert d.path == [Key(k)] + rest;
    if k == name {
      assert AsString(e, l.attrs[name])[0] in {'m', '['};
    }
    assert Lookup(JObj(l.attrs), d.path) == Some(JStr("X")) && !FacetAccepted(e, "X", name, l);
  }

  // ----- one range

  predicate InRange(e: Engine, d: AttrDef, rf: Range, l: Listing) {
    && (rf.min.Some? ==> AtLeast(e, d.kind, Column(e, d, l), rf.min.value))
    && (rf.max.Some? ==> AtMost(e, d.kind, Column(e, d, l), rf.max.value))
  }

  predicate Bounded(rf: Range) { rf.min.Some? || rf.max.Some? }

  /** The attribute, when it is there, is a number or null. */
  predicate Numeric(name: string, l: Listing) { name in l.attrs ==> l.attrs[name].JNum? || l.attrs[name].JNull? }

  /** Ten is text below nine. */
  lemma TextTen(e: Engine)
    ensures SqlNumber(e, 10.0) == "10" && SqlReal(e, 9.0) == "9.0" && SqlReal(e, 11.0) == "11.0"
    ensures Less("10", "9.0") && !Less("9.0", "10") && Less("10", "11.0")
  {
    assert 10.0.Floor == 10 && 9.0.Floor == 9 && 11.0.Floor == 11;
    assert Decimal(1) == "1" && Decimal(9) == "9";
    assert Decimal(10) == "10" && Decimal(11) == "11";
    assert "10"[0] == '1' && "9.0"[0] == '9' && "11.0"[0] == '1';
    assert "10"[1..] == "0" && "11.0"[1..] == "1.0";
  }

  /** Over its own key a range means the same to both exactly in a real column: text compares digit by digit. */
  lemma RangeExact(e: Engine, d: AttrDef, name: string)
    requires d.path == [Key(name)] && name != "price"
    ensures (forall l, rf | RangeAccepted(rf, name, l) :: InRange(e, d, rf, l)) <==> d.kind == "real"
    ensures (forall l, rf | Bounded(rf) && Numeric(name, l) && InRange(e, d, rf, l) :: RangeAccepted(rf, name, l))
      <==> d.kind == "real"
  {
    var l := Probe("", name, JNum(10.0));
    var above, below := Range(Some(9.0), None), Range(None, Some(9.0));
    OwnColumn(e, d, name, l);
    TextTen(e);
    assert RangeAccepted(above, name, l) && !RangeAccepted(below, name, l) && Numeric(name, l);
    if d.kind == "real" {
      forall l: Listing ensures Column(e, d, l) == if name in l.attrs then Stored(e, d.kind, l.attrs[name]) else Null {
        OwnColumn(e, d, name, l);
      }
    } else {
      assert !InRange(e, d, above, l) && InRange(e, d, below, l);
    }
  }

  /** In a real column over its own key, a value found in every range only if accepted is a number or null. */
  lemma RangeValueExact(e: Engine, d: AttrDef, name: string, l: Listing)
    requires d.path == [Key(name)] && name != "price" && d.kind == "real"
    ensures (forall rf | Bounded(rf) && InRange(e, d, rf, l) :: RangeAccepted(rf, name, l)) <==> Numeric(name, l)
  {
    OwnColumn(e, d, name, l);
    if !Numeric(name, l) {
      var c := Column(e, d, l);
      var rf := Range(Some(if c.RealValue? then c.r else 0.0), None);
      assert Bounded(rf) && InRange(e, d, rf, l) && !RangeAccepted(rf, name, l);
    }
  }

  // ----- price bounds, truncated toward zero by the search only

  lemma TruncateFacts(x: real)
    ensures x >= 0.0 ==> Truncate(x) as real <= x < Truncate(x) as real + 1.0
    ensures x <= 0.0 ==> Truncate(x) as real - 1.0 < x <= Truncate(x) as real
    ensures Whole(x) <==> Truncate(x) as real == x
  {
    if Truncate(x) as real == x { assert x.Floor == Truncate(x); }
    if Whole(x) { assert (-x).Floor == -x.Floor; }
  }

  predicate PriceAbove(p: int, x: real) { p as real >= x }
  predicate PriceBelow(p: int, x: real) { p as real <= x }

  /** Accepted prices are found; the converse fails exactly for fractional minima above zero and maxima below it. */
  lemma PriceExact(x: real)
    ensures forall p :: PriceAbove(p, x) ==> p >= Truncate(x)
    ensures forall p :: PriceBelow(p, x) ==> p <= Truncate(x)
    ensures (forall p :: p >= Truncate(x) ==> PriceAbove(p, x)) <==> x <= 0.0 || Whole(x)
    ensures (forall p :: p <= Truncate(x) ==> PriceBelow(p, x)) <==> x >= 0.0 || Whole(x)
  {
    PriceMinExact(x);
    PriceMaxExact(x);
  }

  lemma PriceMinExact(x: real)
    ensures forall p :: PriceAbove(p, x) ==> p >= Truncate(x)
    ensures (forall p :: p >= Truncate(x) ==> PriceAbove(p, x)) <==> x <= 0.0 || Whole(x)
  {
    TruncateFacts(x);
    if x > 0.0 && !Whole(x) { assert !PriceAbove(Truncate(x), x); }
  }

  lemma PriceMaxExact(x: real)
    ensures forall p :: PriceBelow(p, x) ==> p <= Truncate(x)
    ensures (forall p :: p <= Truncate(x) ==> PriceBelow(p, x)) <==> x >= 0.0 || Whole(x)
  {
    TruncateFacts(x);
    if x < 0.0 && !Whole(x) { assert !PriceBelow(Truncate(x), x); }
  }

  // ----- agreement

  /** The column that answers for the attribute reads the attribute's own key. */
  predicate OwnDef(silo: Silo, name: string) {
    var d := Def(silo.attrs, name);
    d.Some? && d.value.path == [Key(name)]
  }

  predicate RealDef(silo: Silo, name: string) { OwnDef(silo, name) && Def(silo.attrs, name).value.kind == "real" }

  predicate Asked(f: Filter, name: string) { name in f.facets && f.facets[name] != "" }

  /** Each declared facet asked for is over its own key, and the listing's value selects itself. */
  ghost predicate FacetsAgree(e: Engine, silo: Silo, f: Filter, l: Listing) {
    forall i :: 0 <= i < |silo.attrs| && Asked(f, silo.attrs[i].name) ==> FacetAgrees(e, silo, silo.attrs[i].name, l)
  }

  predicate FacetAgrees(e: Engine, silo: Silo, name: string, l: Listing) {
    && OwnDef(silo, name)
    && (name in l.attrs ==> SelectsItself(e, Def(silo.attrs, name).value.kind, l.attrs[name]))
  }

  /** Each declared range that sets a bound is over the price or a real attribute under its own key. */
  ghost predicate RangesAgree(silo: Silo, f: Filter) {
    forall i :: 0 <= i < |silo.ranges| ==> RangeAgrees(silo, f, silo.ranges[i])
  }

  predicate RangeAgrees(silo: Silo, f: Filter, name: string) {
    name in f.ranges && name != "price" && Bounded(f.ranges[name]) ==> RealDef(silo, name)
  }

  lemma FacetFound(e: Engine, silo: Silo, f: Filter, name: string, l: Listing)
    requires Asked(f, name) ==> FacetAgrees(e, silo, name, l)
    requires name in f.facets ==> FacetAccepted(e, f.facets[name], name, l)
    ensures FacetOk(e, silo, f, name, l)
  {
    if Asked(f, name) {
      var d := Def(silo.attrs, name).value;
      OwnColumn(e, d, name, l);
      SelfSelection(e, d.kind, l.attrs[name]);
    }
  }

  lemma RangeFound(e: Engine, silo: Silo, f: Filter, name: string, l: Listing)
    requires RangeAgrees(silo, f, name) && (name in f.ranges ==> RangeAccepted(f.ranges[name], name, l))
    ensures RangeOk(e, silo, f, name, l)
  {
    if name in f.ranges {
      var rf := f.ranges[name];
      if name == "price" {
        if rf.min.Some? { PriceExact(rf.min.value); assert PriceAbove(l.price, rf.min.value); }
        if rf.max.Some? { PriceExact(rf.max.value); assert PriceBelow(l.price, rf.max.value); }
      } else if Bounded(rf) {
        var d := Def(silo.attrs, name).value;
        RangeExact(e, d, name);
        assert InRange(e, d, rf, l);
      }
    }
  }

  /** Without text, what the matcher accepts the search finds, where each facet and range agrees. */
  lemma AcceptedIsFound(e: Engine, silo: Silo, f: Filter, l: Listing)
    requires Trim(f.text) == "" && !l.hidden
    requires FacetsAgree(e, silo, f, l) && RangesAgree(silo, f)
    requires Accepts(e, silo, f, l)
    ensures Satisfies(e, silo, f, l)
  {
    forall i | 0 <= i < |silo.attrs| ensures FacetOk(e, silo, f, silo.attrs[i].name, l) {
      FacetFound(e, silo, f, silo.attrs[i].name, l);
    }
    forall i | 0 <= i < |silo.ranges| ensures RangeOk(e, silo, f, silo.ranges[i], l) {
      RangeFound(e, silo, f, silo.ranges[i], l);
    }
  }

  /** Every attribute is read from its own key, and every range is over the price or a real attribute. */
  ghost predicate PlainSilo(silo: Silo) {
    && (forall i :: 0 <= i < |silo.attrs| ==> OwnDef(silo, silo.attrs[i].name))
    && (forall i :: 0 <= i < |silo.ranges| && silo.ranges[i] != "price" ==> RealDef(silo, silo.ranges[i]))
  }

  /** No text is searched, the listing is not hidden, and facets are asked of strings only. */
  ghost predicate Comparable(f: Filter, l: Listing) {
    && Trim(f.text) == "" && !l.hidden
    && forall name :: Asked(f, name) && name in l.attrs ==> l.attrs[name].JStr?
  }

  /** With string facets and any ranges, all that is accepted is found exactly in plain silos. */
  lemma SiloExact(e: Engine, silo: Silo)
    ensures (forall f, l | Comparable(f, l) && Accepts(e, silo, f, l) :: Satisfies(e, silo, f, l)) <==> PlainSilo(silo)
  {
    if PlainSilo(silo) {
      forall f, l | Comparable(f, l) && Accepts(e, silo, f, l)
        ensures Satisfies(e, silo, f, l)
      {
        AcceptedIsFound(e, silo, f, l);
      }
    } else if i :| 0 <= i < |silo.attrs| && !OwnDef(silo, silo.attrs[i].name) {
      FacetMissed(e, silo, i);
    } else {
      var i :| 0 <= i < |silo.ranges| && silo.ranges[i] != "price" && !RealDef(silo, silo.ranges[i]);
      RangeMissed(e, silo, i);
    }
  }

  function Ask(facets: map<string, string>, ranges: map<string, Range>): Filter {
    Filter(facets, ranges, "", "", "", "", 0, 0)
  }

  /** The string X under the name of an attribute that is read from elsewhere. */
  lemma FacetMissed(e: Engine, silo: Silo, i: nat)
    requires i < |silo.attrs| && !OwnDef(silo, silo.attrs[i].name)
    ensures var name := silo.attrs[i].name;
      var f, l := Ask(map[name := "X"], map[]), Probe(silo.id, name, JStr("X"));
      Comparable(f, l) && Accepts(e, silo, f, l) && !Satisfies(e, silo, f, l)
  {
    var name := silo.attrs[i].name;
    if Def(silo.attrs, name).Some? {
      ForeignColumn(e, Def(silo.attrs, name).value, silo.id, name, JStr("X"));
    }
    assert !FacetOk(e, silo, Ask(map[name := "X"], map[]), name, Probe(silo.id, name, JStr("X")));
  }

  /** Ten between nine and eleven, under the name of a range that is not over a real attribute of that key. */
  lemma RangeMissed(e: Engine, silo: Silo, i: nat)
    requires i < |silo.ranges| && silo.ranges[i] != "price" && !RealDef(silo, silo.ranges[i])
    ensures var name := silo.ranges[i];
      var f, l := Ask(map[], map[name := Range(Some(9.0), Some(11.0))]), Probe(silo.id, name, JNum(10.0));
      Comparable(f, l) && Accepts(e, silo, f, l) && !Satisfies(e, silo, f, l)
  {
    var name := silo.ranges[i];
    var f, l := Ask(map[], map[name := Range(Some(9.0), Some(11.0))]), Probe(silo.id, name, JNum(10.0));
    TextTen(e);
    if Def(silo.attrs, name).Some? {
      var d := Def(silo.attrs, name).value;
      if d.path == [Key(name)] { OwnColumn(e, d, name, l); } else { ForeignColumn(e, d, silo.id, name, JNum(10.0)); }
    }
    assert !RangeOk(e, silo, f, name, l);
  }

  // ----- the converse

  predicate Declared(silo: Silo, name: string) { exists i :: 0 <= i < |silo.attrs| && silo.attrs[i].name == name }

  /** A value of the column that, found by this text, is accepted. */
  predicate FoundAlike(e: Engine, kind: string, v: Json, want: string) {
    if kind != "real" then SelectsItself(e, kind, v) || v.JNull?
    else match v
      case JNull => true
      case JNum(_) => Canonical(e, want)
      case JStr(s) => ReadNumber(e, s).Some? ==> Canonical(e, s) && Canonical(e, want)
      case JArr(_) => SelectsItself(e, kind, v)
      case JBool(_) => false
      case JObj(_) => false
  }

  /** Each declared facet asked for is over its own key with a value found alike; the search ignores the others. */
  ghost predicate FacetsFindAlike(e: Engine, silo: Silo, f: Filter, l: Listing) {
    forall name :: Asked(f, name) ==> FacetFindsAlike(e, silo, name, f.facets[name], l)
  }

  predicate FacetFindsAlike(e: Engine, silo: Silo, name: string, want: string, l: Listing) {
    if Declared(silo, name) then
      && OwnDef(silo, name)
      && (name in l.attrs ==> FoundAlike(e, Def(silo.attrs, name).value.kind, l.attrs[name], want))
    else FacetAccepted(e, want, name, l)
  }

  /** Each bounded, declared range is tight, and over the price or numbers; the search ignores the others. */
  ghost predicate RangesFindAlike(silo: Silo, f: Filter, l: Listing) {
    forall name :: name in f.ranges ==> RangeFindsAlike(silo, f.ranges[name], name, l)
  }

  predicate RangeFindsAlike(silo: Silo, rf: Range, name: string, l: Listing) {
    if name in silo.ranges && Bounded(rf) then
      Tight(rf, name) && (name != "price" ==> RealDef(silo, name) && Numeric(name, l))
    else RangeAccepted(rf, name, l)
  }

  /** The range sets a bound, and truncating a price bound does not widen it. */
  predicate Tight(rf: Range, name: string) {
    && Bounded(rf)
    && (name == "price" && rf.min.Some? ==> rf.min.value <= 0.0 || Whole(rf.min.value))
    && (name == "price" && rf.max.Some? ==> rf.max.value >= 0.0 || Whole(rf.max.value))
  }

  lemma FacetBack(e: Engine, silo: Silo, f: Filter, name: string, l: Listing)
    requires Asked(f, name) && Declared(silo, name) && FacetFindsAlike(e, silo, name, f.facets[name], l)
    requires FacetOk(e, silo, f, name, l)
    ensures FacetAccepted(e, f.facets[name], name, l)
  {
    var d := Def(silo.attrs, name).value;
    OwnColumn(e, d, name, l);
    var v := l.attrs[name];
    SelfSelection(e, d.kind, v);
    if v.JArr? { BracketReads(e, Stored(e, d.kind, v).s); }
  }

  lemma RangeBack(e: Engine, silo: Silo, f: Filter, name: string, l: Listing)
    requires name in f.ranges && Tight(f.ranges[name], name) && RangeOk(e, silo, f, name, l)
    requires name != "price" ==> RealDef(silo, name) && Numeric(name, l)
    ensures RangeAccepted(f.ranges[name], name, l)
  {
    var rf := f.ranges[name];
    if name == "price" {
      if rf.min.Some? { PriceExact(rf.min.value); assert PriceAbove(l.price, rf.min.value); }
      if rf.max.Some? { PriceExact(rf.max.value); assert PriceBelow(l.price, rf.max.value); }
    } else {
      var d := Def(silo.attrs, name).value;
      RangeExact(e, d, name);
      assert InRange(e, d, rf, l);
    }
  }

  /** The converse, where each facet and range is found alike. */
  lemma FoundIsAccepted(e: Engine, silo: Silo, f: Filter, l: Listing)
    requires Trim(f.text) == ""
    requires FacetsFindAlike(e, silo, f, l) && RangesFindAlike(silo, f, l)
    requires Satisfies(e, silo, f, l)
    ensures Accepts(e, silo, f, l)
  {
    forall name | name in f.facets ensures FacetAccepted(e, f.facets[name], name, l) {
      if Asked(f, name) {
        assert FacetFindsAlike(e, silo, name, f.facets[name], l);
        if i :| 0 <= i < |silo.attrs| && silo.attrs[i].name == name {
          assert FacetOk(e, silo, f, silo.attrs[i].name, l);
          FacetBack(e, silo, f, name, l);
        }
      }
    }
    forall name | name in f.ranges ensures RangeAccepted(f.ranges[name], name, l) {
      assert RangeFindsAlike(silo, f.ranges[name], name, l);
      if name in silo.ranges && Bounded(f.ranges[name]) {
        var i :| 0 <= i < |silo.ranges| && silo.ranges[i] == name;
        assert RangeOk(e, silo, f, silo.ranges[i], l);
        RangeBack(e, silo, f, name, l);
      }
    }
  }

  /** A range without bounds is ignored by the search but still asks the matcher for a number. */
  lemma EmptyRangeDiffers(e: Engine, silo: Silo, f: Filter, name: string, l: Listing)
    requires name in f.ranges && f.ranges[name] == Range(None, None)
    ensures RangeOk(e, silo, f, name, l)
    ensures RangeAccepted(f.ranges[name], name, l) <==> name == "price" || (name in l.attrs && l.attrs[name].JNum?)
  {
  }

  /** A facet the silo does not declare is ignored by the search and binds the matcher. */
  lemma UndeclaredFacetDiffers(e: Engine, silo: Silo, f: Filter, name: string, l: Listing)
    requires name in f.facets && !Declared(silo, name)
    ensures var g := f.(facets := f.facets - {name});
      && (Satisfies(e, silo, f, l) <==> Satisfies(e, silo, g, l))
      && (Accepts(e, silo, f, l) <==> Accepts(e, silo, g, l) && FacetAccepted(e, f.facets[name], name, l))
  {
    var g := f.(facets := f.facets - {name});
    forall i | 0 <= i < |silo.attrs|
      ensures FacetOk(e, silo, f, silo.attrs[i].name, l) <==> FacetOk(e, silo, g, silo.attrs[i].name, l)
    {
      assert silo.attrs[i].name != name;
    }
    forall i | 0 <= i < |silo.ranges|
      ensures RangeOk(e, silo, f, silo.ranges[i], l) <==> RangeOk(e, silo, g, silo.ranges[i], l)
    {
    }
    forall k | k in f.facets && k != name ensures k in g.facets && g.facets[k] == f.facets[k] {}
  }

  /** So is a range the silo does not declare. */
  lemma UndeclaredRangeDiffers(e: Engine, silo: Silo, f: Filter, name: string, l: Listing)
    requires name in f.ranges && name !in silo.ranges
    ensures var g := f.(ranges := f.ranges - {name});
      && (Satisfies(e, silo, f, l) <==> Satisfies(e, silo, g, l))
      && (Accepts(e, silo, f, l) <==> Accepts(e, silo, g, l) && RangeAccepted(f.ranges[name], name, l))
  {
    var g := f.(ranges := f.ranges - {name});
    forall i | 0 <= i < |silo.attrs|
      ensures FacetOk(e, silo, f, silo.attrs[i].name, l) <==> FacetOk(e, silo, g, silo.attrs[i].name, l)
    {
    }
    forall i | 0 <= i < |silo.ranges|
      ensures RangeOk(e, silo, f, silo.ranges[i], l) <==> RangeOk(e, silo, g, silo.ranges[i], l)
    {
      assert silo.ranges[i] != name;
    }
    forall k | k in f.ranges && k != name ensures k in g.ranges && g.ranges[k] == f.ranges[k] {}
  }

  /** A hidden listing is never found, and accepted as if it were not hidden. */
  lemma HiddenDiffers(e: Engine, silo: Silo, f: Filter, l: Listing)
    ensures !Satisfies(e, silo, f, l.(hidden := true))
    ensures Accepts(e, silo, f, l.(hidden := true)) <==> Accepts(e, silo, f, l.(hidden := false))
  {
    forall name | name in f.facets
      ensures FacetAccepted(e, f.facets[name], name, l.(hidden := true)) <==>
        FacetAccepted(e, f.facets[name], name, l.(hidden := false))
    {
    }
    forall name | name in f.ranges
      ensures RangeAccepted(f.ranges[name], name, l.(hidden := true)) <==>
        RangeAccepted(f.ranges[name], name, l.(hidden := false))
    {
    }
  }

  // ----- examples of disagreement

  const OneText := Silo("s", [AttrDef("brand", [Key("brand")], "text")], ["price", "brand"])

  /** A length of ten is not between nine and eleven in a text column. */
  lemma TextRangeExample(e: Engine)
    ensures var silo := Silo("s", [AttrDef("len", [Key("len")], "text")], ["len"]);
      var f := Ask(map[], map["len" := Range(Some(9.0), Some(11.0))]);
      var l := Probe("s", "len", JNum(10.0));
      Accepts(e, silo, f, l) && !Satisfies(e, silo, f, l)
  {
    RangeMissed(e, Silo("s", [AttrDef("len", [Key("len")], "text")], ["len"]), 0);
  }

  /** The search looks for the brand under another key. */
  lemma OtherPathExample(e: Engine)
    ensures var silo, f := Silo("s", [AttrDef("brand", [Key("marque")], "text")], []), Ask(map["brand" := "X"], map[]);
      var l := Probe("s", "brand", JStr("X"));
      Accepts(e, silo, f, l) && !Satisfies(e, silo, f, l)
  {
    FacetMissed(e, Silo("s", [AttrDef("brand", [Key("marque")], "text")], []), 0);
  }

  /** One attribute name in two spellings has one column, over the key of the first. */
  lemma OtherCaseExample(e: Engine)
    ensures var silo := Silo(
        "s", [AttrDef("Brand", [Key("Brand")], "text"), AttrDef("brand", [Key("brand")], "text")], []);
      var f := Ask(map["brand" := "X"], map[]);
      var l := Probe("s", "brand", JStr("X"));
      Accepts(e, silo, f, l) && !Satisfies(e, silo, f, l)
  {
    var silo := Silo("s", [AttrDef("Brand", [Key("Brand")], "text"), AttrDef("brand", [Key("brand")], "text")], []);
    assert "Brand"[1..] == "brand"[1..] && Fold("Brand") == Fold("brand");
    assert Key("Brand").name[0] == 'B' && Key("brand").name[0] == 'b';
    FacetMissed(e, silo, 1);
  }

  lemma OneTextColumn(e: Engine, v: Json)
    ensures Def(OneText.attrs, "brand") == Some(OneText.attrs[0])
    ensures Column(e, OneText.attrs[0], Probe("s", "brand", v)) == Stored(e, "text", v)
  {
    OwnColumn(e, OneText.attrs[0], "brand", Probe("s", "brand", v));
  }

  lemma OneTextFacet(e: Engine, want: string, v: Json)
    requires want != ""
    ensures Accepts(e, OneText, Ask(map["brand" := want], map[]), Probe("s", "brand", v)) <==> AsString(e, v) == want
    ensures Satisfies(e, OneText, Ask(map["brand" := want], map[]), Probe("s", "brand", v)) <==>
      Stored(e, "text", v) == TextValue(want)
  {
    OneTextColumn(e, v);
    var f, l := Ask(map["brand" := want], map[]), Probe("s", "brand", v);
    assert FacetOk(e, OneText, f, OneText.attrs[0].name, l) <==> Stored(e, "text", v) == TextValue(want);
  }

  /** A boolean is `true` or `false` to one and `1` or `0` to the other. */
  lemma BooleanFacetExample(e: Engine)
    ensures var silo, f := OneText, Ask(map["brand" := "true"], map[]);
      var l := Probe("s", "brand", JBool(true));
      Accepts(e, silo, f, l) && !Satisfies(e, silo, f, l)
    ensures var silo, f := OneText, Ask(map["brand" := "1"], map[]);
      var l := Probe("s", "brand", JBool(true));
      !Accepts(e, silo, f, l) && Satisfies(e, silo, f, l)
    ensures var silo, f := OneText, Ask(map["brand" := "0"], map[]);
      var l := Probe("s", "brand", JBool(false));
      !Accepts(e, silo, f, l) && Satisfies(e, silo, f, l)
  {
    OneTextFacet(e, "0", JBool(false));
    assert "false"[0] == 'f' && "0"[0] == '0';
    OneTextFacet(e, "true", JBool(true));
    OneTextFacet(e, "1", JBool(true));
    assert "true"[0] == 't' && "1"[0] == '1';
  }

  lemma {:induction false} OnlyZeros(s: string)
    requires forall i :: 0 <= i < |s| ==> s[i] == '0'
    ensures DropZeros(s) == ""
  {
    if s != "" { OnlyZeros(s[..|s| - 1]); }
  }

  lemma PowerOfTen(k: nat)
    requires k > 0
    ensures Decimal(10 * k) == Decimal(k) + "0"
  {
    assert 10 * k / 10 == k && 10 * k % 10 == 0;
  }

  lemma MillionDigits()
    ensures Decimal(1000000) == "1000000"
  {
    PowerOfTen(1);
    PowerOfTen(10);
    PowerOfTen(100);
    PowerOfTen(1000);
    PowerOfTen(10000);
    PowerOfTen(100000);
  }

  lemma MillionTexts(e: Engine, r: real)
    requires r.Floor == 1000000 && Exact(r)
    ensures GoNumber(e, r) == "1e+06" && SqlNumber(e, r) == "1000000"
  {
    MillionDigits();
    OnlyZeros("000000");
    assert "1000000"[1..] == "000000" && "1000000"[..1] == "1" && Decimal(6) == "6";
  }

  lemma NegativeMillion(e: Engine, r: real)
    requires r.Floor == -1000000 && Exact(r)
    ensures GoNumber(e, r) == "-1e+06" && SqlNumber(e, r) == "-1000000"
  {
    MillionDigits();
    OnlyZeros("000000");
    assert "1000000"[1..] == "000000" && "1000000"[..1] == "1" && Decimal(6) == "6";
  }

  /** A million is `1e+06` to one and `1000000` to the other. */
  lemma MillionFacetExample(e: Engine)
    ensures var silo, f := OneText, Ask(map["brand" := "1e+06"], map[]);
      var l := Probe("s", "brand", JNum(1000000.0));
      Accepts(e, silo, f, l) && !Satisfies(e, silo, f, l)
    ensures var silo, f := OneText, Ask(map["brand" := "1000000"], map[]);
      var l := Probe("s", "brand", JNum(1000000.0));
      !Accepts(e, silo, f, l) && Satisfies(e, silo, f, l)
  {
    assert 1000000.0.Floor == 1000000;
    MillionTexts(e, 1000000.0);
    OneTextFacet(e, "1e+06", JNum(1000000.0));
    OneTextFacet(e, "1000000", JNum(1000000.0));
    assert "1e+06"[1] == 'e' && "1000000"[1] == '0';
  }

  /** A null is `<nil>` to the matcher and nothing to the search. */
  lemma NullFacetExample(e: Engine)
    ensures var silo, f := OneText, Ask(map["brand" := "<nil>"], map[]);
      var l := Probe("s", "brand", JNull);
      Accepts(e, silo, f, l) && !Satisfies(e, silo, f, l)
  {
    OneTextFacet(e, "<nil>", JNull);
  }

  /** An object begins with `map[` to one and with a brace to the other. */
  lemma ObjectFacetExample(e: Engine)
    ensures var silo, f := OneText, Ask(map["brand" := AsString(e, JObj(map[]))], map[]);
      var l := Probe("s", "brand", JObj(map[]));
      Accepts(e, silo, f, l) && !Satisfies(e, silo, f, l)
  {
    var want := AsString(e, JObj(map[]));
    assert want[0] == 'm' && Stored(e, "text", JObj(map[])).s[0] == '{';
    OneTextFacet(e, want, JObj(map[]));
  }

  /** A length of nine is found as `9.0` too. */
  lemma RealFacetExample(e: Engine)
    ensures var silo, f := Silo("s", [AttrDef("len", [Key("len")], "real")], []), Ask(map["len" := "9.0"], map[]);
      var l := Probe("s", "len", JNum(9.0));
      !Accepts(e, silo, f, l) && Satisfies(e, silo, f, l)
  {
    var silo := Silo("s", [AttrDef("len", [Key("len")], "real")], []);
    var f, l := Ask(map["len" := "9.0"], map[]), Probe("s", "len", JNum(9.0));
    assert 9.0.Floor == 9 && SignedDecimal(9) == "9" && "9" + ".0" == "9.0";
    WholeReadsBack(e, 9);
    OwnColumn(e, silo.attrs[0], "len", l);
    assert Def(silo.attrs, "len") == Some(silo.attrs[0]);
    assert !FacetAccepted(e, f.facets["len"], "len", l);
    assert FacetOk(e, silo, f, silo.attrs[0].name, l);
  }

  /** In a real column a true value is found as `1`, and accepted as `true` only. */
  lemma RealBooleanExample(e: Engine)
    ensures var silo := Silo("s", [AttrDef("len", [Key("len")], "real")], []);
      var yes, no := Probe("s", "len", JBool(true)), Probe("s", "len", JBool(false));
      var one, zero := Ask(map["len" := "1"], map[]), Ask(map["len" := "0"], map[]);
      && !Accepts(e, silo, one, yes) && Satisfies(e, silo, one, yes) && !Satisfies(e, silo, one, no)
      && !Accepts(e, silo, zero, no) && Satisfies(e, silo, zero, no) && !Satisfies(e, silo, zero, yes)
  {
    assert SignedDecimal(1) == "1" && SignedDecimal(0) == "0";
    WholeReadsBack(e, 1);
    WholeReadsBack(e, 0);
    RealBoolean(e, "1", true);
    RealBoolean(e, "0", false);
  }

  lemma RealBoolean(e: Engine, want: string, b: bool)
    requires ReadNumber(e, want) == Some(if b then 1.0 else 0.0) && |want| == 1
    ensures !Satisfies(e, Silo("s", [AttrDef("len", [Key("len")], "real")], []), Ask(map["len" := want], map[]),
      Probe("s", "len", JBool(!b)))
    ensures var silo, f := Silo("s", [AttrDef("len", [Key("len")], "real")], []), Ask(map["len" := want], map[]);
      var l := Probe("s", "len", JBool(b));
      !Accepts(e, silo, f, l) && Satisfies(e, silo, f, l)
  {
    var silo := Silo("s", [AttrDef("len", [Key("len")], "real")], []);
    var f, l := Ask(map["len" := want], map[]), Probe("s", "len", JBool(b));
    OwnColumn(e, silo.attrs[0], "len", l);
    OwnColumn(e, silo.attrs[0], "len", Probe("s", "len", JBool(!b)));
    assert Def(silo.attrs, "len") == Some(silo.attrs[0]);
    assert !FacetAccepted(e, f.facets["len"], "len", l);
    assert FacetOk(e, silo, f, silo.attrs[0].name, l);
    assert !FacetOk(e, silo, f, silo.attrs[0].name, Probe("s", "len", JBool(!b)));
  }

  /** A facet that is not declared. */
  lemma UndeclaredFacetExample(e: Engine)
    ensures var silo, f := OneText, Ask(map["color" := "red"], map[]);
      var l := Probe("s", "brand", JStr("X"));
      !Accepts(e, silo, f, l) && Satisfies(e, silo, f, l)
  {
    var f, l := Ask(map["color" := "red"], map[]), Probe("s", "brand", JStr("X"));
    assert !FacetAccepted(e, f.facets["color"], "color", l);
    assert OneText.attrs[0].name == "brand" && "brand"[0] == 'b' && "color"[0] == 'c';
    assert FacetOk(e, OneText, f, OneText.attrs[0].name, l);
  }

  /** A range that is not declared. */
  lemma UndeclaredRangeExample(e: Engine)
    ensures var silo, f := OneText, Ask(map[], map["len" := Range(Some(9.0), None)]);
      var l := Probe("s", "brand", JStr("X"));
      !Accepts(e, silo, f, l) && Satisfies(e, silo, f, l)
  {
    var f, l := Ask(map[], map["len" := Range(Some(9.0), None)]), Probe("s", "brand", JStr("X"));
    assert !RangeAccepted(f.ranges["len"], "len", l);
    assert "len"[0] == 'l' && "brand"[0] == 'b' && "price"[0] == 'p';
  }

  /** A hidden listing under a filter that asks for nothing. */
  lemma HiddenExample(e: Engine)
    ensures var silo, f := OneText, Ask(map[], map[]);
      var l := Probe("s", "brand", JStr("X")).(hidden := true);
      Accepts(e, silo, f, l) && !Satisfies(e, silo, f, l)
  {
  }

  /** A price of ten is not at least ten and a half, until the bound is truncated. */
  lemma FractionalPriceExample(e: Engine)
    ensures var silo, f := OneText, Ask(map[], map["price" := Range(Some(10.5), None)]);
      var l := Probe("s", "brand", JNull).(price := 10);
      !Accepts(e, silo, f, l) && Satisfies(e, silo, f, l)
  {
    assert Truncate(10.5) == 10;
    var f, l := Ask(map[], map["price" := Range(Some(10.5), None)]), Probe("s", "brand", JNull).(price := 10);
    assert !RangeAccepted(f.ranges["price"], "price", l);
    assert RangeOk(e, OneText, f, "price", l);
  }

  /** A range without bounds over an attribute that is not there. */
  lemma EmptyRangeExample(e: Engine)
    ensures var silo, f := OneText, Ask(map[], map["brand" := Range(None, None)]);
      var l := Probe("s", "other", JNull);
      !Accepts(e, silo, f, l) && Satisfies(e, silo, f, l)
  {
    var f, l := Ask(map[], map["brand" := Range(None, None)]), Probe("s", "other", JNull);
    EmptyRangeDiffers(e, OneText, f, "brand", l);
  }
}
