// The cached facet counts of one silo, refreshed after Create and Update only.

module FacetCache {
  import opened Options
  import opened Text
  import opened Listings

  type Rows = map<string, Listing>
  type Pair = (string, string)

  /** Attribute names are unique, so each generated column belongs to its own definition. */
  ghost predicate DistinctNames(silo: Silo) {
    forall i, j :: 0 <= i < j < |silo.attrs| ==> silo.attrs[i].name != silo.attrs[j].name
  }

  // ----- the full recount

  /** Listing `id` of the silo carries `v` in the column of `d`; hidden and unpublished ones count too. */
  predicate Carries(e: Engine, silo: Silo, rows: Rows, id: string, d: AttrDef, v: string) {
    id in rows && rows[id].silo == silo.id && Column(e, d, rows[id]) == TextValue(v)
  }

  function Carriers(e: Engine, silo: Silo, rows: Rows, d: AttrDef, v: string): set<string> {
    set id | id in rows && Carries(e, silo, rows, id, d, v)
  }

  function Count(e: Engine, silo: Silo, rows: Rows, d: AttrDef, v: string): nat {
    |Carriers(e, silo, rows, d, v)|
  }

  function Values(e: Engine, silo: Silo, rows: Rows, d: AttrDef): set<string> {
    set id | id in rows && rows[id].silo == silo.id && Column(e, d, rows[id]).TextValue? :: Column(e, d, rows[id]).s
  }

  function Counted(e: Engine, silo: Silo, rows: Rows, d: AttrDef): map<Pair, nat> {
    map k: Pair | k in (set v | v in Values(e, silo, rows, d) :: (d.name, v)) :: Count(e, silo, rows, d, k.1)
  }

  /** Recounts the text facets of the first `n` definitions. */
  function RecountTo(e: Engine, silo: Silo, rows: Rows, n: nat): map<Pair, nat>
    requires n <= |silo.attrs|
  {
    if n == 0 then map[]
    else
      var d := silo.attrs[n - 1];
      var before := RecountTo(e, silo, rows, n - 1);
      if d.kind != "text" then before
      else before + Counted(e, silo, rows, d)
  }

  function Recount(e: Engine, silo: Silo, rows: Rows): map<Pair, nat> { RecountTo(e, silo, rows, |silo.attrs|) }

  /** Definition i is a text facet of this name, and the value is carried in its column. */
  predicate CarriedAs(e: Engine, silo: Silo, rows: Rows, i: nat, a: string, v: string)
    requires i < |silo.attrs|
  {
    silo.attrs[i].name == a && silo.attrs[i].kind == "text" && Count(e, silo, rows, silo.attrs[i], v) > 0
  }

  /** The recount holds exactly the carried values, each with the number of its carriers. */
  lemma RecountMeans(e: Engine, silo: Silo, rows: Rows, n: nat, a: string, v: string)
    requires n <= |silo.attrs|
    requires forall i, j :: 0 <= i < j < |silo.attrs| ==> silo.attrs[i].name != silo.attrs[j].name
    ensures (a, v) in RecountTo(e, silo, rows, n) <==>
      exists i :: 0 <= i < n && CarriedAs(e, silo, rows, i, a, v)
    ensures forall i :: 0 <= i < n && CarriedAs(e, silo, rows, i, a, v) ==>
      (a, v) in RecountTo(e, silo, rows, n) &&
      RecountTo(e, silo, rows, n)[(a, v)] == Count(e, silo, rows, silo.attrs[i], v)
  {
    if (a, v) in RecountTo(e, silo, rows, n) {
      var i := RecountSource(e, silo, rows, n, a, v);
    }
    forall i | 0 <= i < n && CarriedAs(e, silo, rows, i, a, v)
      ensures (a, v) in RecountTo(e, silo, rows, n) &&
        RecountTo(e, silo, rows, n)[(a, v)] == Count(e, silo, rows, silo.attrs[i], v)
    {
      CarriedIsCounted(e, silo, rows, n, i, a, v);
    }
  }

  lemma {:induction false} RecountSource(e: Engine, silo: Silo, rows: Rows, n: nat, a: string, v: string)
    returns (i: nat)
    requires n <= |silo.attrs| && (a, v) in RecountTo(e, silo, rows, n)
    ensures i < n && CarriedAs(e, silo, rows, i, a, v)
  {
    RecountNext(e, silo, rows, n, a, v);
    i := n - 1;
    if !CarriedAs(e, silo, rows, n - 1, a, v) {
      i := RecountSource(e, silo, rows, n - 1, a, v);
    }
  }

  lemma {:induction false} CarriedIsCounted(
      e: Engine, silo: Silo, rows: Rows, n: nat, i: nat, a: string, v: string)
    requires DistinctNames(silo) && i < n <= |silo.attrs| && CarriedAs(e, silo, rows, i, a, v)
    ensures Holds(RecountTo(e, silo, rows, n), (a, v), Count(e, silo, rows, silo.attrs[i], v))
  {
    if i < n - 1 {
      CarriedIsCounted(e, silo, rows, n - 1, i, a, v);
      OneCarries(e, silo, rows, i, n - 1, a, v);
      RecountSkips(e, silo, rows, n, a, v, Count(e, silo, rows, silo.attrs[i], v));
    } else {
      RecountTakes(e, silo, rows, n, a, v);
    }
  }

  predicate Holds(cache: map<Pair, nat>, p: Pair, count: nat) { p in cache && cache[p] == count }

  lemma RecountSkips(e: Engine, silo: Silo, rows: Rows, n: nat, a: string, v: string, count: nat)
    requires 0 < n <= |silo.attrs| && !CarriedAs(e, silo, rows, n - 1, a, v)
    requires Holds(RecountTo(e, silo, rows, n - 1), (a, v), count)
    ensures Holds(RecountTo(e, silo, rows, n), (a, v), count)
  {
    RecountNext(e, silo, rows, n, a, v);
  }

  lemma RecountTakes(e: Engine, silo: Silo, rows: Rows, n: nat, a: string, v: string)
    requires 0 < n <= |silo.attrs| && CarriedAs(e, silo, rows, n - 1, a, v)
    ensures Holds(RecountTo(e, silo, rows, n), (a, v), Count(e, silo, rows, silo.attrs[n - 1], v))
  {
    RecountNext(e, silo, rows, n, a, v);
  }

  lemma OneCarries(e: Engine, silo: Silo, rows: Rows, i: nat, j: nat, a: string, v: string)
    requires DistinctNames(silo) && i < j < |silo.attrs| && CarriedAs(e, silo, rows, i, a, v)
    ensures !CarriedAs(e, silo, rows, j, a, v)
  {
    assert silo.attrs[i].name != silo.attrs[j].name;
  }

  lemma RecountNext(e: Engine, silo: Silo, rows: Rows, n: nat, a: string, v: string)
    requires 0 < n <= |silo.attrs|
    ensures var before, after := RecountTo(e, silo, rows, n - 1), RecountTo(e, silo, rows, n);
      if CarriedAs(e, silo, rows, n - 1, a, v) then
        (a, v) in after && after[(a, v)] == Count(e, silo, rows, silo.attrs[n - 1], v)
      else
        ((a, v) in after <==> (a, v) in before) && ((a, v) in before ==> after[(a, v)] == before[(a, v)])
  {
    CountedMeans(e, silo, rows, silo.attrs[n - 1], a, v);
  }

  lemma CountedMeans(e: Engine, silo: Silo, rows: Rows, d: AttrDef, a: string, v: string)
    ensures (a, v) in Counted(e, silo, rows, d) <==> a == d.name && Count(e, silo, rows, d, v) > 0
    ensures (a, v) in Counted(e, silo, rows, d) ==> Counted(e, silo, rows, d)[(a, v)] == Count(e, silo, rows, d, v)
  {
    CountPositive(e, silo, rows, d, v);
  }

  lemma CountPositive(e: Engine, silo: Silo, rows: Rows, d: AttrDef, v: string)
    ensures Count(e, silo, rows, d, v) > 0 <==> v in Values(e, silo, rows, d)
  {
    var carriers := Carriers(e, silo, rows, d, v);
    if Count(e, silo, rows, d, v) > 0 {
      var id :| id in carriers;
    }
    if v in Values(e, silo, rows, d) {
      var id :| id in rows && rows[id].silo == silo.id && Column(e, d, rows[id]).TextValue?
        && Column(e, d, rows[id]).s == v;
      assert id in carriers;
    }
  }

  lemma NobodyCarries(e: Engine, silo: Silo, d: AttrDef, v: string)
    ensures Count(e, silo, map[], d, v) == 0
  {
    assert Carriers(e, silo, map[], d, v) == {};
  }

  lemma CarriesNext(e: Engine, silo: Silo, rows: Rows, id: string, l: Listing, d: AttrDef, v: string, i: string)
    requires id !in rows
    ensures Carries(e, silo, rows[id := l], i, d, v) <==>
      if i == id then l.silo == silo.id && Column(e, d, l) == TextValue(v) else Carries(e, silo, rows, i, d, v)
  {
  }

  /** One listing more is one carrier more exactly if it is of the silo and carries the value. */
  lemma CountNext(e: Engine, silo: Silo, rows: Rows, id: string, l: Listing, d: AttrDef, v: string)
    requires id !in rows
    ensures Count(e, silo, rows[id := l], d, v) ==
      Count(e, silo, rows, d, v) + if l.silo == silo.id && Column(e, d, l) == TextValue(v) then 1 else 0
  {
    var before, after := Carriers(e, silo, rows, d, v), Carriers(e, silo, rows[id := l], d, v);
    forall i
      ensures i in after <==> (i in before || (i == id && l.silo == silo.id && Column(e, d, l) == TextValue(v)))
    {
      CarriesNext(e, silo, rows, id, l, d, v, i);
    }
    assert after == if l.silo == silo.id && Column(e, d, l) == TextValue(v) then before + {id} else before;
  }

  // ----- steps

  datatype State = State(rows: Rows, cache: map<Pair, nat>)

  const DRAFT := "draft"
  const PUBLISHED := "published"
  const SOLD := "sold"
  const ARCHIVED := "archived"

  predicate Allowed(from: string, to: string) {
    (from == DRAFT && to in {PUBLISHED, ARCHIVED}) || (from == PUBLISHED && to in {SOLD, ARCHIVED, DRAFT})
  }

  ghost predicate Created(e: Engine, silo: Silo, s: State, s': State, l: Listing) {
    && l.id !in s.rows && l.silo == silo.id && Trim(l.owner) != ""
    && s'.rows == s.rows[l.id := l] && s'.cache == s.cache + Recount(e, silo, s'.rows)
  }

  ghost predicate Updated(e: Engine, silo: Silo, s: State, s': State, id: string, l: Listing) {
    && id in s.rows && l.id == s.rows[id].id && l.silo == s.rows[id].silo && l.owner == s.rows[id].owner
    && s'.rows == s.rows[id := l] && s'.cache == s.cache + Recount(e, silo, s'.rows)
  }

  /** Status or moderation flag of one listing. */
  ghost predicate Flagged(s: State, s': State, id: string, status: string, hidden: bool) {
    && id in s.rows && s'.cache == s.cache
    && (status == s.rows[id].status || Allowed(s.rows[id].status, status))
    && s'.rows == s.rows[id := s.rows[id].(status := status, hidden := hidden)]
  }

  ghost predicate QuietStep(e: Engine, silo: Silo, s: State, s': State) {
    || s' == s
    || (exists l :: Created(e, silo, s, s', l))
    || (exists id, status, hidden :: Flagged(s, s', id, status, hidden))
  }

  ghost predicate Step(e: Engine, silo: Silo, s: State, s': State) {
    QuietStep(e, silo, s, s') || exists id, l :: Updated(e, silo, s, s', id, l)
  }

  /** Every carried value is cached with its true count. */
  ghost predicate Coherent(e: Engine, silo: Silo, s: State) {
    forall k :: k in Recount(e, silo, s.rows) ==> k in s.cache && s.cache[k] == Recount(e, silo, s.rows)[k]
  }

  ghost predicate SameFacets(rows: Rows, rows': Rows) {
    && rows.Keys == rows'.Keys
    && forall id :: id in rows ==> rows'[id].silo == rows[id].silo && rows'[id].attrs == rows[id].attrs
  }

  lemma SameCounted(e: Engine, silo: Silo, rows: Rows, rows': Rows, d: AttrDef)
    requires SameFacets(rows, rows')
    ensures Counted(e, silo, rows', d) == Counted(e, silo, rows, d)
  {
    assert Values(e, silo, rows', d) == Values(e, silo, rows, d);
    forall v ensures Count(e, silo, rows', d, v) == Count(e, silo, rows, d, v) {
      assert Carriers(e, silo, rows', d, v) == Carriers(e, silo, rows, d, v);
    }
  }

  lemma {:induction false} SameColumns(e: Engine, silo: Silo, rows: Rows, rows': Rows, n: nat)
    requires n <= |silo.attrs| && SameFacets(rows, rows')
    ensures RecountTo(e, silo, rows', n) == RecountTo(e, silo, rows, n)
  {
    if n > 0 {
      SameColumns(e, silo, rows, rows', n - 1);
      SameCounted(e, silo, rows, rows', silo.attrs[n - 1]);
    }
  }

  lemma {:induction false} MoreRowsMoreKeys(e: Engine, silo: Silo, rows: Rows, l: Listing, n: nat)
    requires n <= |silo.attrs| && l.id !in rows
    ensures RecountTo(e, silo, rows, n).Keys <= RecountTo(e, silo, rows[l.id := l], n).Keys
  {
    if n > 0 {
      MoreRowsMoreKeys(e, silo, rows, l, n - 1);
      var d := silo.attrs[n - 1];
      var rows' := rows[l.id := l];
      forall v | v in Values(e, silo, rows, d) ensures v in Values(e, silo, rows', d) {
        var id :| id in rows && rows[id].silo == silo.id && Column(e, d, rows[id]).TextValue?
          && Column(e, d, rows[id]).s == v;
        assert id in rows' && rows'[id] == rows[id];
      }
    }
  }

  lemma FlagKeepsRecount(e: Engine, silo: Silo, s: State, s': State, id: string, status: string, hidden: bool)
    requires Flagged(s, s', id, status, hidden)
    ensures Recount(e, silo, s'.rows) == Recount(e, silo, s.rows)
  {
    SameColumns(e, silo, s.rows, s'.rows, |silo.attrs|);
  }

  lemma StepKeepsCoherent(e: Engine, silo: Silo, s: State, s': State)
    requires Coherent(e, silo, s) && Step(e, silo, s, s')
    ensures Coherent(e, silo, s')
  {
    if id, status, hidden :| Flagged(s, s', id, status, hidden) {
      FlagKeepsRecount(e, silo, s, s', id, status, hidden);
    }
  }

  lemma QuietStepKeepsExact(e: Engine, silo: Silo, s: State, s': State)
    requires s.cache == Recount(e, silo, s.rows) && QuietStep(e, silo, s, s')
    ensures s'.cache == Recount(e, silo, s'.rows)
  {
    if id, status, hidden :| Flagged(s, s', id, status, hidden) {
      FlagKeepsRecount(e, silo, s, s', id, status, hidden);
    } else if l :| Created(e, silo, s, s', l) {
      MoreRowsMoreKeys(e, silo, s.rows, l, |silo.attrs|);
    }
  }

  /** An update keeps an exact cache exact precisely when no value vanishes. */
  lemma UpdateExact(e: Engine, silo: Silo, s: State, s': State, id: string, l: Listing)
    requires s.cache == Recount(e, silo, s.rows) && Updated(e, silo, s, s', id, l)
    ensures s'.cache == Recount(e, silo, s'.rows) <==> Recount(e, silo, s.rows).Keys <= Recount(e, silo, s'.rows).Keys
  {
    assert s'.cache.Keys == Recount(e, silo, s.rows).Keys + Recount(e, silo, s'.rows).Keys;
  }

  ghost predicate Run(e: Engine, silo: Silo, run: seq<State>) {
    |run| > 0 && run[0] == State(map[], map[]) && forall i :: 0 <= i < |run| - 1 ==> StepAt(e, silo, run, i)
  }

  ghost predicate StepAt(e: Engine, silo: Silo, run: seq<State>, i: nat)
    requires i + 1 < |run|
  {
    Step(e, silo, run[i], run[i + 1])
  }

  /** No update happens on the run. */
  ghost predicate Quiet(e: Engine, silo: Silo, run: seq<State>) {
    forall i :: 0 <= i < |run| - 1 ==> QuietAt(e, silo, run, i)
  }

  ghost predicate QuietAt(e: Engine, silo: Silo, run: seq<State>, i: nat)
    requires i + 1 < |run|
  {
    QuietStep(e, silo, run[i], run[i + 1])
  }

  lemma {:induction false} EmptyRecount(e: Engine, silo: Silo, n: nat)
    requires n <= |silo.attrs|
    ensures RecountTo(e, silo, map[], n) == map[]
  {
    if n > 0 { EmptyRecount(e, silo, n - 1); }
  }

  /** On every run carried values are cached with their full recount; without updates the cache is the recount. */
  lemma {:induction false} RunKeepsCounts(e: Engine, silo: Silo, run: seq<State>, n: nat)
    requires Run(e, silo, run) && n < |run|
    ensures Coherent(e, silo, run[n])
    ensures Quiet(e, silo, run) ==> run[n].cache == Recount(e, silo, run[n].rows)
  {
    if n == 0 {
      EmptyRecount(e, silo, |silo.attrs|);
    } else {
      RunKeepsCounts(e, silo, run, n - 1);
      assert StepAt(e, silo, run, n - 1);
      StepKeepsCoherent(e, silo, run[n - 1], run[n]);
      if Quiet(e, silo, run) {
        assert QuietAt(e, silo, run, n - 1);
        QuietStepKeepsExact(e, silo, run[n - 1], run[n]);
      }
    }
  }

  /** The count at the last moment up to `n` at which the value was carried. */
  function LastCount(e: Engine, silo: Silo, run: seq<State>, n: nat, p: Pair): Option<nat>
    requires n < |run|
  {
    if p in Recount(e, silo, run[n].rows) then Some(Recount(e, silo, run[n].rows)[p])
    else if n == 0 then None
    else LastCount(e, silo, run, n - 1, p)
  }

  /** The cache holds every value ever carried, each with the count it had when it was last carried. */
  lemma {:induction false} CacheIsHistory(e: Engine, silo: Silo, run: seq<State>, n: nat, p: Pair)
    requires Run(e, silo, run) && n < |run|
    ensures p in run[n].cache <==> LastCount(e, silo, run, n, p).Some?
    ensures p in run[n].cache ==> run[n].cache[p] == LastCount(e, silo, run, n, p).value
  {
    if n == 0 {
      EmptyRecount(e, silo, |silo.attrs|);
    } else {
      CacheIsHistory(e, silo, run, n - 1, p);
      RunKeepsCounts(e, silo, run, n);
      assert StepAt(e, silo, run, n - 1);
      if p !in Recount(e, silo, run[n].rows) { StepCaches(e, silo, run[n - 1], run[n], p); }
    }
  }

  /** A step caches nothing but values carried after it. */
  lemma StepCaches(e: Engine, silo: Silo, s: State, s': State, p: Pair)
    requires Step(e, silo, s, s') && p !in Recount(e, silo, s'.rows)
    ensures (p in s'.cache <==> p in s.cache) && (p in s.cache ==> s'.cache[p] == s.cache[p])
  {
  }

  /** One text attribute, read from its own key. */
  const BRANDS := Silo("s", [AttrDef("brand", [Key("brand")], "text")], [])

  function Branded(brand: string): Listing {
    Listing("a", "s", "o", "", "", 0, DRAFT, map["brand" := JStr(brand)], false, 0)
  }

  lemma BrandedRecount(e: Engine, brand: string)
    ensures Recount(e, BRANDS, map["a" := Branded(brand)]) == map[("brand", brand) := 1]
  {
    var rows, d: AttrDef := map["a" := Branded(brand)], BRANDS.attrs[0];
    assert d.path[1..] == [] && Column(e, d, Branded(brand)) == TextValue(brand) by {
      assert Lookup(JStr(brand), d.path[1..]) == Some(JStr(brand));
    }
    assert Values(e, BRANDS, rows, d) == {brand} by {
      assert rows["a"] == Branded(brand);
    }
    assert Carriers(e, BRANDS, rows, d, brand) == {"a"};
    assert RecountTo(e, BRANDS, rows, 0) == map[];
  }

  const WITH_X := State(map["a" := Branded("X")], map[("brand", "X") := 1])
  const STALE := State(map["a" := Branded("Y")], map[("brand", "X") := 1, ("brand", "Y") := 1])

  lemma StaleSteps(e: Engine, silo: Silo)
    requires silo.id == "s" && forall b :: Recount(e, silo, map["a" := Branded(b)]) == map[("brand", b) := 1]
    ensures Created(e, silo, State(map[], map[]), WITH_X, Branded("X"))
    ensures Updated(e, silo, WITH_X, STALE, "a", Branded("Y"))
  {
    assert Trim("o") == "o";
    assert Recount(e, silo, WITH_X.rows) == WITH_X.cache;
    assert STALE.rows == WITH_X.rows["a" := Branded("Y")];
    assert STALE.cache == WITH_X.cache + map[("brand", "Y") := 1];
  }

  /** A listing changes from X to Y: the cache still counts one X. */
  lemma StaleExample(e: Engine)
    ensures Run(e, BRANDS, [State(map[], map[]), WITH_X, STALE])
    ensures ("brand", "X") in STALE.cache && ("brand", "X") !in Recount(e, BRANDS, STALE.rows)
  {
    forall b ensures Recount(e, BRANDS, map["a" := Branded(b)]) == map[("brand", b) := 1] { BrandedRecount(e, b); }
    StaleSteps(e, BRANDS);
    var run := [State(map[], map[]), WITH_X, STALE];
    assert StepAt(e, BRANDS, run, 0) && StepAt(e, BRANDS, run, 1);
    BrandedRecount(e, "Y");
    assert "X"[0] != "Y"[0];
  }

  lemma PlusAssociates(a: map<Pair, nat>, b: map<Pair, nat>, c: map<Pair, nat>)
    ensures (a + b) + c == a + (b + c)
  {
  }

  // ----- the store

  datatype Patch = Patch(
    title: Option<string>, body: Option<string>, price: Option<int>, attrs: Option<map<string, Json>>)

  datatype Outcome = Done | OwnerRequired | IdTaken | NotFound | NotOwner | IllegalTransition | IdRequired

  class Store {
    const e: Engine
    const silo: Silo
    var rows: Rows
    var cache: map<Pair, nat>

    function S(): State
      reads this
    {
      State(rows, cache)
    }

    constructor (e: Engine, silo: Silo)
      ensures this.e == e && this.silo == silo && S() == State(map[], map[])
    {
      this.e, this.silo := e, silo;
      rows, cache := map[], map[];
    }

    /** `SELECT value, COUNT(*) ... GROUP BY value`, drained whole, in any order. */
    method Groups(d: AttrDef) returns (pending: seq<(string, nat)>)
      ensures forall v :: v in Values(e, silo, rows, d) ==> (v, Count(e, silo, rows, d, v)) in pending
      ensures forall g :: g in pending ==> g.0 in Values(e, silo, rows, d) && g.1 == Count(e, silo, rows, d, g.0)
    {
      pending := [];
      var rest := Values(e, silo, rows, d);
      while rest != {}
        invariant rest <= Values(e, silo, rows, d)
        invariant forall v :: v in Values(e, silo, rows, d) - rest ==> (v, Count(e, silo, rows, d, v)) in pending
        invariant forall g :: g in pending ==> g.0 in Values(e, silo, rows, d) && g.1 == Count(e, silo, rows, d, g.0)
      {
        var v :| v in rest;
        pending, rest := pending + [(v, Count(e, silo, rows, d, v))], rest - {v};
      }
    }

    method RefreshFacet(d: AttrDef)
      modifies this`cache
      ensures cache == old(cache) + Counted(e, silo, rows, d)
    {
      var pending := Groups(d);
      for i := 0 to |pending|
        invariant cache.Keys == old(cache).Keys + set g | g in pending[..i] :: (d.name, g.0)
        invariant forall g :: g in pending[..i] ==> cache[(d.name, g.0)] == g.1
        invariant forall p :: p in old(cache) && p !in Counted(e, silo, rows, d) ==> cache[p] == old(cache)[p]
      {
        var (value, count) := pending[i];
        assert (value, count) in pending;
        assert pending[..i + 1] == pending[..i] + [(value, count)];
        cache := cache[(d.name, value) := count];
      }
      assert pending[..|pending|] == pending;
      forall p | p in Counted(e, silo, rows, d) ensures p in cache && cache[p] == Counted(e, silo, rows, d)[p] {
        assert (p.1, Count(e, silo, rows, d, p.1)) in pending;
      }
    }

    method RefreshFacetCounts()
      modifies this`cache
      ensures cache == old(cache) + Recount(e, silo, rows)
    {
      for k := 0 to |silo.attrs|
        invariant cache == old(cache) + RecountTo(e, silo, rows, k)
      {
        var d := silo.attrs[k];
        if d.kind != "text" { continue; }
        RefreshFacet(d);
        PlusAssociates(old(cache), RecountTo(e, silo, rows, k), Counted(e, silo, rows, d));
      }
    }

    method Create(l: Listing, freshId: string, now: int) returns (r: Outcome)
      modifies this
      ensures Step(e, silo, old(S()), S()) && QuietStep(e, silo, old(S()), S())
      ensures r == OwnerRequired <==> Trim(l.owner) == ""
      ensures r == IdTaken <==> r != OwnerRequired && (if l.id == "" then freshId else l.id) in old(rows)
      ensures r == Done || r == OwnerRequired || r == IdTaken
      ensures r != Done ==> S() == old(S())
      ensures r == Done ==> var row := l.(
        id := if l.id == "" then freshId else l.id, silo := silo.id, hidden := false, createdAt := now,
        status := if l.status == "" then "draft" else l.status);
        && Created(e, silo, old(S()), S(), row)
        && rows == old(rows)[row.id := row] && cache == old(cache) + Recount(e, silo, rows)
    {
      if Trim(l.owner) == "" { return OwnerRequired; }
      var row := l.(
        id := if l.id == "" then freshId else l.id, silo := silo.id, hidden := false, createdAt := now,
        status := if l.status == "" then DRAFT else l.status);
      if row.id in rows { return IdTaken; }
      rows := rows[row.id := row];
      RefreshFacetCounts();
      assert Created(e, silo, old(S()), S(), row);
      return Done;
    }

    method Update(caller: string, id: string, p: Patch) returns (r: Outcome)
      modifies this
      ensures Step(e, silo, old(S()), S())
      ensures r == NotFound <==> id !in old(rows)
      ensures r == NotOwner <==> id in old(rows) && old(rows)[id].owner != caller
      ensures r == Done <==> id in old(rows) && old(rows)[id].owner == caller
      ensures r != Done ==> S() == old(S())
      ensures r == Done ==> cache == old(cache) + Recount(e, silo, rows)
      ensures r == Done ==> rows == old(rows)[id := old(rows)[id].(
        title := if p.title.Some? then p.title.value else old(rows)[id].title,
        body := if p.body.Some? then p.body.value else old(rows)[id].body,
        price := if p.price.Some? then p.price.value else old(rows)[id].price,
        attrs := if p.attrs.Some? then p.attrs.value else old(rows)[id].attrs)]
    {
      if id !in rows { return NotFound; }
      var cur := rows[id];
      if cur.owner != caller { return NotOwner; }
      if p.title.Some? { cur := cur.(title := p.title.value); }
      if p.body.Some? { cur := cur.(body := p.body.value); }
      if p.price.Some? { cur := cur.(price := p.price.value); }
      if p.attrs.Some? { cur := cur.(attrs := p.attrs.value); }
      rows := rows[id := cur];
      RefreshFacetCounts();
      assert Updated(e, silo, old(S()), S(), id, cur);
      return Done;
    }

    method SetStatus(caller: string, id: string, to: string) returns (r: Outcome)
      modifies this`rows
      ensures Step(e, silo, old(S()), S()) && QuietStep(e, silo, old(S()), S())
      ensures r == NotFound <==> id !in old(rows)
      ensures r == NotOwner <==> id in old(rows) && old(rows)[id].owner != caller
      ensures r == IllegalTransition <==>
        id in old(rows) && old(rows)[id].owner == caller && old(rows)[id].status != to &&
        (old(rows)[id].status, to) !in {
          ("draft", "published"), ("draft", "archived"),
          ("published", "sold"), ("published", "archived"), ("published", "draft")}
      ensures r == Done ==> rows == old(rows)[id := old(rows)[id].(status := to)]
      ensures r == Done || r == NotFound || r == NotOwner || r == IllegalTransition
      ensures r != Done ==> S() == old(S())
    {
      if id !in rows { return NotFound; }
      if rows[id].owner != caller { return NotOwner; }
      if rows[id].status == to {
        assert rows == rows[id := rows[id].(status := to, hidden := rows[id].hidden)];
        return Done;
      }
      if !Allowed(rows[id].status, to) { return IllegalTransition; }
      rows := rows[id := rows[id].(status := to)];
      assert Flagged(old(S()), S(), id, to, old(rows)[id].hidden);
      return Done;
    }

    method SetHidden(id: string, hidden: bool) returns (r: Outcome)
      modifies this`rows
      ensures Step(e, silo, old(S()), S()) && QuietStep(e, silo, old(S()), S())
      ensures r == IdRequired <==> Trim(id) == ""
      ensures r == NotFound <==> Trim(id) != "" && id !in old(rows)
      ensures r == Done <==> Trim(id) != "" && id in old(rows)
      ensures r != Done ==> S() == old(S())
      ensures r == Done ==> rows == old(rows)[id := old(rows)[id].(hidden := hidden)]
    {
      if Trim(id) == "" { return IdRequired; }
      if id !in rows { return NotFound; }
      rows := rows[id := rows[id].(hidden := hidden)];
      assert Flagged(old(S()), S(), id, old(rows)[id].status, hidden);
      return Done;
    }
  }
}
