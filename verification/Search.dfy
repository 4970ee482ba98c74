// Marketplace search: a filter is compiled to one positional query, which selects exactly
// the rows of the filter's direct reading, in a fixed order, one window at a time.

module Search {
  import opened Options
  import opened Positional
  import opened Sequences
  import opened Sorting
  import opened Text

  import opened Listings

  // ----- the direct reading of a filter

  predicate FacetOk(e: Engine, silo: Silo, f: Filter, name: string, l: Listing) {
    name in f.facets && f.facets[name] != "" ==>
      match Def(silo.attrs, name)
      case None => false
      case Some(d) => Equals(e, d.kind, Column(e, d, l), f.facets[name])
  }

  predicate FacetsOk(e: Engine, silo: Silo, f: Filter, l: Listing) {
    forall i :: 0 <= i < |silo.attrs| ==> FacetOk(e, silo, f, silo.attrs[i].name, l)
  }

  predicate MinOk(e: Engine, silo: Silo, name: string, bound: real, l: Listing) {
    if name == "price" then l.price >= Truncate(bound)
    else match Def(silo.attrs, name)
      case None => false
      case Some(d) => AtLeast(e, d.kind, Column(e, d, l), bound)
  }

  predicate MaxOk(e: Engine, silo: Silo, name: string, bound: real, l: Listing) {
    if name == "price" then l.price <= Truncate(bound)
    else match Def(silo.attrs, name)
      case None => false
      case Some(d) => AtMost(e, d.kind, Column(e, d, l), bound)
  }

  predicate RangeOk(e: Engine, silo: Silo, f: Filter, name: string, l: Listing) {
    name in f.ranges ==>
      && (f.ranges[name].min.Some? ==> MinOk(e, silo, name, f.ranges[name].min.value, l))
      && (f.ranges[name].max.Some? ==> MaxOk(e, silo, name, f.ranges[name].max.value, l))
  }

  predicate BaseOk(silo: Silo, f: Filter, l: Listing) {
    && l.silo == silo.id && !l.hidden
    && (f.owner != "" ==> l.owner == f.owner) && (f.status != "" ==> l.status == f.status)
  }

  /** The text query, empty when there is nothing to match. */
  function TextQuery(e: Engine, f: Filter): string { if Trim(f.text) == "" then "" else e.quote(Trim(f.text)) }

  /** Owner, status, facets and ranges, each where it is set and declared. */
  predicate DeclaredOk(e: Engine, silo: Silo, f: Filter, l: Listing) {
    && BaseOk(silo, f, l) && FacetsOk(e, silo, f, l)
    && (forall i :: 0 <= i < |silo.ranges| ==> RangeOk(e, silo, f, silo.ranges[i], l))
  }

  /** Every criterion that is set holds; facets and ranges count only where the silo declares them. */
  predicate Satisfies(e: Engine, silo: Silo, f: Filter, l: Listing) {
    && DeclaredOk(e, silo, f, l)
    && (TextQuery(e, f) != "" ==> e.hit(TextQuery(e, f), l))
  }

  /** A bounded range over a column that no attribute declares is an SQL error. */
  predicate ColumnsExist(silo: Silo, f: Filter) {
    forall i :: 0 <= i < |silo.ranges| ==> ColumnExists(silo, f, silo.ranges[i])
  }

  predicate ColumnExists(silo: Silo, f: Filter, name: string) {
    name in f.ranges && name != "price" && (f.ranges[name].min.Some? || f.ranges[name].max.Some?) ==>
      Def(silo.attrs, name).Some?
  }

  // ----- positional SQL

  datatype Arg = Text(s: string) | Real(r: real) | Int(n: int)
  datatype Cond =
    | SiloIs | NotHidden | OwnerIs | StatusIs
    | FacetIs(name: string) | ColumnMin(name: string) | ColumnMax(name: string) | PriceMin | PriceMax

  function Holes(c: Cond): nat { if c.NotHidden? then 0 else 1 }

  predicate Holds(e: Engine, silo: Silo, c: Cond, args: seq<Arg>, l: Listing)
    requires |args| == Holes(c)
  {
    match c
    case SiloIs => args[0] == Text(l.silo)
    case NotHidden => !l.hidden
    case OwnerIs => args[0] == Text(l.owner)
    case StatusIs => args[0] == Text(l.status)
    case PriceMin => args[0].Int? && l.price >= args[0].n
    case PriceMax => args[0].Int? && l.price <= args[0].n
    case FacetIs(name) =>
      var d := Def(silo.attrs, name);
      d.Some? && args[0].Text? && Equals(e, d.value.kind, Column(e, d.value, l), args[0].s)
    case ColumnMin(name) =>
      var d := Def(silo.attrs, name);
      d.Some? && args[0].Real? && AtLeast(e, d.value.kind, Column(e, d.value, l), args[0].r)
    case ColumnMax(name) =>
      var d := Def(silo.attrs, name);
      d.Some? && args[0].Real? && AtMost(e, d.value.kind, Column(e, d.value, l), args[0].r)
  }

  function Rules(e: Engine, silo: Silo): Dialect<Cond, Arg, Listing> {
    Dialect(Holes, (c: Cond, args: seq<Arg>, l: Listing) => |args| == Holes(c) && Holds(e, silo, c, args, l))
  }

  // ----- compilation, clause by clause

  method CompileBase(e: Engine, silo: Silo, f: Filter) returns (conds: seq<Cond>, args: seq<Arg>)
    ensures |args| == AllHoles(Rules(e, silo), conds)
    ensures forall l :: Where(Rules(e, silo), conds, args, l) <==> BaseOk(silo, f, l)
  {
    conds, args := PushIf(Rules(e, silo), [], [], true, SiloIs, [Text(silo.id)]);
    conds, args := PushIf(Rules(e, silo), conds, args, true, NotHidden, []);
    conds, args := PushIf(Rules(e, silo), conds, args, f.owner != "", OwnerIs, [Text(f.owner)]);
    conds, args := PushIf(Rules(e, silo), conds, args, f.status != "", StatusIs, [Text(f.status)]);
  }

  method CompileMin(e: Engine, silo: Silo, name: string, bound: real, conds: seq<Cond>, args: seq<Arg>)
    returns (conds': seq<Cond>, args': seq<Arg>)
    requires |args| == AllHoles(Rules(e, silo), conds)
    ensures |args'| == AllHoles(Rules(e, silo), conds')
    ensures forall l :: Where(Rules(e, silo), conds', args', l) <==>
      Where(Rules(e, silo), conds, args, l) && MinOk(e, silo, name, bound, l)
  {
    var c := if name == "price" then PriceMin else ColumnMin(name);
    var arg := if name == "price" then Int(Truncate(bound)) else Real(bound);
    conds', args' := PushIf(Rules(e, silo), conds, args, true, c, [arg]);
  }

  method CompileMax(e: Engine, silo: Silo, name: string, bound: real, conds: seq<Cond>, args: seq<Arg>)
    returns (conds': seq<Cond>, args': seq<Arg>)
    requires |args| == AllHoles(Rules(e, silo), conds)
    ensures |args'| == AllHoles(Rules(e, silo), conds')
    ensures forall l :: Where(Rules(e, silo), conds', args', l) <==>
      Where(Rules(e, silo), conds, args, l) && MaxOk(e, silo, name, bound, l)
  {
    var c := if name == "price" then PriceMax else ColumnMax(name);
    var arg := if name == "price" then Int(Truncate(bound)) else Real(bound);
    conds', args' := PushIf(Rules(e, silo), conds, args, true, c, [arg]);
  }

  method CompileRange(e: Engine, silo: Silo, f: Filter, name: string, conds: seq<Cond>, args: seq<Arg>)
    returns (conds': seq<Cond>, args': seq<Arg>)
    requires |args| == AllHoles(Rules(e, silo), conds)
    ensures |args'| == AllHoles(Rules(e, silo), conds')
    ensures forall l :: Where(Rules(e, silo), conds', args', l) <==>
      Where(Rules(e, silo), conds, args, l) && RangeOk(e, silo, f, name, l)
  {
    conds', args' := conds, args;
    if name in f.ranges {
      var Range(min, max) := f.ranges[name];
      if min.Some? {
        conds', args' := CompileMin(e, silo, name, min.value, conds', args');
      }
      if max.Some? {
        conds', args' := CompileMax(e, silo, name, max.value, conds', args');
      }
    }
  }

  method CompileFacets(e: Engine, silo: Silo, f: Filter) returns (conds: seq<Cond>, args: seq<Arg>)
    ensures |args| == AllHoles(Rules(e, silo), conds)
    ensures forall l :: Where(Rules(e, silo), conds, args, l) <==> BaseOk(silo, f, l) && FacetsOk(e, silo, f, l)
  {
    conds, args := CompileBase(e, silo, f);
    for k := 0 to |silo.attrs|
      invariant |args| == AllHoles(Rules(e, silo), conds)
      invariant forall l :: Where(Rules(e, silo), conds, args, l) <==>
        BaseOk(silo, f, l) && forall i :: 0 <= i < k ==> FacetOk(e, silo, f, silo.attrs[i].name, l)
    {
      var name := silo.attrs[k].name;
      var asked := name in f.facets && f.facets[name] != "";
      var more := [Text(if name in f.facets then f.facets[name] else "")];
      conds, args := PushIf(Rules(e, silo), conds, args, asked, FacetIs(name), more);
    }
  }

  /** The WHERE clause and its arguments, before the text argument is put in front and the window appended. */
  method Compile(e: Engine, silo: Silo, f: Filter) returns (conds: seq<Cond>, args: seq<Arg>)
    ensures |args| == AllHoles(Rules(e, silo), conds)
    ensures forall l :: Where(Rules(e, silo), conds, args, l) <==> DeclaredOk(e, silo, f, l)
  {
    conds, args := CompileFacets(e, silo, f);
    for k := 0 to |silo.ranges|
      invariant |args| == AllHoles(Rules(e, silo), conds)
      invariant forall l :: Where(Rules(e, silo), conds, args, l) <==>
        && BaseOk(silo, f, l) && FacetsOk(e, silo, f, l)
        && (forall i :: 0 <= i < k ==> RangeOk(e, silo, f, silo.ranges[i], l))
    {
      conds, args := CompileRange(e, silo, f, silo.ranges[k], conds, args);
    }
  }

  // ----- the whole query

  datatype Query = Query(join: bool, conds: seq<Cond>, sort: string, args: seq<Arg>)

  /** Binds arguments left to right: the MATCH of the join, the WHERE clause, then LIMIT and OFFSET. */
  predicate WellBound(e: Engine, silo: Silo, q: Query) {
    && |q.args| == (if q.join then 1 else 0) + AllHoles(Rules(e, silo), q.conds) + 2
    && (q.join ==> q.args[0].Text?)
    && q.args[|q.args| - 2].Int? && q.args[|q.args| - 1].Int?
  }

  function MatchText(q: Query): string { if q.join && q.args != [] && q.args[0].Text? then q.args[0].s else "" }

  function Selection(e: Engine, silo: Silo, q: Query): Listing -> bool {
    (l: Listing) =>
      && WellBound(e, silo, q)
      && (q.join ==> e.hit(q.args[0].s, l))
      && Where(Rules(e, silo), q.conds, if q.join then q.args[1..] else q.args, l)
  }

  /** LIMIT and OFFSET; a negative offset counts as none. */
  function Window(all: seq<Listing>, limit: int, offset: int): seq<Listing> {
    var start := if offset < 0 then 0 else if offset < |all| then offset else |all|;
    if limit < 0 || limit > |all| - start then all[start..] else all[start..start + limit]
  }

  /** The sort key, smallest first, with the newest id first among equals. */
  function SortKey(e: Engine, sort: string, text: string, l: Listing): real {
    if sort == "price_asc" then l.price as real
    else if sort == "price_desc" then -(l.price as real)
    else if sort == "relevance" && text != "" then e.rank(text, l)
    else -(l.createdAt as real)
  }

  function Order(e: Engine, sort: string, text: string): (Listing, Listing) -> bool {
    (x: Listing, y: Listing) =>
      var kx, ky := SortKey(e, sort, text, x), SortKey(e, sort, text, y);
      kx < ky || (kx == ky && !Less(x.id, y.id))
  }

  lemma OrderIsTotal(e: Engine, sort: string, text: string)
    ensures TotalPreorder(Order(e, sort, text))
  {
    forall x: Listing, y: Listing, z: Listing
      ensures Order(e, sort, text)(x, y) || Order(e, sort, text)(y, x)
      ensures Order(e, sort, text)(x, y) && Order(e, sort, text)(y, z) ==> Order(e, sort, text)(x, z)
    {
      LessIsStrictOrder(x.id, y.id, z.id);
      LessIsStrictOrder(x.id, z.id, y.id);
      LessIsStrictOrder(y.id, z.id, x.id);
    }
  }

  /** `id` is the primary key. */
  ghost predicate Keyed(rows: seq<Listing>) { forall i, j :: 0 <= i < j < |rows| ==> rows[i].id != rows[j].id }

  /** The id breaks every tie, so only one row can stand at each place. */
  lemma OrderTellsApart(e: Engine, sort: string, text: string, table: seq<Listing>, x: Listing, y: Listing)
    requires Keyed(table) && x in table && y in table
    requires Order(e, sort, text)(x, y) && Order(e, sort, text)(y, x)
    ensures x == y
  {
    LessIsStrictOrder(x.id, y.id, x.id);
  }

  /** The rows that satisfy p in any order the sort allows. */
  ghost predicate Ordering(
    e: Engine, sort: string, text: string, p: Listing -> bool, table: seq<Listing>, all: seq<Listing>)
  {
    multiset(all) == multiset(Keep(p, table)) && Sorted(Order(e, sort, text), all)
  }

  /** The database answers a query with the window of one of its orderings. */
  ghost predicate Answers(e: Engine, silo: Silo, table: seq<Listing>, q: Query, out: seq<Listing>)
    requires WellBound(e, silo, q)
  {
    var text := MatchText(q);
    exists all :: Ordering(e, q.sort, text, Selection(e, silo, q), table, all)
      && out == Window(all, q.args[|q.args| - 2].n, q.args[|q.args| - 1].n)
  }

  method Execute(e: Engine, silo: Silo, table: seq<Listing>, q: Query) returns (out: seq<Listing>)
    requires WellBound(e, silo, q)
    ensures Answers(e, silo, table, q, out)
  {
    var text := MatchText(q);
    var all := Sort(Order(e, q.sort, text), Keep(Selection(e, silo, q), table));
    OrderIsTotal(e, q.sort, text);
    SortSorts(Order(e, q.sort, text), Keep(Selection(e, silo, q), table));
    assert Ordering(e, q.sort, text, Selection(e, silo, q), table, all);
    out := Window(all, q.args[|q.args| - 2].n, q.args[|q.args| - 1].n);
  }

  // ----- results

  function Satisfying(e: Engine, silo: Silo, f: Filter): Listing -> bool { (l: Listing) => Satisfies(e, silo, f, l) }

  /** All rows of the filter's direct reading, in the filter's order. */
  function Results(e: Engine, silo: Silo, f: Filter, table: seq<Listing>): seq<Listing> {
    Sort(Order(e, f.sort, TextQuery(e, f)), Keep(Satisfying(e, silo, f), table))
  }

  ghost predicate ResultsOrdering(e: Engine, silo: Silo, f: Filter, table: seq<Listing>, all: seq<Listing>) {
    Ordering(e, f.sort, TextQuery(e, f), Satisfying(e, silo, f), table, all)
  }

  /** With unique ids the results are the one ordering of exactly the satisfying rows. */
  lemma ResultsShape(e: Engine, silo: Silo, f: Filter, table: seq<Listing>)
    ensures forall l :: l in Results(e, silo, f, table) <==> l in table && Satisfies(e, silo, f, l)
    ensures ResultsOrdering(e, silo, f, table, Results(e, silo, f, table))
    ensures Keyed(table) ==>
      forall all :: ResultsOrdering(e, silo, f, table, all) ==> all == Results(e, silo, f, table)
  {
    var order, results := Order(e, f.sort, TextQuery(e, f)), Results(e, silo, f, table);
    var rows := Keep(Satisfying(e, silo, f), table);
    OrderIsTotal(e, f.sort, TextQuery(e, f));
    SortSorts(order, rows);
    SameMembers(results, rows);
    KeepHolds(Satisfying(e, silo, f), table);
    if Keyed(table) {
      assert TellsApart(order, results) by {
        forall x, y | x in results && y in results && order(x, y) && order(y, x) ensures x == y {
          OrderTellsApart(e, f.sort, TextQuery(e, f), table, x, y);
        }
      }
      forall all | ResultsOrdering(e, silo, f, table, all) ensures all == results {
        SortedUnique(order, results, all);
      }
    }
  }

  function PageLimit(f: Filter): int { if f.limit <= 0 then 20 else f.limit }

  /** What a search may return: a window of some ordering of the satisfying rows. */
  ghost predicate Returned(e: Engine, silo: Silo, f: Filter, table: seq<Listing>, out: seq<Listing>) {
    exists all :: ResultsOrdering(e, silo, f, table, all) && out == Window(all, PageLimit(f), f.offset)
  }

  lemma ReturnedIsWindow(e: Engine, silo: Silo, f: Filter, table: seq<Listing>, out: seq<Listing>)
    requires Keyed(table) && Returned(e, silo, f, table, out)
    ensures out == Window(Results(e, silo, f, table), PageLimit(f), f.offset)
  {
    ResultsShape(e, silo, f, table);
  }

  method RunSearch(e: Engine, silo: Silo, table: seq<Listing>, f: Filter, broken: bool)
    returns (r: Option<seq<Listing>>)
    requires Keyed(table)
    ensures r.None? <==> !ColumnsExist(silo, f)
    ensures r.Some? && !(broken && TextQuery(e, f) != "") ==>
      r.value == Window(Results(e, silo, f, table), PageLimit(f), f.offset)
    ensures r.Some? && broken && TextQuery(e, f) != "" ==> r.value == []
  {
    var limit := if f.limit <= 0 then 20 else f.limit;
    var conds, args := Compile(e, silo, f);
    ghost var bound := args;
    var text := TextQuery(e, f);
    var join := false;
    if text != "" {
      join := true;
      args := [Text(text)] + args;
    }
    args := args + [Int(limit), Int(f.offset)];
    var q := Query(join, conds, f.sort, args);
    if !ColumnsExist(silo, f) {
      return None;
    }
    if join && broken {
      return Some([]);
    }
    FrameBinds(e, silo, f, q, bound);
    var out := Execute(e, silo, table, q);
    CompiledIsDirect(e, silo, f, q, bound, table, out);
    ReturnedIsWindow(e, silo, f, table, out);
    return Some(out);
  }

  /** `broken` is what the text index answers for a query it cannot parse: such a search finds nothing. */
  method SearchListings(e: Engine, silo: Silo, table: seq<Listing>, f: Filter, broken: bool)
    returns (r: Option<seq<Listing>>)
    requires Keyed(table)
    // a bounded range over a name that no attribute declares, up to letter case
    ensures r.None? <==> exists i ::
      && 0 <= i < |silo.ranges| && silo.ranges[i] in f.ranges && silo.ranges[i] != "price"
      && (f.ranges[silo.ranges[i]].min.Some? || f.ranges[silo.ranges[i]].max.Some?)
      && forall k :: 0 <= k < |silo.attrs| ==> Fold(silo.attrs[k].name) != Fold(silo.ranges[i])
    ensures r.Some? && !(broken && TextQuery(e, f) != "") ==>
      r.value == Window(Results(e, silo, f, table), PageLimit(f), f.offset)
    ensures r.Some? && broken && TextQuery(e, f) != "" ==> r.value == []
    ensures r.Some? ==> |r.value| <= if f.limit <= 0 then 20 else f.limit
    ensures r.Some? ==> forall l :: l in r.value ==>
      && l in table && Satisfies(e, silo, f, l)
      && l.silo == silo.id && !l.hidden
      && (f.owner == "" || l.owner == f.owner) && (f.status == "" || l.status == f.status)
      && (Trim(f.text) == "" || e.quote(Trim(f.text)) == "" || e.hit(e.quote(Trim(f.text)), l))
    // the order asked for, and the larger id first among equals
    ensures r.Some? && f.sort == "price_asc" ==> forall i, j :: 0 <= i < j < |r.value| ==>
      || r.value[i].price < r.value[j].price
      || (r.value[i].price == r.value[j].price && Less(r.value[j].id, r.value[i].id))
    ensures r.Some? && f.sort == "price_desc" ==> forall i, j :: 0 <= i < j < |r.value| ==>
      || r.value[i].price > r.value[j].price
      || (r.value[i].price == r.value[j].price && Less(r.value[j].id, r.value[i].id))
    ensures r.Some? && f.sort == "relevance" && Trim(f.text) != "" && e.quote(Trim(f.text)) != "" ==>
      var q := e.quote(Trim(f.text));
      forall i, j :: 0 <= i < j < |r.value| ==>
        || e.rank(q, r.value[i]) < e.rank(q, r.value[j])
        || (e.rank(q, r.value[i]) == e.rank(q, r.value[j]) && Less(r.value[j].id, r.value[i].id))
    ensures r.Some? ==>
      || f.sort in {"price_asc", "price_desc"}
      || (f.sort == "relevance" && Trim(f.text) != "" && e.quote(Trim(f.text)) != "")
      || forall i, j :: 0 <= i < j < |r.value| ==>
        || r.value[i].createdAt > r.value[j].createdAt
        || (r.value[i].createdAt == r.value[j].createdAt && Less(r.value[j].id, r.value[i].id))
  {
    UndeclaredRange(silo, f);
    WindowKeeps(e, silo, f, table);
    r := RunSearch(e, silo, table, f, broken);
    if r.Some? {
      OrderedByColumns(e, f.sort, TextQuery(e, f), r.value);
    }
  }

  lemma UndeclaredRange(silo: Silo, f: Filter)
    ensures !ColumnsExist(silo, f) <==> exists i ::
      && 0 <= i < |silo.ranges| && silo.ranges[i] in f.ranges && silo.ranges[i] != "price"
      && (f.ranges[silo.ranges[i]].min.Some? || f.ranges[silo.ranges[i]].max.Some?)
      && forall k :: 0 <= k < |silo.attrs| ==> Fold(silo.attrs[k].name) != Fold(silo.ranges[i])
  {
    forall i | 0 <= i < |silo.ranges|
      ensures Def(silo.attrs, silo.ranges[i]).None? <==>
        forall k :: 0 <= k < |silo.attrs| ==> Fold(silo.attrs[k].name) != Fold(silo.ranges[i])
    {
      DefMeans(silo.attrs, silo.ranges[i]);
    }
  }

  /** A window holds rows of the results, in their order, and no more than its limit. */
  lemma WindowKeeps(e: Engine, silo: Silo, f: Filter, table: seq<Listing>)
    requires Keyed(table)
    ensures var out := Window(Results(e, silo, f, table), PageLimit(f), f.offset);
      && |out| <= PageLimit(f)
      && (forall l :: l in out ==> l in table && Satisfies(e, silo, f, l))
      && (forall i, j :: 0 <= i < j < |out| ==>
            Order(e, f.sort, TextQuery(e, f))(out[i], out[j]) && out[i].id != out[j].id)
  {
    var all := Results(e, silo, f, table);
    ResultsShape(e, silo, f, table);
    KeepKeys((l: Listing) => l.id, Satisfying(e, silo, f), table);
    PermutedKeys((l: Listing) => l.id, Keep(Satisfying(e, silo, f), table), all);
    WindowIsPart(all, PageLimit(f), f.offset);
  }

  /** Row i of a window is row i past its offset. */
  lemma WindowIsPart(all: seq<Listing>, limit: nat, offset: int)
    ensures var out, start := Window(all, limit, offset), if offset < 0 then 0 else offset;
      && |out| == (if start >= |all| then 0 else if limit < |all| - start then limit else |all| - start)
      && forall i :: 0 <= i < |out| ==> out[i] == all[start + i] && out[i] in all
  {
  }

  /** What the sort order says of the columns. */
  lemma OrderedByColumns(e: Engine, sort: string, text: string, out: seq<Listing>)
    requires forall i, j :: 0 <= i < j < |out| ==> Order(e, sort, text)(out[i], out[j]) && out[i].id != out[j].id
    ensures sort == "price_asc" ==> forall i, j :: 0 <= i < j < |out| ==>
      out[i].price < out[j].price || (out[i].price == out[j].price && Less(out[j].id, out[i].id))
    ensures sort == "price_desc" ==> forall i, j :: 0 <= i < j < |out| ==>
      out[i].price > out[j].price || (out[i].price == out[j].price && Less(out[j].id, out[i].id))
    ensures sort == "relevance" && text != "" ==> forall i, j :: 0 <= i < j < |out| ==>
      e.rank(text, out[i]) < e.rank(text, out[j])
        || (e.rank(text, out[i]) == e.rank(text, out[j]) && Less(out[j].id, out[i].id))
    ensures sort !in {"price_asc", "price_desc"} && !(sort == "relevance" && text != "") ==>
      forall i, j :: 0 <= i < j < |out| ==>
        out[i].createdAt > out[j].createdAt || (out[i].createdAt == out[j].createdAt && Less(out[j].id, out[i].id))
  {
    forall i, j | 0 <= i < j < |out| ensures Less(out[i].id, out[j].id) || Less(out[j].id, out[i].id) {
      LessIsStrictOrder(out[i].id, out[j].id, out[i].id);
    }
  }

  /** The arguments of a query are those of the text, of the clause and of the window, in this order. */
  ghost predicate Framed(e: Engine, f: Filter, q: Query, bound: seq<Arg>) {
    && (q.join <==> TextQuery(e, f) != "") && q.sort == f.sort
    && q.args == (if q.join then [Text(TextQuery(e, f))] else []) + bound + [Int(PageLimit(f)), Int(f.offset)]
  }

  lemma FrameBinds(e: Engine, silo: Silo, f: Filter, q: Query, bound: seq<Arg>)
    requires |bound| == AllHoles(Rules(e, silo), q.conds) && Framed(e, f, q, bound)
    ensures WellBound(e, silo, q)
    ensures q.args[|q.args| - 2].n == PageLimit(f) && q.args[|q.args| - 1].n == f.offset
    ensures q.join ==> q.args[0] == Text(TextQuery(e, f))
    ensures (if q.join then q.args[1..] else q.args) == bound + [Int(PageLimit(f)), Int(f.offset)]
  {
  }

  lemma SelectedIsDirect(e: Engine, silo: Silo, f: Filter, q: Query, bound: seq<Arg>, l: Listing)
    requires |bound| == AllHoles(Rules(e, silo), q.conds) && Framed(e, f, q, bound)
    requires Where(Rules(e, silo), q.conds, bound, l) <==> DeclaredOk(e, silo, f, l)
    ensures WellBound(e, silo, q) && (Selection(e, silo, q)(l) <==> Satisfies(e, silo, f, l))
  {
    FrameBinds(e, silo, f, q, bound);
    WhereIgnoresTail(Rules(e, silo), q.conds, bound, [Int(PageLimit(f)), Int(f.offset)], l);
  }

  /** Whatever the database answers is a window of the rows of the direct reading. */
  lemma CompiledIsDirect(
      e: Engine, silo: Silo, f: Filter, q: Query, bound: seq<Arg>, table: seq<Listing>, out: seq<Listing>)
    requires |bound| == AllHoles(Rules(e, silo), q.conds) && Framed(e, f, q, bound)
    requires forall l :: Where(Rules(e, silo), q.conds, bound, l) <==> DeclaredOk(e, silo, f, l)
    ensures WellBound(e, silo, q)
    ensures Answers(e, silo, table, q, out) <==> Returned(e, silo, f, table, out)
  {
    FrameBinds(e, silo, f, q, bound);
    forall l ensures Selection(e, silo, q)(l) <==> Satisfying(e, silo, f)(l) {
      SelectedIsDirect(e, silo, f, q, bound, l);
    }
    KeepSame(Selection(e, silo, q), Satisfying(e, silo, f), table);
    assert MatchText(q) == TextQuery(e, f);
    forall all
      ensures Ordering(e, q.sort, MatchText(q), Selection(e, silo, q), table, all) <==>
        ResultsOrdering(e, silo, f, table, all)
    {
    }
  }

  // ----- windows

  function Prefix(all: seq<Listing>, n: nat): seq<Listing> { if n <= |all| then all[..n] else all }

  lemma WindowExtends(all: seq<Listing>, limit: nat, start: nat)
    ensures Prefix(all, start) + Window(all, limit, start) == Prefix(all, start + limit)
  {
    if start <= |all| && start + limit <= |all| {
      assert all[..start] + all[start..start + limit] == all[..start + limit];
    } else if start <= |all| {
      assert all[..start] + all[start..] == all;
    } else {
      assert Window(all, limit, start) == [];
    }
  }

  lemma NextWindow(all: seq<Listing>, limit: nat, n: nat)
    requires n > 0
    ensures Prefix(all, (n - 1) * limit) + Window(all, limit, (n - 1) * limit) == Prefix(all, n * limit)
  {
    WindowExtends(all, limit, (n - 1) * limit);
    assert n * limit == (n - 1) * limit + limit;
  }

  /** Search number k asks for the window after k full ones; each answer comes from an ordering of its own. */
  ghost predicate Pages(e: Engine, silo: Silo, f: Filter, table: seq<Listing>, pages: seq<seq<Listing>>) {
    forall k :: 0 <= k < |pages| ==> PageAt(e, silo, f, table, pages[k], k)
  }

  ghost predicate PageAt(e: Engine, silo: Silo, f: Filter, table: seq<Listing>, page: seq<Listing>, k: nat) {
    Returned(e, silo, f.(offset := k * PageLimit(f)), table, page)
  }

  lemma OffsetChangesNoResult(e: Engine, silo: Silo, f: Filter, offset: int, table: seq<Listing>)
    ensures Results(e, silo, f.(offset := offset), table) == Results(e, silo, f, table)
  {
    KeepSame(Satisfying(e, silo, f.(offset := offset)), Satisfying(e, silo, f), table);
  }

  lemma PageIsWindow(e: Engine, silo: Silo, f: Filter, table: seq<Listing>, pages: seq<seq<Listing>>, k: nat)
    requires Keyed(table) && Pages(e, silo, f, table, pages) && k < |pages|
    ensures pages[k] == Window(Results(e, silo, f, table), PageLimit(f), k * PageLimit(f))
  {
    assert PageAt(e, silo, f, table, pages[k], k);
    ReturnedIsWindow(e, silo, f.(offset := k * PageLimit(f)), table, pages[k]);
    OffsetChangesNoResult(e, silo, f, k * PageLimit(f), table);
  }

  /** Consecutive searches tile the results: joined they are a prefix, and all of them once they reach the length. */
  lemma {:induction false} WindowsTile(
      e: Engine, silo: Silo, f: Filter, table: seq<Listing>, pages: seq<seq<Listing>>, n: nat)
    requires Keyed(table) && Pages(e, silo, f, table, pages) && n <= |pages|
    ensures Flat(pages[..n]) == Prefix(Results(e, silo, f, table), n * PageLimit(f))
  {
    if n > 0 {
      WindowsTile(e, silo, f, table, pages, n - 1);
      FlatNext(pages, n);
      PageIsWindow(e, silo, f, table, pages, n - 1);
      NextWindow(Results(e, silo, f, table), PageLimit(f), n);
    }
  }
}
