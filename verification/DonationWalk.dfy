// Walking the donations list page by page while the table may change between pages, and
// the CSV export of the same filters.

module DonationWalk {
  import opened Options
  import opened Positional
  import opened Sequences
  import opened Sorting
  import opened Text

  import opened Donations

  /** Primary keys are unique and no time stamp holds the cursor's separator. */
  ghost predicate Sound(table: seq<Row>) { Keyed(table) && forall r :: r in table ==> '|' !in r.createdAt }

  function At(f: Filters, cursor: string): Filters { f.(cursor := cursor) }

  // ----- one page

  lemma PageCore(e: Engine, f: Filters, table: seq<Row>, size: nat, items: seq<Row>, next: string)
    requires size > 0 && Sound(table)
    requires IsPage(Remaining(e, f, table, After(f)), size, items, next)
    ensures Descending(items)
    ensures forall r :: r in items ==> r in table && Matches(e, f, r) && Ahead(r, After(f))
    ensures next != "" ==> |items| == size && Split(next) == Some(KeyOf(items[size - 1]))
    ensures forall r :: r in table && Matches(e, f, r) && Ahead(r, After(f)) ==>
      r in items || (next != "" && KeyLess(KeyOf(r), KeyOf(items[size - 1])))
  {
    var all := Remaining(e, f, table, After(f));
    RemainingShape(e, f, table, After(f));
    RemainingDescends(e, f, table, After(f));
    PageLeaves(all, size, items, next);
    if |all| > size {
      SplitCursor(KeyOf(items[size - 1]));
      assert items[size - 1] in items;
      assert next[|items[size - 1].createdAt|] == '|';
    }
  }

  /** A page is strictly newest first, holds only matching rows past the cursor, and leaves only older ones. */
  lemma PageFacts(e: Engine, f: Filters, table: seq<Row>, size: nat, items: seq<Row>, next: string)
    requires size > 0 && Sound(table)
    requires IsPage(Remaining(e, f, table, After(f)), size, items, next)
    ensures forall i, j :: 0 <= i < j < |items| ==>
      || Less(items[j].createdAt, items[i].createdAt)
      || (items[j].createdAt == items[i].createdAt && Less(items[j].id, items[i].id))
    ensures forall r :: r in items ==> r in table && Matches(e, f, r) && Ahead(r, After(f))
    ensures next != "" ==> |items| == size && Split(next) == Some(KeyOf(items[size - 1]))
    ensures forall r :: r in table && Matches(e, f, r) && Ahead(r, After(f)) ==>
      || r in items
      || (next != "" && Less(r.createdAt, items[size - 1].createdAt))
      || (next != "" && r.createdAt == items[size - 1].createdAt && Less(r.id, items[size - 1].id))
    ensures f.cursor != "" && Split(f.cursor).Some? ==>
      var k := Split(f.cursor).value;
      forall r :: r in items ==> Less(r.createdAt, k.at) || (r.createdAt == k.at && Less(r.id, k.id))
  {
    PageCore(e, f, table, size, items, next);
  }

  // ----- a walk

  /** Filters and page size, the table at each load, the pages, and the cursors before and after each. */
  datatype Visit = Visit(
    e: Engine, f: Filters, size: nat, tables: seq<seq<Row>>, pages: seq<seq<Row>>, cursors: seq<string>)

  /** Page k is cut from the table as it is when page k is loaded, at the cursor page k-1 gave. */
  ghost predicate Walk(v: Visit) {
    && v.size > 0 && |v.tables| == |v.pages| && |v.cursors| == |v.pages| + 1 && v.cursors[0] == ""
    && forall k :: 0 <= k < |v.pages| ==> Loaded(v, k)
  }

  ghost predicate Loaded(v: Visit, k: nat)
    requires v.size > 0 && |v.tables| == |v.pages| && |v.cursors| == |v.pages| + 1 && k < |v.pages|
  {
    var g := At(v.f, v.cursors[k]);
    && Sound(v.tables[k]) && (k > 0 ==> v.cursors[k] != "")
    && IsPage(Remaining(v.e, g, v.tables[k], After(g)), v.size, v.pages[k], v.cursors[k + 1])
  }

  /** The cursor is that of the last row shown. */
  ghost predicate EndsAt(shown: seq<Row>, cursor: string) {
    shown != [] && Split(cursor) == Some(KeyOf(shown[|shown| - 1]))
  }

  lemma LoadedDescends(v: Visit, k: nat)
    requires Walk(v) && k < |v.pages|
    ensures Descending(v.pages[k])
    ensures k > 0 && Split(v.cursors[k]).Some? ==>
      forall r :: r in v.pages[k] ==> KeyLess(KeyOf(r), Split(v.cursors[k]).value)
    ensures v.cursors[k + 1] != "" ==> EndsAt(v.pages[k], v.cursors[k + 1])
  {
    assert Loaded(v, k);
    PageCore(v.e, At(v.f, v.cursors[k]), v.tables[k], v.size, v.pages[k], v.cursors[k + 1]);
  }

  lemma {:induction false} WalkDescends(v: Visit, n: nat)
    requires Walk(v) && n <= |v.pages|
    ensures Descending(Flat(v.pages[..n]))
    ensures n > 0 && v.cursors[n] != "" ==> EndsAt(Flat(v.pages[..n]), v.cursors[n])
  {
    if n > 0 {
      var was, page := Flat(v.pages[..n - 1]), v.pages[n - 1];
      WalkDescends(v, n - 1);
      LoadedDescends(v, n - 1);
      FlatNext(v.pages, n);
      if v.cursors[n] != "" { EndsLater(was, page, v.cursors[n]); }
      if n > 1 {
        assert Loaded(v, n - 1);
        JoinDescends(was, page);
      } else {
        assert was + page == page;
      }
    }
  }

  lemma EndsLater(was: seq<Row>, page: seq<Row>, cursor: string)
    requires EndsAt(page, cursor)
    ensures EndsAt(was + page, cursor)
  {
  }

  lemma {:induction false} WalkIsSound(v: Visit, n: nat, r: Row)
    requires Walk(v) && n <= |v.pages| && r in Flat(v.pages[..n])
    ensures Matches(v.e, v.f, r) && exists k :: 0 <= k < n && r in v.tables[k]
  {
    FlatNext(v.pages, n);
    if r in Flat(v.pages[..n - 1]) {
      WalkIsSound(v, n - 1, r);
    } else {
      assert Loaded(v, n - 1);
      PageCore(v.e, At(v.f, v.cursors[n - 1]), v.tables[n - 1], v.size, v.pages[n - 1], v.cursors[n]);
    }
  }

  lemma JoinDescends(was: seq<Row>, page: seq<Row>)
    requires Descending(was) && Descending(page) && was != []
    requires forall r :: r in page ==> KeyLess(KeyOf(r), KeyOf(was[|was| - 1]))
    ensures Descending(was + page)
  {
    var now := was + page;
    forall i, j | 0 <= i < j < |now| ensures KeyLess(KeyOf(now[j]), KeyOf(now[i])) {
      if i < |was| <= j {
        assert now[j] in page;
        KeyOrder(KeyOf(now[j]), KeyOf(was[|was| - 1]), KeyOf(was[i]));
      }
    }
  }

  /** Something with this key matches the filters whenever a page is loaded. */
  ghost predicate Stays(v: Visit, key: Key) {
    forall k :: 0 <= k < |v.tables| ==> exists r :: r in v.tables[k] && KeyOf(r) == key && Matches(v.e, v.f, r)
  }

  lemma {:induction false} ShownOrAhead(v: Visit, key: Key, n: nat)
    requires Walk(v) && n <= |v.pages| && Stays(v, key)
    ensures n == 0 || (exists r :: r in Flat(v.pages[..n]) && KeyOf(r) == key)
      || (v.cursors[n] != "" && Split(v.cursors[n]).Some? && KeyLess(key, Split(v.cursors[n]).value))
  {
    if n > 0 {
      ShownOrAhead(v, key, n - 1);
      FlatNext(v.pages, n);
      var g := At(v.f, v.cursors[n - 1]);
      assert Loaded(v, n - 1);
      PageCore(v.e, g, v.tables[n - 1], v.size, v.pages[n - 1], v.cursors[n]);
      var r :| r in v.tables[n - 1] && KeyOf(r) == key && Matches(v.e, v.f, r);
      if x :| x in Flat(v.pages[..n - 1]) && KeyOf(x) == key {
        assert x in Flat(v.pages[..n]);
      } else if r in v.pages[n - 1] {
        assert r in Flat(v.pages[..n]);
      } else {
        assert Matches(v.e, g, r) && Ahead(r, After(g));
      }
    }
  }

  /** A finished walk shows every donation that stayed once, in descending order, and nothing foreign. */
  lemma WalkShowsOnce(v: Visit, key: Key)
    requires Walk(v) && |v.pages| > 0 && v.cursors[|v.pages|] == ""
    ensures var shown := Flat(v.pages);
      forall i, j :: 0 <= i < j < |shown| ==>
        || Less(shown[j].createdAt, shown[i].createdAt)
        || (shown[j].createdAt == shown[i].createdAt && Less(shown[j].id, shown[i].id))
    ensures forall r :: r in Flat(v.pages) ==>
      Matches(v.e, v.f, r) && exists k :: 0 <= k < |v.tables| && r in v.tables[k]
    ensures Stays(v, key) ==> exists i :: 0 <= i < |Flat(v.pages)| && KeyOf(Flat(v.pages)[i]) == key
    ensures forall i, j :: 0 <= i < j < |Flat(v.pages)| ==> KeyOf(Flat(v.pages)[i]) != KeyOf(Flat(v.pages)[j])
  {
    assert v.pages[..|v.pages|] == v.pages;
    WalkDescends(v, |v.pages|);
    forall r | r in Flat(v.pages) ensures Matches(v.e, v.f, r) && exists k :: 0 <= k < |v.tables| && r in v.tables[k] {
      WalkIsSound(v, |v.pages|, r);
    }
    if Stays(v, key) {
      ShownOrAhead(v, key, |v.pages|);
    }
    DescendingDistinct(Flat(v.pages));
  }

  lemma DescendingDistinct(s: seq<Row>)
    requires Descending(s)
    ensures forall i, j :: 0 <= i < j < |s| ==> KeyOf(s[i]) != KeyOf(s[j])
  {
    forall i, j | 0 <= i < j < |s| ensures KeyOf(s[i]) != KeyOf(s[j]) {
      KeyOrder(KeyOf(s[i]), KeyOf(s[j]), KeyOf(s[j]));
    }
  }

  lemma {:induction false} FlatSize(pages: seq<seq<Row>>, size: nat)
    requires forall k :: 0 <= k < |pages| ==> |pages[k]| == size
    ensures |Flat(pages)| == |pages| * size
  {
    if pages != [] {
      var n := |pages| - 1;
      FlatSize(pages[..n], size);
      assert |pages| * size == n * size + size;
    }
  }

  /** A walk ends: pages that give a cursor hold no more rows together than there ever were keys. */
  lemma WalkEnds(v: Visit, keys: set<Key>)
    requires Walk(v) && v.cursors[|v.pages|] != ""
    requires forall k, r :: 0 <= k < |v.tables| && r in v.tables[k] ==> KeyOf(r) in keys
    ensures |v.pages| * v.size <= |keys|
  {
    assert v.pages[..|v.pages|] == v.pages;
    WalkDescends(v, |v.pages|);
    var shown := Flat(v.pages);
    forall k | 0 <= k < |v.pages| ensures |v.pages[k]| == v.size {
      assert Loaded(v, k);
      assert k + 1 < |v.pages| ==> Loaded(v, k + 1);
      PageCore(v.e, At(v.f, v.cursors[k]), v.tables[k], v.size, v.pages[k], v.cursors[k + 1]);
    }
    FlatSize(v.pages, v.size);
    ShownAreKeys(v, keys);
    DescendingDistinct(shown);
    DistinctSize(KeysOf(shown), keys);
  }

  function KeysOf(s: seq<Row>): seq<Key> { seq(|s|, i requires 0 <= i < |s| => KeyOf(s[i])) }

  lemma ShownAreKeys(v: Visit, keys: set<Key>)
    requires Walk(v)
    requires forall k, r :: 0 <= k < |v.tables| && r in v.tables[k] ==> KeyOf(r) in keys
    ensures forall k :: k in KeysOf(Flat(v.pages)) ==> k in keys
  {
    var shown := Flat(v.pages);
    assert v.pages[..|v.pages|] == v.pages;
    forall k | k in KeysOf(shown) ensures k in keys {
      var i :| 0 <= i < |shown| && KeyOf(shown[i]) == k;
      WalkIsSound(v, |v.pages|, shown[i]);
    }
  }

  lemma {:induction false} DescendingUnique(a: seq<Row>, b: seq<Row>)
    requires Descending(a) && Descending(b) && forall r :: r in a <==> r in b
    ensures a == b
    decreases |a|
  {
    assert b != [] ==> b[0] in b;
    if a != [] {
      assert a[0] in b && b[0] in a;
      HeadIsGreatest(a, b[0]);
      HeadIsGreatest(b, a[0]);
      KeyOrder(KeyOf(a[0]), KeyOf(b[0]), KeyOf(b[0]));
      assert a == [a[0]] + a[1..] && b == [b[0]] + b[1..];
      forall r ensures r in a[1..] <==> r in b[1..] {
        TailSkipsHead(a, r);
        TailSkipsHead(b, r);
      }
      DescendingUnique(a[1..], b[1..]);
    }
  }

  lemma HeadIsGreatest(a: seq<Row>, r: Row)
    requires Descending(a) && r in a
    ensures r == a[0] || KeyLess(KeyOf(r), KeyOf(a[0]))
  {
  }

  lemma TailSkipsHead(a: seq<Row>, r: Row)
    requires Descending(a) && a != []
    ensures r in a[1..] <==> r in a && r != a[0]
  {
    if r in a[1..] {
      var i :| 1 <= i < |a| && a[i] == r;
      KeyOrder(KeyOf(r), KeyOf(a[0]), KeyOf(r));
    }
  }

  /** On an unchanged table the pages joined together are the whole filtered table, newest first. */
  lemma WalkOfUnchanged(v: Visit, table: seq<Row>)
    requires Walk(v) && |v.pages| > 0 && v.cursors[|v.pages|] == ""
    requires forall k :: 0 <= k < |v.tables| ==> v.tables[k] == table
    ensures Flat(v.pages) == Remaining(v.e, v.f, table, None)
    ensures multiset(Flat(v.pages)) == multiset(Keep((r: Row) => Matches(v.e, v.f, r), table))
  {
    var all := Remaining(v.e, v.f, table, None);
    assert Loaded(v, 0);
    assert Sound(table);
    RemainingShape(v.e, v.f, table, None);
    RemainingDescends(v.e, v.f, table, None);
    WalkShowsOnce(v, Key("", ""));
    forall r ensures r in Flat(v.pages) <==> r in all {
      if r in all {
        assert Stays(v, KeyOf(r));
        WalkShowsOnce(v, KeyOf(r));
        var i :| 0 <= i < |Flat(v.pages)| && KeyOf(Flat(v.pages)[i]) == KeyOf(r);
        assert Flat(v.pages)[i] in Flat(v.pages);
        var k :| 0 <= k < |v.tables| && Flat(v.pages)[i] in v.tables[k];
        assert Flat(v.pages)[i] == r;
      }
    }
    DescendingUnique(Flat(v.pages), all);
    var p := (r: Row) => Matches(v.e, v.f, r) && Ahead(r, None);
    NewestFirstIsOrder();
    SortSorts(NewestFirst(), Keep(p, table));
    KeepSame(p, (r: Row) => Matches(v.e, v.f, r), table);
  }

  // ----- the export

  function LatestFirst(): (Row, Row) -> bool { (x: Row, y: Row) => !Less(Date(x), Date(y)) }

  lemma LatestFirstIsOrder()
    ensures TotalPreorder(LatestFirst())
  {
    forall x: Row, y: Row, z: Row
      ensures LatestFirst()(x, y) || LatestFirst()(y, x)
      ensures LatestFirst()(x, y) && LatestFirst()(y, z) ==> LatestFirst()(x, z)
    {
      LessIsStrictOrder(Date(x), Date(y), Date(z));
      LessIsStrictOrder(Date(x), Date(z), Date(y));
      LessIsStrictOrder(Date(y), Date(z), Date(x));
    }
  }

  method WriteFilteredRows(e: Engine, table: seq<Row>, f: Filters) returns (written: seq<Row>, count: nat)
    ensures multiset(written) == multiset(Keep((r: Row) => Matches(e, f, r), table))
    ensures forall i, j :: 0 <= i < j < |written| ==>
      !Less(
        if written[i].paidAt.Some? then written[i].paidAt.value else written[i].createdAt,
        if written[j].paidAt.Some? then written[j].paidAt.value else written[j].createdAt)
    ensures count == |written|
  {
    var rows := Selected(e, table, f);
    written, count := [], 0;
    for i := 0 to |rows|
      invariant written == rows[..i] && count == i
    {
      written := written + [rows[i]];
      count := count + 1;
    }
    assert rows[..|rows|] == rows;
    forall i, j | 0 <= i < j < |written| ensures !Less(Date(written[i]), Date(written[j])) {
      assert LatestFirst()(written[i], written[j]);
    }
  }

  /** `SELECT ... WHERE ... ORDER BY date DESC`. */
  method Selected(e: Engine, table: seq<Row>, f: Filters) returns (rows: seq<Row>)
    ensures multiset(rows) == multiset(Keep((r: Row) => Matches(e, f, r), table)) && Sorted(LatestFirst(), rows)
  {
    var conds, args := CompileFilters(e, f);
    var p := (r: Row) => |args| == AllHoles(Rules(e), conds) && Where(Rules(e), conds, args, r);
    var kept := Keep(p, table);
    KeepSame(p, (r: Row) => Matches(e, f, r), table);
    LatestFirstIsOrder();
    SortSorts(LatestFirst(), kept);
    rows := Sort(LatestFirst(), kept);
  }

  /** The export of the same filters is a permutation of the pages of an unchanged table. */
  lemma ExportIsPermutation(v: Visit, table: seq<Row>, written: seq<Row>)
    requires Walk(v) && |v.pages| > 0 && v.cursors[|v.pages|] == ""
    requires forall k :: 0 <= k < |v.tables| ==> v.tables[k] == table
    requires multiset(written) == multiset(Keep((r: Row) => Matches(v.e, v.f, r), table))
    ensures multiset(written) == multiset(Flat(v.pages))
  {
    WalkOfUnchanged(v, table);
  }
}
