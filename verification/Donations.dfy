// Keyset pagination of the donations list: filters are compiled to positional SQL, one
// row more than the page is fetched, and the next page resumes from the last key shown.

module Donations {
  import opened Options
  import opened Positional
  import opened Sequences
  import opened Sorting
  import opened Text

  datatype Row = Row(
    id: string, createdAt: string, paidAt: Option<string>, status: string, formType: string,
    amountCents: int, donorName: string, donorEmail: string)

  datatype Filters = Filters(
    from: string, to: string, status: string, formType: string, minEur: int, maxEur: int, search: string,
    cursor: string)

  /** The library's text functions: Go's ToLower, and `LOWER(column) LIKE pattern`. */
  datatype Engine = Engine(lower: string -> string, like: (string, string) -> bool)

  function Date(r: Row): string { if r.paidAt.Some? then r.paidAt.value else r.createdAt }

  // ----- 64-bit bounds

  const MAX64 := 0x7FFF_FFFF_FFFF_FFFF
  const TWO64 := 0x1_0000_0000_0000_0000

  predicate IsInt64(n: int) { -0x8000_0000_0000_0000 <= n <= 0x7FFF_FFFF_FFFF_FFFF }

  function Cents(eur: int): int {
    var w := (eur * 100) % TWO64;
    if w > MAX64 then w - TWO64 else w
  }

  lemma CentsValue(eur: int)
    requires 0 < eur <= MAX64
    ensures eur <= MAX64 / 100 ==> Cents(eur) == eur * 100
    ensures eur > MAX64 / 100 ==> eur * 100 > MAX64 > Cents(eur)
  {
    var w := (eur * 100) % TWO64;
    if eur <= MAX64 / 100 {
      assert 0 <= eur * 100 < TWO64;
    } else {
      assert eur * 100 == TWO64 * (eur * 100 / TWO64) + w;
      assert w == 2 * (eur * 50 - TWO64 / 2 * (eur * 100 / TWO64));
    }
  }

  /** The compiled amount bounds mean what they say exactly for amounts of euros that survive the 64-bit product. */
  lemma CentsExact(eur: int)
    requires 0 < eur <= MAX64
    ensures (forall a | IsInt64(a) :: a >= Cents(eur) <==> a >= eur * 100) <==> eur <= 92233720368547758
    ensures (forall a | IsInt64(a) :: a <= Cents(eur) <==> a <= eur * 100) <==> eur <= 92233720368547758
  {
    CentsValue(eur);
    assert IsInt64(MAX64);
  }

  // ----- the direct reading of the filters

  predicate Matches(e: Engine, f: Filters, r: Row) { FieldsMatch(f, r) && AmountAndDonorMatch(e, f, r) }

  predicate FieldsMatch(f: Filters, r: Row) {
    && (f.from != "" ==> !Less(Date(r), f.from))
    && (f.to != "" ==> Less(Date(r), f.to))
    && (f.status != "" ==> r.status == f.status)
    && (f.formType != "" ==> r.formType == f.formType)
  }

  predicate AmountAndDonorMatch(e: Engine, f: Filters, r: Row) {
    && (f.minEur > 0 ==> r.amountCents >= Cents(f.minEur))
    && (f.maxEur > 0 ==> r.amountCents <= Cents(f.maxEur))
    && (f.search != "" ==>
          e.like(r.donorName, "%" + e.lower(f.search) + "%") || e.like(r.donorEmail, "%" + e.lower(f.search) + "%"))
  }

  /** The filters on the columns; a donation counts from its payment, or from its creation while unpaid. */
  lemma MatchesColumns(e: Engine, f: Filters, r: Row)
    ensures Matches(e, f, r) <==>
      && (r.paidAt.Some? && f.from != "" ==> !Less(r.paidAt.value, f.from))
      && (r.paidAt.Some? && f.to != "" ==> Less(r.paidAt.value, f.to))
      && (r.paidAt.None? && f.from != "" ==> !Less(r.createdAt, f.from))
      && (r.paidAt.None? && f.to != "" ==> Less(r.createdAt, f.to))
      && (f.status == "" || r.status == f.status) && (f.formType == "" || r.formType == f.formType)
      && (f.minEur <= 0 || r.amountCents >= Cents(f.minEur)) && (f.maxEur <= 0 || r.amountCents <= Cents(f.maxEur))
      && (f.search == "" || e.like(r.donorName, "%" + e.lower(f.search) + "%")
            || e.like(r.donorEmail, "%" + e.lower(f.search) + "%"))
  {
  }

  // ----- positional SQL

  datatype Value = Text(s: string) | Int(n: int)
  datatype Cond = DateFrom | DateTo | StatusIs | TypeIs | AmountMin | AmountMax | DonorLike | KeyBefore

  function Holes(c: Cond): nat { if c.DonorLike? || c.KeyBefore? then 2 else 1 }

  predicate Holds(e: Engine, c: Cond, args: seq<Value>, r: Row)
    requires |args| == Holes(c)
  {
    match (c, args[0])
    case (DateFrom, Text(s)) => !Less(Date(r), s)
    case (DateTo, Text(s)) => Less(Date(r), s)
    case (StatusIs, Text(s)) => r.status == s
    case (TypeIs, Text(s)) => r.formType == s
    case (AmountMin, Int(n)) => r.amountCents >= n
    case (AmountMax, Int(n)) => r.amountCents <= n
    case (DonorLike, Text(s)) => e.like(r.donorName, s) || (args[1].Text? && e.like(r.donorEmail, args[1].s))
    case (KeyBefore, Text(s)) => args[1].Text? && KeyLess(KeyOf(r), Key(s, args[1].s))
    case _ => false
  }

  function Rules(e: Engine): Dialect<Cond, Value, Row> {
    Dialect(Holes, (c: Cond, args: seq<Value>, r: Row) => |args| == Holes(c) && Holds(e, c, args, r))
  }

  /** The seven filter clauses, compiled alike by the list and by the export. */
  method CompileFilters(e: Engine, f: Filters) returns (conds: seq<Cond>, args: seq<Value>)
    ensures |args| == AllHoles(Rules(e), conds)
    ensures forall r :: Where(Rules(e), conds, args, r) <==> Matches(e, f, r)
  {
    conds, args := CompileFields(e, f);
    conds, args := CompileAmountAndDonor(e, f, conds, args);
  }

  method CompileFields(e: Engine, f: Filters) returns (conds: seq<Cond>, args: seq<Value>)
    ensures |args| == AllHoles(Rules(e), conds)
    ensures forall r :: Where(Rules(e), conds, args, r) <==> FieldsMatch(f, r)
  {
    var q := Rules(e);
    conds, args := PushIf(q, [], [], f.from != "", DateFrom, [Text(f.from)]);
    conds, args := PushIf(q, conds, args, f.to != "", DateTo, [Text(f.to)]);
    conds, args := PushIf(q, conds, args, f.status != "", StatusIs, [Text(f.status)]);
    conds, args := PushIf(q, conds, args, f.formType != "", TypeIs, [Text(f.formType)]);
  }

  method CompileAmountAndDonor(e: Engine, f: Filters, conds: seq<Cond>, args: seq<Value>)
    returns (conds': seq<Cond>, args': seq<Value>)
    requires |args| == AllHoles(Rules(e), conds)
    ensures |args'| == AllHoles(Rules(e), conds')
    ensures forall r :: Where(Rules(e), conds', args', r) <==>
      Where(Rules(e), conds, args, r) && AmountAndDonorMatch(e, f, r)
  {
    var q := Rules(e);
    conds', args' := PushIf(q, conds, args, f.minEur > 0, AmountMin, [Int(Cents(f.minEur))]);
    conds', args' := PushIf(q, conds', args', f.maxEur > 0, AmountMax, [Int(Cents(f.maxEur))]);
    var s := Text("%" + e.lower(f.search) + "%");
    conds', args' := PushIf(q, conds', args', f.search != "", DonorLike, [s, s]);
  }

  // ----- keys and cursors

  datatype Key = Key(at: string, id: string)

  function KeyOf(r: Row): Key { Key(r.createdAt, r.id) }

  predicate KeyLess(k: Key, l: Key) { Less(k.at, l.at) || (k.at == l.at && Less(k.id, l.id)) }

  lemma KeyOrder(k: Key, l: Key, m: Key)
    ensures !KeyLess(k, k)
    ensures KeyLess(k, l) || KeyLess(l, k) || k == l
    ensures KeyLess(k, l) && KeyLess(l, m) ==> KeyLess(k, m)
    ensures !(KeyLess(k, l) && KeyLess(l, k))
  {
    LessIsStrictOrder(k.at, l.at, m.at);
    LessIsStrictOrder(l.at, m.at, k.at);
    LessIsStrictOrder(k.id, l.id, m.id);
  }

  function Cursor(k: Key): string { k.at + "|" + k.id }

  /** `SplitN(cursor, "|", 2)` when it gives two parts. */
  function Split(cursor: string): Option<Key> {
    if cursor == "" then None
    else if cursor[0] == '|' then Some(Key("", cursor[1..]))
    else match Split(cursor[1..])
      case None => None
      case Some(k) => Some(Key([cursor[0]] + k.at, k.id))
  }

  /** A cursor gives its key back exactly when the time stamp holds no separator. */
  lemma {:induction false} SplitCursor(k: Key)
    ensures Split(Cursor(k)) == Some(k) <==> '|' !in k.at
    decreases |k.at|
  {
    if k.at != "" {
      SplitCursor(Key(k.at[1..], k.id));
      assert Cursor(k)[1..] == Cursor(Key(k.at[1..], k.id));
      assert k.at == [k.at[0]] + k.at[1..];
      SplitPresent(Cursor(Key(k.at[1..], k.id)));
    } else {
      assert Cursor(k)[1..] == k.id;
    }
  }

  lemma {:induction false} SplitPresent(s: string)
    ensures match Split(s) case None => '|' !in s case Some(k) => '|' !in k.at && s == Cursor(k)
  {
    if s != "" && s[0] != '|' {
      SplitPresent(s[1..]);
      assert s == [s[0]] + s[1..];
    } else if s != "" {
      assert s == "" + "|" + s[1..];
    }
  }

  // ----- a page

  function NewestFirst(): (Row, Row) -> bool { (x: Row, y: Row) => !KeyLess(KeyOf(x), KeyOf(y)) }

  /** `id` is the primary key. */
  ghost predicate Keyed(rows: seq<Row>) { forall i, j :: 0 <= i < j < |rows| ==> rows[i].id != rows[j].id }

  predicate Ahead(r: Row, after: Option<Key>) { after.Some? ==> KeyLess(KeyOf(r), after.value) }

  /** All rows a page starting after `after` is cut from, newest first. */
  function Remaining(e: Engine, f: Filters, table: seq<Row>, after: Option<Key>): seq<Row> {
    Sort(NewestFirst(), Keep((r: Row) => Matches(e, f, r) && Ahead(r, after), table))
  }

  function PageSize(limit: int): int { if limit <= 0 || limit > 200 then 50 else limit }

  function CreatedAt(table: seq<Row>, id: string): string {
    if table == [] then "" else if table[0].id == id then table[0].createdAt else CreatedAt(table[1..], id)
  }

  lemma {:induction false} CreatedAtOf(table: seq<Row>, r: Row)
    requires Keyed(table) && r in table
    ensures CreatedAt(table, r.id) == r.createdAt
  {
    if r != table[0] {
      assert r in table[1..];
      var i :| 1 <= i < |table| && table[i] == r;
      CreatedAtOf(table[1..], r);
    }
  }

  function After(f: Filters): Option<Key> { if f.cursor == "" then None else Split(f.cursor) }

  /** The first rows of what remains, and a cursor exactly when something is left over. */
  ghost predicate IsPage(all: seq<Row>, size: nat, items: seq<Row>, next: string)
    requires size > 0
  {
    if |all| > size then items == all[..size] && next == Cursor(KeyOf(all[size - 1])) else items == all && next == ""
  }

  method CompileQuery(e: Engine, f: Filters) returns (conds: seq<Cond>, args: seq<Value>)
    ensures |args| == AllHoles(Rules(e), conds)
    ensures forall r :: Where(Rules(e), conds, args, r) <==> Matches(e, f, r) && Ahead(r, After(f))
  {
    conds, args := CompileFilters(e, f);
    if f.cursor != "" {
      var parts := Split(f.cursor);
      if parts.Some? {
        conds, args := PushIf(Rules(e), conds, args, true, KeyBefore, [Text(parts.value.at), Text(parts.value.id)]);
      }
    }
  }

  method QueryDonations(e: Engine, table: seq<Row>, f: Filters, limit: int) returns (items: seq<Row>, next: string)
    requires Keyed(table)
    ensures IsPage(Remaining(e, f, table, After(f)), PageSize(limit), items, next)
    ensures |items| <= if 0 < limit <= 200 then limit else 50
    // newest first, and the larger id first among equals
    ensures forall i, j :: 0 <= i < j < |items| ==>
      || Less(items[j].createdAt, items[i].createdAt)
      || (items[j].createdAt == items[i].createdAt && Less(items[j].id, items[i].id))
    // matching rows, older than the cursor if it can be split
    ensures forall r :: r in items ==> r in table && Matches(e, f, r)
    ensures f.cursor != "" && Split(f.cursor).Some? ==>
      var k := Split(f.cursor).value;
      forall r :: r in items ==> Less(r.createdAt, k.at) || (r.createdAt == k.at && Less(r.id, k.id))
    // a cursor is that of the last row shown; without one nothing is left over
    ensures next != "" ==>
      |items| == (if 0 < limit <= 200 then limit else 50) &&
      next == items[|items| - 1].createdAt + "|" + items[|items| - 1].id
    ensures next == "" && f.cursor == "" ==> forall r :: r in table && Matches(e, f, r) ==> r in items
  {
    var size: int := if limit <= 0 || limit > 200 then 50 else limit;
    assert size == PageSize(limit);
    var conds, args := CompileQuery(e, f);
    ghost var bound := args;
    args := args + [Int(size + 1)];
    assert args[..|args| - 1] == bound;
    var rows := Select(e, table, conds, args);
    CompiledIsDirect(e, table, f, After(f), conds, args, rows);
    items, next := TakePage(table, rows, size);
    PageShows(e, f, table, size, items, next);
  }

  lemma PageShows(e: Engine, f: Filters, table: seq<Row>, size: nat, items: seq<Row>, next: string)
    requires size > 0 && Keyed(table) && IsPage(Remaining(e, f, table, After(f)), size, items, next)
    ensures |items| <= size && Descending(items)
    ensures forall r :: r in items ==> r in table && Matches(e, f, r) && Ahead(r, After(f))
    ensures next != "" ==> |items| == size && next == items[size - 1].createdAt + "|" + items[size - 1].id
    ensures next == "" ==> forall r :: r in table && Matches(e, f, r) && Ahead(r, After(f)) ==> r in items
  {
    var all := Remaining(e, f, table, After(f));
    RemainingDescends(e, f, table, After(f));
    RemainingShape(e, f, table, After(f));
    PageLeaves(all, size, items, next);
    if |all| > size { assert next[|all[size - 1].createdAt|] == '|'; }
  }

  /** Reads the fetched rows; a row beyond the page is dropped and turns into a cursor on the last one kept. */
  method TakePage(table: seq<Row>, rows: seq<Row>, size: nat) returns (items: seq<Row>, next: string)
    requires Keyed(table) && size > 0 && forall r :: r in rows ==> r in table
    ensures IsPage(rows, size, items, next)
  {
    items := [];
    var lastCreatedAt, lastId := "", "";
    for i := 0 to |rows|
      invariant items == rows[..i]
    {
      items := items + [rows[i]];
      lastCreatedAt, lastId := rows[i].createdAt, rows[i].id;
    }
    next := "";
    if |items| > size {
      items := items[..size];
      lastCreatedAt, lastId := "", "";
      var last := items[size - 1];
      CreatedAtOf(table, last);
      lastCreatedAt := CreatedAt(table, last.id);
      lastId := last.id;
      next := lastCreatedAt + "|" + lastId;
    }
  }

  /** `SELECT ... WHERE ... ORDER BY created_at DESC, id DESC LIMIT ?` with its arguments bound in order. */
  function Select(e: Engine, table: seq<Row>, conds: seq<Cond>, args: seq<Value>): seq<Row>
    requires |args| == AllHoles(Rules(e), conds) + 1 && args[|args| - 1].Int? && args[|args| - 1].n >= 0
  {
    var all := Sort(NewestFirst(), Keep((r: Row) => Where(Rules(e), conds, args, r), table));
    if |all| <= args[|args| - 1].n then all else all[..args[|args| - 1].n]
  }

  lemma CompiledIsDirect(
      e: Engine, table: seq<Row>, f: Filters, after: Option<Key>, conds: seq<Cond>, args: seq<Value>, rows: seq<Row>)
    requires |args| == AllHoles(Rules(e), conds) + 1 && args[|args| - 1].Int? && args[|args| - 1].n >= 0
    requires forall r :: Where(Rules(e), conds, args[..|args| - 1], r) <==> Matches(e, f, r) && Ahead(r, after)
    requires rows == Select(e, table, conds, args)
    ensures var all := Remaining(e, f, table, after);
      var n := args[|args| - 1].n;
      rows == if |all| <= n then all else all[..n]
    ensures forall r :: r in rows ==> r in table
  {
    forall r ensures Where(Rules(e), conds, args, r) <==> Matches(e, f, r) && Ahead(r, after) {
      WhereIgnoresTail(Rules(e), conds, args[..|args| - 1], args[|args| - 1..], r);
      assert args[..|args| - 1] + args[|args| - 1..] == args;
    }
    KeepSame((r: Row) => Where(Rules(e), conds, args, r), (r: Row) => Matches(e, f, r) && Ahead(r, after), table);
    RemainingShape(e, f, table, after);
  }

  lemma NewestFirstIsOrder()
    ensures TotalPreorder(NewestFirst())
  {
    forall x: Row, y: Row, z: Row
      ensures NewestFirst()(x, y) || NewestFirst()(y, x)
      ensures NewestFirst()(x, y) && NewestFirst()(y, z) ==> NewestFirst()(x, z)
    {
      KeyOrder(KeyOf(x), KeyOf(y), KeyOf(z));
      KeyOrder(KeyOf(x), KeyOf(z), KeyOf(y));
      KeyOrder(KeyOf(y), KeyOf(z), KeyOf(x));
    }
  }

  lemma RemainingShape(e: Engine, f: Filters, table: seq<Row>, after: Option<Key>)
    ensures forall r :: r in Remaining(e, f, table, after) <==> r in table && Matches(e, f, r) && Ahead(r, after)
    ensures Sorted(NewestFirst(), Remaining(e, f, table, after))
  {
    var p := (r: Row) => Matches(e, f, r) && Ahead(r, after);
    NewestFirstIsOrder();
    SortSorts(NewestFirst(), Keep(p, table));
    KeepHolds(p, table);
    SameMembers(Remaining(e, f, table, after), Keep(p, table));
  }

  // ----- newest first, in terms of the columns

  /** Strictly newest first, and by falling ids among equals. */
  ghost predicate Descending(s: seq<Row>) {
    forall i, j :: 0 <= i < j < |s| ==>
      Less(s[j].createdAt, s[i].createdAt) || (s[j].createdAt == s[i].createdAt && Less(s[j].id, s[i].id))
  }

  lemma PageShape(all: seq<Row>)
    requires Keyed(all) && Sorted(NewestFirst(), all)
    ensures Descending(all)
  {
    forall i, j | 0 <= i < j < |all| ensures KeyLess(KeyOf(all[j]), KeyOf(all[i])) {
      assert NewestFirst()(all[i], all[j]);
      KeyOrder(KeyOf(all[i]), KeyOf(all[j]), KeyOf(all[j]));
    }
  }

  lemma RemainingDescends(e: Engine, f: Filters, table: seq<Row>, after: Option<Key>)
    requires Keyed(table)
    ensures Descending(Remaining(e, f, table, after))
  {
    var p := (r: Row) => Matches(e, f, r) && Ahead(r, after);
    KeepKeys((r: Row) => r.id, p, table);
    NewestFirstIsOrder();
    SortSorts(NewestFirst(), Keep(p, table));
    PermutedKeys((r: Row) => r.id, Keep(p, table), Remaining(e, f, table, after));
    PageShape(Remaining(e, f, table, after));
  }

  lemma PageLeaves(all: seq<Row>, size: nat, items: seq<Row>, next: string)
    requires size > 0 && Descending(all) && IsPage(all, size, items, next)
    ensures Descending(items)
    ensures forall r :: r in items ==> r in all
    ensures forall r :: r in all ==> r in items || (|all| > size && KeyLess(KeyOf(r), KeyOf(items[size - 1])))
  {
    assert forall k :: 0 <= k < |items| ==> all[k] == items[k] && all[k] in items;
    forall r | r in all && r !in items ensures |all| > size && KeyLess(KeyOf(r), KeyOf(items[size - 1])) {
      var i :| 0 <= i < |all| && all[i] == r;
    }
  }
}
