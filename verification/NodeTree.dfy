// The recursive node engine: a table of nodes with a denormalised depth, a cascading
// soft delete, recursive ancestor and subtree queries, and a cycle check.
//
// "Descendant" is defined on paths of parent links alone, for any table. Every table that
// inserts, edits, deletions and reorderings reach is a Forest. Re-pointing a parent leaves
// depths alone and may even close a cycle. What Delete needs is less than a Forest: in a
// Sound table its `UNION ALL` recursion ends and stopping at deleted rows loses nothing.

module NodeTree {
  import opened Options
  import opened Sorting

  type Id = string

  datatype Row = Row(
    parent: Option<Id>, slug: string, kind: string, title: string, body: string,
    visibility: string, order: int, depth: nat, deletedAt: Option<int>)

  type Table = map<Id, Row>

  const KINDS := {"folder", "page", "post", "form", "doc"}
  const VISIBILITIES := {"public", "members", "role"}

  predicate Live(t: Table, id: Id) { id in t && t[id].deletedAt.None? }

  // ----- paths of parent links

  /** Each node of `p` is followed by its parent. */
  ghost predicate Path(t: Table, p: seq<Id>) {
    |p| > 0 && p[0] in t && (|p| > 1 ==> t[p[0]].parent == Some(p[1]) && Path(t, p[1..]))
  }

  lemma {:induction false} PathSuffix(t: Table, p: seq<Id>, i: nat)
    requires Path(t, p) && i < |p|
    ensures Path(t, p[i..]) && p[i] in t
    decreases i
  {
    if i > 0 {
      PathSuffix(t, p[1..], i - 1);
      assert p[1..][i - 1..] == p[i..];
    }
  }

  lemma {:induction false} PathPrefix(t: Table, p: seq<Id>, i: nat)
    requires Path(t, p) && i < |p|
    ensures Path(t, p[..i + 1])
    decreases i
  {
    if i > 0 {
      PathPrefix(t, p[1..], i - 1);
      assert p[1..][..i] == p[..i + 1][1..];
    }
  }

  /** `d` is `a` or one of its descendants, deleted or not. */
  ghost predicate Under(t: Table, d: Id, a: Id) {
    exists p :: Path(t, p) && p[0] == d && p[|p| - 1] == a
  }

  ghost predicate Acyclic(t: Table) {
    forall p :: Path(t, p) && |p| >= 2 ==> p[0] != p[|p| - 1]
  }

  lemma {:induction false} PathLinks(t: Table, p: seq<Id>)
    requires Path(t, p)
    ensures forall i :: 0 <= i < |p| ==> p[i] in t
    ensures forall i, j :: 0 <= i && j == i + 1 && j < |p| ==> t[p[i]].parent == Some(p[j])
    decreases |p|
  {
    if |p| > 1 {
      var q := p[1..];
      PathLinks(t, q);
      forall i | 0 <= i < |p| ensures p[i] in t { if i > 0 { assert p[i] == q[i - 1]; } }
      forall i, j | 0 <= i && j == i + 1 && j < |p| ensures t[p[i]].parent == Some(p[j]) {
        if i > 0 { assert p[i] == q[i - 1] && p[j] == q[j - 1]; }
      }
    }
  }

  /** A path of one table is a path of another that has its rows and agrees on all links but the last row's. */
  lemma {:induction false} PathTransfer(t: Table, t': Table, p: seq<Id>)
    requires Path(t, p) && forall i :: 0 <= i < |p| ==> p[i] in t'
    requires forall i :: 0 <= i < |p| - 1 ==> p[i] in t && t'[p[i]].parent == t[p[i]].parent
    ensures Path(t', p)
    decreases |p|
  {
    if |p| > 1 {
      var q := p[1..];
      forall i | 0 <= i < |q| ensures q[i] in t' { assert q[i] == p[i + 1]; }
      forall i | 0 <= i < |q| - 1 ensures q[i] in t && t'[q[i]].parent == t[q[i]].parent { assert q[i] == p[i + 1]; }
      PathTransfer(t, t', q);
      assert p[0] in t';
    }
  }

  lemma {:induction false} PathJoin(t: Table, p: seq<Id>, q: seq<Id>)
    requires Path(t, p) && Path(t, q) && p[|p| - 1] == q[0]
    ensures Path(t, p[..|p| - 1] + q)
    decreases |p|
  {
    if |p| > 1 {
      var way, rest := p[..|p| - 1] + q, p[1..][..|p| - 2] + q;
      PathJoin(t, p[1..], q);
      assert way[1..] == rest;
      assert |p| > 2 ==> rest[0] == p[1];
      assert way[0] == p[0] && way[1] == p[1];
    } else {
      assert p[..0] + q == q;
    }
  }

  // ----- the invariants

  /** No cycles, parents exist, a deleted parent has only deleted children, slugs are unique. Depths may be anything. */
  ghost predicate Sound(t: Table) {
    && "" !in t && Acyclic(t) && Closed(t)
    && (forall j, k :: j in t && k in t && t[j].slug == t[k].slug ==> j == k)
  }

  ghost predicate Closed(t: Table) { forall k :: k in t ==> Hangs(t, t[k]) }

  ghost predicate Hangs(t: Table, r: Row) {
    r.parent.Some? ==> r.parent.value in t && (t[r.parent.value].deletedAt.Some? ==> r.deletedAt.Some?)
  }

  lemma {:induction false} PathLive(t: Table, p: seq<Id>)
    requires Closed(t) && Path(t, p) && Live(t, p[0])
    ensures forall i :: 0 <= i < |p| ==> Live(t, p[i])
    decreases |p|
  {
    if |p| > 1 {
      assert Hangs(t, t[p[0]]);
      var q := p[1..];
      PathLive(t, q);
      forall i | 0 <= i < |p| ensures Live(t, p[i]) { if i > 0 { assert p[i] == q[i - 1]; } }
    }
  }

  /** Depths agree with parents, a deleted parent has only deleted children, slugs are unique. */
  ghost predicate Forest(t: Table) {
    && "" !in t
    && (forall k :: k in t ==> Placed(t, t[k]))
    && (forall j, k :: j in t && k in t && t[j].slug == t[k].slug ==> j == k)
  }

  ghost predicate Placed(t: Table, r: Row) {
    match r.parent
    case None => r.depth == 0
    case Some(p) => p in t && r.depth == t[p].depth + 1 && (t[p].deletedAt.Some? ==> r.deletedAt.Some?)
  }

  lemma ForestIsClosed(t: Table)
    requires Forest(t)
    ensures Closed(t)
  {
    forall k | k in t ensures Hangs(t, t[k]) { assert Placed(t, t[k]); }
  }

  lemma {:induction false} PathDepth(t: Table, p: seq<Id>)
    requires Forest(t) && Path(t, p)
    ensures forall i :: 0 <= i < |p| ==> p[i] in t
    ensures t[p[0]].depth == t[p[|p| - 1]].depth + |p| - 1
    ensures Live(t, p[0]) ==> forall i :: 0 <= i < |p| ==> Live(t, p[i])
    decreases |p|
  {
    PathLinks(t, p);
    if |p| > 1 {
      assert Placed(t, t[p[0]]);
      PathDepth(t, p[1..]);
    }
    if Live(t, p[0]) {
      ForestIsClosed(t);
      PathLive(t, p);
    }
  }

  /** A forest has no cycle, and a live node has no deleted ancestor. */
  lemma ForestIsSound(t: Table)
    requires Forest(t)
    ensures Sound(t)
    ensures Acyclic(t)
    ensures forall d, a :: Live(t, d) && Under(t, d, a) ==> Live(t, a)
  {
    forall p | Path(t, p) ensures |p| >= 2 ==> p[0] != p[|p| - 1] {
      PathDepth(t, p);
    }
    forall d, a | Live(t, d) && Under(t, d, a) ensures Live(t, a) {
      var p :| Path(t, p) && p[0] == d && p[|p| - 1] == a;
      PathDepth(t, p);
    }
    ForestIsClosed(t);
  }

  lemma UnderSelf(t: Table, d: Id)
    requires d in t
    ensures Under(t, d, d)
  {
    assert Path(t, [d]);
  }

  lemma UnderStep(t: Table, d: Id, a: Id)
    requires d in t && t[d].parent.Some? && Under(t, t[d].parent.value, a)
    ensures Under(t, d, a)
  {
    var p :| Path(t, p) && p[0] == t[d].parent.value && p[|p| - 1] == a;
    assert Path(t, [d] + p);
  }

  // ----- the ancestor chain

  /** Strict ancestors of `id`, root first. */
  function Chain(t: Table, id: Id): seq<Id>
    requires Forest(t) && id in t
    decreases t[id].depth
  {
    assert Placed(t, t[id]);
    match t[id].parent
    case None => []
    case Some(p) => Chain(t, p) + [p]
  }

  /** The chain has as many entries as the node is deep, entry i sits at depth i, each is the parent of the next. */
  lemma {:induction false} ChainShape(t: Table, id: Id)
    requires Forest(t) && id in t
    ensures |Chain(t, id)| == t[id].depth
    ensures forall i :: 0 <= i < |Chain(t, id)| ==> Chain(t, id)[i] in t && t[Chain(t, id)[i]].depth == i
    ensures forall i, j :: 0 <= i && j == i + 1 && j < |Chain(t, id)| ==>
      t[Chain(t, id)[j]].parent == Some(Chain(t, id)[i])
    decreases t[id].depth
  {
    assert Placed(t, t[id]);
    if t[id].parent.Some? {
      var p := t[id].parent.value;
      ChainShape(t, p);
      ChainEnd(t, p);
      var above, c := Chain(t, p), Chain(t, id);
      assert |c| == |above| + 1 && c[|above|] == p;
      assert forall i :: 0 <= i < |above| ==> c[i] == above[i];
      forall i, j | 0 <= i && j == i + 1 && j < |c| ensures t[c[j]].parent == Some(c[i]) {
        if j < |above| { assert c[j] == above[j]; }
      }
    }
  }

  lemma ChainEnd(t: Table, id: Id)
    requires Forest(t) && id in t
    ensures t[id].parent == if Chain(t, id) == [] then None else Some(Chain(t, id)[|Chain(t, id)| - 1])
  {
  }

  lemma {:induction false} ChainIsAbove(t: Table, d: Id, a: Id)
    requires Forest(t) && d in t && a in Chain(t, d)
    ensures Under(t, d, a)
    decreases t[d].depth
  {
    assert Placed(t, t[d]);
    var p := t[d].parent.value;
    if a in Chain(t, p) { ChainIsAbove(t, p, a); } else { UnderSelf(t, p); }
    UnderStep(t, d, a);
  }

  /** The chain holds exactly the nodes strictly above. */
  lemma ChainIsAncestors(t: Table, d: Id, a: Id)
    requires Forest(t) && d in t
    ensures a in Chain(t, d) <==> Under(t, d, a) && a != d
  {
    if a in Chain(t, d) {
      var i :| 0 <= i < |Chain(t, d)| && Chain(t, d)[i] == a;
      ChainIsAbove(t, d, a);
      ChainShape(t, d);
    }
    if Under(t, d, a) && a != d {
      var p :| Path(t, p) && p[0] == d && p[|p| - 1] == a;
      PathInChain(t, p);
    }
  }

  lemma {:induction false} PathInChain(t: Table, p: seq<Id>)
    requires Forest(t) && Path(t, p)
    ensures |p| > 1 ==> p[|p| - 1] in Chain(t, p[0])
    decreases |p|
  {
    if |p| > 1 {
      assert Placed(t, t[p[0]]);
      var q := p[1..];
      PathInChain(t, q);
    }
  }

  // ----- recursive queries

  /** What a recursive query over child links yields: rows joined to `root` by rows of `keep`. */
  ghost predicate Reached(t: Table, keep: set<Id>, root: Id, d: Id) {
    exists p :: KeptPath(t, keep, p) && p[0] == d && p[|p| - 1] == root
  }

  ghost predicate KeptPath(t: Table, keep: set<Id>, p: seq<Id>) {
    Path(t, p) && forall i :: 0 <= i < |p| - 1 ==> p[i] in keep
  }

  lemma ReachedDepth(t: Table, keep: set<Id>, root: Id, d: Id)
    requires Forest(t) && Reached(t, keep, root, d)
    ensures d in t && root in t && t[d].depth >= t[root].depth
  {
    var p :| KeptPath(t, keep, p) && p[0] == d && p[|p| - 1] == root;
    PathDepth(t, p);
  }

  lemma {:induction false} ClosedCoversPath(t: Table, keep: set<Id>, s: seq<Id>, p: seq<Id>)
    requires KeptPath(t, keep, p) && p[|p| - 1] in s
    requires Kids(t, keep, s) <= set x | x in s
    ensures p[0] in s
    decreases |p|
  {
    if |p| > 1 {
      var q := p[1..];
      ClosedCoversPath(t, keep, s, q);
      assert p[0] in Kids(t, keep, s);
    }
  }

  method Enumerate(s: set<Id>) returns (q: seq<Id>)
    ensures Distinct(q) && forall x :: x in q <==> x in s
  {
    q := [];
    var rest := s;
    while rest != {}
      invariant rest <= s && Distinct(q)
      invariant forall x :: x in q <==> x in s - rest
    {
      var x :| x in rest;
      assert x !in q;
      q := q + [x];
      rest := rest - {x};
    }
  }

  function Kids(t: Table, keep: set<Id>, parents: seq<Id>): set<Id> {
    set c | c in t && c in keep && t[c].parent.Some? && t[c].parent.value in parents
  }

  lemma DistinctAppend(s: seq<Id>, q: seq<Id>)
    requires Distinct(s) && Distinct(q) && forall x :: x in q ==> x !in s
    ensures Distinct(s + q)
  {
    forall i, j | 0 <= i < j < |s + q| ensures (s + q)[i] != (s + q)[j] {
      if i < |s| <= j { assert q[j - |s|] in q; }
    }
  }

  lemma HeadIsNew(out: seq<Id>, queue: seq<Id>)
    requires Distinct(out + queue) && queue != []
    ensures queue[0] !in out && queue[0] in out + queue
  {
    var met := out + queue;
    assert met[|out|] == queue[0];
    forall i | 0 <= i < |out| ensures out[i] != queue[0] { assert met[i] != met[|out|]; }
  }

  /** Taking one more row brings its kids, none of which was met before, for lack of cycles. */
  lemma KidsOfNext(t: Table, keep: set<Id>, root: Id, out: seq<Id>, x: Id)
    requires Acyclic(t) && Reached(t, keep, root, x) && x !in out
    ensures x in t && Kids(t, keep, out + [x]) == Kids(t, keep, out) + Kids(t, keep, [x])
    ensures Kids(t, keep, [x]) !! Kids(t, keep, out) && root !in Kids(t, keep, [x])
    ensures forall c :: c in Kids(t, keep, [x]) ==> Reached(t, keep, root, c)
  {
    var p :| KeptPath(t, keep, p) && p[0] == x && p[|p| - 1] == root;
    forall c | c in Kids(t, keep, [x]) ensures c != root && Reached(t, keep, root, c) {
      assert KeptPath(t, keep, [c] + p);
    }
  }

  /** Taken and waiting rows: no row twice, each of them reached, and all children of taken ones among them. */
  ghost predicate Met(t: Table, keep: set<Id>, root: Id, out: seq<Id>, queue: seq<Id>) {
    && Distinct(out + queue)
    && (forall x :: x in out + queue <==> x == root || x in Kids(t, keep, out))
    && (forall x :: x in out + queue ==> Reached(t, keep, root, x))
  }

  lemma TakeOne(t: Table, keep: set<Id>, root: Id, out: seq<Id>, queue: seq<Id>, kids: seq<Id>)
    requires Acyclic(t) && Met(t, keep, root, out, queue) && queue != []
    requires Distinct(kids) && forall c :: c in kids <==> c in Kids(t, keep, [queue[0]])
    ensures queue[0] in t && queue[0] !in out && Met(t, keep, root, out + [queue[0]], queue[1..] + kids)
  {
    var x, met := queue[0], out + queue;
    HeadIsNew(out, queue);
    KidsOfNext(t, keep, root, out, x);
    DistinctAppend(met, kids);
    assert (out + [x]) + (queue[1..] + kids) == met + kids;
  }

  /** The queue evaluation of `WITH RECURSIVE ... UNION ALL`: no row is ever compared with an earlier one. */
  method Collect(t: Table, root: Id, keep: set<Id>) returns (out: seq<Id>)
    requires Acyclic(t) && root in t
    ensures Distinct(out)
    ensures forall d :: d in out <==> Reached(t, keep, root, d)
  {
    var queue := [root];
    out := [];
    assert KeptPath(t, keep, [root]);
    while queue != []
      invariant Met(t, keep, root, out, queue)
      decreases t.Keys - (set x | x in out)
    {
      var x := queue[0];
      var kids := Enumerate(Kids(t, keep, [x]));
      TakeOne(t, keep, root, out, queue, kids);
      ghost var left := t.Keys - set y | y in out;
      out, queue := out + [x], queue[1..] + kids;
      assert x in left && x !in t.Keys - set y | y in out;
    }
    assert out + queue == out;
    forall d | Reached(t, keep, root, d) ensures d in out {
      var p :| KeptPath(t, keep, p) && p[0] == d && p[|p| - 1] == root;
      ClosedCoversPath(t, keep, out, p);
    }
  }

  function LiveIds(t: Table): set<Id> { set k | k in t && t[k].deletedAt.None? }

  function LiveUpTo(t: Table, bound: int): set<Id> { set k | k in t && t[k].deletedAt.None? && t[k].depth <= bound }

  /** Cutting the recursion by depth loses nothing: it yields the live descendants down to the bound. */
  lemma CutLosesNothing(t: Table, root: Id, bound: int, d: Id)
    requires Forest(t) && Live(t, root)
    ensures Reached(t, LiveUpTo(t, bound), root, d)
       <==> Live(t, d) && Under(t, d, root) && (d == root || t[d].depth <= bound)
  {
    var keep := LiveUpTo(t, bound);
    if Reached(t, keep, root, d) {
      var p :| KeptPath(t, keep, p) && p[0] == d && p[|p| - 1] == root;
      assert Under(t, d, root);
      if |p| > 1 { assert p[0] in keep; }
    }
    if Live(t, d) && Under(t, d, root) && (d == root || t[d].depth <= bound) {
      var p :| Path(t, p) && p[0] == d && p[|p| - 1] == root;
      PathDepth(t, p);
      forall i | 0 <= i < |p| - 1 ensures p[i] in keep {
        PathPrefix(t, p, i);
        PathDepth(t, p[..i + 1]);
      }
      assert KeptPath(t, keep, p);
    }
  }

  /** Stopping at deleted rows loses nothing: the recursion yields exactly the live descendants. */
  lemma StopLosesNothing(t: Table, root: Id, d: Id)
    requires Sound(t) && Live(t, root)
    ensures Reached(t, LiveIds(t), root, d) <==> Live(t, d) && Under(t, d, root)
  {
    if Reached(t, LiveIds(t), root, d) {
      var p :| KeptPath(t, LiveIds(t), p) && p[0] == d && p[|p| - 1] == root;
      assert Under(t, d, root);
      if |p| > 1 { assert p[0] in LiveIds(t); }
    }
    if Live(t, d) && Under(t, d, root) {
      var p :| Path(t, p) && p[0] == d && p[|p| - 1] == root;
      PathLive(t, p);
      assert KeptPath(t, LiveIds(t), p);
    }
  }

  // ----- the steps of the store, as relations between tables

  /** One new live row, placed under a live parent or at the top; nothing else moves. */
  ghost predicate Inserted(t: Table, t': Table, id: Id, row: Row) {
    && id != "" && id !in t
    && row.deletedAt.None?
    && (match row.parent
        case None => row.depth == 0
        case Some(p) => Live(t, p) && row.depth == t[p].depth + 1)
    && (forall k :: k in t ==> t[k].slug != row.slug)
    && t' == t[id := row]
  }

  /** Contents of one live row change; its place in the tree does not. */
  ghost predicate Edited(t: Table, t': Table, id: Id) {
    && Live(t, id)
    && id in t'
    && t' == t[id := t[id].(
      title := t'[id].title, body := t'[id].body, visibility := t'[id].visibility, order := t'[id].order)]
  }

  /** The statement `UPDATE ... WHERE id IN descendants`, with the recursion's raw meaning. */
  ghost predicate Removed(t: Table, t': Table, id: Id, now: int) {
    t' == map k | k in t :: if Live(t, id) && Reached(t, LiveIds(t), id, k) then t[k].(deletedAt := Some(now)) else t[k]
  }

  ghost predicate Reordered(t: Table, t': Table) {
    t'.Keys == t.Keys && forall k :: k in t ==> t'[k] == t[k].(order := t'[k].order)
  }

  /** `DELETE FROM nodes`: the row goes, and by cascade all its descendants, deleted or not. */
  ghost predicate Purged(t: Table, t': Table, id: Id) {
    id in t && t' == map k | k in t && !Under(t, k, id) :: t[k]
  }

  ghost predicate Step(t: Table, t': Table) {
    || t' == t
    || (exists id :: Purged(t, t', id))
    || (exists id, row :: Inserted(t, t', id, row))
    || (exists id :: Edited(t, t', id))
    || (exists id, now :: Removed(t, t', id, now))
    || Reordered(t, t')
  }

  /** Delete marks the node and every live descendant, keeps older marks, and leaves the rest alone. */
  lemma DeleteIsExact(t: Table, t': Table, id: Id, now: int)
    requires Sound(t) && Removed(t, t', id, now)
    ensures t'.Keys == t.Keys
    ensures forall k :: k in t ==>
      t'[k] == (if Live(t, id) && Live(t, k) && Under(t, k, id) then t[k].(deletedAt := Some(now)) else t[k])
    ensures id in t ==> forall k :: k in t && Under(t, k, id) ==> !Live(t', k)
  {
    if Live(t, id) {
      forall k | k in t ensures Reached(t, LiveIds(t), id, k) <==> Live(t, k) && Under(t, k, id) {
        StopLosesNothing(t, id, k);
      }
    } else if id in t {
      forall k | k in t && Under(t, k, id) ensures !Live(t', k) {
        var p :| Path(t, p) && p[0] == k && p[|p| - 1] == id;
        if Live(t, k) { PathLive(t, p); }
      }
    }
  }

  /** A second Delete, even at another time, changes nothing. */
  lemma DeleteTwice(t: Table, t1: Table, t2: Table, id: Id, now: int, later: int)
    requires Sound(t) && Removed(t, t1, id, now) && Removed(t1, t2, id, later)
    ensures t2 == t1
  {
    DeleteIsExact(t, t1, id, now);
    if id in t {
      UnderSelf(t, id);
    }
    assert !Live(t1, id);
  }

  lemma InsertKeepsForest(t: Table, t': Table, id: Id, row: Row)
    requires Forest(t) && Inserted(t, t', id, row)
    ensures Forest(t')
  {
    forall k | k in t' ensures Placed(t', t'[k]) {
      if k != id { assert Placed(t, t[k]); }
    }
  }

  lemma RemoveKeepsForest(t: Table, t': Table, id: Id, now: int)
    requires Forest(t) && Removed(t, t', id, now)
    ensures Forest(t')
  {
    ForestIsSound(t);
    DeleteIsExact(t, t', id, now);
    forall k | k in t' ensures Placed(t', t'[k]) {
      assert Placed(t, t[k]);
      if t[k].parent.Some? && !Live(t', t[k].parent.value) && Live(t, k) {
        assert Under(t, t[k].parent.value, id);
        UnderStep(t, k, id);
      }
    }
    forall j, k | j in t' && k in t' && t'[j].slug == t'[k].slug ensures j == k {
      assert t[j].slug == t[k].slug;
    }
  }

  /** Only titles, texts, visibilities and orders differ. */
  ghost predicate SamePlaces(t: Table, t': Table) {
    && t'.Keys == t.Keys
    && forall k :: k in t ==>
      t'[k].parent == t[k].parent && t'[k].depth == t[k].depth && t'[k].deletedAt == t[k].deletedAt
        && t'[k].slug == t[k].slug
  }

  lemma ContentKeepsForest(t: Table, t': Table)
    requires Forest(t) && SamePlaces(t, t')
    ensures Forest(t')
  {
    forall k | k in t' ensures Placed(t', t'[k]) { assert Placed(t, t[k]); }
  }

  lemma PurgeKeepsForest(t: Table, t': Table, id: Id)
    requires Forest(t) && Purged(t, t', id)
    ensures Forest(t')
  {
    forall k | k in t' ensures Placed(t', t'[k]) {
      assert Placed(t, t[k]);
      if t[k].parent.Some? && t[k].parent.value !in t' { UnderStep(t, k, id); }
    }
  }

  lemma StepKeepsForest(t: Table, t': Table)
    requires Forest(t) && Step(t, t')
    ensures Forest(t')
  {
    if id, row :| Inserted(t, t', id, row) {
      InsertKeepsForest(t, t', id, row);
    } else if id, now :| Removed(t, t', id, now) {
      RemoveKeepsForest(t, t', id, now);
    } else if id :| Purged(t, t', id) {
      PurgeKeepsForest(t, t', id);
    } else if id :| Edited(t, t', id) {
      ContentKeepsForest(t, t');
    } else {
      ContentKeepsForest(t, t');
    }
  }

  /** A run from the empty table. */
  ghost predicate Run(tables: seq<Table>) {
    && |tables| > 0 && tables[0] == map[]
    && forall i :: 0 <= i < |tables| - 1 ==> StepAt(tables, i)
  }

  ghost predicate StepAt(tables: seq<Table>, i: nat)
    requires i + 1 < |tables|
  {
    Step(tables[i], tables[i + 1])
  }

  lemma {:induction false} ReachableIsForest(tables: seq<Table>, n: nat)
    requires Run(tables) && n < |tables|
    ensures Forest(tables[n])
    ensures Acyclic(tables[n])
    ensures forall d, a :: Live(tables[n], d) && Under(tables[n], d, a) ==> Live(tables[n], a)
  {
    if n > 0 {
      ReachableIsForest(tables, n - 1);
      assert StepAt(tables, n - 1);
      StepKeepsForest(tables[n - 1], tables[n]);
    }
    ForestIsSound(tables[n]);
  }

  // ----- re-pointing a parent

  function Repoint(t: Table, n: Id, p: Id): Table
    requires n in t
  {
    t[n := t[n].(parent := Some(p))]
  }

  /** Re-pointing keeps the relation acyclic exactly when the new parent is not under the node. */
  lemma RepointAcyclic(t: Table, n: Id, p: Id)
    requires Acyclic(t) && n in t && p in t
    ensures Acyclic(Repoint(t, n, p)) <==> !Under(t, p, n)
  {
    var t' := Repoint(t, n, p);
    if Under(t, p, n) {
      var q :| Path(t, q) && q[0] == p && q[|q| - 1] == n;
      LoopCloses(t, n, p, q);
    } else {
      forall c | Path(t', c) && |c| >= 2 ensures c[0] != c[|c| - 1] {
        if c[0] == c[|c| - 1] { NoLoop(t, n, p, c); }
      }
    }
  }

  /** The way down from the node to its new parent becomes a way back up. */
  lemma LoopCloses(t: Table, n: Id, p: Id, q: seq<Id>)
    requires Acyclic(t) && n in t && Path(t, q) && q[0] == p && q[|q| - 1] == n
    ensures Path(Repoint(t, n, p), [n] + q)
  {
    PathLinks(t, q);
    forall i | 0 <= i < |q| - 1 ensures q[i] != n {
      if q[i] == n { PathSuffix(t, q, i); }
    }
    var t', loop := Repoint(t, n, p), [n] + q;
    PathTransfer(t, t', q);
    assert loop[1..] == q && loop[1] == p && t'[n].parent == Some(p);
  }

  /** A cycle of the re-pointed table passes the node; turned to begin there, it leads from new parent to node. */
  lemma NoLoop(t: Table, n: Id, p: Id, c: seq<Id>)
    requires Acyclic(t) && n in t && p in t
    requires Path(Repoint(t, n, p), c) && |c| >= 2 && c[0] == c[|c| - 1]
    ensures Under(t, p, n)
  {
    var t' := Repoint(t, n, p);
    PathLinks(t', c);
    if i :| 0 <= i < |c| - 1 && c[i] == n {
      PathSuffix(t', c, i);
      PathPrefix(t', c, i);
      PathJoin(t', c[i..], c[..i + 1]);
      LoopFromNode(t, n, p, c[i..][..|c| - i - 1] + c[..i + 1]);
    } else {
      PathTransfer(t', t, c);
    }
  }

  lemma {:induction false} LoopFromNode(t: Table, n: Id, p: Id, r: seq<Id>)
    requires n in t && p in t && Path(Repoint(t, n, p), r) && |r| >= 2 && r[0] == n == r[|r| - 1]
    ensures Under(t, p, n)
    decreases |r|
  {
    var t' := Repoint(t, n, p);
    if k :| 1 <= k < |r| - 1 && r[k] == n {
      PathPrefix(t', r, k);
      LoopFromNode(t, n, p, r[..k + 1]);
    } else {
      var q := r[1..];
      PathLinks(t', q);
      PathTransfer(t', t, q);
      assert q[0] == p && q[|q| - 1] == n;
    }
  }

  /** What the foreign key lets an UPDATE of the parent alone do. */
  ghost predicate Moved(t: Table, t': Table, n: Id, p: Id) { n in t && p in t && t' == Repoint(t, n, p) }

  /** The new parent is not under the node, nor deleted above a live node. */
  ghost predicate Harmless(t: Table, n: Id, p: Id)
    requires n in t && p in t
  {
    !Under(t, p, n) && (t[p].deletedAt.Some? ==> t[n].deletedAt.Some?)
  }

  /** A move keeps a table sound exactly when it is harmless. */
  lemma MoveExact(t: Table, t': Table, n: Id, p: Id)
    requires Sound(t) && Moved(t, t', n, p)
    ensures Sound(t') <==> Harmless(t, n, p)
  {
    RepointAcyclic(t, n, p);
    if Harmless(t, n, p) {
      forall k | k in t' ensures Hangs(t', t'[k]) { assert Hangs(t, t[k]); }
      forall j, k | j in t' && k in t' && t'[j].slug == t'[k].slug ensures j == k {
        assert t[j].slug == t[k].slug;
      }
    } else {
      assert Hangs(t', t'[n]) ==> (t[p].deletedAt.Some? ==> t[n].deletedAt.Some?);
    }
  }

  /** It keeps a forest exactly when the depth, which it does not touch, happens to fit the new parent. */
  lemma MoveKeepsDepth(t: Table, t': Table, n: Id, p: Id)
    requires Forest(t) && Moved(t, t', n, p)
    ensures Forest(t') <==> t[n].depth == t[p].depth + 1 && (t[p].deletedAt.Some? ==> t[n].deletedAt.Some?)
  {
    if t[n].depth == t[p].depth + 1 && (t[p].deletedAt.Some? ==> t[n].deletedAt.Some?) {
      forall k | k in t' ensures Placed(t', t'[k]) { assert Placed(t, t[k]); }
      forall j, k | j in t' && k in t' && t'[j].slug == t'[k].slug ensures j == k {
        assert t[j].slug == t[k].slug;
      }
    } else {
      assert !Placed(t', t'[n]);
    }
  }

  ghost predicate LiveLoop(t: Table, n: Id, q: seq<Id>) {
    Path(t, q) && q[0] == n == q[|q| - 1] && forall i :: 0 <= i < |q| ==> Live(t, q[i])
  }

  lemma LoopOnce(t: Table, t': Table, n: Id, p: Id) returns (q: seq<Id>)
    requires Sound(t) && Moved(t, t', n, p) && Live(t, n) && Live(t, p) && Under(t, p, n)
    ensures LiveLoop(t', n, q) && |q| >= 2
  {
    var way :| Path(t, way) && way[0] == p && way[|way| - 1] == n;
    LoopCloses(t, n, p, way);
    PathLive(t, way);
    q := [n] + way;
    forall i | 0 <= i < |q| ensures Live(t', q[i]) { if i > 0 { assert q[i] == way[i - 1]; } }
  }

  lemma LoopTwice(t: Table, n: Id, q: seq<Id>, r: seq<Id>)
    requires LiveLoop(t, n, q) && LiveLoop(t, n, r)
    ensures LiveLoop(t, n, q[..|q| - 1] + r)
  {
    PathJoin(t, q, r);
    var both := q[..|q| - 1] + r;
    forall i | 0 <= i < |both| ensures Live(t, both[i]) {
      if i < |q| - 1 { assert both[i] == q[i]; } else { assert both[i] == r[i - (|q| - 1)]; }
    }
  }

  /** After a move under a live descendant the recursion of Delete yields rows without end. */
  lemma {:induction false} MoveNeverEnds(t: Table, t': Table, n: Id, p: Id, k: nat) returns (q: seq<Id>)
    requires Sound(t) && Moved(t, t', n, p) && Live(t, n) && Live(t, p) && Under(t, p, n)
    ensures LiveLoop(t', n, q) && KeptPath(t', LiveIds(t'), q) && |q| > k
  {
    if k == 0 {
      q := [n];
    } else {
      var rest := MoveNeverEnds(t, t', n, p, k - 1);
      var loop := LoopOnce(t, t', n, p);
      LoopTwice(t', n, loop, rest);
      q := loop[..|loop| - 1] + rest;
    }
  }

  // ----- runs with moves

  lemma {:induction false} InsertKeepsSound(t: Table, t': Table, id: Id, row: Row)
    requires Sound(t) && Inserted(t, t', id, row)
    ensures Sound(t')
  {
    forall k | k in t' ensures Hangs(t', t'[k]) {
      if k != id { assert Hangs(t, t[k]); }
    }
    forall c | Path(t', c) && |c| >= 2 ensures c[0] != c[|c| - 1] {
      PathLinks(t', c);
      forall i | 1 <= i < |c| ensures c[i] in t { assert t'[c[i - 1]].parent == Some(c[i]) && Hangs(t', t'[c[i - 1]]); }
      if c[0] in t { PathTransfer(t', t, c); }
    }
  }

  /** Fewer rows, no new links, and no deleted parent above a live child. */
  lemma LinksKeepSound(t: Table, t': Table)
    requires Sound(t) && t'.Keys <= t.Keys
    requires forall k :: k in t' ==> t'[k].parent == t[k].parent && t'[k].slug == t[k].slug && Hangs(t', t'[k])
    ensures Sound(t')
  {
    forall c | Path(t', c) && |c| >= 2 ensures c[0] != c[|c| - 1] {
      PathLinks(t', c);
      PathTransfer(t', t, c);
    }
    forall j, k | j in t' && k in t' && t'[j].slug == t'[k].slug ensures j == k {
      assert t[j].slug == t[k].slug;
    }
  }

  lemma RemoveKeepsSound(t: Table, t': Table, id: Id, now: int)
    requires Sound(t) && Removed(t, t', id, now)
    ensures Sound(t')
  {
    DeleteIsExact(t, t', id, now);
    forall k | k in t' ensures Hangs(t', t'[k]) {
      assert Hangs(t, t[k]);
      if t[k].parent.Some? && !Live(t', t[k].parent.value) && Live(t, k) {
        assert Under(t, t[k].parent.value, id);
        UnderStep(t, k, id);
      }
    }
    LinksKeepSound(t, t');
  }

  lemma PurgeKeepsSound(t: Table, t': Table, id: Id)
    requires Sound(t) && Purged(t, t', id)
    ensures Sound(t')
  {
    forall k | k in t' ensures Hangs(t', t'[k]) {
      assert Hangs(t, t[k]);
      if t[k].parent.Some? && t[k].parent.value !in t' { UnderStep(t, k, id); }
    }
    LinksKeepSound(t, t');
  }

  lemma ContentKeepsSound(t: Table, t': Table)
    requires Sound(t) && SamePlaces(t, t')
    ensures Sound(t')
  {
    forall k | k in t' ensures Hangs(t', t'[k]) { assert Hangs(t, t[k]); }
    LinksKeepSound(t, t');
  }

  lemma StepKeepsSound(t: Table, t': Table)
    requires Sound(t) && Step(t, t')
    ensures Sound(t')
  {
    if id, row :| Inserted(t, t', id, row) {
      InsertKeepsSound(t, t', id, row);
    } else if id, now :| Removed(t, t', id, now) {
      RemoveKeepsSound(t, t', id, now);
    } else if id :| Purged(t, t', id) {
      PurgeKeepsSound(t, t', id);
    } else if id :| Edited(t, t', id) {
      ContentKeepsSound(t, t');
    } else {
      ContentKeepsSound(t, t');
    }
  }

  ghost predicate MovingRun(tables: seq<Table>) {
    && |tables| > 0 && tables[0] == map[]
    && forall i :: 0 <= i < |tables| - 1 ==> MovingStepAt(tables, i)
  }

  ghost predicate MovingStepAt(tables: seq<Table>, i: nat)
    requires i + 1 < |tables|
  {
    || Step(tables[i], tables[i + 1])
    || exists n, p :: Moved(tables[i], tables[i + 1], n, p) && Harmless(tables[i], n, p)
  }

  /** With harmless moves among the steps every table is sound, whatever its depths say. */
  lemma {:induction false} MovingRunIsSound(tables: seq<Table>, n: nat)
    requires MovingRun(tables) && n < |tables|
    ensures Sound(tables[n])
  {
    if n > 0 {
      var t, t' := tables[n - 1], tables[n];
      MovingRunIsSound(tables, n - 1);
      assert MovingStepAt(tables, n - 1);
      if Step(t, t') {
        StepKeepsSound(t, t');
      } else {
        var x, p :| Moved(t, t', x, p) && Harmless(t, x, p);
        MoveExact(t, t', x, p);
      }
    }
  }
}
