// The store of nodes. Each method is proved to take one of the steps of NodeTree, so
// whatever holds of its runs holds of any sequence of calls.

module NodeStore {
  import opened Options
  import opened NodeTree
  import opened Sequences
  import opened Sorting

  datatype NewNode = NewNode(
    id: Id, parent: Option<Id>, slug: string, kind: string, title: string, body: string,
    visibility: string, order: int)

  datatype CreateResult = Created(id: Id) | SlugTaken | ParentNotFound | Refused
  datatype UpdateResult = Updated | NotFound | BadVisibility
  datatype CycleResult = NoCycle | Cycle | NodeNotFound

  function Default(s: string, d: string): string { if s == "" then d else s }

  predicate SlugInUse(t: Table, slug: string) { exists k :: k in t && t[k].slug == slug }

  function DepthOf(t: Table, x: Id): int { if x in t then t[x].depth else 0 }

  function OrderOf(t: Table, x: Id): int { if x in t then t[x].order else 0 }

  predicate ShallowerOrFirst(t: Table, x: Id, y: Id) {
    DepthOf(t, x) < DepthOf(t, y) || (DepthOf(t, x) == DepthOf(t, y) && OrderOf(t, x) <= OrderOf(t, y))
  }

  function ByDepth(t: Table): (Id, Id) -> bool { (x, y) => ShallowerOrFirst(t, x, y) }

  function Shallower(t: Table): (Id, Id) -> bool { (x, y) => DepthOf(t, x) <= DepthOf(t, y) }

  /** What CheckCycle answers on any two ids. */
  ghost predicate Answers(t: Table, node: Id, newParent: Id, r: CycleResult) {
    && (r == Cycle <==> node == newParent || (Live(t, newParent) && Under(t, newParent, node)))
    && (r == NodeNotFound <==> r != Cycle && !Live(t, node))
  }

  predicate LastAsk(ids: seq<Id>, j: nat)
    requires j < |ids|
  {
    forall m :: j < m < |ids| ==> ids[m] != ids[j]
  }

  /** Within the children of one parent, entry j of a list of ids asks for position j; the last entry wins. */
  ghost predicate PlacedBy(t: Table, t': Table, parent: Id, ids: seq<Id>) {
    && Reordered(t, t')
    && (forall j :: 0 <= j < |ids| && LastAsk(ids, j) && Live(t, ids[j]) && t[ids[j]].parent == Some(parent)
          ==> t'[ids[j]].order == j)
    && (forall k :: k in t && !(k in ids && Live(t, k) && t[k].parent == Some(parent)) ==> t'[k] == t[k])
  }

  lemma StepKeeps(t: Table, t': Table)
    requires Sound(t) && Step(t, t')
    ensures Sound(t') && (Forest(t) ==> Forest(t'))
  {
    StepKeepsSound(t, t');
    if Forest(t) { StepKeepsForest(t, t'); }
  }

  class Store {
    var rows: Table

    constructor ()
      ensures rows == map[] && Forest(rows) && Sound(rows)
    {
      rows := map[];
    }

    method Create(n: NewNode, freshId: Id, autoSlug: string) returns (r: CreateResult)
      requires Sound(rows) && freshId != ""
      modifies this
      ensures Sound(rows) && Step(old(rows), rows) && (Forest(old(rows)) ==> Forest(rows))
      ensures r == ParentNotFound <==> n.parent.Some? && n.parent.value != "" && !Live(old(rows), n.parent.value)
      ensures !r.Created? ==> rows == old(rows)
      // a kind or visibility that is given but not allowed, or an empty parent that gets that far
      ensures r == Refused <==>
        && r != ParentNotFound
        && (|| n.kind !in {"", "folder", "page", "post", "form", "doc"}
            || n.visibility !in {"", "public", "members", "role"}
            || (n.parent == Some("") && r != SlugTaken))
      ensures r == SlugTaken <==>
        && r != ParentNotFound
        && n.kind in {"", "folder", "page", "post", "form", "doc"} && n.visibility in {"", "public", "members", "role"}
        && (|| (n.id != "" && n.id in old(rows)) || (n.id == "" && freshId in old(rows))
            || exists k :: k in old(rows) && old(rows)[k].slug == if n.slug != "" then n.slug else autoSlug)
      // what is given is kept, what is empty is filled in
      ensures r.Created? ==>
        r.id in rows && Inserted(old(rows), rows, r.id, rows[r.id]) && rows == old(rows)[r.id := rows[r.id]]
      ensures r.Created? ==> (n.id != "" ==> r.id == n.id) && (n.id == "" ==> r.id == freshId)
      ensures r.Created? ==>
        var row := rows[r.id];
        && (n.slug != "" ==> row.slug == n.slug) && (n.slug == "" ==> row.slug == autoSlug)
        && (n.kind != "" ==> row.kind == n.kind) && (n.kind == "" ==> row.kind == "page")
        && (n.visibility != "" ==> row.visibility == n.visibility)
        && (n.visibility == "" ==> row.visibility == "public")
        && row.parent == n.parent && row.title == n.title && row.body == n.body && row.order == n.order
        && row.depth == (if n.parent.Some? then old(rows)[n.parent.value].depth + 1 else 0)
        && row.deletedAt == None
    {
      var slug := Default(n.slug, autoSlug);
      var id := Default(n.id, freshId);
      var visibility := Default(n.visibility, "public");
      var kind := Default(n.kind, "page");
      var depth: nat := 0;
      if n.parent.Some? && n.parent.value != "" {
        if !Live(rows, n.parent.value) {
          return ParentNotFound;
        }
        depth := rows[n.parent.value].depth + 1;
      }
      // the INSERT: CHECK constraints, then uniqueness, then the foreign key
      if kind !in KINDS || visibility !in VISIBILITIES {
        return Refused;
      }
      if id in rows || SlugInUse(rows, slug) {
        return SlugTaken;
      }
      if n.parent.Some? && n.parent.value !in rows {
        return Refused;
      }
      var row := Row(n.parent, slug, kind, n.title, n.body, visibility, n.order, depth, None);
      rows := rows[id := row];
      assert Inserted(old(rows), rows, id, row);
      StepKeeps(old(rows), rows);
      return Created(id);
    }

    method Update(id: Id, title: string, body: string, visibility: string, order: int) returns (r: UpdateResult)
      requires Sound(rows)
      modifies this
      ensures Sound(rows) && Step(old(rows), rows) && (Forest(old(rows)) ==> Forest(rows))
      ensures r == NotFound <==> !Live(old(rows), id)
      ensures r == BadVisibility <==> Live(old(rows), id) && visibility !in {"public", "members", "role"}
      ensures r != Updated ==> rows == old(rows)
      ensures r == Updated ==>
        && id in old(rows)
        && rows == old(rows)[id := old(rows)[id].(
          title := title, body := body, visibility := visibility, order := order)]
    {
      if !Live(rows, id) {
        return NotFound;
      }
      if visibility !in VISIBILITIES {
        return BadVisibility;
      }
      rows := rows[id := rows[id].(title := title, body := body, visibility := visibility, order := order)];
      assert Edited(old(rows), rows, id);
      StepKeeps(old(rows), rows);
      return Updated;
    }

    method Delete(id: Id, now: int)
      requires Sound(rows)
      modifies this
      ensures Sound(rows) && Step(old(rows), rows) && (Forest(old(rows)) ==> Forest(rows))
      ensures Removed(old(rows), rows, id, now) && rows.Keys == old(rows).Keys
      ensures forall k :: k in old(rows) ==>
        rows[k] == if Live(old(rows), id) && Live(old(rows), k) && Under(old(rows), k, id)
          then old(rows)[k].(deletedAt := Some(now)) else old(rows)[k]
    {
      var doomed := [];
      if Live(rows, id) {
        doomed := Collect(rows, id, LiveIds(rows));
      }
      rows := map k | k in rows :: if k in doomed then rows[k].(deletedAt := Some(now)) else rows[k];
      assert Removed(old(rows), rows, id, now);
      DeleteIsExact(old(rows), rows, id, now);
      StepKeeps(old(rows), rows);
    }

    method Reorder(parent: Id, ids: seq<Id>)
      requires Sound(rows)
      modifies this
      ensures Sound(rows) && Step(old(rows), rows) && (Forest(old(rows)) ==> Forest(rows))
      ensures PlacedBy(old(rows), rows, parent, ids)
      ensures forall k :: k in old(rows) ==> k in rows && rows[k] == old(rows)[k].(order := rows[k].order)
      ensures forall k :: k in old(rows) && old(rows)[k].parent == Some(parent) && old(rows)[k].deletedAt == None ==>
        forall j :: 0 <= j < |ids| && ids[j] == k && k !in ids[j + 1..] ==> rows[k].order == j
      ensures forall k :: k in old(rows) && k !in ids ==> rows[k] == old(rows)[k]
    {
      for i := 0 to |ids|
        invariant PlacedBy(old(rows), rows, parent, ids[..i])
      {
        ghost var before := rows;
        if Live(rows, ids[i]) && rows[ids[i]].parent == Some(parent) {
          rows := rows[ids[i] := rows[ids[i]].(order := i)];
        }
        PlacedByNext(old(rows), before, rows, parent, ids, i);
      }
      assert ids[..|ids|] == ids;
      PlacedByMeans(old(rows), rows, parent, ids);
      StepKeeps(old(rows), rows);
    }

    /** The breadcrumb: exactly the strict ancestors, root first. */
    method Ancestors(id: Id) returns (out: seq<Id>)
      requires Forest(rows)
      ensures out == if Live(rows, id) then Chain(rows, id) else []
    {
      out := [];
      if !Live(rows, id) {
        return;
      }
      var t := rows;
      var next := rows[id].parent;
      assert Placed(rows, rows[id]);
      while next.Some?
        invariant next.Some? ==> Live(t, next.value) && Chain(t, id) == Chain(t, next.value) + [next.value] + out
        invariant next.Some? && out != [] ==> out[0] in t && t[out[0]].parent == next
        invariant next.None? ==> out == Chain(t, id)
        decreases if next.Some? then t[next.value].depth + 1 else 0
      {
        var a := next.value;
        ParentGoesFirst(t, a, out);
        ChainUp(t, a, out);
        out := Insert(Shallower(t), a, out);
        next := rows[a].parent;
        if next.Some? && !Live(rows, next.value) {
          next := None;
        }
      }
    }

    /** Live descendants down to `maxDepth` levels, shallower rows first. */
    method Subtree(root: Id, maxDepth: int) returns (r: Option<seq<Id>>)
      requires Forest(rows)
      ensures r.None? <==> !Live(rows, root)
      ensures r.Some? ==> Distinct(r.value)
      ensures r.Some? ==> forall i, j :: 0 <= i < j < |r.value| ==>
        && r.value[i] in rows && r.value[j] in rows
        && (|| rows[r.value[i]].depth < rows[r.value[j]].depth
            || (rows[r.value[i]].depth == rows[r.value[j]].depth && rows[r.value[i]].order <= rows[r.value[j]].order))
      ensures r.Some? ==> forall d :: d in r.value <==>
        Live(rows, d) && Under(rows, d, root) && (d == root || rows[d].depth <= rows[root].depth + maxDepth)
    {
      if !Live(rows, root) {
        return None;
      }
      ForestIsSound(rows);
      var found := Collect(rows, root, LiveUpTo(rows, rows[root].depth + maxDepth));
      var out := Sort(ByDepth(rows), found);
      SubtreeExact(rows, root, rows[root].depth + maxDepth, found);
      SubtreeOrder(rows, out);
      return Some(out);
    }

    method CheckCycle(node: Id, newParent: Id) returns (r: CycleResult)
      requires Forest(rows)
      ensures Answers(rows, node, newParent, r)
    {
      if node == newParent {
        return Cycle;
      }
      var ancestors := Ancestors(newParent);
      for i := 0 to |ancestors|
        invariant node !in ancestors[..i]
      {
        if ancestors[i] == node {
          ChainIsAncestors(rows, newParent, node);
          return Cycle;
        }
      }
      assert ancestors[..|ancestors|] == ancestors;
      var sub := Subtree(node, 100);
      if sub.None? {
        if Live(rows, newParent) { ChainIsAncestors(rows, newParent, node); }
        return NodeNotFound;
      }
      for i := 0 to |sub.value| {
        if sub.value[i] == newParent {
          return Cycle;
        }
      }
      if Live(rows, newParent) { ChainIsAncestors(rows, newParent, node); }
      return NoCycle;
    }
  }

  /** A parent is shallower than its child, so it goes in front. */
  lemma ParentGoesFirst(t: Table, a: Id, out: seq<Id>)
    requires Forest(t) && a in t
    requires out != [] ==> out[0] in t && t[out[0]].parent == Some(a)
    ensures Insert(Shallower(t), a, out) == [a] + out
  {
    if out != [] { assert Placed(t, t[out[0]]); }
  }

  lemma ChainUp(t: Table, a: Id, out: seq<Id>)
    requires Forest(t) && Live(t, a)
    ensures match t[a].parent
      case None => Chain(t, a) + [a] + out == [a] + out
      case Some(p) =>
        && Live(t, p) && t[p].depth < t[a].depth
        && Chain(t, a) + [a] + out == Chain(t, p) + [p] + ([a] + out)
  {
    assert Placed(t, t[a]);
    if t[a].parent.Some? {
      Associative(Chain(t, a), [a], out);
    }
  }

  lemma SubtreeOrder(t: Table, out: seq<Id>)
    requires Sorted(ByDepth(t), out) && forall d :: d in out ==> d in t
    ensures forall i, j :: 0 <= i < j < |out| ==>
      && out[i] in t && out[j] in t
      && (|| t[out[i]].depth < t[out[j]].depth
          || (t[out[i]].depth == t[out[j]].depth && t[out[i]].order <= t[out[j]].order))
  {
    forall i, j | 0 <= i < j < |out| ensures ShallowerOrFirst(t, out[i], out[j]) && out[i] in t && out[j] in t {
      assert ByDepth(t)(out[i], out[j]) && out[i] in out && out[j] in out;
    }
  }

  lemma SubtreeExact(t: Table, root: Id, bound: int, found: seq<Id>)
    requires Forest(t) && Live(t, root)
    requires Distinct(found) && forall d :: d in found <==> Reached(t, LiveUpTo(t, bound), root, d)
    ensures var out := Sort(ByDepth(t), found);
      && Distinct(out) && Sorted(ByDepth(t), out)
      && forall d :: d in out <==> Live(t, d) && Under(t, d, root) && (d == root || t[d].depth <= bound)
  {
    var out := Sort(ByDepth(t), found);
    SortSorts(ByDepth(t), found);
    DistinctPermuted(found, out);
    SameMembers(found, out);
    forall d ensures d in out <==> Live(t, d) && Under(t, d, root) && (d == root || t[d].depth <= bound) {
      CutLosesNothing(t, root, bound, d);
    }
  }

  lemma PlacedByMeans(t: Table, t': Table, parent: Id, ids: seq<Id>)
    requires PlacedBy(t, t', parent, ids)
    ensures forall k :: k in t ==> k in t' && t'[k] == t[k].(order := t'[k].order)
    ensures forall k :: k in t && t[k].parent == Some(parent) && t[k].deletedAt == None ==>
      forall j :: 0 <= j < |ids| && ids[j] == k && k !in ids[j + 1..] ==> t'[k].order == j
    ensures forall k :: k in t && k !in ids ==> t'[k] == t[k]
  {
    forall j | 0 <= j < |ids| && ids[j] !in ids[j + 1..] ensures LastAsk(ids, j) {
      forall m | j < m < |ids| ensures ids[m] != ids[j] { assert ids[m] == ids[j + 1..][m - j - 1]; }
    }
  }

  lemma PlacedByNext(t: Table, u: Table, u': Table, parent: Id, ids: seq<Id>, i: nat)
    requires i < |ids| && PlacedBy(t, u, parent, ids[..i])
    requires u' ==
      if Live(u, ids[i]) && u[ids[i]].parent == Some(parent) then u[ids[i] := u[ids[i]].(order := i)] else u
    ensures PlacedBy(t, u', parent, ids[..i + 1])
  {
    var s, s' := ids[..i], ids[..i + 1];
    forall j | 0 <= j < |s'| && LastAsk(s', j) && Live(t, s'[j]) && t[s'[j]].parent == Some(parent)
      ensures u'[s'[j]].order == j
    {
      if j < i {
        assert s'[i] == ids[i] != s'[j];
        assert LastAsk(s, j) by {
          forall m | j < m < |s| ensures s[m] != s[j] { assert s'[m] != s'[j]; }
        }
      }
    }
    assert s' == s + [ids[i]];
  }

  /** For live nodes the check is exactly what keeps a re-pointed table acyclic, at any height. */
  lemma CheckDecides(t: Table, node: Id, newParent: Id, r: CycleResult)
    requires Forest(t) && Live(t, node) && Live(t, newParent)
    requires Answers(t, node, newParent, r)
    ensures r == NoCycle <==> Acyclic(Repoint(t, node, newParent))
    ensures r == Cycle <==> Under(t, newParent, node)
  {
    ForestIsSound(t);
    RepointAcyclic(t, node, newParent);
    UnderSelf(t, node);
  }

  /** With a deleted new parent the answer is unsafe exactly when it is an already deleted descendant. */
  lemma CheckMissesDeleted(t: Table, node: Id, newParent: Id, r: CycleResult)
    requires Forest(t) && Live(t, node) && newParent in t && !Live(t, newParent)
    requires Answers(t, node, newParent, r)
    ensures r == NoCycle
    ensures Acyclic(Repoint(t, node, newParent)) <==> !Under(t, newParent, node)
  {
    ForestIsSound(t);
    RepointAcyclic(t, node, newParent);
  }

  // Such a state is reachable: create a, create b under a, delete b.

  const A := Row(None, "sa", "page", "A", "", "public", 0, 0, None)
  const B := Row(Some("a"), "sb", "page", "B", "", "public", 0, 1, None)
  const BothLive: Table := map["a" := A, "b" := B]
  const ChildDeleted: Table := map["a" := A, "b" := B.(deletedAt := Some(7))]

  lemma ExampleIsRun()
    ensures Forest(BothLive) && Run([map[], map["a" := A], BothLive, ChildDeleted])
  {
    assert Inserted(map[], map["a" := A], "a", A);
    StepKeepsForest(map[], map["a" := A]);
    assert BothLive == map["a" := A]["b" := B];
    assert Inserted(map["a" := A], BothLive, "b", B);
    StepKeepsForest(map["a" := A], BothLive);
    ExampleDelete();
  }

  lemma ExampleDelete()
    requires Forest(BothLive)
    ensures Removed(BothLive, ChildDeleted, "b", 7)
  {
    assert KeptPath(BothLive, LiveIds(BothLive), ["b"]);
    if Reached(BothLive, LiveIds(BothLive), "b", "a") {
      ReachedDepth(BothLive, LiveIds(BothLive), "b", "a");
    }
  }

  lemma DeletedDescendantExample()
    ensures Run([map[], map["a" := A], BothLive, ChildDeleted])
    ensures Answers(ChildDeleted, "a", "b", NoCycle) && !Acyclic(Repoint(ChildDeleted, "a", "b"))
  {
    ExampleIsRun();
    ReachableIsForest([map[], map["a" := A], BothLive, ChildDeleted], 3);
    assert Path(ChildDeleted, ["b", "a"]) by { assert Path(ChildDeleted, ["b", "a"][1..]); }
    CheckMissesDeleted(ChildDeleted, "a", "b", NoCycle);
  }

  lemma ChildIsUnder()
    ensures Under(BothLive, "b", "a")
  {
    assert ["b", "a"][1..] == ["a"] && Path(BothLive, ["a"]);
    assert Path(BothLive, ["b", "a"]);
  }

  /** Moving a root under its only child, both live: a cycle, on which Delete never comes to an end. */
  lemma MoveUnderChildExample(k: nat) returns (q: seq<Id>)
    ensures Run([map[], map["a" := A], BothLive, ChildDeleted])
    ensures !Acyclic(Repoint(BothLive, "a", "b"))
    ensures LiveLoop(Repoint(BothLive, "a", "b"), "a", q) && |q| > k
  {
    ExampleIsRun();
    ForestIsSound(BothLive);
    ChildIsUnder();
    RepointAcyclic(BothLive, "a", "b");
    q := MoveNeverEnds(BothLive, Repoint(BothLive, "a", "b"), "a", "b", k);
  }
}
