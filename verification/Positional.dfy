// Positional SQL: a list of conditions with `?` holes, which take arguments from left to right.

module Positional {

  /** How many holes a condition of this kind has, and when it holds of a row with its holes filled. */
  datatype Dialect<!C, !A, !R> = Dialect(holes: C -> nat, holds: (C, seq<A>, R) -> bool)

  function AllHoles<C, A, R>(q: Dialect<C, A, R>, conds: seq<C>): nat {
    if conds == [] then 0 else q.holes(conds[0]) + AllHoles(q, conds[1..])
  }

  /** `WHERE c1 AND c2 ...`, each `?` taking the next argument. */
  predicate Where<C, A, R>(q: Dialect<C, A, R>, conds: seq<C>, args: seq<A>, r: R)
    requires |args| >= AllHoles(q, conds)
  {
    conds == [] ||
    var h := q.holes(conds[0]);
    q.holds(conds[0], args[..h], r) && Where(q, conds[1..], args[h..], r)
  }

  lemma {:induction false} HolesPush<C, A, R>(q: Dialect<C, A, R>, conds: seq<C>, c: C)
    ensures AllHoles(q, conds + [c]) == AllHoles(q, conds) + q.holes(c)
  {
    if conds == [] {
      assert ([] + [c])[1..] == [];
    } else {
      HolesPush(q, conds[1..], c);
      assert (conds + [c])[1..] == conds[1..] + [c];
    }
  }

  lemma {:induction false} WherePush<C, A, R>(
      q: Dialect<C, A, R>, conds: seq<C>, args: seq<A>, c: C, more: seq<A>, r: R)
    requires |args| == AllHoles(q, conds) && |more| == q.holes(c)
    ensures AllHoles(q, conds + [c]) == |args + more|
    ensures Where(q, conds + [c], args + more, r) <==> Where(q, conds, args, r) && q.holds(c, more, r)
    decreases |conds|
  {
    HolesPush(q, conds, c);
    if conds == [] {
      assert ([] + [c])[1..] == [] && (args + more)[..q.holes(c)] == more;
    } else {
      var h := q.holes(conds[0]);
      WherePush(q, conds[1..], args[h..], c, more, r);
      assert (conds + [c])[1..] == conds[1..] + [c];
      assert (args + more)[..h] == args[..h] && (args + more)[h..] == args[h..] + more;
    }
  }

  lemma {:induction false} WhereIgnoresTail<C, A, R>(
      q: Dialect<C, A, R>, conds: seq<C>, args: seq<A>, tail: seq<A>, r: R)
    requires |args| >= AllHoles(q, conds)
    ensures Where(q, conds, args + tail, r) <==> Where(q, conds, args, r)
    decreases |conds|
  {
    if conds != [] {
      var h := q.holes(conds[0]);
      WhereIgnoresTail(q, conds[1..], args[h..], tail, r);
      assert (args + tail)[..h] == args[..h] && (args + tail)[h..] == args[h..] + tail;
    }
  }

  /** Appends one condition and its arguments when it is asked for. */
  method PushIf<C, A, R(!new)>(
      q: Dialect<C, A, R>, conds: seq<C>, args: seq<A>, asked: bool, c: C, more: seq<A>)
    returns (conds': seq<C>, args': seq<A>)
    requires |args| == AllHoles(q, conds) && |more| == q.holes(c)
    ensures |args'| == AllHoles(q, conds')
    ensures forall r :: Where(q, conds', args', r) <==> Where(q, conds, args, r) && (asked ==> q.holds(c, more, r))
  {
    if !asked {
      return conds, args;
    }
    HolesPush(q, conds, c);
    conds', args' := conds + [c], args + more;
    forall r ensures Where(q, conds', args', r) <==> Where(q, conds, args, r) && q.holds(c, more, r) {
      WherePush(q, conds, args, c, more, r);
    }
  }
}
