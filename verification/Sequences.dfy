// Filtering and joining sequences.

module Sequences {

  lemma Associative<T>(a: seq<T>, b: seq<T>, c: seq<T>)
    ensures (a + b) + c == a + (b + c)
  {
  }

  /** The elements that satisfy p, in their order. */
  function Keep<T>(p: T -> bool, rows: seq<T>): seq<T> {
    if rows == [] then [] else (if p(rows[0]) then [rows[0]] else []) + Keep(p, rows[1..])
  }

  lemma {:induction false} KeepSame<T(!new)>(p: T -> bool, q: T -> bool, rows: seq<T>)
    requires forall x :: p(x) <==> q(x)
    ensures Keep(p, rows) == Keep(q, rows)
  {
    if rows != [] { KeepSame(p, q, rows[1..]); }
  }

  lemma {:induction false} KeepHolds<T(!new)>(p: T -> bool, rows: seq<T>)
    ensures forall x :: x in Keep(p, rows) <==> x in rows && p(x)
    ensures |Keep(p, rows)| <= |rows|
  {
    if rows != [] { KeepHolds(p, rows[1..]); }
  }

  /** Parts joined in order. */
  function Flat<T>(parts: seq<seq<T>>): seq<T> {
    if parts == [] then [] else Flat(parts[..|parts| - 1]) + parts[|parts| - 1]
  }

  lemma FlatNext<T>(parts: seq<seq<T>>, n: nat)
    requires 0 < n <= |parts|
    ensures Flat(parts[..n]) == Flat(parts[..n - 1]) + parts[n - 1]
  {
    assert parts[..n][..n - 1] == parts[..n - 1];
  }
}
