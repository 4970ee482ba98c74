// Role names of a user: direct grades closed under an inheritance relation that may have
// cycles.

module Roles {
  import opened Sorting

  type Id = string

  /** Grade names are unique; an inheritance edge goes from child to parent. */
  datatype Rbac = Rbac(grades: map<Id, string>, inherits: set<(Id, Id)>, direct: set<(string, Id)>)

  // ----- reachability

  ghost predicate Climb(inherits: set<(Id, Id)>, p: seq<Id>) {
    |p| > 0 && (|p| > 1 ==> (p[0], p[1]) in inherits && Climb(inherits, p[1..]))
  }

  /** The user has grade `g` through zero or more inheritance edges from a direct grade. */
  ghost predicate HasGrade(r: Rbac, user: string, g: Id) {
    exists p :: Climb(r.inherits, p) && (user, p[0]) in r.direct && p[|p| - 1] == g
  }

  ghost predicate HasRole(r: Rbac, user: string, name: string) {
    exists g :: g in r.grades && r.grades[g] == name && HasGrade(r, user, g)
  }

  lemma {:induction false} ClimbOn(inherits: set<(Id, Id)>, p: seq<Id>, g: Id)
    requires Climb(inherits, p) && (p[|p| - 1], g) in inherits
    ensures Climb(inherits, p + [g])
    decreases |p|
  {
    if |p| > 1 {
      ClimbOn(inherits, p[1..], g);
      assert (p + [g])[1..] == p[1..] + [g];
    } else {
      assert (p + [g])[1..] == [g];
    }
  }

  lemma {:induction false} ClosedCoversClimb(inherits: set<(Id, Id)>, s: set<Id>, p: seq<Id>)
    requires Climb(inherits, p) && p[0] in s
    requires forall e :: e in inherits && e.0 in s ==> e.1 in s
    ensures p[|p| - 1] in s
    decreases |p|
  {
    if |p| > 1 {
      assert (p[0], p[1]).1 in s;
      ClosedCoversClimb(inherits, s, p[1..]);
    }
  }

  // ----- the recursive query

  function DirectOf(r: Rbac, user: string): set<Id> { set d | d in r.direct && d.0 == user :: d.1 }

  function Parents(r: Rbac, g: Id): set<Id> { set e | e in r.inherits && e.0 == g :: e.1 }

  /** `WITH RECURSIVE ... UNION`: a row met before is not queued again, so cycles end. */
  method Closure(r: Rbac, user: string) returns (closure: set<Id>)
    ensures forall g :: g in closure <==> HasGrade(r, user, g)
  {
    closure := DirectOf(r, user);
    var queue := closure;
    forall g | g in closure ensures HasGrade(r, user, g) { assert Climb(r.inherits, [g]); }
    ghost var universe := DirectOf(r, user) + set e | e in r.inherits :: e.1;
    while queue != {}
      invariant DirectOf(r, user) <= closure <= universe && queue <= closure
      invariant forall g :: g in closure ==> HasGrade(r, user, g)
      invariant forall e :: e in r.inherits && e.0 in closure - queue ==> e.1 in closure
      decreases universe - closure, queue
    {
      var g :| g in queue;
      var found := Parents(r, g) - closure;
      forall h | h in found ensures HasGrade(r, user, h) {
        var p :| Climb(r.inherits, p) && (user, p[0]) in r.direct && p[|p| - 1] == g;
        ClimbOn(r.inherits, p, h);
        assert (p + [h])[0] == p[0] && (p + [h])[|p|] == h;
      }
      forall e | e in r.inherits && e.0 == g ensures e.1 in Parents(r, g) {}
      if found != {} {
        var h :| h in found;
        assert h in universe;
      }
      queue := queue - {g} + found;
      closure := closure + found;
    }
    forall g | HasGrade(r, user, g) ensures g in closure {
      var p :| Climb(r.inherits, p) && (user, p[0]) in r.direct && p[|p| - 1] == g;
      assert p[0] in DirectOf(r, user) by { assert (user, p[0]).1 == p[0]; }
      ClosedCoversClimb(r.inherits, closure, p);
    }
  }

  method LoadRoles(r: Rbac, user: string) returns (roles: seq<string>)
    ensures Distinct(roles)
    ensures forall name :: name in roles <==> HasRole(r, user, name)
  {
    var closure := Closure(r, user);
    var names := set g | g in closure && g in r.grades :: r.grades[g];
    forall name ensures name in names <==> HasRole(r, user, name) {}
    roles := [];
    var rest := names;
    while rest != {}
      invariant rest <= names && Distinct(roles)
      invariant forall name :: name in roles <==> name in names - rest
    {
      var name :| name in rest;
      assert name !in roles;
      roles, rest := roles + [name], rest - {name};
    }
  }

  // ----- monotony

  lemma {:induction false} ClimbGrows(inherits: set<(Id, Id)>, more: set<(Id, Id)>, p: seq<Id>)
    requires inherits <= more && Climb(inherits, p)
    ensures Climb(more, p)
    decreases |p|
  {
    if |p| > 1 { ClimbGrows(inherits, more, p[1..]); }
  }

  /** More grades or edges never take a role away. */
  lemma RolesGrow(r: Rbac, more: Rbac, user: string, name: string)
    requires r.inherits <= more.inherits && r.direct <= more.direct
    requires forall g :: g in r.grades ==> g in more.grades && more.grades[g] == r.grades[g]
    requires HasRole(r, user, name)
    ensures HasRole(more, user, name)
  {
    var g :| g in r.grades && r.grades[g] == name && HasGrade(r, user, g);
    var p :| Climb(r.inherits, p) && (user, p[0]) in r.direct && p[|p| - 1] == g;
    ClimbGrows(r.inherits, more.inherits, p);
  }

  // ----- adding and removing a role by name

  ghost predicate UniqueNames(r: Rbac) {
    forall g, h :: g in r.grades && h in r.grades && r.grades[g] == r.grades[h] ==> g == h
  }

  function Named(r: Rbac, name: string): set<Id> { set g | g in r.grades && r.grades[g] == name }

  function Added(r: Rbac, user: string, name: string): Rbac {
    r.(direct := r.direct + set g | g in Named(r, name) :: (user, g))
  }

  function Removed(r: Rbac, user: string, name: string): Rbac {
    r.(direct := r.direct - set g | g in Named(r, name) :: (user, g))
  }

  /** Adding a role gives exactly the roles held before and those its grade inherits; an unknown name adds nothing. */
  lemma AddExact(r: Rbac, user: string, name: string, g: Id)
    ensures HasGrade(Added(r, user, name), user, g) <==>
      HasGrade(r, user, g) || exists p :: Climb(r.inherits, p) && p[0] in Named(r, name) && p[|p| - 1] == g
  {
    var r' := Added(r, user, name);
    if p :| Climb(r.inherits, p) && p[0] in Named(r, name) && p[|p| - 1] == g {
      assert (user, p[0]) in r'.direct;
    }
    if HasGrade(r', user, g) {
      var p :| Climb(r'.inherits, p) && (user, p[0]) in r'.direct && p[|p| - 1] == g;
      if (user, p[0]) !in r.direct { assert p[0] in Named(r, name); }
    }
  }

  /** A removed role is still held exactly when another direct grade of the user inherits it. */
  lemma RemoveExact(r: Rbac, user: string, name: string, g: Id)
    requires UniqueNames(r) && g in r.grades && r.grades[g] == name
    ensures HasRole(Removed(r, user, name), user, name) <==>
      exists p :: Climb(r.inherits, p) && (user, p[0]) in r.direct && p[0] != g && p[|p| - 1] == g
  {
    var r' := Removed(r, user, name);
    assert Named(r, name) == {g};
    if p :| Climb(r.inherits, p) && (user, p[0]) in r.direct && p[0] != g && p[|p| - 1] == g {
      assert HasGrade(r', user, g);
    }
    if HasRole(r', user, name) {
      var h :| h in r'.grades && r'.grades[h] == name && HasGrade(r', user, h);
      var p :| Climb(r'.inherits, p) && (user, p[0]) in r'.direct && p[|p| - 1] == h;
      assert h == g && (user, g) !in r'.direct;
    }
  }

  class Store {
    var rbac: Rbac

    constructor (rbac: Rbac)
      ensures this.rbac == rbac
    {
      this.rbac := rbac;
    }

    /** `INSERT ... SELECT ... ON CONFLICT DO NOTHING`. */
    method AddRole(user: string, name: string)
      modifies this
      ensures rbac == Added(old(rbac), user, name)
      ensures rbac == old(rbac).(
        direct := old(rbac).direct + set g | g in old(rbac).grades && old(rbac).grades[g] == name :: (user, g))
    {
      var rest := Named(rbac, name);
      while rest != {}
        invariant rest <= Named(old(rbac), name)
        invariant rbac == old(rbac).(
          direct := old(rbac).direct + set g | g in Named(old(rbac), name) - rest :: (user, g))
      {
        var g :| g in rest;
        if (user, g) !in rbac.direct {
          rbac := rbac.(direct := rbac.direct + {(user, g)});
        }
        rest := rest - {g};
      }
    }

    method RemoveRole(user: string, name: string)
      modifies this
      ensures rbac == Removed(old(rbac), user, name)
      ensures rbac == old(rbac).(
        direct := old(rbac).direct - set g | g in old(rbac).grades && old(rbac).grades[g] == name :: (user, g))
    {
      var doomed := set d | d in rbac.direct && d.0 == user && d.1 in Named(rbac, name);
      assert rbac.direct - doomed == Removed(rbac, user, name).direct;
      rbac := rbac.(direct := rbac.direct - doomed);
    }
  }
}
