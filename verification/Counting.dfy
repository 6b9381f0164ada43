/** Counting the entries of a finite map that satisfy a predicate. */
module Counting {

  datatype Option<+T> = None | Some(value: T)

  /** The keys of `m` whose value satisfies `f`. */
  ghost function Matching<X>(m: map<nat, X>, f: X -> bool): set<nat>
  {
    set t | t in m && f(m[t])
  }

  /** How many keys of `m` hold a value satisfying `f`. */
  ghost function CountIf<X>(m: map<nat, X>, f: X -> bool): nat
  {
    |Matching(m, f)|
  }

  /** Changing one entry moves the count by what that entry loses and gains. */
  lemma CountUpdate<X>(m: map<nat, X>, t: nat, x: X, f: X -> bool)
    requires t in m
    ensures CountIf(m[t := x], f) + (if f(m[t]) then 1 else 0) == CountIf(m, f) + (if f(x) then 1 else 0)
  {
    var rest := Matching(m, f) - {t};
    assert Matching(m, f) == if f(m[t]) then rest + {t} else rest;
    assert Matching(m[t := x], f) == if f(x) then rest + {t} else rest;
  }

  lemma CountZero<X>(m: map<nat, X>, f: X -> bool)
    ensures CountIf(m, f) == 0 <==> forall t :: t in m ==> !f(m[t])
  {
    if forall t :: t in m ==> !f(m[t]) {
      assert Matching(m, f) == {};
    }
    if t :| t in m && f(m[t]) {
      assert t in Matching(m, f);
    }
  }

  lemma {:induction false} SubsetSize<X>(a: set<X>, b: set<X>)
    requires a <= b
    ensures |a| <= |b|
    decreases a
  {
    if a == {} {
    } else {
      var x :| x in a;
      SubsetSize(a - {x}, b - {x});
    }
  }

  /** No element occurs twice. */
  ghost predicate NoDup(l: seq<nat>) {
    l == [] || (l[0] !in l[1..] && NoDup(l[1..]))
  }
}
