/** The places of the accounts in the account list. */
module Positions {
  import opened Wrappers
  import opened RowIds

  /** Accounts to positions. */
  ghost predicate Distinct(p: map<nat, nat>) {
    forall i, j :: i in p && j in p && p[i] == p[j] ==> i == j
  }

  ghost predicate FromOne(p: map<nat, nat>) {
    forall i :: i in p ==> p[i] >= 1
  }

  // ---------------------------------------------------------------------
  // Statements

  /** A new account comes last. */
  function Created(p: map<nat, nat>): map<nat, nat> {
    p[NextId(p.Keys) := 1 + Largest(p.Values)]
  }

  /** A restored account comes first, the others one further down. */
  function Shifted(p: map<nat, nat>, b: nat): map<nat, nat> {
    (map i | i in p :: p[i] + 1)[b := 1]
  }

  function Deleted(p: map<nat, nat>, a: nat): map<nat, nat> { p - {a} }

  function Place(x: nat, from: nat, to: nat): nat {
    if from < to && from < x <= to then x - 1
    else if to < from && to <= x < from then x + 1
    else x
  }

  function Moved(p: map<nat, nat>, a: nat, from: nat, to: nat): map<nat, nat> {
    map i | i in p :: if i == a then to else Place(p[i], from, to)
  }

  function At(p: map<nat, nat>, x: nat): set<nat> { set i | i in p && p[i] == x }

  /** None when no account stands at `from`. */
  function Reordered(p: map<nat, nat>, from: nat, to: nat): Option<map<nat, nat>> {
    if At(p, from) == {} then None else Some(Moved(p, Largest(At(p, from)), from, to))
  }

  // ---------------------------------------------------------------------

  lemma TheOneAt(p: map<nat, nat>, a: nat)
    requires Distinct(p) && a in p
    ensures At(p, p[a]) == {a}
  {}

  lemma ReorderKeepsDistinct(p: map<nat, nat>, from: nat, to: nat)
    requires Distinct(p) && Reordered(p, from, to).Some?
    ensures Distinct(Reordered(p, from, to).value)
  {
    var a := Largest(At(p, from));
    assert a in At(p, from);
    forall i | i in p && i != a
      ensures p[i] != from
    {}
  }

  /** Positions stay at least one exactly when the target is. */
  lemma ReorderFromOneIff(p: map<nat, nat>, from: nat, to: nat)
    requires FromOne(p) && Distinct(p) && Reordered(p, from, to).Some?
    ensures FromOne(Reordered(p, from, to).value) <==> to >= 1
  {
    var a, q := Largest(At(p, from)), Reordered(p, from, to).value;
    assert a in At(p, from);
    assert q[a] == to;
  }

  /** The moved account takes the target; the others keep their order. */
  lemma ReorderKeepsOrder(p: map<nat, nat>, from: nat, to: nat, i: nat, j: nat)
    requires Distinct(p) && Reordered(p, from, to).Some? && i in p && j in p
    ensures var q := Reordered(p, from, to).value;
            && i in q && j in q && (p[i] == from ==> q[i] == to)
            && (p[i] != from && p[j] != from ==> (q[i] < q[j] <==> p[i] < p[j]))
  {
    var a := Largest(At(p, from));
    assert a in At(p, from);
  }

  /** Moving an account back restores every position, gaps or not. */
  lemma ReorderUndone(p: map<nat, nat>, from: nat, to: nat)
    requires Distinct(p) && Reordered(p, from, to).Some?
    ensures Reordered(Reordered(p, from, to).value, to, from) == Some(p)
  {
    var a, q := Largest(At(p, from)), Reordered(p, from, to).value;
    assert a in At(p, from);
    ReorderKeepsDistinct(p, from, to);
    assert q[a] == to;
    TheOneAt(q, a);
    var back := Moved(q, a, to, from);
    forall i | i in p
      ensures back[i] == p[i]
    {
      if i != a { PlaceBack(p[i], from, to); }
    }
    assert back == p;
  }

  lemma PlaceBack(x: nat, from: nat, to: nat)
    requires x != from
    ensures Place(Place(x, from, to), to, from) == x
  {}

  /** A restore keeps the positions distinct exactly when no account stands at zero. */
  lemma RestoreKeepsDistinctIff(p: map<nat, nat>, b: nat)
    requires Distinct(p) && b !in p
    ensures Distinct(Shifted(p, b)) <==> forall i :: i in p ==> p[i] != 0
    ensures FromOne(Shifted(p, b))
  {
    var q := Shifted(p, b);
    forall i | i in p
      ensures q[i] == p[i] + 1
    {}
    assert q[b] == 1;
  }

  /** Moving an account to zero is what can break a later restore. */
  lemma ZeroTargetBreaksRestore()
    ensures var p := map[1 := 1, 2 := 2];
            var q := Reordered(p, 2, 0);
            && Distinct(p) && FromOne(p) && q.Some? && Distinct(q.value)
            && !Distinct(Shifted(q.value, NextId(q.value.Keys)))
  {
    var p := map[1 := 1, 2 := 2];
    TheOneAt(p, 2);
    assert At(p, 2) == {2};
    var q := Reordered(p, 2, 0).value;
    assert q[2] == 0 && q[1] == 2;
    assert q.Keys == {1, 2};
    RestoreKeepsDistinctIff(q, NextId(q.Keys));
  }

  // ---------------------------------------------------------------------
  // Runs

  datatype Step = Create | Restore | Delete(account: nat) | Reorder(from: nat, to: nat)

  function Next(p: map<nat, nat>, s: Step): map<nat, nat> {
    match s
    case Create => Created(p)
    case Restore => Shifted(p, NextId(p.Keys))
    case Delete(a) => Deleted(p, a)
    case Reorder(from, to) => if Reordered(p, from, to).Some? then Reordered(p, from, to).value else p
  }

  /** Each state comes from the one before by its step. */
  ghost predicate IsRun(ps: seq<map<nat, nat>>, steps: seq<Step>) {
    |ps| == |steps| + 1 && forall i :: 0 <= i < |steps| ==> ps[i + 1] == Next(ps[i], steps[i])
  }

  ghost predicate TargetsFromOne(steps: seq<Step>) {
    forall i :: 0 <= i < |steps| && steps[i].Reorder? ==> steps[i].to >= 1
  }

  lemma StepKeeps(p: map<nat, nat>, s: Step)
    requires Distinct(p) && FromOne(p) && (s.Reorder? ==> s.to >= 1)
    ensures Distinct(Next(p, s)) && FromOne(Next(p, s))
  {
    match s
    case Create =>
      forall i | i in p
        ensures p[i] <= Largest(p.Values)
      {
        assert p[i] in p.Values;
      }
    case Restore => RestoreKeepsDistinctIff(p, NextId(p.Keys));
    case Delete(a) =>
    case Reorder(from, to) =>
      if Reordered(p, from, to).Some? {
        ReorderKeepsDistinct(p, from, to);
        ReorderFromOneIff(p, from, to);
      }
  }

  /** Over every run, positions are distinct and at least one. */
  lemma {:induction false} PositionsAlways(ps: seq<map<nat, nat>>, steps: seq<Step>, n: nat)
    requires IsRun(ps, steps) && Distinct(ps[0]) && FromOne(ps[0]) && TargetsFromOne(steps) && n <= |steps|
    ensures Distinct(ps[n]) && FromOne(ps[n])
  {
    if n > 0 {
      PositionsAlways(ps, steps, n - 1);
      assert ps[n - 1 + 1] == Next(ps[n - 1], steps[n - 1]);
      StepKeeps(ps[n - 1], steps[n - 1]);
    }
  }

  /** A restored account comes first, and every other one moves one down. */
  lemma RestoredFirst(p: map<nat, nat>) returns (id: nat)
    ensures var q := Next(p, Restore);
            && id !in p && q.Keys == p.Keys + {id} && q[id] == 1 && forall i :: i in p ==> i < id && q[i] == p[i] + 1
  {
    id := NextId(p.Keys);
  }

  /** A deleted account leaves its place empty. */
  lemma DeletedLeaves(p: map<nat, nat>, a: nat)
    ensures var q := Next(p, Delete(a));
            && (forall i :: i in q <==> i in p && i != a) && (forall i :: i in q ==> q[i] == p[i])
  {}

  /** Whoever stands between the two places moves one towards the place that
      the account leaves. */
  ghost predicate IsMoved(p: map<nat, nat>, q: map<nat, nat>, id: nat, from: nat, to: nat) {
    && q.Keys == p.Keys && (id in q ==> q[id] == to)
    && forall i :: i in p && i != id ==>
         && (from < p[i] <= to ==> q[i] == p[i] - 1)
         && (to <= p[i] < from ==> q[i] == p[i] + 1)
         && (!(from < p[i] <= to) && !(to <= p[i] < from) ==> q[i] == p[i])
  }

  // ---------------------------------------------------------------------
  // Statement by statement

  class AccountTable {
    var positions: map<nat, nat>

    method Create() returns (id: nat)
      modifies this
      ensures positions == Next(old(positions), Step.Create)
      ensures id !in old(positions) && positions.Keys == old(positions).Keys + {id}
      ensures forall i :: i in old(positions) ==> i < id && positions[i] == old(positions)[i] < positions[id]
      ensures positions[id] == 1 || exists i :: i in old(positions) && positions[id] == old(positions)[i] + 1
    {
      var last := Largest(positions.Values);
      forall i | i in positions
        ensures positions[i] <= last
      {
        assert positions[i] in positions.Values;
      }
      id := NextId(positions.Keys);
      positions := positions[id := last + 1];
    }

    method Reorder(from: nat, to: nat) returns (ok: bool)
      modifies this
      ensures ok <==> exists i :: i in old(positions) && old(positions)[i] == from
      ensures ok ==> exists id :: id in old(positions) && old(positions)[id] == from
                                  && IsMoved(old(positions), positions, id, from, to)
      ensures !ok ==> positions == old(positions)
      ensures ok <==> Reordered(old(positions), from, to).Some?
      ensures positions == Next(old(positions), Step.Reorder(from, to))
      ensures positions == if ok then Reordered(old(positions), from, to).value else old(positions)
    {
      var at := At(positions, from);
      if at == {} {
        assert forall i :: i in positions && positions[i] == from ==> i in at;
        return false;
      }
      var id := Largest(at);
      assert id in at;
      if from < to {
        positions := map i | i in positions :: if from < positions[i] <= to then positions[i] - 1 else positions[i];
      }
      if from > to {
        positions := map i | i in positions :: if to <= positions[i] < from then positions[i] + 1 else positions[i];
      }
      positions := positions[id := to];
      assert positions == Moved(old(positions), id, from, to);
      assert IsMoved(old(positions), positions, id, from, to);
      ok := true;
    }
  }
}
