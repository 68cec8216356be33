/** Sums over the rows that a query selects. */
module Sums {
  ghost function Sum<T>(ids: set<T>, f: T -> int): int {
    if ids == {} then 0
    else
      var i :| i in ids;
      f(i) + Sum(ids - {i}, f)
  }

  lemma {:induction false} SumTake<T>(ids: set<T>, f: T -> int, i: T)
    requires i in ids
    ensures Sum(ids, f) == f(i) + Sum(ids - {i}, f)
    decreases |ids|
  {
    var j :| j in ids && Sum(ids, f) == f(j) + Sum(ids - {j}, f);
    if j != i {
      SumTake(ids - {j}, f, i);
      SumTake(ids - {i}, f, j);
      assert ids - {j} - {i} == ids - {i} - {j};
    }
  }

  lemma {:induction false} SumSame(ids: set<nat>, f: nat -> int, g: nat -> int)
    requires forall i :: i in ids ==> f(i) == g(i)
    ensures Sum(ids, f) == Sum(ids, g)
  {
    if ids != {} {
      var i :| i in ids;
      SumTake(ids, f, i);
      SumTake(ids, g, i);
      SumSame(ids - {i}, f, g);
    }
  }

  lemma {:induction false} SumSplit<T>(x: set<T>, y: set<T>, f: T -> int)
    requires x !! y
    ensures Sum(x + y, f) == Sum(x, f) + Sum(y, f)
  {
    if x == {} {
      assert x + y == y;
    } else {
      var i :| i in x;
      SumTake(x, f, i);
      SumTake(x + y, f, i);
      assert x + y - {i} == (x - {i}) + y;
      SumSplit(x - {i}, y, f);
    }
  }

  lemma {:induction false} SumOpposite(ids: set<nat>, f: nat -> int, g: nat -> int)
    requires forall i :: i in ids ==> f(i) == -g(i)
    ensures Sum(ids, f) == -Sum(ids, g)
  {
    if ids != {} {
      var i :| i in ids;
      SumTake(ids, f, i);
      SumTake(ids, g, i);
      SumOpposite(ids - {i}, f, g);
    }
  }

  lemma {:induction false} SumNotNegative(ids: set<nat>, f: nat -> int)
    requires forall i :: i in ids ==> f(i) >= 0
    ensures Sum(ids, f) >= 0
  {
    if ids != {} {
      var i :| i in ids;
      SumTake(ids, f, i);
      SumNotNegative(ids - {i}, f);
    }
  }

  lemma {:induction false} SumZero<T>(ids: set<T>, f: T -> int)
    requires forall i :: i in ids ==> f(i) == 0
    ensures Sum(ids, f) == 0
  {
    if ids != {} {
      var i :| i in ids;
      SumTake(ids, f, i);
      SumZero(ids - {i}, f);
    }
  }

  lemma {:induction false} SumTwo(ids: set<nat>, f: nat -> int, g: nat -> int, h: nat -> int)
    requires forall i :: i in ids ==> h(i) == f(i) + g(i)
    ensures Sum(ids, h) == Sum(ids, f) + Sum(ids, g)
  {
    if ids != {} {
      var i :| i in ids;
      SumTake(ids, f, i);
      SumTake(ids, g, i);
      SumTake(ids, h, i);
      SumTwo(ids - {i}, f, g, h);
    }
  }

  /** Each of the rows has a counterpart of the same value. */
  ghost predicate Into<S, T>(ids: set<S>, names: map<S, T>, f: S -> int, image: set<T>, g: T -> int) {
    forall i :: i in ids ==> i in names && names[i] in image && g(names[i]) == f(i)
  }

  ghost predicate Onto<S, T>(ids: set<S>, names: map<S, T>, image: set<T>) {
    forall k :: k in image ==> exists i :: i in ids && i in names && names[i] == k
  }

  ghost predicate OneToOneOn<S, T>(ids: set<S>, names: map<S, T>) {
    forall i, j :: i in ids && j in ids && i in names && j in names && names[i] == names[j] ==> i == j
  }

  /** The rows under a one-to-one renaming have the same sum. */
  lemma {:induction false} SumRenamed<S, T>(ids: set<S>, names: map<S, T>, f: S -> int, image: set<T>, g: T -> int)
    requires Into(ids, names, f, image, g) && Onto(ids, names, image) && OneToOneOn(ids, names)
    ensures Sum(image, g) == Sum(ids, f)
    decreases |ids|
  {
    if ids == {} {
      assert image == {};
    } else {
      var i :| i in ids;
      SumTake(ids, f, i);
      SumTake(image, g, names[i]);
      SumRenamed(ids - {i}, names, f, image - {names[i]}, g);
    }
  }

  ghost function Fibre(ids: set<nat>, group: nat -> nat, k: nat): set<nat> {
    set i | i in ids && group(i) == k
  }

  ghost function Grouped(ids: set<nat>, f: nat -> int, group: nat -> nat): nat -> int {
    (k: nat) => Sum(Fibre(ids, group, k), f)
  }

  /** Grouping the rows does not change their sum. */
  lemma {:induction false} SumGrouped(ids: set<nat>, f: nat -> int, group: nat -> nat, keys: set<nat>)
    requires forall i :: i in ids ==> group(i) in keys
    ensures Sum(keys, Grouped(ids, f, group)) == Sum(ids, f)
    decreases |keys|
  {
    if keys == {} {
      assert ids == {};
    } else {
      var k :| k in keys;
      hide Sum;
      SumTake(keys, Grouped(ids, f, group), k);
      OneGroup(ids, f, group, k);
      SumGrouped(ids - Fibre(ids, group, k), f, group, keys - {k});
      OtherGroups(ids, f, group, keys - {k}, k);
    }
  }

  lemma OneGroup(ids: set<nat>, f: nat -> int, group: nat -> nat, k: nat)
    ensures Sum(ids, f) == Grouped(ids, f, group)(k) + Sum(ids - Fibre(ids, group, k), f)
  {
    var these, others := Fibre(ids, group, k), ids - Fibre(ids, group, k);
    assert these + others == ids;
    SumSplit(these, others, f);
  }

  lemma OtherGroups(ids: set<nat>, f: nat -> int, group: nat -> nat, keys: set<nat>, k: nat)
    requires k !in keys
    ensures Sum(keys, Grouped(ids - Fibre(ids, group, k), f, group)) == Sum(keys, Grouped(ids, f, group))
  {
    var others := ids - Fibre(ids, group, k);
    forall j | j in keys
      ensures Grouped(others, f, group)(j) == Grouped(ids, f, group)(j)
    {
      assert Fibre(others, group, j) == Fibre(ids, group, j);
    }
    SumSame(keys, Grouped(others, f, group), Grouped(ids, f, group));
  }
}
