/** Copying rows of one table under new keys. */
module Renaming {
  ghost predicate OneToOne<K>(f: map<K, K>) {
    forall i, j :: i in f && j in f && f[i] == f[j] ==> i == j
  }

  /** No row of `base` is changed or removed. */
  ghost predicate Kept<K, R>(base: map<K, R>, cur: map<K, R>) {
    forall k :: k in base ==> k in cur && cur[k] == base[k]
  }

  /** `cur` is `base` plus one row for each of `ids`, the row of i at f[i]. */
  ghost predicate Placed<R>(base: map<nat, R>, cur: map<nat, R>, f: map<nat, nat>, ids: set<nat>) {
    && f.Keys == ids && OneToOne(f) && Kept(base, cur)
    && (forall i :: i in f ==> f[i] !in base && f[i] in cur)
    && (forall k :: k in cur ==> k in base || exists i :: i in f && f[i] == k)
  }

  lemma NonePlaced<R>(base: map<nat, R>)
    ensures Placed(base, base, map[], {})
  {}

  lemma PlaceOne<R>(base: map<nat, R>, cur: map<nat, R>, f: map<nat, nat>, ids: set<nat>, i: nat, id: nat, row: R)
    requires Placed(base, cur, f, ids) && i !in ids && id !in cur
    ensures Placed(base, cur[id := row], f[i := id], ids + {i})
  {
    var f', cur' := f[i := id], cur[id := row];
    forall k | k in cur' && k !in base
      ensures exists j :: j in f' && f'[j] == k
    {
      if k == id {
        assert f'[i] == k;
      } else {
        var j :| j in f && f[j] == k;
        assert f'[j] == k;
      }
    }
  }

  lemma ChangeOne<R>(base: map<nat, R>, cur: map<nat, R>, f: map<nat, nat>, ids: set<nat>, i: nat, row: R)
    requires Placed(base, cur, f, ids) && i in ids
    ensures Placed(base, cur[f[i] := row], f, ids)
  {}

  /** A row that is not an old one was placed. */
  lemma PlacedFrom<R>(base: map<nat, R>, cur: map<nat, R>, f: map<nat, nat>, ids: set<nat>, k: nat) returns (i: nat)
    requires Placed(base, cur, f, ids) && k in cur && k !in base
    ensures i in ids && f[i] == k
  {
    i :| i in f && f[i] == k;
  }
}
