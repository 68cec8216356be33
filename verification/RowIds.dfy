/** Row ids as SQLite gives them to an INTEGER PRIMARY KEY: one more than the
    largest in the table, so the id of a deleted last row is given again. */
module RowIds {
  function NextId(keys: set<nat>): (id: nat)
    ensures keys == {} ==> id == 1
    ensures id >= 1 && forall k :: k in keys ==> k < id
  {
    1 + Largest(keys)
  }

  function Largest(keys: set<nat>): (m: nat)
    ensures forall k :: k in keys ==> k <= m
    ensures if keys == {} then m == 0 else m in keys
  {
    if keys == {} then 0
    else
      LargestExists(keys);
      var m :| m in keys && forall k :: k in keys ==> k <= m;
      m
  }

  lemma {:induction false} LargestExists(keys: set<nat>)
    requires keys != {}
    ensures exists m :: m in keys && forall k :: k in keys ==> k <= m
  {
    var x :| x in keys;
    if keys != {x} {
      LargestExists(keys - {x});
      var m :| m in keys - {x} && forall k :: k in keys - {x} ==> k <= m;
      var y := if x < m then m else x;
      assert y in keys && forall k :: k in keys ==> k == x || k in keys - {x};
    }
  }
}
