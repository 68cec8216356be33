/** The tables that accounts share, categories and assets, and what a restore
    does to them. */
module SharedTables {
  import opened Wrappers
  import opened RowIds
  import opened Tables
  import opened BackupFormat

  // ---------------------------------------------------------------------
  // Categories, one per name

  ghost predicate UniqueNames(m: map<nat, Category>) {
    forall i, j :: i in m && j in m && m[i].name == m[j].name ==> i == j
  }

  function WithName(m: map<nat, Category>, name: string): set<nat> {
    set i | i in m && m[i].name == name
  }

  /** Inserts the category, or gives the id of the one with its name, which
      keeps its own income flag. */
  function UpsertCategory(m: map<nat, Category>, c: Category): (map<nat, Category>, nat) {
    if WithName(m, c.name) != {} then (m, Largest(WithName(m, c.name)))
    else (m[NextId(m.Keys) := c], NextId(m.Keys))
  }

  /** The table and the renaming after a list of categories. */
  function UpsertAll(m: map<nat, Category>, cs: seq<IOCategory>): (map<nat, Category>, map<nat, nat>) {
    if cs == [] then (m, map[])
    else
      var (before, names) := UpsertAll(m, cs[..|cs| - 1]);
      var last := cs[|cs| - 1];
      var (after, id) := UpsertCategory(before, last.category);
      (after, names[last.id := id])
  }

  /** Every old category stays as it is, names stay unique, and each category
      of the backup is renamed to the one of its name. */
  lemma {:induction false} CategoriesByName(m: map<nat, Category>, cs: seq<IOCategory>)
    requires UniqueNames(m) && forall i, j :: 0 <= i < j < |cs| ==> cs[i].id != cs[j].id
    ensures var (m', names) := UpsertAll(m, cs);
            && UniqueNames(m') && (forall i :: i in m ==> i in m' && m'[i] == m[i])
            && forall i :: 0 <= i < |cs| ==> cs[i].id in names && Renamed(m', names, cs[i])
  {
    if cs != [] {
      var (before, names) := UpsertAll(m, cs[..|cs| - 1]);
      CategoriesByName(m, cs[..|cs| - 1]);
      UpsertOne(before, cs[|cs| - 1].category);
      forall i | 0 <= i < |cs| - 1
        ensures cs[i].id in names && Renamed(before, names, cs[i])
      {
        assert cs[..|cs| - 1][i] == cs[i];
      }
    }
  }

  /** Every row is an old one, or has all the columns of one of the backup's. */
  lemma {:induction false} CategoriesFrom(m: map<nat, Category>, cs: seq<IOCategory>, k: nat)
    requires k in UpsertAll(m, cs).0
    ensures k in m || exists j :: 0 <= j < |cs| && UpsertAll(m, cs).0[k] == cs[j].category
  {
    if cs != [] {
      var init := cs[..|cs| - 1];
      var before := UpsertAll(m, init).0;
      UpsertKeeps(before, cs[|cs| - 1].category, k);
      if k in before {
        CategoriesFrom(m, init, k);
        if j :| 0 <= j < |init| && before[k] == init[j].category { assert cs[j] == init[j]; }
      }
    }
  }

  lemma UpsertKeeps(m: map<nat, Category>, c: Category, k: nat)
    requires k in UpsertCategory(m, c).0
    ensures UpsertCategory(m, c).0[k] == if k in m then m[k] else c
  {}

  /** Nothing but the backup's categories is renamed. */
  lemma {:induction false} OnlyListedNamed(m: map<nat, Category>, cs: seq<IOCategory>, c: nat) returns (i: nat)
    requires c in UpsertAll(m, cs).1
    ensures i < |cs| && cs[i].id == c
  {
    hide UpsertCategory;
    if c == cs[|cs| - 1].id {
      i := |cs| - 1;
    } else {
      i := OnlyListedNamed(m, cs[..|cs| - 1], c);
    }
  }

  ghost predicate Renamed(m: map<nat, Category>, names: map<nat, nat>, c: IOCategory)
    requires c.id in names
  {
    names[c.id] in m && m[names[c.id]].name == c.category.name
  }

  lemma UpsertOne(m: map<nat, Category>, c: Category)
    requires UniqueNames(m)
    ensures var (m', id) := UpsertCategory(m, c);
            && UniqueNames(m') && id in m' && m'[id].name == c.name && forall i :: i in m ==> i in m' && m'[i] == m[i]
  {
    if WithName(m, c.name) != {} {
      assert Largest(WithName(m, c.name)) in WithName(m, c.name);
    } else {
      forall i | i in m
        ensures m[i].name != c.name
      {
        assert i !in WithName(m, c.name);
      }
    }
  }

  // ---------------------------------------------------------------------
  // Assets, one per base and one per description hash and issuer key

  /** How bases derive from identities: a one-to-one function, and the
      made-up issuer key of an asset seen before its issuance. */
  datatype Derivation = Derivation(baseOf: (Blob, Blob) -> Blob, madeUpKey: Blob -> Blob)

  predicate Placeholder(x: Asset) { x.descHash == x.base }

  /** A placeholder carries the made-up key; an issued asset has the base that
      its identity derives, and a key that is not made up. */
  ghost predicate Genuine(d: Derivation, x: Asset) {
    if Placeholder(x) then x.ik == d.madeUpKey(x.base)
    else d.baseOf(x.descHash, x.ik) == x.base && x.ik != d.madeUpKey(x.descHash)
  }

  ghost predicate Injective(d: Derivation) {
    forall h, k, h', k' :: d.baseOf(h, k) == d.baseOf(h', k') ==> h == h' && k == k'
  }

  ghost predicate UniqueAssets(m: map<nat, Asset>) {
    && (forall i, j :: i in m && j in m && m[i].base == m[j].base ==> i == j)
    && (forall i, j :: i in m && j in m && SameIdentity(m[i], m[j]) ==> i == j)
  }

  predicate SameIdentity(x: Asset, y: Asset) { x.descHash == y.descHash && x.ik == y.ik }

  ghost predicate AllGenuine(d: Derivation, m: map<nat, Asset>) {
    forall i :: i in m ==> Genuine(d, m[i])
  }

  function WithBase(m: map<nat, Asset>, base: Blob): set<nat> { set i | i in m && m[i].base == base }

  function WithIdentity(m: map<nat, Asset>, x: Asset): set<nat> { set i | i in m && SameIdentity(m[i], x) }

  /** Inserts the asset; on a known base, a placeholder takes the identity and
      a real row is left as it is. None is a conflict of identities. */
  function RecordAsset(m: map<nat, Asset>, x: Asset): Option<map<nat, Asset>> {
    if WithBase(m, x.base) != {} then
      var i := Largest(WithBase(m, x.base));
      if !Placeholder(m[i]) then Some(m)
      else if WithIdentity(m, x) - {i} != {} then None
      else Some(m[i := m[i].(descHash := x.descHash, ik := x.ik, name := if m[i].name.Some? then m[i].name else x.name,
                             finalized := x.finalized)])
    else if WithIdentity(m, x) != {} then None
    else Some(m[NextId(m.Keys) := x])
  }

  function AssetId(m: map<nat, Asset>, x: Asset): Option<nat> {
    if WithIdentity(m, x) != {} then Some(Largest(WithIdentity(m, x))) else None
  }

  /** Records an asset of a backup and looks its row up by its identity. */
  function RestoreAsset(m: map<nat, Asset>, x: Asset): Option<(map<nat, Asset>, nat)> {
    var recorded := RecordAsset(m, x);
    if recorded.None? then None
    else
      var id := AssetId(recorded.value, x);
      if id.None? then None else Some((recorded.value, id.value))
  }

  function RestoreAssets(m: map<nat, Asset>, xs: seq<IOAsset>): Option<(map<nat, Asset>, map<nat, nat>)> {
    if xs == [] then Some((m, map[]))
    else
      var before := RestoreAssets(m, xs[..|xs| - 1]);
      if before.None? then None
      else
        var last := xs[|xs| - 1];
        var one := RestoreAsset(before.value.0, AsRow(last));
        if one.None? then None else Some((one.value.0, before.value.1[last.id := one.value.1]))
  }

  /** The wallet knows the issuance of an asset that the backup has only seen
      in a transfer. */
  ghost predicate Outrun(m: map<nat, Asset>, x: Asset) {
    Placeholder(x) && exists i :: i in m && m[i].base == x.base && !Placeholder(m[i])
  }

  ghost predicate Consistent(d: Derivation, m: map<nat, Asset>) {
    Injective(d) && UniqueAssets(m) && AllGenuine(d, m)
  }

  /** Old rows keep their ids and bases, and are changed only from a
      placeholder to the asset's identity. */
  ghost predicate Settles(m: map<nat, Asset>, m': map<nat, Asset>) {
    forall i :: i in m ==> i in m' && m'[i].base == m[i].base && (Placeholder(m[i]) || m'[i] == m[i])
  }

  lemma TheBase(m: map<nat, Asset>, i: nat)
    requires UniqueAssets(m) && i in m
    ensures WithBase(m, m[i].base) == {i}
  {}

  lemma NoBase(m: map<nat, Asset>, base: Blob)
    requires WithBase(m, base) == {}
    ensures forall i :: i in m ==> m[i].base != base
  {
    forall i | i in m
      ensures m[i].base != base
    {
      assert i !in WithBase(m, base);
    }
  }

  /** Restoring one asset fails exactly when the wallet outran the backup on it. */
  lemma RestoreAssetFailsIff(d: Derivation, m: map<nat, Asset>, x: Asset)
    requires Consistent(d, m) && Genuine(d, x)
    ensures RestoreAsset(m, x).None? <==> Outrun(m, x)
  {
    if WithBase(m, x.base) != {} {
      var i := Largest(WithBase(m, x.base));
      assert i in WithBase(m, x.base);
      TheBase(m, i);
      if Placeholder(m[i]) {
        IdentityAtBase(d, m, x, i);
        var m' := RecordAsset(m, x).value;
        assert i in WithIdentity(m', x);
      } else if Placeholder(x) {
        assert Outrun(m, x);
        OutrunUnknown(d, m, x, i);
      } else {
        assert SameIdentity(m[i], x);
        assert i in WithIdentity(m, x);
      }
    } else {
      NoBase(m, x.base);
      NewIdentity(d, m, x);
      var id := NextId(m.Keys);
      assert id in WithIdentity(m[id := x], x);
    }
  }

  /** The way to fail: the wallet has seen the issuance of an asset, and the
      backup, older, only a transfer of it. */
  lemma OutrunFails(d: Derivation, h: Blob, k: Blob, id: nat, seen: nat, firstSeen: nat)
    requires Injective(d) && d.baseOf(h, k) != h && k != d.madeUpKey(h)
    ensures
      var base := d.baseOf(h, k);
      var m := map[id := Asset(h, k, base, None, false, seen)];
      var x := Asset(base, d.madeUpKey(base), base, None, false, firstSeen);
      Consistent(d, m) && Genuine(d, x) && Outrun(m, x) && RestoreAsset(m, x).None?
  {
    var base := d.baseOf(h, k);
    var m := map[id := Asset(h, k, base, None, false, seen)];
    var x := Asset(base, d.madeUpKey(base), base, None, false, firstSeen);
    assert m[id].base == x.base && !Placeholder(m[id]);
    RestoreAssetFailsIff(d, m, x);
  }

  /** Only the row of its base can have the asset's identity. */
  lemma IdentityAtBase(d: Derivation, m: map<nat, Asset>, x: Asset, i: nat)
    requires Consistent(d, m) && Genuine(d, x) && i in m && m[i].base == x.base
    ensures WithIdentity(m, x) <= {i}
  {
    forall j | j in WithIdentity(m, x)
      ensures j == i
    {
      assert Genuine(d, m[j]);
      assert m[j].base == x.base;
    }
  }

  lemma OutrunUnknown(d: Derivation, m: map<nat, Asset>, x: Asset, i: nat)
    requires Consistent(d, m) && Genuine(d, x) && i in m && m[i].base == x.base && !Placeholder(m[i]) && Placeholder(x)
    ensures WithIdentity(m, x) == {}
  {
    IdentityAtBase(d, m, x, i);
    assert i !in WithIdentity(m, x);
  }

  lemma NewIdentity(d: Derivation, m: map<nat, Asset>, x: Asset)
    requires Consistent(d, m) && Genuine(d, x) && forall i :: i in m ==> m[i].base != x.base
    ensures WithIdentity(m, x) == {}
  {
    forall j | j in m
      ensures !SameIdentity(m[j], x)
    {
      assert Genuine(d, m[j]);
    }
  }

  /** Recording an asset, in a transfer or an issuance, keeps the table
      consistent, and never fails. */
  lemma RecordKeepsConsistent(d: Derivation, m: map<nat, Asset>, x: Asset)
    requires Consistent(d, m) && Genuine(d, x)
    ensures RecordAsset(m, x).Some? && Consistent(d, RecordAsset(m, x).value)
  {
    if WithBase(m, x.base) != {} {
      var i := Largest(WithBase(m, x.base));
      assert i in WithBase(m, x.base);
      TheBase(m, i);
      IdentityAtBase(d, m, x, i);
      Reconciled(d, m, x, i);
    } else {
      NoBase(m, x.base);
      NewIdentity(d, m, x);
      Inserted(d, m, x);
    }
  }

  /** In a table where bases and identities are unique, the statement fails
      exactly when another base has the identity, unless an issued asset stands
      on the base. */
  lemma RecordConflictsIff(m: map<nat, Asset>, x: Asset)
    requires UniqueAssets(m)
    ensures RecordAsset(m, x).None? <==>
      && (exists i :: i in m && m[i].descHash == x.descHash && m[i].ik == x.ik && m[i].base != x.base)
      && forall i :: i in m && m[i].base == x.base ==> m[i].descHash == m[i].base
  {
    if WithBase(m, x.base) == {} {
      NoBase(m, x.base);
    } else {
      var b := Largest(WithBase(m, x.base));
      assert b in WithBase(m, x.base);
      TheBase(m, b);
    }
    if i :| i in m && SameIdentity(m[i], x) && m[i].base != x.base {
      assert i in WithIdentity(m, x) && i !in WithBase(m, x.base);
    }
  }

  /** What is known of another base does not change. */
  ghost predicate SameElsewhere(m: map<nat, Asset>, m': map<nat, Asset>, bases: set<Blob>) {
    && (forall i :: i in m && m[i].base !in bases ==> i in m' && m'[i] == m[i])
    && (forall i :: i in m' && m'[i].base !in bases ==> i in m && m'[i] == m[i])
  }

  ghost predicate Stored(m: map<nat, Asset>, id: nat, x: Asset) {
    id in m && SameIdentity(m[id], x) && m[id].base == x.base
  }

  /** What the row of an asset holds: an old issued row is as it was; an old
      placeholder takes the identity and the finalized flag, and a name if it
      has none; a new row has the asset's columns. */
  ghost predicate RowOf(m: map<nat, Asset>, id: nat, x: Asset, row: Asset) {
    if id !in m then row == x
    else if m[id].descHash != m[id].base then row == m[id]
    else
      && row.descHash == x.descHash && row.ik == x.ik && row.finalized == x.finalized
      && row.base == m[id].base && row.firstSeen == m[id].firstSeen
      && row.name == if m[id].name.Some? then m[id].name else x.name
  }

  lemma RestoreAssetStores(d: Derivation, m: map<nat, Asset>, x: Asset)
    requires Consistent(d, m) && Genuine(d, x) && RestoreAsset(m, x).Some?
    ensures var (m', id) := RestoreAsset(m, x).value;
            && Consistent(d, m') && Settles(m, m') && SameElsewhere(m, m', {x.base}) && Stored(m', id, x)
            && RowOf(m, id, x, m'[id])
  {
    var (m', id) := RestoreAsset(m, x).value;
    assert id in WithIdentity(m', x);
    if WithBase(m, x.base) != {} {
      var i := Largest(WithBase(m, x.base));
      assert i in WithBase(m, x.base);
      TheBase(m, i);
      IdentityAtBase(d, m, x, i);
      Reconciled(d, m, x, i);
    } else {
      NoBase(m, x.base);
      NewIdentity(d, m, x);
      Inserted(d, m, x);
    }
    IdentityAtItsBase(d, m', x, id);
  }

  /** A genuine asset that is recorded has one row afterwards, of its base, and
      every other row is as it was. */
  lemma RecordedRow(d: Derivation, m: map<nat, Asset>, x: Asset) returns (id: nat)
    requires Consistent(d, m) && Genuine(d, x)
    ensures RecordAsset(m, x).Some?
    ensures
      var m' := RecordAsset(m, x).value;
      && id in m' && m'[id].base == x.base && RowOf(m, id, x, m'[id])
      && (forall i :: i in m && i != id ==> i in m' && m'[i] == m[i])
      && forall i :: i in m' && i != id ==> i in m
  {
    if WithBase(m, x.base) != {} {
      id := Largest(WithBase(m, x.base));
      assert id in WithBase(m, x.base);
      TheBase(m, id);
      IdentityAtBase(d, m, x, id);
      RecordedAt(m, x, id);
    } else {
      NoBase(m, x.base);
      NewIdentity(d, m, x);
      id := NextId(m.Keys);
    }
  }

  lemma IdentityAtItsBase(d: Derivation, m: map<nat, Asset>, x: Asset, id: nat)
    requires Consistent(d, m) && Genuine(d, x) && id in m && SameIdentity(m[id], x)
    ensures m[id].base == x.base
  {
    assert Genuine(d, m[id]);
  }

  /** The placeholder with the asset's identity. */
  function Settled(row: Asset, x: Asset): Asset {
    row.(descHash := x.descHash, ik := x.ik, name := if row.name.Some? then row.name else x.name,
         finalized := x.finalized)
  }

  lemma RecordedAt(m: map<nat, Asset>, x: Asset, i: nat)
    requires i in m && WithIdentity(m, x) <= {i} && WithBase(m, x.base) == {i}
    ensures RecordAsset(m, x) == Some(if Placeholder(m[i]) then m[i := Settled(m[i], x)] else m)
  {}

  lemma Reconciled(d: Derivation, m: map<nat, Asset>, x: Asset, i: nat)
    requires Consistent(d, m) && Genuine(d, x) && i in m && m[i].base == x.base && WithIdentity(m, x) <= {i}
    requires WithBase(m, x.base) == {i}
    ensures var r := RecordAsset(m, x);
            r.Some? && Consistent(d, r.value) && Settles(m, r.value) && SameElsewhere(m, r.value, {x.base})
  {
    hide RecordAsset;
    RecordedAt(m, x, i);
    forall j | j in m && j != i
      ensures !SameIdentity(m[j], Settled(m[i], x))
    {
      assert j !in WithIdentity(m, x);
    }
    OneRowReplaced(d, m, Settled(m[i], x), i);
    hide Consistent;
  }

  lemma OneRowReplaced(d: Derivation, m: map<nat, Asset>, row: Asset, i: nat)
    requires Consistent(d, m) && Genuine(d, row) && i in m && row.base == m[i].base
    requires forall j :: j in m && j != i ==> !SameIdentity(m[j], row)
    ensures Consistent(d, m[i := row])
  {}

  lemma Inserted(d: Derivation, m: map<nat, Asset>, x: Asset)
    requires Consistent(d, m) && Genuine(d, x) && WithIdentity(m, x) == {} && WithBase(m, x.base) == {}
    ensures var r := RecordAsset(m, x);
            && r.Some? && Consistent(d, r.value) && Settles(m, r.value) && SameElsewhere(m, r.value, {x.base})
            && forall i :: i in r.value && i !in m ==> r.value[i] == x
  {
    NoBase(m, x.base);
    forall i | i in m
      ensures !SameIdentity(m[i], x)
    {
      assert i !in WithIdentity(m, x);
    }
  }

  function Bases(xs: seq<IOAsset>): set<Blob> { set i | 0 <= i < |xs| :: xs[i].base }

  ghost predicate AnyOutrun(m: map<nat, Asset>, xs: seq<IOAsset>) {
    exists i :: 0 <= i < |xs| && Outrun(m, AsRow(xs[i]))
  }

  /** A backup's asset table. */
  ghost predicate AssetTable(d: Derivation, xs: seq<IOAsset>) {
    && (forall i :: 0 <= i < |xs| ==> Genuine(d, AsRow(xs[i])))
    && (forall i, j :: 0 <= i < j < |xs| ==> xs[i].base != xs[j].base && xs[i].id != xs[j].id)
  }

  lemma OutrunElsewhere(m: map<nat, Asset>, m': map<nat, Asset>, bases: set<Blob>, x: Asset)
    requires SameElsewhere(m, m', bases) && x.base !in bases
    ensures Outrun(m', x) <==> Outrun(m, x)
  {
    if i :| i in m && m[i].base == x.base && !Placeholder(m[i]) { assert i in m' && m'[i] == m[i]; }
    if i :| i in m' && m'[i].base == x.base && !Placeholder(m'[i]) { assert i in m && m'[i] == m[i]; }
  }

  /** The assets of a backup are all restored, unless the wallet knows the
      issuance of one that the backup has only seen in a transfer; then the
      whole restore fails. */
  lemma {:induction false} AssetsRestoredIff(d: Derivation, m: map<nat, Asset>, xs: seq<IOAsset>)
    requires Consistent(d, m) && AssetTable(d, xs)
    ensures RestoreAssets(m, xs).None? <==> AnyOutrun(m, xs)
    ensures RestoreAssets(m, xs).Some? ==>
      AllStored(d, m, xs, RestoreAssets(m, xs).value.0, RestoreAssets(m, xs).value.1)
  {
    if xs != [] {
      var init, last := xs[..|xs| - 1], xs[|xs| - 1];
      AssetsRestoredIff(d, m, init);
      OutrunLast(m, xs);
      if RestoreAssets(m, init).Some? {
        var (before, names) := RestoreAssets(m, init).value;
        OutrunElsewhere(m, before, Bases(init), AsRow(last));
        RestoreAssetFailsIff(d, before, AsRow(last));
        if RestoreAsset(before, AsRow(last)).Some? {
          RestoreAssetStores(d, before, AsRow(last));
          OneMoreStored(d, m, xs, before, names);
        }
      }
    }
  }

  lemma OutrunLast(m: map<nat, Asset>, xs: seq<IOAsset>)
    requires xs != []
    ensures AnyOutrun(m, xs) <==> AnyOutrun(m, xs[..|xs| - 1]) || Outrun(m, AsRow(xs[|xs| - 1]))
  {
    var init := xs[..|xs| - 1];
    if i :| 0 <= i < |xs| && Outrun(m, AsRow(xs[i])) && i < |init| { assert init[i] == xs[i]; }
    if i :| 0 <= i < |init| && Outrun(m, AsRow(init[i])) { assert init[i] == xs[i]; }
  }

  ghost predicate AllStored(d: Derivation, m: map<nat, Asset>, xs: seq<IOAsset>, m': map<nat, Asset>,
                            names: map<nat, nat>) {
    && Consistent(d, m') && Settles(m, m') && SameElsewhere(m, m', Bases(xs))
    && forall i :: 0 <= i < |xs| ==> StoredAsset(m, m', names, xs[i])
  }

  /** The asset has its row under its new id. */
  ghost predicate StoredAsset(m: map<nat, Asset>, m': map<nat, Asset>, names: map<nat, nat>, x: IOAsset) {
    && x.id in names && Stored(m', names[x.id], AsRow(x)) && RowOf(m, names[x.id], AsRow(x), m'[names[x.id]])
  }

  lemma BasesLast(xs: seq<IOAsset>)
    requires xs != []
    ensures Bases(xs) == Bases(xs[..|xs| - 1]) + {xs[|xs| - 1].base}
  {
    var init := xs[..|xs| - 1];
    assert forall i :: 0 <= i < |init| ==> init[i] == xs[i];
  }

  lemma Elsewhere(m: map<nat, Asset>, m1: map<nat, Asset>, m2: map<nat, Asset>, b: set<Blob>, c: set<Blob>)
    requires SameElsewhere(m, m1, b) && SameElsewhere(m1, m2, c)
    ensures SameElsewhere(m, m2, b + c)
  {}

  lemma SettlesTwice(m: map<nat, Asset>, m1: map<nat, Asset>, m2: map<nat, Asset>)
    requires Settles(m, m1) && Settles(m1, m2)
    ensures Settles(m, m2)
  {}

  lemma StoredStays(m: map<nat, Asset>, m': map<nat, Asset>, id: nat, x: Asset, base: Blob)
    requires SameElsewhere(m, m', {base}) && Stored(m, id, x) && x.base != base
    ensures Stored(m', id, x) && m'[id] == m[id]
  {
    assert m[id].base !in {base};
  }

  /** A row of a base that the assets before left alone. */
  lemma SameRowBefore(m: map<nat, Asset>, before: map<nat, Asset>, after: map<nat, Asset>, bases: set<Blob>, id: nat,
                      x: Asset)
    requires Settles(m, before) && Settles(before, after) && SameElsewhere(m, before, bases) && x.base !in bases
    requires Stored(after, id, x) && RowOf(before, id, x, after[id])
    ensures RowOf(m, id, x, after[id])
  {
    assert id in before ==> before[id].base == x.base;
    assert id in before <==> id in m;
  }

  lemma OneMoreStored(d: Derivation, m: map<nat, Asset>, xs: seq<IOAsset>, before: map<nat, Asset>,
                      names: map<nat, nat>)
    requires xs != [] && AssetTable(d, xs) && AllStored(d, m, xs[..|xs| - 1], before, names)
    requires var one := RestoreAsset(before, AsRow(xs[|xs| - 1]));
             && one.Some? && Consistent(d, one.value.0) && Settles(before, one.value.0)
             && SameElsewhere(before, one.value.0, {xs[|xs| - 1].base})
             && Stored(one.value.0, one.value.1, AsRow(xs[|xs| - 1]))
             && RowOf(before, one.value.1, AsRow(xs[|xs| - 1]), one.value.0[one.value.1])
    ensures var one := RestoreAsset(before, AsRow(xs[|xs| - 1]));
            AllStored(d, m, xs, one.value.0, names[xs[|xs| - 1].id := one.value.1])
  {
    var init, last := xs[..|xs| - 1], xs[|xs| - 1];
    assert last.base !in Bases(init);
    hide Consistent, Settles, SameElsewhere, RestoreAsset, Bases, RowOf, Stored, StoredAsset;
    var (after, id) := RestoreAsset(before, AsRow(last)).value;
    BasesLast(xs);
    Elsewhere(m, before, after, Bases(init), {last.base});
    SettlesTwice(m, before, after);
    forall i | 0 <= i < |xs| - 1
      ensures StoredAsset(m, after, names[last.id := id], xs[i])
    {
      assert init[i] == xs[i];
      AssetStays(m, before, after, names, xs[i], last, id);
    }
    SameRowBefore(m, before, after, Bases(init), id, AsRow(last));
    LastStored(m, after, names, last, id);
  }

  lemma AssetStays(m: map<nat, Asset>, before: map<nat, Asset>, after: map<nat, Asset>, names: map<nat, nat>,
                   x: IOAsset, last: IOAsset, id: nat)
    requires StoredAsset(m, before, names, x) && SameElsewhere(before, after, {last.base})
    requires x.base != last.base && x.id != last.id
    ensures StoredAsset(m, after, names[last.id := id], x)
  {
    StoredStays(before, after, names[x.id], AsRow(x), last.base);
  }

  lemma LastStored(m: map<nat, Asset>, after: map<nat, Asset>, names: map<nat, nat>, last: IOAsset, id: nat)
    requires Stored(after, id, AsRow(last)) && RowOf(m, id, AsRow(last), after[id])
    ensures StoredAsset(m, after, names[last.id := id], last)
  {}
}
