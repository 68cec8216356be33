/** Exporting an account and restoring it: the whole theorem, and what it means
    for the account's balances. */
module RoundTrip {
  import opened Wrappers
  import opened Renaming
  import opened Sums
  import opened Tables
  import opened BackupFormat
  import opened Restore
  import opened Backup
  import opened Export
  import opened SharedTables
  import opened Importing
  import opened Ledger
  import opened AccountRecords
  import Dkg

  /** Restoring the rows of the export of a well-formed account succeeds into
      any wallet, whatever the names of categories and assets there. */
  lemma RowsRestored(src: Db, a: nat, doc: Document, base: Db, cats: map<nat, nat>, assets: map<nat, nat>)
    returns (end: St)
    requires WellFormedRows(src, a) && RowsExported(src, a, doc) && Integrity(base)
    ensures Run(Start(base, cats, assets), Items(doc)) == Some(end) && CopyAdded(src, a, base, end.db, end.r)
    ensures end.r.cats == cats && end.r.assets == assets && end.r.account == Start(base, cats, assets).r.account
  {
    ExportListed(src, a, doc);
    end := RestoreCopies(src, a, base, cats, assets, Items(doc));
    RunKeepsNames(Start(base, cats, assets), Items(doc));
  }

  /** The rows of every other account stay as they were. */
  lemma NothingElseChanges(src: Db, a: nat, base: Db, db: Db, r: Ren)
    requires CopyAdded(src, a, base, db, r)
    ensures Kept(base.taddrs, db.taddrs) && Kept(base.transactions, db.transactions) && Kept(base.notes, db.notes)
    ensures Kept(base.outputs, db.outputs) && Kept(base.spends, db.spends) && Kept(base.memos, db.memos)
    ensures Kept(base.syncHeights, db.syncHeights) && Kept(base.userMemos, db.userMemos)
    ensures Kept(base.headers, db.headers) && Kept(base.witnesses, db.witnesses)
    ensures forall i :: i in base.positions ==> i in db.positions && db.positions[i] == base.positions[i] + 1
  {}

  /** In the copy a note is locked exactly when it was locked and unspent. */
  lemma SpentNotesUnlocked(src: Db, a: nat, base: Db, db: Db, r: Ren, i: nat)
    requires CopyAdded(src, a, base, db, r) && i in src.notes && src.notes[i].account == a
    ensures i in r.notes && r.notes[i] in db.notes
    ensures db.notes[r.notes[i]].locked <==> src.notes[i].locked && !(i in src.spends && src.spends[i].account == a)
  {
    assert i in AccountRows(src, a).notes;
  }

  /** A memo of the account is restored exactly when it belongs to a note or an
      output. */
  lemma MemoRestoredIff(src: Db, a: nat, base: Db, db: Db, r: Ren, k: MemoKey)
    requires CopyAdded(src, a, base, db, r) && Integrity(base)
    requires k in src.memos && src.memos[k].account == a && k.tx in r.txs
    ensures MemoName(r, k) in db.memos <==> Linked(src.memos[k])
  {
    var ids := AccountRows(src, a).memos;
    if Linked(src.memos[k]) {
      assert k in ids;
    } else {
      MemoNotPlaced(src, a, base, db, r, k);
    }
  }

  lemma MemoNotPlaced(src: Db, a: nat, base: Db, db: Db, r: Ren, k: MemoKey)
    requires CopyAdded(src, a, base, db, r) && Integrity(base)
    requires k in src.memos && !Linked(src.memos[k]) && k.tx in r.txs
    ensures MemoName(r, k) !in db.memos
  {
    var ids := AccountRows(src, a).memos;
    assert r.txs[k.tx] !in base.transactions;
    MemoFree(src, r, base.memos, db.memos, ids, k);
  }

  /** Every spend of the account is restored on the copy of its note, in the
      copy of its transaction. */
  lemma SpendsResolve(src: Db, a: nat, base: Db, db: Db, r: Ren, i: nat)
    requires CopyAdded(src, a, base, db, r) && i in src.spends && src.spends[i].account == a
    ensures i in r.notes && src.spends[i].tx in r.txs && r.notes[i] in db.spends
    ensures db.spends[r.notes[i]] == src.spends[i].(account := r.account, tx := r.txs[src.spends[i].tx])
  {
    assert i in AccountRows(src, a).spends;
    assert SpendName(r, i) in db.spends;
  }

  // ---------------------------------------------------------------------
  // Balances

  /** Every asset that the account's notes name is in the backup. */
  ghost predicate AssetsNamed(src: Db, a: nat, r: Ren) {
    forall i :: i in src.notes && src.notes[i].account == a && src.notes[i].asset.Some? ==>
      src.notes[i].asset.value in r.assets
  }

  lemma NoteCopied(src: Db, a: nat, base: Db, db: Db, r: Ren, i: nat)
    requires CopyAdded(src, a, base, db, r) && AssetsNamed(src, a, r) && i in src.notes && src.notes[i].account == a
    ensures i in r.notes && r.notes[i] in db.notes
    ensures var n, n' := src.notes[i], db.notes[r.notes[i]];
            n'.account == r.account && n'.pool == n.pool && n'.height == n.height && n'.value == n.value
            && (n'.asset.None? <==> n.asset.None?)
  {
    assert i in AccountRows(src, a).notes;
  }

  lemma NoteFrom(src: Db, a: nat, base: Db, db: Db, r: Ren, k: nat) returns (i: nat)
    requires CopyAdded(src, a, base, db, r) && Integrity(base) && k in db.notes && db.notes[k].account == r.account
    ensures i in src.notes && src.notes[i].account == a && i in r.notes && r.notes[i] == k
  {
    assert k !in base.notes;
    i := PlacedFrom(base.notes, db.notes, r.notes, AccountRows(src, a).notes, k);
  }

  lemma SpendFrom(src: Db, a: nat, base: Db, db: Db, r: Ren, k: nat) returns (i: nat)
    requires CopyAdded(src, a, base, db, r) && Integrity(base) && k in db.spends && db.spends[k].account == r.account
    ensures i in src.spends && src.spends[i].account == a && i in r.notes && r.notes[i] == k
  {
    assert k !in base.spends;
    i := SpendPlacedFrom(src, r, base.spends, db.spends, AccountRows(src, a).spends, k);
  }

  lemma SpendPlacedFrom(src: Db, r: Ren, base: map<nat, Spend>, cur: map<nat, Spend>, ids: set<nat>, k: nat)
    returns (i: nat)
    requires SpendsHold(src, r, base, cur, ids) && k in cur && k !in base
    ensures i in ids && i in r.notes && r.notes[i] == k
  {
    i :| i in ids && SpendName(r, i) == k;
  }

  lemma SpendCopied(src: Db, a: nat, base: Db, db: Db, r: Ren, i: nat)
    requires CopyAdded(src, a, base, db, r) && AssetsNamed(src, a, r) && Resolves(src, a)
    requires i in src.spends && src.spends[i].account == a
    ensures i in r.notes && r.notes[i] in db.spends && r.notes[i] in db.notes
    ensures var s, s' := src.spends[i], db.spends[r.notes[i]];
            s'.account == r.account && s'.pool == s.pool && s'.height == s.height && s'.value == s.value
    ensures Zec(db, r.notes[i]) <==> Zec(src, i)
  {
    SpendsResolve(src, a, base, db, r, i);
    NoteCopied(src, a, base, db, r, i);
  }

  /** The notes of one account are those of another, row by row. */
  ghost predicate NotesMatch(src: Db, a: nat, db: Db, b: nat, names: map<nat, nat>) {
    && OneToOne(names)
    && (forall i :: i in src.notes && src.notes[i].account == a ==>
          i in names && names[i] in db.notes && NoteTwin(src.notes[i], db.notes[names[i]], b))
    && (forall k :: k in db.notes && db.notes[k].account == b ==>
          exists i :: i in src.notes && src.notes[i].account == a && i in names && names[i] == k)
  }

  ghost predicate NoteTwin(n: Note, n': Note, b: nat) {
    n'.account == b && n'.pool == n.pool && n'.height == n.height && n'.value == n.value
    && (n'.asset.None? <==> n.asset.None?)
  }

  ghost predicate SpendsMatch(src: Db, a: nat, db: Db, b: nat, names: map<nat, nat>) {
    && OneToOne(names)
    && (forall i :: i in src.spends && src.spends[i].account == a ==>
          i in names && names[i] in db.spends && SpendTwin(src.spends[i], db.spends[names[i]], b)
          && (Zec(db, names[i]) <==> Zec(src, i)))
    && (forall k :: k in db.spends && db.spends[k].account == b ==>
          exists i :: i in src.spends && src.spends[i].account == a && i in names && names[i] == k)
  }

  ghost predicate SpendTwin(s: Spend, s': Spend, b: nat) {
    s'.account == b && s'.pool == s.pool && s'.height == s.height && s'.value == s.value
  }

  lemma CopiedNotesMatch(src: Db, a: nat, base: Db, db: Db, r: Ren)
    requires CopyAdded(src, a, base, db, r) && Integrity(base) && AssetsNamed(src, a, r)
    ensures NotesMatch(src, a, db, r.account, r.notes)
  {
    forall i | i in src.notes && src.notes[i].account == a
      ensures i in r.notes && r.notes[i] in db.notes && NoteTwin(src.notes[i], db.notes[r.notes[i]], r.account)
    {
      NoteCopied(src, a, base, db, r, i);
    }
    forall k | k in db.notes && db.notes[k].account == r.account
      ensures exists i :: i in src.notes && src.notes[i].account == a && i in r.notes && r.notes[i] == k
    {
      var i := NoteFrom(src, a, base, db, r, k);
    }
  }

  lemma CopiedSpendsMatch(src: Db, a: nat, base: Db, db: Db, r: Ren)
    requires CopyAdded(src, a, base, db, r) && Integrity(base) && AssetsNamed(src, a, r) && Resolves(src, a)
    ensures SpendsMatch(src, a, db, r.account, r.notes)
  {
    forall i | i in src.spends && src.spends[i].account == a
      ensures i in r.notes && r.notes[i] in db.spends && SpendTwin(src.spends[i], db.spends[r.notes[i]], r.account)
      ensures Zec(db, r.notes[i]) <==> Zec(src, i)
    {
      SpendCopied(src, a, base, db, r, i);
    }
    forall k | k in db.spends && db.spends[k].account == r.account
      ensures exists i :: i in src.spends && src.spends[i].account == a && i in r.notes && r.notes[i] == k
    {
      var i := SpendFrom(src, a, base, db, r, k);
    }
  }

  lemma SameNoteSum(src: Db, a: nat, db: Db, b: nat, names: map<nat, nat>, pool: nat, height: nat)
    requires NotesMatch(src, a, db, b, names)
    ensures Sum(PoolNotes(db, b, pool, height), NoteValue(db)) == Sum(PoolNotes(src, a, pool, height), NoteValue(src))
  {
    var ids, image := PoolNotes(src, a, pool, height), PoolNotes(db, b, pool, height);
    forall k | k in image
      ensures exists i :: i in ids && i in names && names[i] == k
    {
      var i :| i in src.notes && src.notes[i].account == a && i in names && names[i] == k;
      assert i in ids;
    }
    SumRenamed(ids, names, NoteValue(src), image, NoteValue(db));
  }

  lemma SameSpendSum(src: Db, a: nat, db: Db, b: nat, names: map<nat, nat>, pool: nat, height: nat)
    requires SpendsMatch(src, a, db, b, names)
    ensures Sum(PoolSpends(db, b, pool, height), SpendValue(db)) ==
            Sum(PoolSpends(src, a, pool, height), SpendValue(src))
  {
    var ids, image := PoolSpends(src, a, pool, height), PoolSpends(db, b, pool, height);
    forall k | k in image
      ensures exists i :: i in ids && i in names && names[i] == k
    {
      var i :| i in src.spends && src.spends[i].account == a && i in names && names[i] == k;
      assert i in ids;
    }
    SumRenamed(ids, names, SpendValue(src), image, SpendValue(db));
  }

  /** A restored account has the balance of the exported one, in every pool
      and at every height. */
  lemma BalanceRestored(src: Db, a: nat, base: Db, db: Db, r: Ren, pool: nat, height: nat)
    requires CopyAdded(src, a, base, db, r) && Integrity(base) && AssetsNamed(src, a, r) && Resolves(src, a)
    ensures PoolSum(db, r.account, pool, height) == PoolSum(src, a, pool, height)
  {
    CopiedNotesMatch(src, a, base, db, r);
    SameNoteSum(src, a, db, r.account, r.notes, pool, height);
    CopiedSpendsMatch(src, a, base, db, r);
    SameSpendSum(src, a, db, r.account, r.notes, pool, height);
  }

  // ---------------------------------------------------------------------
  // The whole theorem

  /** The exported wallet has seen a transfer of an asset whose issuance the
      other one knows. */
  ghost predicate AnyOutrunBy(base: map<nat, Asset>, src: map<nat, Asset>) {
    exists i :: i in src && Outrun(base, src[i])
  }

  lemma ExportedAssets(d: Derivation, m: map<nat, Asset>, xs: seq<IOAsset>)
    requires Consistent(d, m) && AssetsExported(m, xs)
    ensures AssetTable(d, xs)
  {
    forall i | 0 <= i < |xs|
      ensures Genuine(d, AsRow(xs[i]))
    {
      assert Genuine(d, m[xs[i].id]);
    }
  }

  lemma OutrunExported(base: map<nat, Asset>, m: map<nat, Asset>, xs: seq<IOAsset>)
    requires AssetsExported(m, xs)
    ensures AnyOutrun(base, xs) <==> AnyOutrunBy(base, m)
  {
    if j :| 0 <= j < |xs| && Outrun(base, AsRow(xs[j])) {
      assert Outrun(base, m[xs[j].id]);
    }
    if i :| i in m && Outrun(base, m[i]) {
      var j :| 0 <= j < |xs| && xs[j].id == i;
      assert Outrun(base, AsRow(xs[j]));
    }
  }

  /** Each asset of the exported wallet has a row of its identity and base, with
      all its columns but the name if the asset was unknown; known assets keep
      their ids. */
  ghost predicate AssetsCarried(d: Derivation, src: map<nat, Asset>, base: map<nat, Asset>, out: map<nat, Asset>,
                                names: map<nat, nat>) {
    && Consistent(d, out) && Settles(base, out)
    && forall i :: i in src ==>
         && i in names && Stored(out, names[i], src[i]) && RowOf(base, names[i], src[i].(name := None), out[names[i]])
  }

  lemma AssetsRestored(d: Derivation, src: map<nat, Asset>, base: map<nat, Asset>, xs: seq<IOAsset>)
    requires Consistent(d, src) && Consistent(d, base) && AssetsExported(src, xs)
    ensures RestoreAssets(base, xs).None? <==> AnyOutrunBy(base, src)
    ensures RestoreAssets(base, xs).Some? ==>
      AssetsCarried(d, src, base, RestoreAssets(base, xs).value.0, RestoreAssets(base, xs).value.1)
  {
    ExportedAssets(d, src, xs);
    OutrunExported(base, src, xs);
    AssetsRestoredIff(d, base, xs);
    if RestoreAssets(base, xs).Some? {
      var (out, names) := RestoreAssets(base, xs).value;
      forall i | i in src
        ensures i in names && Stored(out, names[i], src[i])
        ensures RowOf(base, names[i], src[i].(name := None), out[names[i]])
      {
        var j :| 0 <= j < |xs| && xs[j].id == i;
        assert Stored(out, names[xs[j].id], AsRow(xs[j]));
      }
    }
  }

  /** Each category of the exported wallet, and no other id, is renamed to the
      category of its name, which has its columns if the name was unknown; old
      ones stay as they were. */
  ghost predicate CategoriesCarried(src: map<nat, Category>, base: map<nat, Category>, out: map<nat, Category>,
                                    names: map<nat, nat>) {
    && UniqueNames(out) && Kept(base, out) && names.Keys == src.Keys
    && (forall i :: i in src ==> i in names && names[i] in out && out[names[i]].name == src[i].name)
    && (UniqueNames(src) ==> forall i :: i in src && names[i] !in base ==> out[names[i]] == src[i])
    && forall k :: k in out ==> k in base || exists i :: i in src && out[k] == src[i]
  }

  lemma CategoriesRestored(src: map<nat, Category>, base: map<nat, Category>, cs: seq<IOCategory>)
    requires UniqueNames(base) && CategoriesExported(src, cs)
    ensures CategoriesCarried(src, base, UpsertAll(base, cs).0, UpsertAll(base, cs).1)
  {
    hide UpsertAll;
    CategoriesByName(base, cs);
    var (out, names) := UpsertAll(base, cs);
    forall i | i in src
      ensures i in names && names[i] in out && out[names[i]].name == src[i].name
    {
      var j :| 0 <= j < |cs| && cs[j].id == i;
      assert Renamed(out, names, cs[j]);
    }
    forall i | i in names
      ensures i in src
    {
      var j := OnlyListedNamed(base, cs, i);
    }
    forall k | k in out && k !in base
      ensures exists i :: i in src && out[k] == src[i]
    {
      CategoriesFrom(base, cs, k);
      var j :| 0 <= j < |cs| && out[k] == cs[j].category;
      assert src[cs[j].id] == out[k];
    }
  }

  /** Both name the asset of one identity and base, or neither names any. */
  ghost predicate SameAsset(m: map<nat, Asset>, x: Option<nat>, m': map<nat, Asset>, y: Option<nat>) {
    if x.None? then y.None? else x.value in m && y.Some? && Stored(m', y.value, m[x.value])
  }

  /** The copy names the category of the same name, or none if there was none or
      the category did not exist. */
  ghost predicate SameCategory(m: map<nat, Category>, x: Option<nat>, m': map<nat, Category>, y: Option<nat>) {
    if x.Some? && x.value in m then y.Some? && y.value in m' && m'[y.value].name == m[x.value].name else y.None?
  }

  ghost predicate AssetsFollow(src: Contents, a: nat, o: Contents, r: Ren) {
    forall i :: i in src.db.notes && src.db.notes[i].account == a ==>
      && i in r.notes && r.notes[i] in o.db.notes
      && SameAsset(src.assets, src.db.notes[i].asset, o.assets, o.db.notes[r.notes[i]].asset)
  }

  ghost predicate CategoriesFollow(src: Contents, a: nat, o: Contents, r: Ren) {
    forall i :: i in src.db.transactions && src.db.transactions[i].account == a ==>
      && i in r.txs && r.txs[i] in o.db.transactions
      && SameCategory(src.categories, src.db.transactions[i].category, o.categories,
                      o.db.transactions[r.txs[i]].category)
  }

  ghost predicate BalancesFollow(src: Contents, a: nat, o: Contents, b: nat) {
    forall pool, height :: PoolSum(o.db, b, pool, height) == PoolSum(src.db, a, pool, height)
  }

  /** `o` is the wallet `base` with a copy of account a of `src`: every row once
      under the renaming r, every link between the rows kept, every note's
      asset and every transaction's category the same thing under its id
      there, the same balance in every pool at every height, the same columns,
      keys and part in a key generation, and nothing of the old accounts,
      folders, categories and issued assets changed. It is a wallet that can be
      restored into again. */
  ghost predicate Restores(c: Codec, d: Derivation, src: Contents, a: nat, base: Contents, o: Contents, r: Ren)
    requires a in src.accounts
  {
    && CopyAdded(src.db, a, base.db, o.db, r)
    && AssetsFollow(src, a, o, r) && CategoriesFollow(src, a, o, r) && BalancesFollow(src, a, o, r.account)
    && AccountFollows(c, src, a, base, o, r.account)
    && Integrity(o.db)
    && CategoriesCarried(src.categories, base.categories, o.categories, r.cats)
    && AssetsCarried(d, src.assets, base.assets, o.assets, r.assets)
  }

  ghost predicate AccountFollows(c: Codec, src: Contents, a: nat, base: Contents, o: Contents, b: nat)
    requires a in src.accounts
  {
    && o.accounts.Keys == base.accounts.Keys + {b}
    && (forall i :: i in base.accounts && i != b ==> o.accounts[i] == base.accounts[i])
    && SameAccount(c, src.accounts[a], src.folders, o.accounts[b], o.folders)
    && (o.folders == base.folders || exists name :: OneMoreFolder(base.folders, o.folders, name))
  }

  lemma AssetFollows(d: Derivation, src: Contents, a: nat, base: Contents, o: Contents, r: Ren)
    requires CopyAdded(src.db, a, base.db, o.db, r) && WellFormed(src, a)
    requires AssetsCarried(d, src.assets, base.assets, o.assets, r.assets)
    ensures AssetsFollow(src, a, o, r) && AssetsNamed(src.db, a, r)
  {
    hide CopyAdded, WellFormedRows, Consistent, Settles;
    forall i | i in src.db.notes && src.db.notes[i].account == a
      ensures i in r.notes && r.notes[i] in o.db.notes
      ensures SameAsset(src.assets, src.db.notes[i].asset, o.assets, o.db.notes[r.notes[i]].asset)
    {
      NoteLinks(src.db, a, base.db, o.db, r, i);
    }
  }

  lemma NoteLinks(src: Db, a: nat, base: Db, db: Db, r: Ren, i: nat)
    requires CopyAdded(src, a, base, db, r) && i in src.notes && src.notes[i].account == a
    ensures i in r.notes && r.notes[i] in db.notes && db.notes[r.notes[i]].asset == Look(r.assets, src.notes[i].asset)
  {
    assert i in AccountRows(src, a).notes;
  }

  lemma TxLinks(src: Db, a: nat, base: Db, db: Db, r: Ren, i: nat)
    requires CopyAdded(src, a, base, db, r) && i in src.transactions && src.transactions[i].account == a
    ensures i in r.txs && r.txs[i] in db.transactions
    ensures db.transactions[r.txs[i]].category == Look(r.cats, src.transactions[i].category)
  {
    assert i in AccountRows(src, a).txs;
  }

  lemma CategoryFollows(src: Contents, a: nat, base: Contents, o: Contents, r: Ren)
    requires CopyAdded(src.db, a, base.db, o.db, r)
    requires CategoriesCarried(src.categories, base.categories, o.categories, r.cats)
    ensures CategoriesFollow(src, a, o, r)
  {
    hide CopyAdded;
    forall i | i in src.db.transactions && src.db.transactions[i].account == a
      ensures i in r.txs && r.txs[i] in o.db.transactions
      ensures SameCategory(src.categories, src.db.transactions[i].category, o.categories,
                           o.db.transactions[r.txs[i]].category)
    {
      TxLinks(src.db, a, base.db, o.db, r, i);
    }
  }

  lemma BalanceFollows(src: Contents, a: nat, base: Contents, o: Contents, r: Ren)
    requires CopyAdded(src.db, a, base.db, o.db, r) && WellFormed(src, a) && Integrity(base.db)
    requires AssetsNamed(src.db, a, r)
    ensures BalancesFollow(src, a, o, r.account)
  {
    forall pool, height
      ensures PoolSum(o.db, r.account, pool, height) == PoolSum(src.db, a, pool, height)
    {
      BalanceRestored(src.db, a, base.db, o.db, r, pool, height);
    }
  }

  /** The keys and addresses of the document decode exactly when the account's
      do. */
  lemma ExportedKeysDecode(c: Codec, src: Contents, a: nat, doc: Document)
    requires WellFormed(src, a) && IsExport(src, a, doc)
    ensures KeysDecode(c, doc) <==>
      && KeysRead(c.transparent, src.accounts[a].transparent) && KeysRead(c.orchard, src.accounts[a].orchard)
      && forall i :: i in src.db.taddrs && src.db.taddrs[i].account == a ==>
           c.address(src.db.taddrs[i].data.address) && c.publicKey(src.db.taddrs[i].data.pk)
  {
    DecodesIff(c.transparent, src.accounts[a].transparent);
    DecodesIff(c.orchard, src.accounts[a].orchard);
    assert TAddrsExported(src.db, a, doc.taddrs);
    hide WellFormed, RowsExported, AssetsExported, CategoriesExported, TAddrsExported, Decodes, KeysRead;
    ExportedAddressesDecode(c, src.db, a, doc.taddrs);
  }

  /** The addresses are the same ones in the wallet and in the backup. */
  lemma ExportedAddressesDecode(c: Codec, db: Db, a: nat, s: seq<IOTAddr>)
    requires TAddrsExported(db, a, s)
    ensures (forall j :: 0 <= j < |s| ==> AddressDecodes(c, s[j].data)) <==>
            (forall i :: i in db.taddrs && db.taddrs[i].account == a ==>
               c.address(db.taddrs[i].data.address) && c.publicKey(db.taddrs[i].data.pk))
  {
    forall j | 0 <= j < |s|
      ensures s[j].id in db.taddrs && db.taddrs[s[j].id].account == a && db.taddrs[s[j].id].data == s[j].data
    {
      assert ShowsTAddr(db, a, s[j]);
    }
    hide ShowsTAddr;
  }

  /** What makes an import of the account's backup fail: an asset the wallet has
      outrun, a key or an address that cannot be read, or an address stored
      for an id outside the group of its key generation. */
  ghost predicate Fails(c: Codec, src: Contents, a: nat, base: Contents)
    requires a in src.accounts
  {
    AnyOutrunBy(base.assets, src.assets) || !Readable(c, src, a) || Dkg.OutsideGroup(src.accounts[a].shared)
  }

  /** The account's row comes back, or fails to. */
  lemma AccountComesBack(c: Codec, src: Contents, a: nat, doc: Document, base: Contents)
    requires WellFormed(src, a) && IsExport(src, a, doc)
    ensures
      var account := RestoreAccount(c, PutFolder(base.folders, doc.account.folder).1, doc.account);
      && (!KeysDecode(c, doc) || account.None? <==> !Readable(c, src, a) || Dkg.OutsideGroup(src.accounts[a].shared))
      && (account.Some? ==>
            forall o: Contents, b: nat ::
              o.accounts == base.accounts[b := account.value]
              && o.folders == PutFolder(base.folders, doc.account.folder).0 ==>
                AccountFollows(c, src, a, base, o, b))
  {
    hide WellFormedRows, RowsExported, AssetsExported, CategoriesExported, PutFolder, RestoreAccount, KeysDecode;
    ExportedKeysDecode(c, src, a, doc);
    AccountRestored(c, src, a, base.folders, doc.account);
  }

  /** Importing the export of a well-formed account fails exactly for one of
      these reasons; otherwise it adds a faithful copy of the account. */
  lemma ExportThenImport(c: Codec, d: Derivation, src: Contents, a: nat, doc: Document, base: Contents) returns (r: Ren)
    requires WellFormed(src, a) && Consistent(d, src.assets) && IsExport(src, a, doc)
    requires Integrity(base.db) && Consistent(d, base.assets) && UniqueNames(base.categories)
    ensures Restored(c, base, doc).None? <==> Fails(c, src, a, base)
    ensures Restored(c, base, doc).Some? ==> Restores(c, d, src, a, base, Restored(c, base, doc).value, r)
  {
    hide WellFormedRows, RowsExported, Consistent, AssetsExported, CategoriesExported, CopyAdded, Integrity, KeysDecode,
      AccountExported, Readable, AccountFollows, PutFolder, RestoreAccount, UpsertAll;
    AssetsRestored(d, src.assets, base.assets, doc.assets);
    var (categories, cats) := UpsertAll(base.categories, doc.categories);
    CategoriesRestored(src.categories, base.categories, doc.categories);
    AccountComesBack(c, src, a, doc, base);
    var (folders, folder) := PutFolder(base.folders, doc.account.folder);
    var account := RestoreAccount(c, folder, doc.account);
    r := Start(base.db, cats, map[]).r;
    if !Fails(c, src, a, base) {
      var (assets, names) := RestoreAssets(base.assets, doc.assets).value;
      var end := RowsRestored(src.db, a, doc, base.db, cats, names);
      var o := Contents(base.accounts[r.account := account.value], folders, end.db, categories, assets);
      r := end.r;
      assert Restored(c, base, doc) == Some(o);
      AssetFollows(d, src, a, base, o, r);
      CategoryFollows(src, a, base, o, r);
      BalanceFollows(src, a, base, o, r);
      RestoreKeepsIntegrity(src.db, a, base.db, o.db, r);
    }
  }
}
