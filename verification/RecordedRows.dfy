/** What each step of a wallet's life leaves in the tables, row by row. */
module RecordedRows {
  import opened RowIds
  import opened Tables
  import opened SharedTables
  import opened AccountRecords
  import opened BackupFormat
  import opened Importing
  import opened Lifecycle

  /** The row is stored unless one is there. */
  ghost predicate PutOnce<K, R>(m: map<K, R>, m': map<K, R>, k: K, row: R) {
    m' == if k in m then m else m[k := row]
  }

  lemma AddressRecorded(db: Db, t: TAddr) returns (id: nat)
    ensures
      var db' := Changed(db, Address(t));
      if exists i :: i in db.taddrs && db.taddrs[i].account == t.account && db.taddrs[i].scope == t.scope
                     && db.taddrs[i].dindex == t.dindex
      then db' == db else id !in db.taddrs && db' == db.(taddrs := db.taddrs[id := t])
  {
    id := NextId(db.taddrs.Keys);
  }

  lemma TransactionRecorded(db: Db, t: Tx) returns (id: nat)
    ensures
      var db' := Changed(db, Transaction(t));
      if exists i :: i in db.transactions && db.transactions[i].account == t.account
                     && db.transactions[i].txid == t.txid
      then db' == db else id !in db.transactions && db' == db.(transactions := db.transactions[id := t])
  {
    id := NextId(db.transactions.Keys);
  }

  lemma NoteRecorded(db: Db, n: Note) returns (id: nat)
    ensures
      var db' := Changed(db, Receive(n));
      if exists i :: i in db.notes && db.notes[i].account == n.account && db.notes[i].nullifier == n.nullifier
      then db' == db else id !in db.notes && db' == db.(notes := db.notes[id := n])
  {
    id := NextId(db.notes.Keys);
  }

  lemma OutputRecorded(db: Db, o: Output) returns (id: nat)
    ensures
      var db' := Changed(db, Pay(o));
      if exists i :: i in db.outputs && db.outputs[i].tx == o.tx && db.outputs[i].pool == o.pool
                     && db.outputs[i].vout == o.vout
      then db' == db else id !in db.outputs && db' == db.(outputs := db.outputs[id := o])
  {
    id := NextId(db.outputs.Keys);
    assert forall p: Output :: SameOutput(p, o) <==> p.tx == o.tx && p.pool == o.pool && p.vout == o.vout;
  }

  lemma MemoRecorded(db: Db, k: MemoKey, m: Memo)
    ensures
      var db' := Changed(db, Decrypt(k, m));
      db' == db.(memos := db'.memos) && PutOnce(db.memos, db'.memos, k, m)
  {}

  /** A spend of a note of the account: the first spend stays, and the note is
      unlocked. */
  lemma SpendRecorded(db: Db, a: nat, note: nat, s: Spend)
    ensures
      var db' := Changed(db, SpendNote(a, note, s));
      if note in db.notes && db.notes[note].account == a then
        && db' == db.(spends := db'.spends, notes := db'.notes) && PutOnce(db.spends, db'.spends, note, s)
        && db'.notes == db.notes[note := db.notes[note].(locked := false)]
      else db' == db
  {}

  /** A user memo on a transaction of the account stands at its height. */
  lemma UserMemoRecorded(db: Db, a: nat, tx: nat, text: string)
    ensures
      var db' := Changed(db, Remark(a, tx, text));
      if tx in db.transactions && db.transactions[tx].account == a then
        && db' == db.(userMemos := db'.userMemos)
        && PutOnce(db.userMemos, db'.userMemos, OfAccount(a, tx), UserMemo(db.transactions[tx].height, text))
      else db' == db
  {}

  lemma HeaderRecorded(db: Db, a: nat, height: nat, h: Header)
    ensures
      var db' := Changed(db, Block(a, height, h));
      db' == db.(headers := db'.headers) && PutOnce(db.headers, db'.headers, OfAccount(a, height), h)
  {}

  lemma WitnessRecorded(db: Db, a: nat, note: nat, height: nat, path: Blob)
    ensures
      var db' := Changed(db, Attest(a, note, height, path));
      if note in db.notes && db.notes[note].account == a then
        && db' == db.(witnesses := db'.witnesses)
        && PutOnce(db.witnesses, db'.witnesses, WitnessKey(note, height), Witness(a, path))
      else db' == db
  {}

  lemma CheckpointRecorded(db: Db, a: nat, pool: nat, height: nat)
    ensures
      var db' := Changed(db, Checkpoint(a, pool, height));
      db' == db.(syncHeights := db.syncHeights[OfAccount(a, pool) := height])
  {}

  /** A recorded row and a restored account change nothing else; a restore that
      fails changes nothing. */
  lemma Taken(c: Codec, w: Contents, change: Change, src: Contents, a: nat, doc: Document)
    ensures Next(c, w, Record(change)) == w.(db := Changed(w.db, change))
    ensures Next(c, w, Import(src, a, doc)) == if Restored(c, w, doc).None? then w else Restored(c, w, doc).value
  {}

  // ---------------------------------------------------------------------
  // Removing

  /** Exactly the rows that a condition does not reach are left, as they were. */
  ghost predicate Left<K(!new), R>(m: map<K, R>, m': map<K, R>, gone: (K, R) -> bool) {
    && (forall k :: k in m' <==> k in m && !gone(k, m[k]))
    && forall k :: k in m' ==> m'[k] == m[k]
  }

  lemma WitnessesPruned(db: Db, a: nat, height: nat)
    ensures
      var db' := Changed(db, Prune(a, height));
      && db' == db.(witnesses := db'.witnesses)
      && Left(db.witnesses, db'.witnesses, (k: WitnessKey, w: Witness) => w.account == a && k.height < height)
  {}

  /** A rewind leaves nothing of the account above the height and everything
      else, */
  lemma Rewound(db: Db, a: nat, h: nat)
    ensures
      var db' := Changed(db, Rewind(a, h));
      && db'.positions == db.positions && db'.taddrs == db.taddrs
      && Left(db.transactions, db'.transactions, (i: nat, t: Tx) => t.account == a && t.height > h)
      && Left(db.notes, db'.notes, (i: nat, n: Note) => n.account == a && n.height > h)
      && Left(db.spends, db'.spends, (i: nat, s: Spend) => s.account == a && s.height > h)
      && Left(db.outputs, db'.outputs, (i: nat, o: Output) => o.account == a && o.height > h)
  {}

  /** and its checkpoints stand at the height. */
  lemma RewoundBesides(db: Db, a: nat, h: nat)
    ensures
      var db' := Changed(db, Rewind(a, h));
      && Left(db.memos, db'.memos, (k: MemoKey, m: Memo) => m.account == a && m.height > h)
      && Left(db.userMemos, db'.userMemos, (k: OfAccount, u: UserMemo) => k.account == a && u.height > h)
      && Left(db.headers, db'.headers, (k: OfAccount, r: Header) => k.account == a && k.key > h)
      && Left(db.witnesses, db'.witnesses, (k: WitnessKey, w: Witness) => w.account == a && k.height > h)
      && db'.syncHeights.Keys == db.syncHeights.Keys
      && forall k :: k in db.syncHeights ==> db'.syncHeights[k] == if k.account == a then h else db.syncHeights[k]
  {}

  /** A deletion leaves nothing of the account and everything of the others. */
  lemma Deleted(c: Codec, w: Contents, a: nat)
    ensures
      var w' := Next(c, w, Delete(a));
      var db, db' := w.db, w'.db;
      && w' == w.(accounts := w'.accounts, db := db')
      && Left(w.accounts, w'.accounts, (i: nat, r: Account) => i == a)
      && Left(db.positions, db'.positions, (i: nat, p: nat) => i == a)
      && Left(db.taddrs, db'.taddrs, (i: nat, t: TAddr) => t.account == a)
      && Left(db.syncHeights, db'.syncHeights, (k: OfAccount, h: nat) => k.account == a)
      && Left(db.transactions, db'.transactions, (i: nat, t: Tx) => t.account == a)
      && Left(db.notes, db'.notes, (i: nat, n: Note) => n.account == a)
      && Left(db.spends, db'.spends, (i: nat, s: Spend) => s.account == a)
      && Left(db.outputs, db'.outputs, (i: nat, o: Output) => o.account == a)
      && Left(db.memos, db'.memos, (k: MemoKey, m: Memo) => m.account == a)
      && Left(db.userMemos, db'.userMemos, (k: OfAccount, u: UserMemo) => k.account == a)
      && Left(db.headers, db'.headers, (k: OfAccount, h: Header) => k.account == a)
      && Left(db.witnesses, db'.witnesses, (k: WitnessKey, t: Witness) => t.account == a)
  {}

  // ---------------------------------------------------------------------
  // Accounts, assets and categories

  /** A new account has a new id, the columns it was created with, no rows, and
      the place after every other. */
  lemma Created(c: Codec, w: Contents, account: Account) returns (id: nat)
    requires w.accounts.Keys == w.db.positions.Keys
    ensures
      var w' := Next(c, w, Create(account));
      && id !in w.accounts && w' == w.(accounts := w.accounts[id := account], db := w'.db)
      && w'.db == w.db.(positions := w'.db.positions) && w'.db.positions.Keys == w.db.positions.Keys + {id}
      && (forall i :: i in w.db.positions ==>
           i < id && w'.db.positions[i] == w.db.positions[i] < w'.db.positions[id])
      && (w'.db.positions[id] == 1 || exists i :: i in w.db.positions && w'.db.positions[id] == w.db.positions[i] + 1)
  {
    id := NextId(w.db.positions.Keys);
    forall i | i in w.db.positions
      ensures w.db.positions[i] in w.db.positions.Values
    {}
  }

  /** A genuine asset is known afterwards: a new one with its columns, one seen
      in a transfer with its identity, and one issued as it was. */
  lemma Issued(c: Codec, d: Derivation, w: Contents, x: Asset) returns (id: nat)
    requires Consistent(d, w.assets) && Genuine(d, x)
    ensures
      var w' := Next(c, w, Issue(x));
      && w' == w.(assets := w'.assets) && id in w'.assets && w'.assets[id].base == x.base
      && RowOf(w.assets, id, x, w'.assets[id])
      && (forall i :: i in w.assets && i != id ==> i in w'.assets && w'.assets[i] == w.assets[i])
      && forall i :: i in w'.assets && i != id ==> i in w.assets
  {
    id := RecordedRow(d, w.assets, x);
  }

  lemma Named(c: Codec, w: Contents, x: Category) returns (id: nat)
    ensures
      var w' := Next(c, w, Name(x));
      if exists i :: i in w.categories && w.categories[i].name == x.name then w' == w
      else id !in w.categories && w' == w.(categories := w.categories[id := x])
  {
    var known := WithName(w.categories, x.name);
    id := NextId(w.categories.Keys);
    assert forall i :: i in w.categories && w.categories[i].name == x.name <==> i in known;
  }
}
