/** What a restored copy of an account holds, column by column. */
module CopiedColumns {
  import opened Wrappers
  import opened Tables
  import opened Restore
  import opened Backup

  /** The name of a row, or of no row. */
  ghost predicate Follows(names: map<nat, nat>, x: Option<nat>, y: Option<nat>) {
    if x.None? then y.None? else x.value in names && y == Some(names[x.value])
  }

  /** Both refer to no row, or the copy to what the row was renamed to, if it
      was. */
  ghost predicate FollowsIfNamed(names: map<nat, nat>, x: Option<nat>, y: Option<nat>) {
    y == if x.Some? && x.value in names then Some(names[x.value]) else None
  }

  ghost predicate TAddrCopied(r: Ren, s: TAddr, t: TAddr) {
    t.account == r.account && t.scope == s.scope && t.dindex == s.dindex && t.data == s.data
  }

  ghost predicate TxCopied(r: Ren, s: Tx, t: Tx) {
    && t.account == r.account && t.txid == s.txid && t.height == s.height && t.data == s.data
    && FollowsIfNamed(r.cats, s.category, t.category)
  }

  ghost predicate NoteCopied(r: Ren, m: Note, n: Note) {
    && n.account == r.account && m.tx in r.txs && n.tx == r.txs[m.tx] && n.height == m.height && n.pool == m.pool
    && n.nullifier == m.nullifier && n.value == m.value && n.data == m.data
    && Follows(r.taddrs, m.taddress, n.taddress) && FollowsIfNamed(r.assets, m.asset, n.asset)
  }

  ghost predicate OutputCopied(r: Ren, o: Output, p: Output) {
    && p.account == r.account && o.tx in r.txs && p.tx == r.txs[o.tx] && p.height == o.height && p.pool == o.pool
    && p.vout == o.vout && p.value == o.value && p.address == o.address
  }

  ghost predicate SpendCopied(r: Ren, s: Spend, t: Spend) {
    && t.account == r.account && s.tx in r.txs && t.tx == r.txs[s.tx] && t.height == s.height && t.pool == s.pool
    && t.value == s.value
  }

  ghost predicate MemoCopied(r: Ren, m: Memo, n: Memo) {
    && n.account == r.account && n.height == m.height && n.text == m.text && n.bytes == m.bytes
    && Follows(r.notes, m.note, n.note) && Follows(r.outputs, m.output, n.output)
  }

  lemma AddressColumns(src: Db, a: nat, base: Db, db: Db, r: Ren, i: nat)
    requires CopyAdded(src, a, base, db, r) && i in src.taddrs && src.taddrs[i].account == a
    ensures i in r.taddrs && r.taddrs[i] in db.taddrs && TAddrCopied(r, src.taddrs[i], db.taddrs[r.taddrs[i]])
  {
    assert i in AccountRows(src, a).taddrs;
  }

  lemma SyncColumns(src: Db, a: nat, base: Db, db: Db, r: Ren, pool: nat)
    requires CopyAdded(src, a, base, db, r) && OfAccount(a, pool) in src.syncHeights
    ensures OfAccount(r.account, pool) in db.syncHeights
    ensures db.syncHeights[OfAccount(r.account, pool)] == src.syncHeights[OfAccount(a, pool)]
  {
    assert OfAccount(a, pool).key == pool && pool in AccountRows(src, a).syncs;
  }

  lemma TxColumns(src: Db, a: nat, base: Db, db: Db, r: Ren, i: nat)
    requires CopyAdded(src, a, base, db, r) && i in src.transactions && src.transactions[i].account == a
    ensures i in r.txs && r.txs[i] in db.transactions && TxCopied(r, src.transactions[i], db.transactions[r.txs[i]])
  {
    assert i in AccountRows(src, a).txs;
  }

  lemma NoteColumns(src: Db, a: nat, base: Db, db: Db, r: Ren, i: nat)
    requires CopyAdded(src, a, base, db, r) && i in src.notes && src.notes[i].account == a
    ensures i in r.notes && r.notes[i] in db.notes && NoteCopied(r, src.notes[i], db.notes[r.notes[i]])
  {
    assert i in AccountRows(src, a).notes && NoteClosed(r, src.notes[i]);
  }

  lemma OutputColumns(src: Db, a: nat, base: Db, db: Db, r: Ren, i: nat)
    requires CopyAdded(src, a, base, db, r) && i in src.outputs && src.outputs[i].account == a
    ensures i in r.outputs && r.outputs[i] in db.outputs && OutputCopied(r, src.outputs[i], db.outputs[r.outputs[i]])
  {
    assert i in AccountRows(src, a).outputs;
  }

  lemma SpendColumns(src: Db, a: nat, base: Db, db: Db, r: Ren, i: nat)
    requires CopyAdded(src, a, base, db, r) && i in src.spends && src.spends[i].account == a
    ensures i in r.notes && r.notes[i] in db.spends && SpendCopied(r, src.spends[i], db.spends[r.notes[i]])
  {
    assert i in AccountRows(src, a).spends && SpendName(r, i) in db.spends;
  }

  lemma MemoHeld(src: Db, r: Ren, base: map<MemoKey, Memo>, cur: map<MemoKey, Memo>, ids: set<MemoKey>, k: MemoKey)
    requires MemosHold(src, r, base, cur, ids) && k in ids
    ensures k in src.memos && k.tx in r.txs && MemoKey(r.txs[k.tx], k.pool, k.vout) in cur
    ensures MemoCopied(r, src.memos[k], cur[MemoKey(r.txs[k.tx], k.pool, k.vout)])
  {
    assert MemoClosed(r, src.memos[k]);
  }

  /** A memo of a note or an output. */
  lemma MemoColumns(src: Db, a: nat, base: Db, db: Db, r: Ren, k: MemoKey)
    requires CopyAdded(src, a, base, db, r) && k in src.memos && src.memos[k].account == a
    requires src.memos[k].note.Some? || src.memos[k].output.Some?
    ensures k.tx in r.txs && MemoKey(r.txs[k.tx], k.pool, k.vout) in db.memos
    ensures MemoCopied(r, src.memos[k], db.memos[MemoKey(r.txs[k.tx], k.pool, k.vout)])
  {
    hide MemosHold, MemoCopied;
    MemoHeld(src, r, base.memos, db.memos, AccountRows(src, a).memos, k);
  }

  lemma UserMemoColumns(src: Db, a: nat, base: Db, db: Db, r: Ren, tx: nat)
    requires CopyAdded(src, a, base, db, r) && OfAccount(a, tx) in src.userMemos
    ensures tx in r.txs && OfAccount(r.account, r.txs[tx]) in db.userMemos
    ensures db.userMemos[OfAccount(r.account, r.txs[tx])] == src.userMemos[OfAccount(a, tx)]
  {
    assert OfAccount(a, tx).key == tx && tx in AccountRows(src, a).userMemos && UserMemoName(r, tx) in db.userMemos;
  }

  lemma WitnessHeld(src: Db, r: Ren, base: map<WitnessKey, Witness>, cur: map<WitnessKey, Witness>,
                    ids: set<WitnessKey>, k: WitnessKey)
    requires WitnessesHold(src, r, base, cur, ids) && k in ids
    ensures k in src.witnesses && k.note in r.notes && WitnessKey(r.notes[k.note], k.height) in cur
    ensures cur[WitnessKey(r.notes[k.note], k.height)] == Witness(r.account, src.witnesses[k].path)
  {}

  lemma WitnessColumns(src: Db, a: nat, base: Db, db: Db, r: Ren, k: WitnessKey)
    requires CopyAdded(src, a, base, db, r) && k in src.witnesses && src.witnesses[k].account == a
    ensures k.note in r.notes && WitnessKey(r.notes[k.note], k.height) in db.witnesses
    ensures db.witnesses[WitnessKey(r.notes[k.note], k.height)] == Witness(r.account, src.witnesses[k].path)
  {
    hide WitnessesHold;
    WitnessHeld(src, r, base.witnesses, db.witnesses, AccountRows(src, a).witnesses, k);
  }

  /** The header at the height of a witness. */
  lemma HeaderColumns(src: Db, a: nat, base: Db, db: Db, r: Ren, k: WitnessKey)
    requires CopyAdded(src, a, base, db, r) && k in src.witnesses && src.witnesses[k].account == a
    requires OfAccount(a, k.height) in src.headers
    ensures OfAccount(r.account, k.height) in db.headers
    ensures db.headers[OfAccount(r.account, k.height)] == src.headers[OfAccount(a, k.height)]
  {
    assert OfAccount(a, k.height).key == k.height && Witnessed(src, a, k.height);
    assert k.height in AccountRows(src, a).headers;
  }
}
