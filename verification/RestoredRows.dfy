/** What a restore does with one row of any document, also of one that no export
    has made: the row it stores, and when it fails. */
module RestoredRows {
  import opened Wrappers
  import opened RowIds
  import opened Tables
  import opened SharedTables
  import opened BackupFormat
  import opened AccountRecords
  import Backup
  import opened Restore
  import opened CopiedColumns
  import opened Importing
  import Dkg

  // ---------------------------------------------------------------------
  // One row

  /** An address whose place in the account is taken fails. */
  lemma AddressRestored(st: St, t: IOTAddr) returns (id: nat)
    ensures
      var db, r := st.db, st.r;
      if exists i :: i in db.taddrs && db.taddrs[i].account == r.account && db.taddrs[i].scope == t.scope
                     && db.taddrs[i].dindex == t.dindex
      then Step(st, TAddrItem(t)).None?
      else
        && id !in db.taddrs
        && Step(st, TAddrItem(t)) == Some(St(
             db.(taddrs := db.taddrs[id := TAddr(r.account, t.scope, t.dindex, t.data)]),
             r.(taddrs := r.taddrs[t.id := id])))
  {
    id := NextId(st.db.taddrs.Keys);
  }

  lemma SyncRestored(st: St, s: IOSync)
    ensures Step(st, SyncItem(s)) == Some(St(
      st.db.(syncHeights := st.db.syncHeights[OfAccount(st.r.account, s.pool) := s.height]), st.r))
  {}

  /** A transaction that the account has already fails. An unknown category is
      none. */
  lemma TransactionRestored(st: St, t: IOTransaction) returns (id: nat, category: Option<nat>)
    ensures FollowsIfNamed(st.r.cats, t.category, category)
    ensures
      var db, r := st.db, st.r;
      if exists i :: i in db.transactions && db.transactions[i].account == r.account
                     && db.transactions[i].txid == t.txid
      then Step(st, TxItem(t)).None?
      else
        && id !in db.transactions
        && Step(st, TxItem(t)) == Some(St(
             db.(transactions := db.transactions[id := Tx(r.account, t.txid, t.height, t.data, category)]),
             r.(txs := r.txs[t.id := id])))
  {
    id := NextId(st.db.transactions.Keys);
    category := Look(st.r.cats, t.category);
  }

  /** A note of a transaction that is not there, or one that the account has
      already, fails. An unknown address or asset is none. */
  lemma NoteRestored(st: St, tx: nat, n: IONote) returns (id: nat, row: Note)
    ensures FollowsIfNamed(st.r.taddrs, n.taddress, row.taddress) && FollowsIfNamed(st.r.assets, n.asset, row.asset)
    ensures
      var db, r := st.db, st.r;
      if tx !in r.txs
         || exists i :: i in db.notes && db.notes[i].account == r.account && db.notes[i].nullifier == n.nullifier
      then Step(st, NoteItem(tx, n)).None?
      else
        && id !in db.notes && row.account == r.account && row.tx == r.txs[tx] && row.height == n.height
        && row.pool == n.pool && row.nullifier == n.nullifier && row.value == AsI64(n.value) && row.locked == n.locked
        && row.data == n.data
        && Step(st, NoteItem(tx, n)) == Some(St(db.(notes := db.notes[id := row]), r.(notes := r.notes[n.id := id])))
  {
    id := NextId(st.db.notes.Keys);
    row := Note(st.r.account, To(st.r.txs, tx), n.height, n.pool, n.nullifier, AsI64(n.value),
                Look(st.r.taddrs, n.taddress), n.locked, Look(st.r.assets, n.asset), n.data);
  }

  /** An output of a transaction that is not there fails; one whose place is
      taken is the one that has it. */
  lemma OutputRestored(st: St, tx: nat, o: IOOutput) returns (id: nat)
    ensures
      var db, r := st.db, st.r;
      if tx !in r.txs then Step(st, OutputItem(tx, o)).None?
      else if exists i :: i in db.outputs && db.outputs[i].tx == r.txs[tx] && db.outputs[i].pool == o.pool
                          && db.outputs[i].vout == o.vout
      then
        && id in db.outputs && db.outputs[id].tx == r.txs[tx] && db.outputs[id].pool == o.pool
        && db.outputs[id].vout == o.vout
        && Step(st, OutputItem(tx, o)) == Some(St(db, r.(outputs := r.outputs[o.id := id])))
      else
        && id !in db.outputs
        && Step(st, OutputItem(tx, o)) == Some(St(
             db.(outputs := db.outputs[id :=
               Output(r.account, r.txs[tx], o.height, o.pool, o.vout, AsI64(o.value), o.address)]),
             r.(outputs := r.outputs[o.id := id])))
  {
    if tx in st.r.txs {
      var row := Output(st.r.account, st.r.txs[tx], o.height, o.pool, o.vout, AsI64(o.value), o.address);
      assert forall p: Output :: SameOutput(p, row) <==> p.tx == row.tx && p.pool == o.pool && p.vout == o.vout;
      id := RecordOutput(st.db, row).1;
    } else {
      id := 0;
    }
  }

  /** A memo of a transaction that is not there fails; one whose place is taken
      changes nothing. */
  lemma MemoRestored(st: St, k: MemoKey, height: nat, note: Option<nat>, output: Option<nat>, text: Option<string>,
                     bytes: Blob)
    returns (row: Memo)
    ensures FollowsIfNamed(st.r.notes, note, row.note) && FollowsIfNamed(st.r.outputs, output, row.output)
    ensures row == Memo(st.r.account, height, row.note, row.output, text, bytes)
    ensures
      var next := Step(st, MemoItem(k, height, note, output, text, bytes));
      if k.tx !in st.r.txs then next.None?
      else
        var key := MemoKey(st.r.txs[k.tx], k.pool, k.vout);
        next == if key in st.db.memos then Some(st) else Some(St(st.db.(memos := st.db.memos[key := row]), st.r))
  {
    row := Memo(st.r.account, height, Look(st.r.notes, note), Look(st.r.outputs, output), text, bytes);
  }

  /** A spend in a transaction that is not there, or of a note that is not there
      or is another account's, fails. A spent note is unlocked. */
  lemma SpendRestored(st: St, tx: nat, s: IOSpend)
    ensures
      var db, r := st.db, st.r;
      if tx !in r.txs || s.note !in r.notes || r.notes[s.note] !in db.notes
         || db.notes[r.notes[s.note]].account != r.account
      then Step(st, SpendItem(tx, s)).None?
      else
        var note := r.notes[s.note];
        var row := Spend(r.account, r.txs[tx], s.height, s.pool, AsI64(s.value));
        Step(st, SpendItem(tx, s)) == Some(St(
          db.(spends := if note in db.spends then db.spends else db.spends[note := row],
              notes := db.notes[note := db.notes[note].(locked := false)]), r))
  {}

  /** A user memo of a transaction that is not there, or is another account's,
      is skipped; a second one fails. */
  lemma UserMemoRestored(st: St, u: IOUserMemo)
    ensures
      var db, r := st.db, st.r;
      if u.tx !in r.txs || r.txs[u.tx] !in db.transactions || db.transactions[r.txs[u.tx]].account != r.account
      then Step(st, UserMemoItem(u)) == Some(st)
      else
        var k := OfAccount(r.account, r.txs[u.tx]);
        Step(st, UserMemoItem(u)) ==
          if k in db.userMemos then None
          else Some(St(db.(userMemos := db.userMemos[k := UserMemo(db.transactions[k.key].height, u.text)]), r))
  {}

  lemma HeaderRestored(st: St, height: nat, h: Header)
    ensures
      var k := OfAccount(st.r.account, height);
      Step(st, HeaderItem(height, h)) ==
        if k in st.db.headers then Some(st) else Some(St(st.db.(headers := st.db.headers[k := h]), st.r))
  {}

  /** A witness of a note that is not there or is another account's, or a second
      one at its height, fails. */
  lemma WitnessRestored(st: St, w: IOWitness)
    ensures
      var db, r := st.db, st.r;
      if w.note !in r.notes || r.notes[w.note] !in db.notes || db.notes[r.notes[w.note]].account != r.account
         || WitnessKey(r.notes[w.note], w.height) in db.witnesses
      then Step(st, WitnessItem(w)).None?
      else
        var k := WitnessKey(r.notes[w.note], w.height);
        Step(st, WitnessItem(w)) == Some(St(db.(witnesses := db.witnesses[k := Witness(r.account, w.path)]), r))
  {}

  // ---------------------------------------------------------------------
  // All rows

  /** The states that restoring rows one by one goes through. */
  ghost predicate OneByOne(st: St, items: seq<Item>, states: seq<St>) {
    && |states| == |items| + 1 && states[0] == st
    && forall i :: 0 <= i < |items| ==> Step(states[i], items[i]) == Some(states[i + 1])
  }

  lemma {:induction false} RunStates(st: St, items: seq<Item>) returns (states: seq<St>)
    requires Run(st, items).Some?
    ensures OneByOne(st, items, states) && Run(st, items) == Some(states[|items|])
  {
    hide Step;
    if items == [] {
      states := [st];
    } else {
      var init := RunStates(st, items[..|items| - 1]);
      states := init + [Run(st, items).value];
      forall i | 0 <= i < |items|
        ensures Step(states[i], items[i]) == Some(states[i + 1])
      {
        if i < |items| - 1 { assert items[..|items| - 1][i] == items[i]; }
      }
    }
  }

  lemma {:induction false} StatesAreRun(st: St, items: seq<Item>, states: seq<St>)
    requires OneByOne(st, items, states)
    ensures Run(st, items) == Some(states[|items|])
  {
    hide Step;
    if items != [] {
      var init := items[..|items| - 1];
      assert forall i :: 0 <= i < |init| ==> init[i] == items[i];
      StatesAreRun(st, init, states[..|items|]);
    }
  }

  // ---------------------------------------------------------------------
  // A whole document

  /** A restore begins with a new account in the first place, the others one
      further down, and no row renamed yet. */
  lemma Begins(base: Db, cats: map<nat, nat>, assets: map<nat, nat>) returns (id: nat)
    ensures
      var st := Backup.Start(base, cats, assets);
      && id !in base.positions && st.r == Ren(id, cats, assets, map[], map[], map[], map[])
      && st.db == base.(positions := st.db.positions) && st.db.positions.Keys == base.positions.Keys + {id}
      && st.db.positions[id] == 1 && forall i :: i in base.positions ==> st.db.positions[i] == base.positions[i] + 1
  {
    id := NextId(base.positions.Keys);
  }

  ghost predicate KeysOfDocument(c: Codec, doc: Document) {
    && KeysRead(c.transparent, doc.account.transparent) && KeysRead(c.orchard, doc.account.orchard)
    && forall j :: 0 <= j < |doc.taddrs| ==>
         c.address(doc.taddrs[j].data.address) && c.publicKey(doc.taddrs[j].data.pk)
  }

  ghost predicate NoSaplingAddress(c: Codec, io: IOAccount) {
    io.sapling.Some? && !exists address :: SaplingAt(c, io.sapling.value, io.dindex, address)
  }

  /** A restore fails exactly when a key or an address cannot be read, an asset
      is not found again, the Sapling keys give no address, the key-generation
      sections fail, or one of the rows does. */
  lemma RestoreFailsIff(c: Codec, w: Contents, doc: Document)
    ensures Restored(c, w, doc).None? <==>
      || !KeysOfDocument(c, doc) || NoSaplingAddress(c, doc.account) || RestoreAssets(w.assets, doc.assets).None?
      || Dkg.RestoreShared(c.text, doc.account.shared).None?
      || Run(Backup.Start(w.db, UpsertAll(w.categories, doc.categories).1, RestoreAssets(w.assets, doc.assets).value.1),
             Items(doc)).None?
  {
    DecodesIff(c.transparent, doc.account.transparent);
    DecodesIff(c.orchard, doc.account.orchard);
    if doc.account.sapling.Some? { SaplingAtIff(c, doc.account.sapling.value, doc.account.dindex); }
    hide Run, Items, Backup.Start, UpsertAll, RestoreAssets, Dkg.RestoreShared;
    hide Decodes, KeysRead, SaplingAt, SaplingAddress;
  }

  ghost predicate HasIdentity(row: Asset, x: Asset) { row.descHash == x.descHash && row.ik == x.ik }

  /** An asset is found again when the table took it and some row has its
      identity. */
  lemma AssetFoundIff(m: map<nat, Asset>, x: Asset)
    ensures
      var recorded, restored := RecordAsset(m, x), RestoreAsset(m, x);
      && (restored.Some? <==>
            recorded.Some? && exists i :: i in recorded.value && HasIdentity(recorded.value[i], x))
      && (restored.Some? ==>
            var (m', id) := restored.value;
            m' == recorded.value && id in m' && HasIdentity(m'[id], x))
  {
    hide RecordAsset;
    if RecordAsset(m, x).Some? {
      var m' := RecordAsset(m, x).value;
      assert forall i :: i in m' && SameIdentity(m'[i], x) ==> i in WithIdentity(m', x);
    }
  }
}
