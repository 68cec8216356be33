/** The tables that record what the chain says about the accounts of a wallet,
    and the statements that write them. A table keyed by an id is a map from
    ids; a table whose id nothing refers to is a map from its unique columns. */
module Tables {
  import opened Wrappers
  import opened RowIds
  import Dkg

  type I64 = x: int | -0x8000_0000_0000_0000 <= x < 0x8000_0000_0000_0000
  type U64 = x: nat | x < 0x1_0000_0000_0000_0000

  type Blob = string

  datatype TxData = TxData(time: nat, details: bool, tpe: nat, value: I64, fee: nat, price: Option<real>)
  datatype NoteData = NoteData(scope: Option<nat>, cmx: Option<Blob>, position: Option<nat>,
    diversifier: Option<Blob>, rcm: Option<Blob>, rho: Option<Blob>)
  datatype TAddrData = TAddrData(sk: Option<Blob>, pk: Blob, address: string, uncompressed: bool)

  datatype TAddr = TAddr(account: nat, scope: nat, dindex: nat, data: TAddrData)
  datatype Tx = Tx(account: nat, txid: Blob, height: nat, data: TxData, category: Option<nat>)
  datatype Note = Note(account: nat, tx: nat, height: nat, pool: nat, nullifier: Blob, value: I64,
    taddress: Option<nat>, locked: bool, asset: Option<nat>, data: NoteData)
  datatype Spend = Spend(account: nat, tx: nat, height: nat, pool: nat, value: I64)
  datatype Output = Output(account: nat, tx: nat, height: nat, pool: nat, vout: nat, value: I64, address: string)
  datatype Memo = Memo(account: nat, height: nat, note: Option<nat>, output: Option<nat>, text: Option<string>,
                       bytes: Blob)
  datatype UserMemo = UserMemo(height: nat, text: string)
  datatype Header = Header(hash: Blob, time: nat)
  datatype Witness = Witness(account: nat, path: Blob)

  /** What all accounts share: categories, one per name; and assets, one per
      base and one per description hash and issuer key. */
  datatype Category = Category(name: string, income: bool)
  datatype Asset = Asset(descHash: Blob, ik: Blob, base: Blob, name: Option<string>, finalized: bool, firstSeen: nat)

  datatype MemoKey = MemoKey(tx: nat, pool: nat, vout: nat)
  datatype WitnessKey = WitnessKey(note: nat, height: nat)
  /** A row of an account: by pool, by height or by transaction. */
  datatype OfAccount = OfAccount(account: nat, key: nat)

  datatype Db = Db(
    positions: map<nat, nat>,
    taddrs: map<nat, TAddr>,
    syncHeights: map<OfAccount, nat>,
    transactions: map<nat, Tx>,
    notes: map<nat, Note>,
    spends: map<nat, Spend>,
    outputs: map<nat, Output>,
    memos: map<MemoKey, Memo>,
    userMemos: map<OfAccount, UserMemo>,
    headers: map<OfAccount, Header>,
    witnesses: map<WitnessKey, Witness>)

  /** The columns of an account that a backup copies as they are. */
  datatype AccountData = AccountData(name: string, seed: Option<string>, passphrase: string, fingerprint: Option<Blob>,
    aindex: nat, defDindex: nat, icon: Option<Blob>, birth: nat, useInternal: bool, hidden: bool, saved: bool,
    enabled: bool, internal: bool, hw: nat)

  /** The keys of one pool. */
  datatype KeyRow = KeyRow(xsk: Option<Blob>, xvk: Option<Blob>, ivk: Option<Blob>)
  datatype SaplingRow = SaplingRow(keys: KeyRow, address: string)

  /** An account, and the rows that other tables hold at most one of per
      account: its keys, and its part in a key generation. */
  datatype Account = Account(data: AccountData, dindex: nat, folder: Option<nat>,
    transparent: Option<KeyRow>, sapling: Option<SaplingRow>, orchard: Option<KeyRow>, shared: Dkg.Shared)

  /** A whole wallet: the accounts and their folders, what the chain says about
      them, and what all accounts share. */
  datatype Contents = Contents(accounts: map<nat, Account>, folders: map<nat, string>, db: Db,
    categories: map<nat, Category>, assets: map<nat, Asset>)

  // ---------------------------------------------------------------------
  // Statements. None is a conflict with a unique constraint, or a missing row.

  function InsertTAddr(db: Db, t: TAddr): Option<(Db, nat)> {
    if exists i :: i in db.taddrs && db.taddrs[i].account == t.account && db.taddrs[i].scope == t.scope
                   && db.taddrs[i].dindex == t.dindex then None
    else
      var id := NextId(db.taddrs.Keys);
      Some((db.(taddrs := db.taddrs[id := t]), id))
  }

  function SetCheckpoint(db: Db, account: nat, pool: nat, height: nat): Db {
    db.(syncHeights := db.syncHeights[OfAccount(account, pool) := height])
  }

  function RecordTransaction(db: Db, t: Tx): Option<(Db, nat)> {
    if exists i :: i in db.transactions && db.transactions[i].account == t.account && db.transactions[i].txid == t.txid
    then None
    else
      var id := NextId(db.transactions.Keys);
      Some((db.(transactions := db.transactions[id := t]), id))
  }

  function RecordNote(db: Db, n: Note): Option<(Db, nat)> {
    if exists i :: i in db.notes && db.notes[i].account == n.account && db.notes[i].nullifier == n.nullifier
    then None
    else
      var id := NextId(db.notes.Keys);
      Some((db.(notes := db.notes[id := n]), id))
  }

  predicate SameOutput(o: Output, p: Output) {
    o.tx == p.tx && o.pool == p.pool && o.vout == p.vout
  }

  /** The id of the output, stored before or stored now. */
  function RecordOutput(db: Db, o: Output): (Db, nat) {
    if exists i :: i in db.outputs && SameOutput(db.outputs[i], o) then
      (db, TheOutput(db.outputs, o))
    else
      var id := NextId(db.outputs.Keys);
      (db.(outputs := db.outputs[id := o]), id)
  }

  /** The first stored output with these unique columns. */
  function TheOutput(outputs: map<nat, Output>, o: Output): (id: nat)
    requires exists i :: i in outputs && SameOutput(outputs[i], o)
    ensures id in outputs && SameOutput(outputs[id], o)
  {
    var all := set i | i in outputs && SameOutput(outputs[i], o);
    assert all != {} by {
      var i :| i in outputs && SameOutput(outputs[i], o);
      assert i in all;
    }
    Largest(all)
  }

  function RecordMemo(db: Db, k: MemoKey, m: Memo): Db {
    if k in db.memos then db else db.(memos := db.memos[k := m])
  }

  /** Records the spend unless one is there, and releases the note's lock. */
  function RecordSpend(db: Db, account: nat, note: nat, s: Spend): Option<Db> {
    if note in db.notes && db.notes[note].account == account then
      Some(db.(spends := if note in db.spends then db.spends else db.spends[note := s],
               notes := db.notes[note := db.notes[note].(locked := false)]))
    else None
  }

  function InsertUserMemo(db: Db, account: nat, tx: nat, text: string): Option<Db> {
    if tx in db.transactions && db.transactions[tx].account == account then
      if OfAccount(account, tx) in db.userMemos then None
      else Some(db.(userMemos := db.userMemos[OfAccount(account, tx) := UserMemo(db.transactions[tx].height, text)]))
    else Some(db)
  }

  function StoreHeader(db: Db, account: nat, height: nat, h: Header): Db {
    var k := OfAccount(account, height);
    if k in db.headers then db else db.(headers := db.headers[k := h])
  }

  function RecordWitness(db: Db, account: nat, note: nat, height: nat, w: Blob): Option<Db> {
    var k := WitnessKey(note, height);
    if note in db.notes && db.notes[note].account == account && k !in db.witnesses
    then Some(db.(witnesses := db.witnesses[k := Witness(account, w)]))
    else None
  }

  /** Every row belongs to an account of the wallet, and refers to rows that
      are there. */
  ghost predicate Integrity(db: Db) {
    && (forall i :: i in db.taddrs ==> db.taddrs[i].account in db.positions)
    && (forall k :: k in db.syncHeights ==> k.account in db.positions)
    && (forall i :: i in db.transactions ==> db.transactions[i].account in db.positions)
    && (forall i :: i in db.notes ==> db.notes[i].account in db.positions)
    && (forall i :: i in db.spends ==> i in db.notes && db.spends[i].account in db.positions)
    && (forall i :: i in db.outputs ==> db.outputs[i].tx in db.transactions)
    && (forall k :: k in db.memos ==> k.tx in db.transactions)
    && (forall k :: k in db.userMemos ==> k.account in db.positions)
    && (forall k :: k in db.headers ==> k.account in db.positions)
    && (forall k :: k in db.witnesses ==> k.note in db.notes)
  }
}
