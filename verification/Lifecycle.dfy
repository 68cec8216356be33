/** Wallets over their whole life: accounts created, deleted and restored, what
    a sync records of the chain, rewinds. In every state a restore can be
    relied on. */
module Lifecycle {
  import opened Wrappers
  import opened RowIds
  import Positions
  import opened Renaming
  import opened Tables
  import opened BackupFormat
  import opened Restore
  import opened Backup
  import opened Export
  import opened SharedTables
  import opened AccountRecords
  import opened Importing
  import opened RoundTrip
  import Dkg

  // ---------------------------------------------------------------------
  // The invariant: a row refers to rows of its own account, which stand no
  // higher in the chain than it does

  predicate TxIs(db: Db, account: nat, tx: nat, height: nat) {
    tx in db.transactions && db.transactions[tx].account == account && db.transactions[tx].height <= height
  }

  ghost predicate NoteIs(db: Db, account: nat, note: nat, height: nat) {
    note in db.notes && db.notes[note].account == account && db.notes[note].height <= height
  }

  ghost predicate Owned(db: Db) {
    && (forall i :: i in db.taddrs ==> db.taddrs[i].account in db.positions)
    && (forall k :: k in db.syncHeights ==> k.account in db.positions)
    && (forall i :: i in db.transactions ==> db.transactions[i].account in db.positions)
    && (forall k :: k in db.headers ==> k.account in db.positions)
  }

  ghost predicate OnTxs(db: Db) {
    NotesOnTxs(db) && SpendsOnTxs(db) && OutputsOnTxs(db) && MemosOnTxs(db) && UserMemosOnTxs(db)
  }

  ghost predicate NotesOnTxs(db: Db) {
    forall i :: i in db.notes ==> TxIs(db, db.notes[i].account, db.notes[i].tx, db.notes[i].height)
  }

  ghost predicate SpendsOnTxs(db: Db) {
    forall i :: i in db.spends ==> TxIs(db, db.spends[i].account, db.spends[i].tx, db.spends[i].height)
  }

  ghost predicate OutputsOnTxs(db: Db) {
    forall i :: i in db.outputs ==> TxIs(db, db.outputs[i].account, db.outputs[i].tx, db.outputs[i].height)
  }

  ghost predicate MemosOnTxs(db: Db) {
    forall k :: k in db.memos ==> TxIs(db, db.memos[k].account, k.tx, db.memos[k].height)
  }

  ghost predicate UserMemosOnTxs(db: Db) {
    forall k :: k in db.userMemos ==> TxIs(db, k.account, k.key, db.userMemos[k].height)
  }

  ghost predicate OnNotes(db: Db) {
    && (forall i :: i in db.spends ==> NoteIs(db, db.spends[i].account, i, db.spends[i].height))
    && (forall k :: k in db.witnesses ==> NoteIs(db, db.witnesses[k].account, k.note, k.height))
  }

  ghost predicate Sound(db: Db) {
    Owned(db) && OnTxs(db) && OnNotes(db)
  }

  /** The wallet's tables agree on its accounts, and what accounts share is
      unique. */
  ghost predicate SoundWallet(d: Derivation, w: Contents) {
    && Sound(w.db) && w.accounts.Keys == w.db.positions.Keys
    && UniqueNames(w.categories) && Consistent(d, w.assets)
  }

  /** It is more than a restore asks of a wallet. */
  lemma SoundIsEnough(db: Db)
    requires Sound(db)
    ensures Integrity(db)
  {
    forall i | i in db.notes
      ensures db.notes[i].account in db.positions
    {
      assert TxIs(db, db.notes[i].account, db.notes[i].tx, db.notes[i].height);
    }
  }

  // ---------------------------------------------------------------------
  // Steps on the rows

  /** What a sync or a user records, and what a rewind removes. */
  datatype Change =
    | Address(taddr: TAddr)
    | Checkpoint(account: nat, pool: nat, height: nat)
    | Transaction(t: Tx)
    | Receive(n: Note)
    | Pay(o: Output)
    | Decrypt(key: MemoKey, m: Memo)
    | SpendNote(account: nat, note: nat, s: Spend)
    | Remark(account: nat, tx: nat, text: string)
    | Block(account: nat, height: nat, header: Header)
    | Attest(account: nat, note: nat, height: nat, path: Blob)
    | Prune(account: nat, height: nat)
    | Rewind(account: nat, height: nat)

  /** What a caller of the statement has looked up: rows of the same account, no
      higher in the chain. */
  ghost predicate Allowed(db: Db, c: Change) {
    match c
    case Address(t) => t.account in db.positions
    case Checkpoint(a, _, _) => a in db.positions
    case Transaction(t) => t.account in db.positions
    case Receive(n) => TxIs(db, n.account, n.tx, n.height)
    case Pay(o) => TxIs(db, o.account, o.tx, o.height)
    case Decrypt(k, m) => TxIs(db, m.account, k.tx, m.height)
    case SpendNote(a, note, s) =>
      s.account == a && TxIs(db, a, s.tx, s.height) && (note in db.notes ==> db.notes[note].height <= s.height)
    case Remark(_, _, _) => true
    case Block(a, _, _) => a in db.positions
    case Attest(_, note, height, _) => note in db.notes ==> db.notes[note].height <= height
    case Prune(_, _) => true
    case Rewind(_, _) => true
  }

  /** The account's rows above a height go, and its checkpoints move back. */
  function Trimmed(db: Db, a: nat, height: nat): Db {
    db.(transactions := db.transactions
          - (set i | i in db.transactions && db.transactions[i].account == a && db.transactions[i].height > height),
        notes := db.notes - (set i | i in db.notes && db.notes[i].account == a && db.notes[i].height > height),
        spends := db.spends - (set i | i in db.spends && db.spends[i].account == a && db.spends[i].height > height),
        outputs := db.outputs
          - (set i | i in db.outputs && db.outputs[i].account == a && db.outputs[i].height > height),
        memos := db.memos - (set k | k in db.memos && db.memos[k].account == a && db.memos[k].height > height),
        userMemos := db.userMemos - (set k | k in db.userMemos && k.account == a && db.userMemos[k].height > height),
        headers := db.headers - (set k | k in db.headers && k.account == a && k.key > height),
        witnesses := db.witnesses - (set k | k in db.witnesses && db.witnesses[k].account == a && k.height > height),
        syncHeights := map k | k in db.syncHeights :: if k.account == a then height else db.syncHeights[k])
  }

  function Pruned(db: Db, a: nat, height: nat): Db {
    db.(witnesses := db.witnesses - (set k | k in db.witnesses && db.witnesses[k].account == a && k.height < height))
  }

  /** A statement that fails changes nothing. */
  function Changed(db: Db, c: Change): Db {
    match c
    case Address(t) => var r := InsertTAddr(db, t); if r.None? then db else r.value.0
    case Checkpoint(a, pool, h) => SetCheckpoint(db, a, pool, h)
    case Transaction(t) => var r := RecordTransaction(db, t); if r.None? then db else r.value.0
    case Receive(n) => var r := RecordNote(db, n); if r.None? then db else r.value.0
    case Pay(o) => RecordOutput(db, o).0
    case Decrypt(k, m) => RecordMemo(db, k, m)
    case SpendNote(a, note, s) => var r := RecordSpend(db, a, note, s); if r.None? then db else r.value
    case Remark(a, tx, text) => var r := InsertUserMemo(db, a, tx, text); if r.None? then db else r.value
    case Block(a, h, header) => StoreHeader(db, a, h, header)
    case Attest(a, note, h, path) => var r := RecordWitness(db, a, note, h, path); if r.None? then db else r.value
    case Prune(a, h) => Pruned(db, a, h)
    case Rewind(a, h) => Trimmed(db, a, h)
  }

  // One lemma per table ---------------------------------------------------

  lemma AddressKeeps(db: Db, id: nat, t: TAddr)
    requires Sound(db) && t.account in db.positions
    ensures Sound(db.(taddrs := db.taddrs[id := t]))
  {
    SameRows(db, db.(taddrs := db.taddrs[id := t]));
  }

  lemma CheckpointKeeps(db: Db, k: OfAccount, height: nat)
    requires Sound(db) && k.account in db.positions
    ensures Sound(db.(syncHeights := db.syncHeights[k := height]))
  {
    SameRows(db, db.(syncHeights := db.syncHeights[k := height]));
  }

  lemma BlockKeeps(db: Db, k: OfAccount, header: Header)
    requires Sound(db) && k.account in db.positions
    ensures Sound(db.(headers := db.headers[k := header]))
  {
    SameRows(db, db.(headers := db.headers[k := header]));
  }

  /** The rows that refer to others are the same. */
  lemma SameRows(db: Db, db': Db)
    requires OnTxs(db) && OnNotes(db)
    requires db'.transactions == db.transactions && db'.notes == db.notes && db'.spends == db.spends
    requires db'.outputs == db.outputs && db'.memos == db.memos && db'.userMemos == db.userMemos
    requires db'.witnesses == db.witnesses
    ensures OnTxs(db') && OnNotes(db')
  {
    SameTxs(db, db');
    SameNotes(db, db');
    hide TxIs, NoteIs;
  }

  lemma SameOwned(db: Db, db': Db)
    requires Owned(db) && db'.positions == db.positions && db'.taddrs == db.taddrs
    requires db'.syncHeights == db.syncHeights && db'.transactions == db.transactions && db'.headers == db.headers
    ensures Owned(db')
  {}

  lemma SameTxs(db: Db, db': Db)
    requires Kept(db.transactions, db'.transactions)
    ensures forall account, tx, height: nat :: TxIs(db, account, tx, height) ==> TxIs(db', account, tx, height)
  {}

  lemma SameNotes(db: Db, db': Db)
    requires forall i :: i in db.notes ==>
      i in db'.notes && db'.notes[i].account == db.notes[i].account && db'.notes[i].height == db.notes[i].height
    ensures forall account, note, height: nat :: NoteIs(db, account, note, height) ==>
      NoteIs(db', account, note, height)
  {}

  lemma TransactionOwned(db: Db, id: nat, t: Tx)
    requires Owned(db) && t.account in db.positions
    ensures Owned(db.(transactions := db.transactions[id := t]))
  {}

  lemma TransactionKeeps(db: Db, id: nat, t: Tx)
    requires Sound(db) && t.account in db.positions && id !in db.transactions
    ensures Sound(db.(transactions := db.transactions[id := t]))
  {
    var db' := db.(transactions := db.transactions[id := t]);
    SameTxs(db, db');
    SameNotes(db, db');
    TransactionOwned(db, id, t);
    hide TxIs, NoteIs, Owned;
  }

  /** The notes alone change, and none goes or moves. */
  lemma NotesKeep(db: Db, db': Db)
    requires Sound(db) && NotesOnTxs(db') && db' == db.(notes := db'.notes)
    requires forall i :: i in db.notes ==>
      i in db'.notes && db'.notes[i].account == db.notes[i].account && db'.notes[i].height == db.notes[i].height
    ensures Sound(db')
  {
    SameTxs(db, db');
    SameNotes(db, db');
    SameOwned(db, db');
    hide TxIs, NoteIs, Owned, NotesOnTxs;
  }

  lemma ReceiveKeeps(db: Db, id: nat, n: Note)
    requires Sound(db) && TxIs(db, n.account, n.tx, n.height) && id !in db.notes
    ensures Sound(db.(notes := db.notes[id := n]))
  {
    var db' := db.(notes := db.notes[id := n]);
    NewNoteOnTxs(db, id, n);
    hide Sound, NotesOnTxs, TxIs;
    NotesKeep(db, db');
  }

  lemma NewNoteOnTxs(db: Db, id: nat, n: Note)
    requires NotesOnTxs(db) && TxIs(db, n.account, n.tx, n.height)
    ensures NotesOnTxs(db.(notes := db.notes[id := n]))
  {
    SameTxs(db, db.(notes := db.notes[id := n]));
    hide TxIs;
  }

  lemma PayKeeps(db: Db, id: nat, o: Output)
    requires Sound(db) && TxIs(db, o.account, o.tx, o.height)
    ensures Sound(db.(outputs := db.outputs[id := o]))
  {
    var db' := db.(outputs := db.outputs[id := o]);
    SameTxs(db, db');
    SameNotes(db, db');
    SameOwned(db, db');
    hide TxIs, NoteIs, Owned;
  }

  lemma DecryptKeeps(db: Db, k: MemoKey, m: Memo)
    requires Sound(db) && TxIs(db, m.account, k.tx, m.height)
    ensures Sound(db.(memos := db.memos[k := m]))
  {
    var db' := db.(memos := db.memos[k := m]);
    SameTxs(db, db');
    SameNotes(db, db');
    SameOwned(db, db');
    hide TxIs, NoteIs, Owned;
  }

  lemma RemarkKeeps(db: Db, k: OfAccount, u: UserMemo)
    requires Sound(db) && TxIs(db, k.account, k.key, u.height)
    ensures Sound(db.(userMemos := db.userMemos[k := u]))
  {
    var db' := db.(userMemos := db.userMemos[k := u]);
    SameTxs(db, db');
    SameNotes(db, db');
    SameOwned(db, db');
    hide TxIs, NoteIs, Owned;
  }

  lemma AttestKeeps(db: Db, k: WitnessKey, w: Witness)
    requires Sound(db) && NoteIs(db, w.account, k.note, k.height)
    ensures Sound(db.(witnesses := db.witnesses[k := w]))
  {
    var db' := db.(witnesses := db.witnesses[k := w]);
    SameTxs(db, db');
    SameNotes(db, db');
    SameOwned(db, db');
    hide TxIs, NoteIs, Owned;
  }

  lemma SpendKeeps(db: Db, note: nat, s: Spend)
    requires Sound(db) && NoteIs(db, s.account, note, s.height) && TxIs(db, s.account, s.tx, s.height)
    ensures Sound(db.(spends := db.spends[note := s]))
  {
    var db' := db.(spends := db.spends[note := s]);
    SameOwned(db, db');
    SpendOnTx(db, note, s);
    SpendOnNote(db, note, s);
    hide Owned, OnTxs, OnNotes;
  }

  lemma SpendOnTx(db: Db, note: nat, s: Spend)
    requires OnTxs(db) && TxIs(db, s.account, s.tx, s.height)
    ensures OnTxs(db.(spends := db.spends[note := s]))
  {
    SameTxs(db, db.(spends := db.spends[note := s]));
    hide TxIs;
  }

  lemma SpendOnNote(db: Db, note: nat, s: Spend)
    requires OnNotes(db) && NoteIs(db, s.account, note, s.height)
    ensures OnNotes(db.(spends := db.spends[note := s]))
  {
    SameNotes(db, db.(spends := db.spends[note := s]));
    hide NoteIs;
  }

  lemma UnlockKeeps(db: Db, note: nat)
    requires Sound(db) && note in db.notes
    ensures Sound(db.(notes := db.notes[note := db.notes[note].(locked := false)]))
  {
    var db' := db.(notes := db.notes[note := db.notes[note].(locked := false)]);
    assert TxIs(db, db.notes[note].account, db.notes[note].tx, db.notes[note].height);
    NewNoteOnTxs(db, note, db.notes[note].(locked := false));
    hide Sound, NotesOnTxs, TxIs;
    NotesKeep(db, db');
  }

  lemma SpendNoteKeeps(db: Db, a: nat, note: nat, s: Spend)
    requires Sound(db) && Allowed(db, SpendNote(a, note, s)) && RecordSpend(db, a, note, s).Some?
    ensures Sound(RecordSpend(db, a, note, s).value)
  {
    assert NoteIs(db, s.account, note, s.height) && TxIs(db, s.account, s.tx, s.height);
    hide Sound;
    if note !in db.spends { SpendKeeps(db, note, s); }
    var db1 := if note in db.spends then db else db.(spends := db.spends[note := s]);
    UnlockKeeps(db1, note);
  }

  lemma PruneKeeps(db: Db, a: nat, height: nat)
    requires Sound(db)
    ensures Sound(Pruned(db, a, height))
  {
    SameTxs(db, Pruned(db, a, height));
    SameNotes(db, Pruned(db, a, height));
    SameOwned(db, Pruned(db, a, height));
    hide TxIs, NoteIs, Owned;
  }

  // Removing rows ---------------------------------------------------------

  /** Not one of the account's rows above a height, or not one at all. */
  ghost predicate Stays(a: nat, above: Option<nat>, account: nat, height: nat) {
    account != a || (above.Some? && height <= above.value)
  }

  ghost predicate TxsStay(db: Db, db': Db, a: nat, above: Option<nat>) {
    forall account, tx, height: nat :: TxIs(db, account, tx, height) && Stays(a, above, account, height) ==>
      TxIs(db', account, tx, height)
  }

  ghost predicate NotesStay(db: Db, db': Db, a: nat, above: Option<nat>) {
    forall account, note, height: nat :: NoteIs(db, account, note, height) && Stays(a, above, account, height) ==>
      NoteIs(db', account, note, height)
  }

  /** db' is db without the account's rows above the height. */
  ghost predicate Removes(db: Db, db': Db, a: nat, above: Option<nat>) {
    && KeepsTxs(db, db', a, above) && KeepsNotes(db, db', a, above)
    && FewerNotes(db, db', a, above) && FewerSpends(db, db', a, above) && FewerOutputs(db, db', a, above)
    && FewerMemos(db, db', a, above) && FewerUserMemos(db, db', a, above) && FewerWitnesses(db, db', a, above)
  }

  ghost predicate KeepsTxs(db: Db, db': Db, a: nat, above: Option<nat>) {
    forall i :: i in db.transactions && Stays(a, above, db.transactions[i].account, db.transactions[i].height) ==>
      i in db'.transactions && db'.transactions[i] == db.transactions[i]
  }

  ghost predicate KeepsNotes(db: Db, db': Db, a: nat, above: Option<nat>) {
    forall i :: i in db.notes && Stays(a, above, db.notes[i].account, db.notes[i].height) ==>
      i in db'.notes && db'.notes[i] == db.notes[i]
  }

  ghost predicate FewerNotes(db: Db, db': Db, a: nat, above: Option<nat>) {
    forall i :: i in db'.notes ==>
      i in db.notes && db'.notes[i] == db.notes[i] && Stays(a, above, db.notes[i].account, db.notes[i].height)
  }

  ghost predicate FewerSpends(db: Db, db': Db, a: nat, above: Option<nat>) {
    forall i :: i in db'.spends ==>
      i in db.spends && db'.spends[i] == db.spends[i] && Stays(a, above, db.spends[i].account, db.spends[i].height)
  }

  ghost predicate FewerOutputs(db: Db, db': Db, a: nat, above: Option<nat>) {
    forall i :: i in db'.outputs ==>
      i in db.outputs && db'.outputs[i] == db.outputs[i] && Stays(a, above, db.outputs[i].account, db.outputs[i].height)
  }

  ghost predicate FewerMemos(db: Db, db': Db, a: nat, above: Option<nat>) {
    forall k :: k in db'.memos ==>
      k in db.memos && db'.memos[k] == db.memos[k] && Stays(a, above, db.memos[k].account, db.memos[k].height)
  }

  ghost predicate FewerUserMemos(db: Db, db': Db, a: nat, above: Option<nat>) {
    forall k :: k in db'.userMemos ==>
      k in db.userMemos && db'.userMemos[k] == db.userMemos[k] && Stays(a, above, k.account, db.userMemos[k].height)
  }

  ghost predicate FewerWitnesses(db: Db, db': Db, a: nat, above: Option<nat>) {
    forall k :: k in db'.witnesses ==>
      k in db.witnesses && db'.witnesses[k] == db.witnesses[k] && Stays(a, above, db.witnesses[k].account, k.height)
  }

  /** What a row that stays refers to stays. */
  lemma RefsStay(db: Db, db': Db, a: nat, above: Option<nat>)
    requires KeepsTxs(db, db', a, above) && KeepsNotes(db, db', a, above)
    ensures TxsStay(db, db', a, above) && NotesStay(db, db', a, above)
  {}

  lemma NotesAndSpendsStay(db: Db, db': Db, a: nat, above: Option<nat>)
    requires NotesOnTxs(db) && SpendsOnTxs(db) && TxsStay(db, db', a, above)
    requires FewerNotes(db, db', a, above) && FewerSpends(db, db', a, above)
    ensures NotesOnTxs(db') && SpendsOnTxs(db')
  {
    hide TxIs, Stays;
  }

  lemma OutputsAndMemosStay(db: Db, db': Db, a: nat, above: Option<nat>)
    requires OutputsOnTxs(db) && MemosOnTxs(db) && UserMemosOnTxs(db) && TxsStay(db, db', a, above)
    requires FewerOutputs(db, db', a, above) && FewerMemos(db, db', a, above) && FewerUserMemos(db, db', a, above)
    ensures OutputsOnTxs(db') && MemosOnTxs(db') && UserMemosOnTxs(db')
  {
    hide TxIs, Stays;
  }

  lemma OnNotesStay(db: Db, db': Db, a: nat, above: Option<nat>)
    requires OnNotes(db) && NotesStay(db, db', a, above)
    requires FewerSpends(db, db', a, above) && FewerWitnesses(db, db', a, above)
    ensures OnNotes(db')
  {
    hide NoteIs, Stays;
  }

  lemma RemovingKeeps(db: Db, db': Db, a: nat, above: Option<nat>)
    requires OnTxs(db) && OnNotes(db) && Removes(db, db', a, above)
    ensures OnTxs(db') && OnNotes(db')
  {
    RefsStay(db, db', a, above);
    NotesAndSpendsStay(db, db', a, above);
    OutputsAndMemosStay(db, db', a, above);
    OnNotesStay(db, db', a, above);
  }

  lemma TrimmedKeeps(db: Db, a: nat, h: nat)
    ensures KeepsTxs(db, Trimmed(db, a, h), a, Some(h)) && KeepsNotes(db, Trimmed(db, a, h), a, Some(h))
    ensures FewerNotes(db, Trimmed(db, a, h), a, Some(h)) && FewerSpends(db, Trimmed(db, a, h), a, Some(h))
  {}

  lemma TrimmedRemoves(db: Db, a: nat, h: nat)
    ensures Removes(db, Trimmed(db, a, h), a, Some(h))
  {
    TrimmedKeeps(db, a, h);
    hide KeepsTxs, KeepsNotes, FewerNotes, FewerSpends;
  }

  lemma TrimmedIsSound(db: Db, a: nat, h: nat)
    requires Sound(db)
    ensures Sound(Trimmed(db, a, h))
  {
    TrimmedRemoves(db, a, h);
    TrimmedOwned(db, a, h);
    RemovingKeeps(db, Trimmed(db, a, h), a, Some(h));
  }

  lemma TrimmedOwned(db: Db, a: nat, h: nat)
    requires Owned(db)
    ensures Owned(Trimmed(db, a, h))
  {}

  lemma ChangeKeepsSound(db: Db, c: Change)
    requires Sound(db) && Allowed(db, c)
    ensures Sound(Changed(db, c)) && Changed(db, c).positions == db.positions
  {
    hide Sound, Trimmed;
    match c
    case Address(t) => AddressKeeps(db, NextId(db.taddrs.Keys), t);
    case Checkpoint(a, pool, h) => CheckpointKeeps(db, OfAccount(a, pool), h);
    case Transaction(t) => TransactionKeeps(db, NextId(db.transactions.Keys), t);
    case Receive(n) => ReceiveKeeps(db, NextId(db.notes.Keys), n);
    case Pay(o) => PayKeeps(db, NextId(db.outputs.Keys), o);
    case Decrypt(k, m) => DecryptKeeps(db, k, m);
    case SpendNote(a, note, s) =>
      if RecordSpend(db, a, note, s).Some? {
        SpendNoteKeeps(db, a, note, s);
      }
    case Remark(a, tx, text) =>
      if tx in db.transactions && db.transactions[tx].account == a {
        RemarkKeeps(db, OfAccount(a, tx), UserMemo(db.transactions[tx].height, text));
      }
    case Block(a, h, header) => BlockKeeps(db, OfAccount(a, h), header);
    case Attest(a, note, h, path) =>
      if RecordWitness(db, a, note, h, path).Some? {
        AttestKeeps(db, WitnessKey(note, h), Witness(a, path));
      }
    case Prune(a, h) => PruneKeeps(db, a, h);
    case Rewind(a, h) =>
      TrimmedIsSound(db, a, h);
      TrimmedPositions(db, a, h);
  }

  lemma TrimmedPositions(db: Db, a: nat, h: nat)
    ensures Trimmed(db, a, h).positions == db.positions
  {}

  // ---------------------------------------------------------------------
  // Accounts come and go

  /** The account's rows go from every table. */
  function Without(db: Db, a: nat): Db {
    Db(db.positions - {a},
       db.taddrs - (set i | i in db.taddrs && db.taddrs[i].account == a),
       db.syncHeights - (set k | k in db.syncHeights && k.account == a),
       db.transactions - (set i | i in db.transactions && db.transactions[i].account == a),
       db.notes - (set i | i in db.notes && db.notes[i].account == a),
       db.spends - (set i | i in db.spends && db.spends[i].account == a),
       db.outputs - (set i | i in db.outputs && db.outputs[i].account == a),
       db.memos - (set k | k in db.memos && db.memos[k].account == a),
       db.userMemos - (set k | k in db.userMemos && k.account == a),
       db.headers - (set k | k in db.headers && k.account == a),
       db.witnesses - (set k | k in db.witnesses && db.witnesses[k].account == a))
  }

  lemma WithoutRemoves(db: Db, a: nat)
    ensures Removes(db, Without(db, a), a, None)
  {}

  lemma WithoutOwned(db: Db, a: nat)
    requires Owned(db)
    ensures Owned(Without(db, a))
  {}

  lemma WithoutIsSound(db: Db, a: nat)
    requires Sound(db)
    ensures Sound(Without(db, a))
  {
    WithoutRemoves(db, a);
    WithoutOwned(db, a);
    RemovingKeeps(db, Without(db, a), a, None);
  }

  lemma CreatedIsSound(db: Db)
    requires Sound(db)
    ensures Sound(db.(positions := Positions.Created(db.positions)))
  {
    SameRows(db, db.(positions := Positions.Created(db.positions)));
  }

  // ---------------------------------------------------------------------
  // A restore keeps the invariant

  /** A row of the backup that refers to a transaction of the account refers to
      its copy afterwards. */
  ghost predicate TxsCopied(src: Db, a: nat, db: Db, r: Ren) {
    forall tx, height: nat :: TxIs(src, a, tx, height) && tx in r.txs ==> TxIs(db, r.account, r.txs[tx], height)
  }

  ghost predicate NotesCopied(src: Db, a: nat, db: Db, r: Ren) {
    forall note, height: nat :: NoteIs(src, a, note, height) && note in r.notes ==>
      NoteIs(db, r.account, r.notes[note], height)
  }

  lemma RefsCopied(src: Db, a: nat, base: Db, db: Db, r: Ren, d: Done)
    requires TxsHold(src, r, base.transactions, db.transactions, d.txs)
    requires NotesHold(src, r, base.notes, db.notes, d.notes, d.spends)
    ensures TxsCopied(src, a, db, r) && NotesCopied(src, a, db, r)
    ensures Kept(base.transactions, db.transactions) && Kept(base.notes, db.notes)
  {}

  ghost predicate AllOf(src: Db, a: nat, d: Done) {
    && (forall i :: i in d.notes ==> i in src.notes && src.notes[i].account == a)
    && (forall i :: i in d.outputs ==> i in src.outputs && src.outputs[i].account == a)
    && (forall i :: i in d.spends ==> i in src.spends && src.spends[i].account == a)
    && (forall k :: k in d.memos ==> k in src.memos && src.memos[k].account == a)
    && (forall t :: t in d.userMemos ==> OfAccount(a, t) in src.userMemos)
    && (forall k :: k in d.witnesses ==> k in src.witnesses && src.witnesses[k].account == a)
  }

  lemma RestoredNotes(src: Db, a: nat, base: Db, db: Db, r: Ren, d: Done)
    requires NotesOnTxs(src) && NotesOnTxs(base) && AllOf(src, a, d) && TxsCopied(src, a, db, r)
    requires Kept(base.transactions, db.transactions) && NotesHold(src, r, base.notes, db.notes, d.notes, d.spends)
    ensures NotesOnTxs(db)
  {
    SameTxs(base, db);
    forall k | k in db.notes
      ensures TxIs(db, db.notes[k].account, db.notes[k].tx, db.notes[k].height)
    {
      if k in base.notes {
        assert TxIs(base, base.notes[k].account, base.notes[k].tx, base.notes[k].height);
      } else {
        var i := PlacedFrom(base.notes, db.notes, r.notes, d.notes, k);
        assert NoteClosed(r, src.notes[i]) && TxIs(src, a, src.notes[i].tx, src.notes[i].height);
      }
    }
  }

  lemma RestoredOutputs(src: Db, a: nat, base: Db, db: Db, r: Ren, d: Done)
    requires OutputsOnTxs(src) && OutputsOnTxs(base) && AllOf(src, a, d) && TxsCopied(src, a, db, r)
    requires Kept(base.transactions, db.transactions) && OutputsHold(src, r, base.outputs, db.outputs, d.outputs)
    ensures OutputsOnTxs(db)
  {
    SameTxs(base, db);
    forall k | k in db.outputs
      ensures TxIs(db, db.outputs[k].account, db.outputs[k].tx, db.outputs[k].height)
    {
      if k in base.outputs {
        assert TxIs(base, base.outputs[k].account, base.outputs[k].tx, base.outputs[k].height);
      } else {
        var i := PlacedFrom(base.outputs, db.outputs, r.outputs, d.outputs, k);
        assert TxIs(src, a, src.outputs[i].tx, src.outputs[i].height);
      }
    }
  }

  lemma OldMemoOnTx(src: Db, base: Db, db: Db, r: Ren, d: Done, k: MemoKey)
    requires MemosOnTxs(base) && Kept(base.transactions, db.transactions) && k in base.memos
    requires MemosHold(src, r, base.memos, db.memos, d.memos)
    ensures k in db.memos && TxIs(db, db.memos[k].account, k.tx, db.memos[k].height)
  {
    assert TxIs(base, base.memos[k].account, k.tx, base.memos[k].height);
  }

  lemma NewMemoOnTx(src: Db, a: nat, base: Db, db: Db, r: Ren, d: Done, k: MemoKey)
    requires MemosOnTxs(src) && AllOf(src, a, d) && TxsCopied(src, a, db, r)
    requires MemosHold(src, r, base.memos, db.memos, d.memos) && k in db.memos && k !in base.memos
    ensures TxIs(db, db.memos[k].account, k.tx, db.memos[k].height)
  {
    var j :| j in d.memos && MemoName(r, j) == k;
    assert TxIs(src, a, j.tx, src.memos[j].height);
  }

  lemma RestoredMemos(src: Db, a: nat, base: Db, db: Db, r: Ren, d: Done)
    requires MemosOnTxs(src) && MemosOnTxs(base) && AllOf(src, a, d) && TxsCopied(src, a, db, r)
    requires Kept(base.transactions, db.transactions) && MemosHold(src, r, base.memos, db.memos, d.memos)
    ensures MemosOnTxs(db)
  {
    hide MemosHold, TxsCopied, AllOf, TxIs;
    forall k | k in db.memos
      ensures TxIs(db, db.memos[k].account, k.tx, db.memos[k].height)
    {
      if k in base.memos {
        OldMemoOnTx(src, base, db, r, d, k);
      } else {
        NewMemoOnTx(src, a, base, db, r, d, k);
      }
    }
  }

  lemma RestoredUserMemos(src: Db, a: nat, base: Db, db: Db, r: Ren, d: Done)
    requires UserMemosOnTxs(src) && UserMemosOnTxs(base) && AllOf(src, a, d) && TxsCopied(src, a, db, r)
    requires Kept(base.transactions, db.transactions)
    requires UserMemosHold(src, a, r, base.userMemos, db.userMemos, d.userMemos)
    ensures UserMemosOnTxs(db)
  {
    SameTxs(base, db);
    forall k | k in db.userMemos
      ensures TxIs(db, k.account, k.key, db.userMemos[k].height)
    {
      if k in base.userMemos {
        assert TxIs(base, k.account, k.key, base.userMemos[k].height);
      } else {
        var t :| t in d.userMemos && UserMemoName(r, t) == k;
        assert TxIs(src, a, t, src.userMemos[OfAccount(a, t)].height);
      }
    }
  }

  lemma RestoredSpends(src: Db, a: nat, base: Db, db: Db, r: Ren, d: Done, k: nat)
    requires Sound(src) && Sound(base) && AllOf(src, a, d) && TxsCopied(src, a, db, r) && NotesCopied(src, a, db, r)
    requires Kept(base.transactions, db.transactions)
    requires SpendsHold(src, r, base.spends, db.spends, d.spends)
    requires k in db.spends && k !in base.spends
    ensures TxIs(db, db.spends[k].account, db.spends[k].tx, db.spends[k].height)
    ensures NoteIs(db, db.spends[k].account, k, db.spends[k].height)
  {
    var i :| i in d.spends && SpendName(r, i) == k;
    assert TxIs(src, a, src.spends[i].tx, src.spends[i].height) && NoteIs(src, a, i, src.spends[i].height);
  }

  lemma RestoredWitness(src: Db, a: nat, base: Db, db: Db, r: Ren, d: Done, k: WitnessKey)
    requires OnNotes(src) && AllOf(src, a, d) && NotesCopied(src, a, db, r)
    requires WitnessesHold(src, r, base.witnesses, db.witnesses, d.witnesses)
    requires k in db.witnesses && k !in base.witnesses
    ensures NoteIs(db, db.witnesses[k].account, k.note, k.height)
  {
    var j :| j in d.witnesses && WitnessName(r, j) == k;
    assert NoteIs(src, a, j.note, j.height);
  }

  /** A restore that unlocks spent notes moves none of the old ones. */
  lemma OldNotesStand(base: Db, db: Db)
    requires Kept(base.notes, db.notes)
    ensures forall account, note, height: nat :: NoteIs(base, account, note, height) ==>
      NoteIs(db, account, note, height)
  {}

  lemma RestoredLinks(src: Db, a: nat, base: Db, db: Db, r: Ren, d: Done)
    requires Sound(src) && Sound(base) && AllOf(src, a, d) && TxsCopied(src, a, db, r) && NotesCopied(src, a, db, r)
    requires Kept(base.transactions, db.transactions) && Kept(base.notes, db.notes)
    requires SpendsHold(src, r, base.spends, db.spends, d.spends)
    requires WitnessesHold(src, r, base.witnesses, db.witnesses, d.witnesses)
    ensures SpendsOnTxs(db) && OnNotes(db)
  {
    SameTxs(base, db);
    OldNotesStand(base, db);
    forall k | k in db.spends
      ensures TxIs(db, db.spends[k].account, db.spends[k].tx, db.spends[k].height)
      ensures NoteIs(db, db.spends[k].account, k, db.spends[k].height)
    {
      if k in base.spends {
        assert TxIs(base, base.spends[k].account, base.spends[k].tx, base.spends[k].height);
        assert NoteIs(base, base.spends[k].account, k, base.spends[k].height);
      } else {
        RestoredSpends(src, a, base, db, r, d, k);
      }
    }
    forall k | k in db.witnesses
      ensures NoteIs(db, db.witnesses[k].account, k.note, k.height)
    {
      if k in base.witnesses {
        assert NoteIs(base, base.witnesses[k].account, k.note, k.height);
      } else {
        RestoredWitness(src, a, base, db, r, d, k);
      }
    }
  }

  lemma RowsAreAll(src: Db, a: nat)
    ensures AllOf(src, a, AccountRows(src, a))
  {}

  lemma RestoredOwned(src: Db, a: nat, base: Db, db: Db, r: Ren)
    requires CopyAdded(src, a, base, db, r) && Integrity(base)
    ensures Owned(db)
  {
    hide CopyAdded;
    RestoreKeepsIntegrity(src, a, base, db, r);
  }

  lemma CopyHolds(src: Db, a: nat, base: Db, db: Db, r: Ren, d: Done)
    requires CopyAdded(src, a, base, db, r) && d == AccountRows(src, a)
    ensures TxsHold(src, r, base.transactions, db.transactions, d.txs)
    ensures NotesHold(src, r, base.notes, db.notes, d.notes, d.spends)
    ensures OutputsHold(src, r, base.outputs, db.outputs, d.outputs)
    ensures SpendsHold(src, r, base.spends, db.spends, d.spends)
    ensures MemosHold(src, r, base.memos, db.memos, d.memos)
    ensures UserMemosHold(src, a, r, base.userMemos, db.userMemos, d.userMemos)
    ensures WitnessesHold(src, r, base.witnesses, db.witnesses, d.witnesses)
  {
    hide TAddrsHold, TxsHold, NotesHold, OutputsHold, SpendsHold, MemosHold, SyncsHold, UserMemosHold, HeadersHold,
      WitnessesHold, AccountRows;
  }

  /** Restoring an account of a sound wallet into a sound wallet leaves a sound
      wallet. */
  lemma RestoreKeepsSound(src: Db, a: nat, base: Db, db: Db, r: Ren)
    requires CopyAdded(src, a, base, db, r) && Sound(src) && Sound(base)
    ensures Sound(db)
  {
    var d := AccountRows(src, a);
    SoundIsEnough(base);
    RestoredOwned(src, a, base, db, r);
    CopyHolds(src, a, base, db, r, d);
    RowsAreAll(src, a);
    hide CopyAdded, AccountRows, TxsHold, NotesHold, OutputsHold, SpendsHold, MemosHold, UserMemosHold, WitnessesHold,
      Owned, AllOf, NotesOnTxs, OutputsOnTxs, MemosOnTxs, UserMemosOnTxs, SpendsOnTxs, OnNotes, Kept;
    RefsCopied(src, a, base, db, r, d);
    RestoredNotes(src, a, base, db, r, d);
    RestoredOutputs(src, a, base, db, r, d);
    RestoredMemos(src, a, base, db, r, d);
    RestoredUserMemos(src, a, base, db, r, d);
    RestoredLinks(src, a, base, db, r, d);
  }

  // ---------------------------------------------------------------------
  // Runs

  datatype Step =
    | Create(account: Account)
    | Delete(a: nat)
    | Record(change: Change)
    | Issue(x: Asset)
    | Name(category: Category)
    | Import(src: Contents, a: nat, doc: Document)

  const EMPTY := Contents(map[], map[],
    Db(map[], map[], map[], map[], map[], map[], map[], map[], map[], map[], map[]), map[], map[])

  ghost predicate StepAllowed(d: Derivation, w: Contents, s: Step) {
    match s
    case Record(change) => Allowed(w.db, change)
    case Issue(x) => Genuine(d, x)
    case Import(src, a, doc) => SoundWallet(d, src) && WellFormed(src, a) && IsExport(src, a, doc)
    case _ => true
  }

  function Next(c: Codec, w: Contents, s: Step): Contents {
    match s
    case Create(account) =>
      w.(accounts := w.accounts[NextId(w.db.positions.Keys) := account],
         db := w.db.(positions := Positions.Created(w.db.positions)))
    case Delete(a) => w.(accounts := w.accounts - {a}, db := Without(w.db, a))
    case Record(change) => w.(db := Changed(w.db, change))
    case Issue(x) => var r := RecordAsset(w.assets, x); if r.None? then w else w.(assets := r.value)
    case Name(category) => w.(categories := UpsertCategory(w.categories, category).0)
    case Import(src, a, doc) => var r := Restored(c, w, doc); if r.None? then w else r.value
  }

  function At(c: Codec, steps: seq<Step>, n: nat): Contents
    requires n <= |steps|
  {
    if n == 0 then EMPTY else Next(c, At(c, steps, n - 1), steps[n - 1])
  }

  /** A run begins with an empty wallet and takes its steps one by one. */
  lemma OneByOne(c: Codec, steps: seq<Step>, n: nat)
    requires n < |steps|
    ensures At(c, steps, 0) == Contents(map[], map[],
      Db(map[], map[], map[], map[], map[], map[], map[], map[], map[], map[], map[]), map[], map[])
    ensures At(c, steps, n + 1) == Next(c, At(c, steps, n), steps[n])
  {}

  ghost predicate Run(c: Codec, d: Derivation, steps: seq<Step>) {
    Injective(d) && forall n :: 0 <= n < |steps| ==> StepAllowed(d, At(c, steps, n), steps[n])
  }

  lemma EmptyIsSound(d: Derivation)
    requires Injective(d)
    ensures SoundWallet(d, EMPTY)
  {}

  lemma CreateKeeps(c: Codec, d: Derivation, w: Contents, account: Account)
    requires SoundWallet(d, w)
    ensures SoundWallet(d, Next(c, w, Create(account)))
  {
    CreatedIsSound(w.db);
    hide Sound, Consistent, UniqueNames;
  }

  lemma DeleteKeeps(c: Codec, d: Derivation, w: Contents, a: nat)
    requires SoundWallet(d, w)
    ensures SoundWallet(d, Next(c, w, Delete(a)))
  {
    WithoutIsSound(w.db, a);
    assert Without(w.db, a).positions == w.db.positions - {a};
    hide Sound, Consistent, UniqueNames, Without;
  }

  lemma SharedKeeps(c: Codec, d: Derivation, w: Contents, s: Step)
    requires SoundWallet(d, w) && StepAllowed(d, w, s) && (s.Issue? || s.Name?)
    ensures SoundWallet(d, Next(c, w, s))
  {
    hide Sound;
    if s.Issue? {
      RecordKeepsConsistent(d, w.assets, s.x);
    } else {
      UpsertOne(w.categories, s.category);
    }
    hide Consistent, UniqueNames, RecordAsset, UpsertCategory;
  }

  lemma NewAccountIsKnown(src: Db, a: nat, base: Contents, o: Contents, r: Ren)
    requires CopyAdded(src, a, base.db, o.db, r) && base.accounts.Keys == base.db.positions.Keys
    requires o.accounts.Keys == base.accounts.Keys + {r.account}
    ensures o.accounts.Keys == o.db.positions.Keys
  {
    hide Copied;
  }

  lemma RestoredIsSound(c: Codec, d: Derivation, src: Contents, a: nat, base: Contents, o: Contents, r: Ren)
    requires a in src.accounts && Restores(c, d, src, a, base, o, r)
    requires SoundWallet(d, src) && SoundWallet(d, base)
    ensures SoundWallet(d, o)
  {
    hide Sound, CopyAdded, Consistent, UniqueNames, AssetsFollow, CategoriesFollow, BalancesFollow, SameAccount, Kept,
      Settles, Integrity;
    RestoreKeepsSound(src.db, a, base.db, o.db, r);
    NewAccountIsKnown(src.db, a, base, o, r);
  }

  lemma ImportKeeps(c: Codec, d: Derivation, w: Contents, src: Contents, a: nat, doc: Document)
    requires SoundWallet(d, w) && SoundWallet(d, src) && WellFormed(src, a) && IsExport(src, a, doc)
    ensures SoundWallet(d, Next(c, w, Import(src, a, doc)))
  {
    SoundIsEnough(w.db);
    hide Next, Sound, Consistent, UniqueNames, WellFormedRows, IsExport, Restored, Restores, Fails, Integrity;
    NextImport(c, w, src, a, doc);
    var r := ExportThenImport(c, d, src, a, doc, w);
    if Restored(c, w, doc).Some? {
      RestoredIsSound(c, d, src, a, w, Restored(c, w, doc).value, r);
    }
  }

  lemma NextImport(c: Codec, w: Contents, src: Contents, a: nat, doc: Document)
    ensures Next(c, w, Import(src, a, doc)) == if Restored(c, w, doc).None? then w else Restored(c, w, doc).value
  {
    hide Restored;
  }

  lemma StepKeeps(c: Codec, d: Derivation, w: Contents, s: Step)
    requires SoundWallet(d, w) && StepAllowed(d, w, s)
    ensures SoundWallet(d, Next(c, w, s))
  {
    match s
    case Create(account) => CreateKeeps(c, d, w, account);
    case Delete(a) => DeleteKeeps(c, d, w, a);
    case Record(change) => ChangeKeepsSound(w.db, change);
    case Import(src, a, doc) => ImportKeeps(c, d, w, src, a, doc);
    case _ => SharedKeeps(c, d, w, s);
  }

  /** In every state of every run from an empty wallet the invariant holds. */
  lemma {:induction false} SoundAlways(c: Codec, d: Derivation, steps: seq<Step>, n: nat)
    requires Run(c, d, steps) && n <= |steps|
    ensures SoundWallet(d, At(c, steps, n))
  {
    hide SoundWallet, Next, StepAllowed, Injective;
    if n == 0 {
      EmptyIsSound(d);
    } else {
      SoundAlways(c, d, steps, n - 1);
      StepKeeps(c, d, At(c, steps, n - 1), steps[n - 1]);
    }
  }

  /** So the export of a well-formed account of any wallet reached, imported
      into any other wallet reached, fails for one of the known reasons or
      adds a faithful copy, under an id that is new there. */
  lemma AnyWalletTakesAnyAccount(c: Codec, d: Derivation, from: seq<Step>, a: nat, doc: Document, into: seq<Step>)
    returns (r: Ren)
    requires Run(c, d, from) && Run(c, d, into)
    requires WellFormed(At(c, from, |from|), a) && IsExport(At(c, from, |from|), a, doc)
    ensures
      var src, base := At(c, from, |from|), At(c, into, |into|);
      && (Restored(c, base, doc).None? <==> Fails(c, src, a, base))
      && (Restored(c, base, doc).Some? ==>
            r.account !in base.accounts && Restores(c, d, src, a, base, Restored(c, base, doc).value, r))
  {
    var src, base := At(c, from, |from|), At(c, into, |into|);
    hide Run, At, Sound, WellFormedRows, IsExport, Restored, Fails, Integrity, Consistent, UniqueNames;
    SoundAlways(c, d, from, |from|);
    SoundAlways(c, d, into, |into|);
    SoundIsEnough(base.db);
    r := ExportThenImport(c, d, src, a, doc, base);
  }
}
