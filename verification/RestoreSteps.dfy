/** Every row of a well-formed account can be restored: the step succeeds and
    writes the row's own table only. */
module RestoreSteps {
  import opened Wrappers
  import opened RowIds
  import opened Renaming
  import opened Tables
  import opened BackupFormat
  import opened Restore

  /** The rows done so far are the account's. */
  ghost predicate Owned(src: Db, a: nat, d: Done) {
    && (forall i :: i in d.taddrs && i in src.taddrs ==> src.taddrs[i].account == a)
    && (forall i :: i in d.txs && i in src.transactions ==> src.transactions[i].account == a)
    && (forall i :: i in d.notes && i in src.notes ==> src.notes[i].account == a)
  }

  /** No old row is the new account's. */
  ghost predicate Unused(base: Db, b: nat) {
    && NoTAddrOf(base.taddrs, b) && NoTxOf(base.transactions, b) && NoNoteOf(base.notes, b)
    && (forall k :: k in base.syncHeights ==> k.account != b)
    && (forall k :: k in base.userMemos ==> k.account != b)
    && (forall k :: k in base.headers ==> k.account != b)
  }

  lemma NewIdUnused(base: Db)
    requires Integrity(base)
    ensures Unused(base, NextId(base.positions.Keys))
  {}

  /** The rows that the item refers to have their new names. */
  ghost predicate Named(r: Ren, item: Item) {
    match item
    case NoteItem(tx, n) => tx in r.txs && (n.taddress.Some? ==> n.taddress.value in r.taddrs)
    case OutputItem(tx, o) => tx in r.txs
    case MemoItem(k, _, n, o, _, _) =>
      k.tx in r.txs && (n.Some? ==> n.value in r.notes) && (o.Some? ==> o.value in r.outputs)
    case SpendItem(tx, s) => tx in r.txs && s.note in r.notes
    case UserMemoItem(u) => u.tx in r.txs
    case WitnessItem(w) => w.note in r.notes
    case _ => true
  }

  // ---------------------------------------------------------------------
  // One lemma per table

  lemma TAddrWrote(src: Db, a: nat, base: Db, st: St, st': St, d: Done, i: nat, id: nat)
    requires TAddrsHold(src, st.r, base.taddrs, st.db.taddrs, d.taddrs)
    requires i in src.taddrs
    requires i !in d.taddrs && id !in st.db.taddrs
    requires st' == St(st.db.(taddrs := st.db.taddrs[id := RenTAddr(st.r, src.taddrs[i])]),
                       st.r.(taddrs := st.r.taddrs[i := id]))
    ensures WroteOnly(src, a, base, st, st', d, TAddrK(i))
  {
    TAddrAdded(src, st.r, st'.r, base.taddrs, st.db.taddrs, d.taddrs, i, id);
  }

  lemma TAddrStep(src: Db, a: nat, base: Db, st: St, d: Done, t: IOTAddr) returns (st': St)
    requires TAddrsHold(src, st.r, base.taddrs, st.db.taddrs, d.taddrs)
    requires ShowsTAddr(src, a, t) && t.id !in d.taddrs && UniqueSlots(src.taddrs)
    requires NoTAddrOf(base.taddrs, st.r.account)
    requires forall i :: i in d.taddrs && i in src.taddrs ==> src.taddrs[i].account == a
    ensures Step(st, TAddrItem(t)) == Some(st') && WroteOnly(src, a, base, st, st', d, TAddrK(t.id))
  {
    hide WroteOnly;
    var id, row := NextId(st.db.taddrs.Keys), RenTAddr(st.r, src.taddrs[t.id]);
    TAddrFresh(src, st.r, base.taddrs, st.db.taddrs, d.taddrs, t.id);
    st' := St(st.db.(taddrs := st.db.taddrs[id := row]), st.r.(taddrs := st.r.taddrs[t.id := id]));
    assert WroteOnly(src, a, base, st, st', d, TAddrK(t.id)) by { TAddrWrote(src, a, base, st, st', d, t.id, id); }
  }

  lemma TxWrote(src: Db, a: nat, base: Db, st: St, st': St, d: Done, i: nat, id: nat)
    requires TxsHold(src, st.r, base.transactions, st.db.transactions, d.txs)
    requires i in src.transactions
    requires i !in d.txs && id !in st.db.transactions
    requires st' == St(st.db.(transactions := st.db.transactions[id := RenTx(st.r, src.transactions[i])]),
                       st.r.(txs := st.r.txs[i := id]))
    ensures WroteOnly(src, a, base, st, st', d, TxK(i))
  {
    TxAdded(src, st.r, st'.r, base.transactions, st.db.transactions, d.txs, i, id);
  }

  lemma TxStep(src: Db, a: nat, base: Db, st: St, d: Done, t: IOTransaction) returns (st': St)
    requires TxsHold(src, st.r, base.transactions, st.db.transactions, d.txs)
    requires ShowsTx(src, a, t) && t.id !in d.txs && UniqueTxs(src.transactions)
    requires NoTxOf(base.transactions, st.r.account)
    requires forall i :: i in d.txs && i in src.transactions ==> src.transactions[i].account == a
    ensures Step(st, TxItem(t)) == Some(st') && WroteOnly(src, a, base, st, st', d, TxK(t.id))
  {
    hide WroteOnly;
    var id, row := NextId(st.db.transactions.Keys), RenTx(st.r, src.transactions[t.id]);
    TxFresh(src, st.r, base.transactions, st.db.transactions, d.txs, t.id);
    st' := St(st.db.(transactions := st.db.transactions[id := row]), st.r.(txs := st.r.txs[t.id := id]));
    assert WroteOnly(src, a, base, st, st', d, TxK(t.id)) by { TxWrote(src, a, base, st, st', d, t.id, id); }
  }

  lemma NoteWrote(src: Db, a: nat, base: Db, st: St, st': St, d: Done, i: nat, id: nat)
    requires NotesHold(src, st.r, base.notes, st.db.notes, d.notes, d.spends)
    requires i in src.notes && NoteClosed(st.r, src.notes[i]) && i !in d.spends
    requires i !in d.notes && id !in st.db.notes
    requires st' == St(st.db.(notes := st.db.notes[id := RenNote(st.r, src.notes[i], false)]),
                       st.r.(notes := st.r.notes[i := id]))
    ensures WroteOnly(src, a, base, st, st', d, NoteK(i))
  {
    NoteAdded(src, st.r, st'.r, base.notes, st.db.notes, d.notes, d.spends, i, id);
  }

  lemma NoteStores(src: Db, a: nat, base: Db, st: St, d: Done, tx: nat, n: IONote, st': St)
    requires NotesHold(src, st.r, base.notes, st.db.notes, d.notes, d.spends)
    requires ShowsNote(src, a, tx, n) && n.id !in d.notes && UniqueNotes(src.notes)
    requires NoNoteOf(base.notes, st.r.account)
    requires Named(st.r, NoteItem(tx, n))
    requires forall i :: i in d.notes && i in src.notes ==> src.notes[i].account == a
    requires var id := NextId(st.db.notes.Keys);
             st' == St(st.db.(notes := st.db.notes[id := RenNote(st.r, src.notes[n.id], false)]),
                       st.r.(notes := st.r.notes[n.id := id]))
    ensures Step(st, NoteItem(tx, n)) == Some(st')
  {
    NoteFresh(src, st.r, base.notes, st.db.notes, d.notes, d.spends, n.id);
    hide NotesHold, UniqueNotes, NextId;
  }

  lemma NoteStep(src: Db, a: nat, base: Db, st: St, d: Done, tx: nat, n: IONote) returns (st': St)
    requires NotesHold(src, st.r, base.notes, st.db.notes, d.notes, d.spends)
    requires ShowsNote(src, a, tx, n) && n.id !in d.notes && UniqueNotes(src.notes)
    requires NoNoteOf(base.notes, st.r.account)
    requires n.id !in d.spends && Named(st.r, NoteItem(tx, n))
    requires forall i :: i in d.notes && i in src.notes ==> src.notes[i].account == a
    ensures Step(st, NoteItem(tx, n)) == Some(st') && WroteOnly(src, a, base, st, st', d, NoteK(n.id))
  {
    hide Step, WroteOnly, NotesHold;
    var id, row := NextId(st.db.notes.Keys), RenNote(st.r, src.notes[n.id], false);
    st' := St(st.db.(notes := st.db.notes[id := row]), st.r.(notes := st.r.notes[n.id := id]));
    NoteStores(src, a, base, st, d, tx, n, st');
    assert NoteClosed(st.r, src.notes[n.id]);
    NoteWrote(src, a, base, st, st', d, n.id, id);
  }

  lemma OutputWrote(src: Db, a: nat, base: Db, st: St, st': St, d: Done, i: nat, id: nat)
    requires OutputsHold(src, st.r, base.outputs, st.db.outputs, d.outputs)
    requires i in src.outputs && src.outputs[i].tx in st.r.txs
    requires i !in d.outputs && id !in st.db.outputs
    requires st' == St(st.db.(outputs := st.db.outputs[id := RenOutput(st.r, src.outputs[i])]),
                       st.r.(outputs := st.r.outputs[i := id]))
    ensures WroteOnly(src, a, base, st, st', d, OutputK(i))
  {
    OutputAdded(src, st.r, st'.r, base.outputs, st.db.outputs, d.outputs, i, id);
  }

  lemma OutputStep(src: Db, a: nat, base: Db, st: St, d: Done, tx: nat, o: IOOutput) returns (st': St)
    requires OutputsHold(src, st.r, base.outputs, st.db.outputs, d.outputs) && OneToOne(st.r.txs)
    requires ShowsOutput(src, a, tx, o) && o.id !in d.outputs && tx in st.r.txs && UniqueOutputs(src.outputs)
    requires forall x :: x in base.outputs ==> base.outputs[x].tx != st.r.txs[tx]
    ensures Step(st, OutputItem(tx, o)) == Some(st') && WroteOnly(src, a, base, st, st', d, OutputK(o.id))
  {
    hide WroteOnly;
    var id, row := NextId(st.db.outputs.Keys), RenOutput(st.r, src.outputs[o.id]);
    OutputFresh(src, st.r, base.outputs, st.db.outputs, d.outputs, o.id);
    assert RecordOutput(st.db, row).1 == id;
    st' := St(st.db.(outputs := st.db.outputs[id := row]), st.r.(outputs := st.r.outputs[o.id := id]));
    assert WroteOnly(src, a, base, st, st', d, OutputK(o.id)) by { OutputWrote(src, a, base, st, st', d, o.id, id); }
  }

  lemma MemoStep(src: Db, a: nat, base: Db, st: St, d: Done, k: MemoKey, m: Memo) returns (st': St)
    requires MemosHold(src, st.r, base.memos, st.db.memos, d.memos) && OneToOne(st.r.txs)
    requires ShowsMemo(src, a, k, m) && k !in d.memos && k.tx in st.r.txs && MemoClosed(st.r, m)
    requires MemoName(st.r, k) !in base.memos
    ensures Step(st, MemoItem(k, m.height, m.note, m.output, m.text, m.bytes)) == Some(st')
    ensures WroteOnly(src, a, base, st, st', d, MemoK(k))
  {
    MemoFree(src, st.r, base.memos, st.db.memos, d.memos, k);
    st' := st.(db := st.db.(memos := st.db.memos[MemoName(st.r, k) := RenMemo(st.r, src.memos[k])]));
    MemoAdded(src, st.r, base.memos, st.db.memos, d.memos, k);
  }

  lemma SpendWrote(src: Db, a: nat, base: Db, st: St, st': St, d: Done, i: nat)
    requires SpendsHold(src, st.r, base.spends, st.db.spends, d.spends)
    requires NotesHold(src, st.r, base.notes, st.db.notes, d.notes, d.spends)
    requires i in src.spends && i in st.r.notes && src.spends[i].tx in st.r.txs && st.r.notes[i] in st.db.notes
    requires SpendName(st.r, i) !in base.spends && SpendName(st.r, i) !in st.db.spends
    requires
      var n := st.r.notes[i];
      st' == st.(db := st.db.(spends := st.db.spends[n := RenSpend(st.r, src.spends[i])],
                              notes := st.db.notes[n := st.db.notes[n].(locked := false)]))
    ensures WroteOnly(src, a, base, st, st', d, SpendK(i))
  {
    assert NotesHold(src, st'.r, base.notes, st'.db.notes, d.notes, d.spends + {i}) by {
      NoteReleased(src, st.r, base.notes, st.db.notes, d.notes, d.spends, i);
    }
    assert SpendsHold(src, st'.r, base.spends, st'.db.spends, d.spends + {i}) by {
      SpendAdded(src, st.r, base.spends, st.db.spends, d.spends, i);
    }
  }

  lemma SpendStep(src: Db, a: nat, base: Db, st: St, d: Done, tx: nat, s: IOSpend) returns (st': St)
    requires SpendsHold(src, st.r, base.spends, st.db.spends, d.spends)
    requires NotesHold(src, st.r, base.notes, st.db.notes, d.notes, d.spends)
    requires ShowsSpend(src, a, tx, s) && s.note !in d.spends && tx in st.r.txs && s.note in st.r.notes
    requires SpendName(st.r, s.note) !in base.spends
    ensures Step(st, SpendItem(tx, s)) == Some(st') && WroteOnly(src, a, base, st, st', d, SpendK(s.note))
  {
    hide WroteOnly;
    var i, i' := s.note, st.r.notes[s.note];
    assert i' in st.db.notes && st.db.notes[i'].account == st.r.account;
    st' := st.(db := st.db.(spends := st.db.spends[i' := RenSpend(st.r, src.spends[i])],
                            notes := st.db.notes[i' := st.db.notes[i'].(locked := false)]));
    assert i' !in st.db.spends by { SpendFree(src, st.r, base.spends, st.db.spends, d.spends, i); }
    assert Step(st, SpendItem(tx, s)) == Some(st');
    assert WroteOnly(src, a, base, st, st', d, SpendK(i)) by { SpendWrote(src, a, base, st, st', d, i); }
  }

  lemma SyncStep(src: Db, a: nat, base: Db, st: St, d: Done, s: IOSync) returns (st': St)
    requires SyncsHold(src, a, st.r.account, base.syncHeights, st.db.syncHeights, d.syncs)
    requires ShowsSync(src, a, s) && OfAccount(st.r.account, s.pool) !in base.syncHeights
    ensures Step(st, SyncItem(s)) == Some(st') && WroteOnly(src, a, base, st, st', d, SyncK(s.pool))
  {
    st' := st.(db := SetCheckpoint(st.db, st.r.account, s.pool, s.height));
    SyncAdded(src, a, st.r.account, base.syncHeights, st.db.syncHeights, d.syncs, s.pool);
  }

  lemma UserMemoStep(src: Db, a: nat, base: Db, st: St, d: Done, u: IOUserMemo) returns (st': St)
    requires UserMemosHold(src, a, st.r, base.userMemos, st.db.userMemos, d.userMemos) && OneToOne(st.r.txs)
    requires ShowsUserMemo(src, a, u) && u.tx !in d.userMemos && u.tx in st.r.txs
    requires UserMemoResolves(src, OfAccount(a, u.tx))
    requires st.r.txs[u.tx] in st.db.transactions
    requires st.db.transactions[st.r.txs[u.tx]] == RenTx(st.r, src.transactions[u.tx])
    requires UserMemoName(st.r, u.tx) !in base.userMemos
    ensures Step(st, UserMemoItem(u)) == Some(st') && WroteOnly(src, a, base, st, st', d, UserMemoK(u.tx))
  {
    UserMemoFree(src, a, st.r, base.userMemos, st.db.userMemos, d.userMemos, u.tx);
    st' := st.(db := st.db.(userMemos :=
      st.db.userMemos[UserMemoName(st.r, u.tx) := src.userMemos[OfAccount(a, u.tx)]]));
    UserMemoAdded(src, a, st.r, base.userMemos, st.db.userMemos, d.userMemos, u.tx);
  }

  lemma HeaderStep(src: Db, a: nat, base: Db, st: St, d: Done, height: nat, header: Header) returns (st': St)
    requires HeadersHold(src, a, st.r.account, base.headers, st.db.headers, d.headers)
    requires ShowsHeader(src, a, height, header) && height !in d.headers
    requires OfAccount(st.r.account, height) !in base.headers
    ensures Step(st, HeaderItem(height, header)) == Some(st') && WroteOnly(src, a, base, st, st', d, HeaderK(height))
  {
    var k := OfAccount(st.r.account, height);
    assert k !in st.db.headers;
    st' := st.(db := st.db.(headers := st.db.headers[k := header]));
    HeaderAdded(src, a, st.r.account, base.headers, st.db.headers, d.headers, height);
  }

  lemma WitnessStep(src: Db, a: nat, base: Db, st: St, d: Done, w: IOWitness) returns (st': St)
    requires WitnessesHold(src, st.r, base.witnesses, st.db.witnesses, d.witnesses) && OneToOne(st.r.notes)
    requires ShowsWitness(src, a, w) && WitnessKey(w.note, w.height) !in d.witnesses && w.note in st.r.notes
    requires st.r.notes[w.note] in st.db.notes && st.db.notes[st.r.notes[w.note]].account == st.r.account
    requires WitnessName(st.r, WitnessKey(w.note, w.height)) !in base.witnesses
    ensures Step(st, WitnessItem(w)) == Some(st')
    ensures WroteOnly(src, a, base, st, st', d, WitnessK(WitnessKey(w.note, w.height)))
  {
    var k := WitnessKey(w.note, w.height);
    WitnessFree(src, st.r, base.witnesses, st.db.witnesses, d.witnesses, k);
    st' := st.(db := st.db.(witnesses := st.db.witnesses[WitnessName(st.r, k) := RenWitness(st.r, src.witnesses[k])]));
    WitnessAdded(src, st.r, base.witnesses, st.db.witnesses, d.witnesses, k);
  }

  // ---------------------------------------------------------------------
  // Together

  /** What a step may rely on. */
  ghost predicate Ready(src: Db, a: nat, base: Db, st: St, d: Done, item: Item) {
    && Integrity(base) && Unused(base, st.r.account)
    && UniqueColumns(src) && Resolves(src, a)
    && Owned(src, a, d) && !Has(d, KeyOf(item))
    && Shows(src, a, item) && Named(st.r, item)
  }

  lemma StepWrites(src: Db, a: nat, base: Db, st: St, d: Done, item: Item) returns (st': St)
    requires Ready(src, a, base, st, d, item) && Inv(src, a, base, st, d)
    ensures Step(st, item) == Some(st') && WroteOnly(src, a, base, st, st', d, KeyOf(item))
  {
    if item.TAddrItem? || item.TxItem? || item.NoteItem? || item.OutputItem? {
      st' := RowStepWrites(src, a, base, st, d, item);
    } else {
      st' := LinkStepWrites(src, a, base, st, d, item);
    }
  }

  lemma RowStepWrites(src: Db, a: nat, base: Db, st: St, d: Done, item: Item) returns (st': St)
    requires Ready(src, a, base, st, d, item) && Inv(src, a, base, st, d)
    requires item.TAddrItem? || item.TxItem? || item.NoteItem? || item.OutputItem?
    ensures Step(st, item) == Some(st') && WroteOnly(src, a, base, st, st', d, KeyOf(item))
  {
    match item
    case TAddrItem(t) => st' := TAddrStep(src, a, base, st, d, t);
    case TxItem(t) => st' := TxStep(src, a, base, st, d, t);
    case NoteItem(tx, n) => st' := NoteStep(src, a, base, st, d, tx, n);
    case OutputItem(tx, o) => st' := OutputStep(src, a, base, st, d, tx, o);
  }

  /** What a step finds in the tables it writes or looks into. */
  lemma LinkTables(src: Db, a: nat, base: Db, st: St, d: Done)
    requires Inv(src, a, base, st, d)
    ensures TxsHold(src, st.r, base.transactions, st.db.transactions, d.txs)
    ensures NotesHold(src, st.r, base.notes, st.db.notes, d.notes, d.spends)
    ensures SpendsHold(src, st.r, base.spends, st.db.spends, d.spends)
    ensures MemosHold(src, st.r, base.memos, st.db.memos, d.memos)
    ensures SyncsHold(src, a, st.r.account, base.syncHeights, st.db.syncHeights, d.syncs)
    ensures UserMemosHold(src, a, st.r, base.userMemos, st.db.userMemos, d.userMemos)
    ensures HeadersHold(src, a, st.r.account, base.headers, st.db.headers, d.headers)
    ensures WitnessesHold(src, st.r, base.witnesses, st.db.witnesses, d.witnesses)
  {
    hide TAddrsHold, TxsHold, NotesHold, OutputsHold, SpendsHold, MemosHold, SyncsHold, UserMemosHold,
      HeadersHold, WitnessesHold;
  }

  lemma TxNamed(src: Db, r: Ren, base: map<nat, Tx>, cur: map<nat, Tx>, ids: set<nat>, i: nat)
    requires TxsHold(src, r, base, cur, ids) && i in r.txs
    ensures OneToOne(r.txs) && r.txs[i] !in base && r.txs[i] in cur
    ensures i in src.transactions && cur[r.txs[i]] == RenTx(r, src.transactions[i])
  {}

  lemma NoteNamed(src: Db, r: Ren, base: map<nat, Note>, cur: map<nat, Note>, ids: set<nat>, spent: set<nat>, i: nat)
    requires NotesHold(src, r, base, cur, ids, spent) && i in r.notes
    ensures OneToOne(r.notes) && r.notes[i] !in base && r.notes[i] in cur && cur[r.notes[i]].account == r.account
  {}

  lemma MemoWrites(src: Db, a: nat, base: Db, st: St, d: Done, k: MemoKey, m: Memo) returns (st': St)
    requires Inv(src, a, base, st, d) && Integrity(base)
    requires ShowsMemo(src, a, k, m) && k !in d.memos && k.tx in st.r.txs && MemoClosed(st.r, m)
    ensures Step(st, MemoItem(k, m.height, m.note, m.output, m.text, m.bytes)) == Some(st')
    ensures WroteOnly(src, a, base, st, st', d, MemoK(k))
  {
    hide Inv, Step, WroteOnly, TxsHold, MemosHold, NotesHold, SpendsHold, SyncsHold, UserMemosHold,
      HeadersHold, WitnessesHold;
    LinkTables(src, a, base, st, d);
    TxNamed(src, st.r, base.transactions, st.db.transactions, d.txs, k.tx);
    assert MemoName(st.r, k) !in base.memos;
    st' := MemoStep(src, a, base, st, d, k, m);
  }

  lemma SpendWrites(src: Db, a: nat, base: Db, st: St, d: Done, tx: nat, s: IOSpend) returns (st': St)
    requires Inv(src, a, base, st, d) && Integrity(base)
    requires ShowsSpend(src, a, tx, s) && s.note !in d.spends && tx in st.r.txs && s.note in st.r.notes
    ensures Step(st, SpendItem(tx, s)) == Some(st') && WroteOnly(src, a, base, st, st', d, SpendK(s.note))
  {
    hide Inv, Step, WroteOnly, TxsHold, MemosHold, NotesHold, SpendsHold, SyncsHold, UserMemosHold,
      HeadersHold, WitnessesHold;
    LinkTables(src, a, base, st, d);
    NoteNamed(src, st.r, base.notes, st.db.notes, d.notes, d.spends, s.note);
    st' := SpendStep(src, a, base, st, d, tx, s);
  }

  lemma UserMemoWrites(src: Db, a: nat, base: Db, st: St, d: Done, u: IOUserMemo) returns (st': St)
    requires Inv(src, a, base, st, d) && Unused(base, st.r.account)
    requires ShowsUserMemo(src, a, u) && u.tx !in d.userMemos && u.tx in st.r.txs
    requires UserMemoResolves(src, OfAccount(a, u.tx))
    ensures Step(st, UserMemoItem(u)) == Some(st') && WroteOnly(src, a, base, st, st', d, UserMemoK(u.tx))
  {
    hide Inv, Step, WroteOnly, TxsHold, MemosHold, NotesHold, SpendsHold, SyncsHold, UserMemosHold,
      HeadersHold, WitnessesHold;
    LinkTables(src, a, base, st, d);
    TxNamed(src, st.r, base.transactions, st.db.transactions, d.txs, u.tx);
    st' := UserMemoStep(src, a, base, st, d, u);
  }

  lemma WitnessWrites(src: Db, a: nat, base: Db, st: St, d: Done, w: IOWitness) returns (st': St)
    requires Inv(src, a, base, st, d) && Integrity(base)
    requires ShowsWitness(src, a, w) && WitnessKey(w.note, w.height) !in d.witnesses && w.note in st.r.notes
    ensures Step(st, WitnessItem(w)) == Some(st')
    ensures WroteOnly(src, a, base, st, st', d, WitnessK(WitnessKey(w.note, w.height)))
  {
    hide Inv, Step, WroteOnly, TxsHold, MemosHold, NotesHold, SpendsHold, SyncsHold, UserMemosHold,
      HeadersHold, WitnessesHold;
    LinkTables(src, a, base, st, d);
    NoteNamed(src, st.r, base.notes, st.db.notes, d.notes, d.spends, w.note);
    st' := WitnessStep(src, a, base, st, d, w);
  }

  lemma LinkStepWrites(src: Db, a: nat, base: Db, st: St, d: Done, item: Item) returns (st': St)
    requires Ready(src, a, base, st, d, item) && Inv(src, a, base, st, d)
    requires !item.TAddrItem? && !item.TxItem? && !item.NoteItem? && !item.OutputItem?
    ensures Step(st, item) == Some(st') && WroteOnly(src, a, base, st, st', d, KeyOf(item))
  {
    hide Inv, Step, WroteOnly, Integrity, UniqueColumns, Owned, TxsHold, MemosHold, NotesHold, SpendsHold,
      SyncsHold, UserMemosHold, HeadersHold, WitnessesHold;
    LinkTables(src, a, base, st, d);
    match item
    case SyncItem(s) => st' := SyncStep(src, a, base, st, d, s);
    case MemoItem(k, height, n, o, text, bytes) =>
      st' := MemoWrites(src, a, base, st, d, k, Memo(a, height, n, o, text, bytes));
    case SpendItem(tx, s) => st' := SpendWrites(src, a, base, st, d, tx, s);
    case UserMemoItem(u) => st' := UserMemoWrites(src, a, base, st, d, u);
    case HeaderItem(height, h) => st' := HeaderStep(src, a, base, st, d, height, h);
    case WitnessItem(w) => st' := WitnessWrites(src, a, base, st, d, w);
  }
}
