/** Restoring the rows of a backup under fresh ids. */
module Restore {
  import opened Wrappers
  import opened RowIds
  import Positions
  import opened Renaming
  import opened Tables
  import opened BackupFormat

  /** The renaming maps of a restore, and the new account's id. */
  datatype Ren = Ren(account: nat, cats: map<nat, nat>, assets: map<nat, nat>,
    taddrs: map<nat, nat>, txs: map<nat, nat>, notes: map<nat, nat>, outputs: map<nat, nat>)

  datatype St = St(db: Db, r: Ren)

  function Look(m: map<nat, nat>, o: Option<nat>): Option<nat> {
    if o.Some? && o.value in m then Some(m[o.value]) else None
  }

  /** One row written. None is an error, which rolls the restore back. */
  function Step(st: St, item: Item): Option<St> {
    var db, r := st.db, st.r;
    match item
    case TAddrItem(t) =>
      var ins := InsertTAddr(db, TAddr(r.account, t.scope, t.dindex, t.data));
      if ins.None? then None else Some(St(ins.value.0, r.(taddrs := r.taddrs[t.id := ins.value.1])))
    case SyncItem(s) => Some(st.(db := SetCheckpoint(db, r.account, s.pool, s.height)))
    case TxItem(t) =>
      var ins := RecordTransaction(db, Tx(r.account, t.txid, t.height, t.data, Look(r.cats, t.category)));
      if ins.None? then None else Some(St(ins.value.0, r.(txs := r.txs[t.id := ins.value.1])))
    case NoteItem(tx, n) =>
      if tx !in r.txs then None else
      var ins := RecordNote(db, Note(r.account, r.txs[tx], n.height, n.pool, n.nullifier, AsI64(n.value),
        Look(r.taddrs, n.taddress), n.locked, Look(r.assets, n.asset), n.data));
      if ins.None? then None else Some(St(ins.value.0, r.(notes := r.notes[n.id := ins.value.1])))
    case OutputItem(tx, o) =>
      if tx !in r.txs then None else
      var (db', id) := RecordOutput(db,
        Output(r.account, r.txs[tx], o.height, o.pool, o.vout, AsI64(o.value), o.address));
      Some(St(db', r.(outputs := r.outputs[o.id := id])))
    case MemoItem(k, height, ofNote, ofOutput, text, bytes) =>
      if k.tx !in r.txs then None else
      Some(st.(db := RecordMemo(db, MemoKey(r.txs[k.tx], k.pool, k.vout),
        Memo(r.account, height, Look(r.notes, ofNote), Look(r.outputs, ofOutput), text, bytes))))
    case SpendItem(tx, s) =>
      if tx !in r.txs || s.note !in r.notes then None else
      var ins := RecordSpend(db, r.account, r.notes[s.note],
        Spend(r.account, r.txs[tx], s.height, s.pool, AsI64(s.value)));
      if ins.None? then None else Some(st.(db := ins.value))
    case UserMemoItem(u) =>
      if u.tx !in r.txs then Some(st) else
      var ins := InsertUserMemo(db, r.account, r.txs[u.tx], u.text);
      if ins.None? then None else Some(st.(db := ins.value))
    case HeaderItem(height, h) => Some(st.(db := StoreHeader(db, r.account, height, h)))
    case WitnessItem(w) =>
      if w.note !in r.notes then None else
      var ins := RecordWitness(db, r.account, r.notes[w.note], w.height, w.path);
      if ins.None? then None else Some(st.(db := ins.value))
  }

  function Run(st: St, items: seq<Item>): Option<St> {
    if items == [] then Some(st)
    else
      var before := Run(st, items[..|items| - 1]);
      if before.None? then None else Step(before.value, items[|items| - 1])
  }

  // ---------------------------------------------------------------------
  // Rows under their new names

  function To(m: map<nat, nat>, k: nat): nat { if k in m then m[k] else 0 }

  function RenTAddr(r: Ren, t: TAddr): TAddr { t.(account := r.account) }

  function RenTx(r: Ren, t: Tx): Tx { t.(account := r.account, category := Look(r.cats, t.category)) }

  /** A note comes back unlocked once its spend is recorded. */
  function RenNote(r: Ren, n: Note, spent: bool): Note {
    n.(account := r.account, tx := To(r.txs, n.tx), taddress := Look(r.taddrs, n.taddress),
       locked := n.locked && !spent, asset := Look(r.assets, n.asset))
  }

  function RenSpend(r: Ren, s: Spend): Spend { s.(account := r.account, tx := To(r.txs, s.tx)) }

  function RenOutput(r: Ren, o: Output): Output { o.(account := r.account, tx := To(r.txs, o.tx)) }

  function RenMemo(r: Ren, m: Memo): Memo {
    m.(account := r.account, note := Look(r.notes, m.note), output := Look(r.outputs, m.output))
  }

  function RenWitness(r: Ren, w: Witness): Witness { w.(account := r.account) }

  // ---------------------------------------------------------------------
  // The exported wallet

  ghost predicate Linked(m: Memo) { m.note.Some? || m.output.Some? }

  /** Rows with the same unique columns are the same row. */
  ghost predicate UniqueColumns(src: Db) {
    && UniqueSlots(src.taddrs) && UniqueTxs(src.transactions)
    && UniqueNotes(src.notes) && UniqueOutputs(src.outputs)
  }

  ghost predicate UniqueSlots(t: map<nat, TAddr>) {
    forall i, j :: i in t && j in t && SameSlot(t[i], t[j]) ==> i == j
  }

  ghost predicate UniqueTxs(t: map<nat, Tx>) {
    forall i, j :: i in t && j in t && SameTx(t[i], t[j]) ==> i == j
  }

  ghost predicate UniqueNotes(t: map<nat, Note>) {
    forall i, j :: i in t && j in t && SameNote(t[i], t[j]) ==> i == j
  }

  ghost predicate UniqueOutputs(t: map<nat, Output>) {
    forall i, j :: i in t && j in t && SameOutput(t[i], t[j]) ==> i == j
  }

  ghost predicate SameSlot(s: TAddr, t: TAddr) {
    s.account == t.account && s.scope == t.scope && s.dindex == t.dindex
  }

  ghost predicate SameTx(s: Tx, t: Tx) {
    s.account == t.account && s.txid == t.txid
  }

  ghost predicate SameNote(m: Note, n: Note) {
    m.account == n.account && m.nullifier == n.nullifier
  }

  /** The account's references resolve within it. */
  ghost predicate Resolves(src: Db, a: nat) {
    && (forall i :: i in src.notes ==> InTx(src, a, src.notes[i].account, src.notes[i].tx))
    && (forall i :: i in src.notes && src.notes[i].account == a ==> AddressResolves(src, a, src.notes[i].taddress))
    && (forall i :: i in src.spends ==> InTx(src, a, src.spends[i].account, src.spends[i].tx))
    && (forall i :: i in src.spends && src.spends[i].account == a ==> i in src.notes && src.notes[i].account == a)
    && (forall i :: i in src.outputs ==> InTx(src, a, src.outputs[i].account, src.outputs[i].tx))
    && (forall k :: k in src.userMemos && k.account == a ==> UserMemoResolves(src, k))
    && (forall k :: k in src.witnesses && src.witnesses[k].account == a ==> WitnessResolves(src, a, k))
  }

  ghost predicate AddressResolves(src: Db, a: nat, t: Option<nat>) {
    t.Some? ==> t.value in src.taddrs && src.taddrs[t.value].account == a
  }

  ghost predicate UserMemoResolves(src: Db, k: OfAccount)
    requires k in src.userMemos
  {
    && k.key in src.transactions && src.transactions[k.key].account == k.account
    && src.userMemos[k].height == src.transactions[k.key].height
  }

  ghost predicate WitnessResolves(src: Db, a: nat, k: WitnessKey) {
    k.note in src.notes && src.notes[k.note].account == a && OfAccount(a, k.height) in src.headers
  }

  /** At most one memo per note and per output, agreeing with it. */
  ghost predicate MemosAgree(src: Db, a: nat) {
    && (forall k :: k in src.memos && Linked(src.memos[k]) ==>
          InTx(src, a, src.memos[k].account, k.tx) && MemoAgrees(src, k))
    && (forall j, k :: j in src.memos && k in src.memos && SameLink(src.memos[j], src.memos[k]) ==> j == k)
  }

  ghost predicate SameLink(m: Memo, n: Memo) {
    (m.note.Some? && m.note == n.note) || (m.output.Some? && m.output == n.output)
  }

  /** An account whose unique columns are unique, whose references resolve
      within it, and whose memos agree with the note or output they belong
      to. */
  ghost predicate WellFormedRows(src: Db, a: nat) {
    UniqueColumns(src) && Resolves(src, a) && MemosAgree(src, a)
  }

  /** A row belongs to the account exactly when its transaction does. */
  ghost predicate InTx(src: Db, a: nat, account: nat, tx: nat) {
    account == a <==> tx in src.transactions && src.transactions[tx].account == a
  }

  /** A linked memo is that of one note or of one output, with its
      transaction, pool and height. */
  ghost predicate MemoAgrees(src: Db, k: MemoKey)
    requires k in src.memos
  {
    var m := src.memos[k];
    && (m.note.Some? ==> m.output.None? && m.note.value in src.notes && OfThatNote(k, m, src.notes[m.note.value]))
    && (m.output.Some? ==> m.output.value in src.outputs && OfThatOutput(k, m, src.outputs[m.output.value]))
  }

  ghost predicate OfThatNote(k: MemoKey, m: Memo, n: Note) {
    n.tx == k.tx && n.pool == k.pool && n.height == m.height && n.account == m.account
  }

  ghost predicate OfThatOutput(k: MemoKey, m: Memo, o: Output) {
    o.tx == k.tx && o.pool == k.pool && o.vout == k.vout && o.height == m.height && o.account == m.account
  }

  /** A header is backed up when a witness of the account stands at its height. */
  ghost predicate Witnessed(src: Db, a: nat, height: nat) {
    exists k :: k in src.witnesses && src.witnesses[k].account == a && k.height == height
  }

  /** The rows of the account that a backup lists. */
  ghost predicate Belongs(src: Db, a: nat, k: Key) {
    match k
    case TAddrK(i) => i in src.taddrs && src.taddrs[i].account == a
    case SyncK(p) => OfAccount(a, p) in src.syncHeights
    case TxK(i) => i in src.transactions && src.transactions[i].account == a
    case NoteK(i) => i in src.notes && src.notes[i].account == a
    case OutputK(i) => i in src.outputs && src.outputs[i].account == a
    case MemoK(k) => k in src.memos && src.memos[k].account == a && Linked(src.memos[k])
    case SpendK(i) => i in src.spends && src.spends[i].account == a
    case UserMemoK(t) => OfAccount(a, t) in src.userMemos
    case HeaderK(h) => OfAccount(a, h) in src.headers && Witnessed(src, a, h)
    case WitnessK(k) => k in src.witnesses && src.witnesses[k].account == a
  }

  // ---------------------------------------------------------------------
  // The item shows the columns of the row it stands for

  ghost predicate ShowsTAddr(src: Db, a: nat, t: IOTAddr) {
    t.id in src.taddrs && src.taddrs[t.id] == TAddr(a, t.scope, t.dindex, t.data)
  }

  ghost predicate ShowsSync(src: Db, a: nat, s: IOSync) {
    OfAccount(a, s.pool) in src.syncHeights && src.syncHeights[OfAccount(a, s.pool)] == s.height
  }

  ghost predicate ShowsTx(src: Db, a: nat, t: IOTransaction) {
    t.id in src.transactions && src.transactions[t.id] == Tx(a, t.txid, t.height, t.data, t.category)
  }

  ghost predicate ShowsNote(src: Db, a: nat, tx: nat, n: IONote) {
    && n.id in src.notes
    && src.notes[n.id] == Note(a, tx, n.height, n.pool, n.nullifier, AsI64(n.value), n.taddress, n.locked, n.asset,
                               n.data)
  }

  ghost predicate ShowsOutput(src: Db, a: nat, tx: nat, o: IOOutput) {
    o.id in src.outputs && src.outputs[o.id] == Output(a, tx, o.height, o.pool, o.vout, AsI64(o.value), o.address)
  }

  ghost predicate ShowsMemo(src: Db, a: nat, k: MemoKey, m: Memo) {
    k in src.memos && Linked(src.memos[k]) && src.memos[k] == m && m.account == a
  }

  ghost predicate ShowsSpend(src: Db, a: nat, tx: nat, s: IOSpend) {
    s.note in src.spends && src.spends[s.note] == Spend(a, tx, s.height, s.pool, AsI64(s.value))
  }

  ghost predicate ShowsUserMemo(src: Db, a: nat, u: IOUserMemo) {
    OfAccount(a, u.tx) in src.userMemos && src.userMemos[OfAccount(a, u.tx)].text == u.text
  }

  ghost predicate ShowsHeader(src: Db, a: nat, height: nat, header: Header) {
    && OfAccount(a, height) in src.headers && src.headers[OfAccount(a, height)] == header
    && Witnessed(src, a, height)
  }

  ghost predicate ShowsWitness(src: Db, a: nat, w: IOWitness) {
    && WitnessKey(w.note, w.height) in src.witnesses
    && src.witnesses[WitnessKey(w.note, w.height)] == Witness(a, w.path)
  }

  ghost predicate Shows(src: Db, a: nat, item: Item) {
    match item
    case TAddrItem(t) => ShowsTAddr(src, a, t)
    case SyncItem(s) => ShowsSync(src, a, s)
    case TxItem(t) => ShowsTx(src, a, t)
    case NoteItem(tx, n) => ShowsNote(src, a, tx, n)
    case OutputItem(tx, o) => ShowsOutput(src, a, tx, o)
    case MemoItem(k, height, ofNote, ofOutput, text, bytes) =>
      ShowsMemo(src, a, k, Memo(a, height, ofNote, ofOutput, text, bytes))
    case SpendItem(tx, s) => ShowsSpend(src, a, tx, s)
    case UserMemoItem(u) => ShowsUserMemo(src, a, u)
    case HeaderItem(h, header) => ShowsHeader(src, a, h, header)
    case WitnessItem(w) => ShowsWitness(src, a, w)
  }

  function Keys(items: seq<Item>): set<Key> {
    set i | 0 <= i < |items| :: KeyOf(items[i])
  }

  /** The rows that the item refers to. */
  function Needs(item: Item): set<Key> {
    match item
    case NoteItem(tx, n) => {TxK(tx)} + if n.taddress.Some? then {TAddrK(n.taddress.value)} else {}
    case OutputItem(tx, _) => {TxK(tx)}
    case MemoItem(k, _, n, o, _, _) =>
      {TxK(k.tx)} + (if n.Some? then {NoteK(n.value)} else {}) + (if o.Some? then {OutputK(o.value)} else {})
    case SpendItem(tx, s) => {TxK(tx), NoteK(s.note)}
    case UserMemoItem(u) => {TxK(u.tx)}
    case WitnessItem(w) => {NoteK(w.note)}
    case _ => {}
  }

  /** The items are rows of the account, each listed once and after the rows it
      refers to, given that the rows `before` come first. */
  ghost predicate Lists(src: Db, a: nat, before: set<Key>, items: seq<Item>) {
    items == []
    || (var init, last := items[..|items| - 1], items[|items| - 1];
        && Lists(src, a, before, init)
        && Shows(src, a, last) && KeyOf(last) !in before + Keys(init) && Needs(last) <= before + Keys(init))
  }

  // ---------------------------------------------------------------------
  // The rows restored so far, table by table

  datatype Done = Done(taddrs: set<nat>, syncs: set<nat>, txs: set<nat>, notes: set<nat>, outputs: set<nat>,
    memos: set<MemoKey>, spends: set<nat>, userMemos: set<nat>, headers: set<nat>, witnesses: set<WitnessKey>)

  function Mark(d: Done, k: Key): Done {
    match k
    case TAddrK(i) => d.(taddrs := d.taddrs + {i})
    case SyncK(p) => d.(syncs := d.syncs + {p})
    case TxK(i) => d.(txs := d.txs + {i})
    case NoteK(i) => d.(notes := d.notes + {i})
    case OutputK(i) => d.(outputs := d.outputs + {i})
    case MemoK(key) => d.(memos := d.memos + {key})
    case SpendK(i) => d.(spends := d.spends + {i})
    case UserMemoK(t) => d.(userMemos := d.userMemos + {t})
    case HeaderK(h) => d.(headers := d.headers + {h})
    case WitnessK(key) => d.(witnesses := d.witnesses + {key})
  }

  ghost predicate Has(d: Done, k: Key) {
    match k
    case TAddrK(i) => i in d.taddrs
    case SyncK(p) => p in d.syncs
    case TxK(i) => i in d.txs
    case NoteK(i) => i in d.notes
    case OutputK(i) => i in d.outputs
    case MemoK(key) => key in d.memos
    case SpendK(i) => i in d.spends
    case UserMemoK(t) => t in d.userMemos
    case HeaderK(h) => h in d.headers
    case WitnessK(key) => key in d.witnesses
  }

  function MemoName(r: Ren, k: MemoKey): MemoKey { MemoKey(To(r.txs, k.tx), k.pool, k.vout) }

  function WitnessName(r: Ren, k: WitnessKey): WitnessKey { WitnessKey(To(r.notes, k.note), k.height) }

  function SpendName(r: Ren, i: nat): nat { To(r.notes, i) }

  function UserMemoName(r: Ren, t: nat): OfAccount { OfAccount(r.account, To(r.txs, t)) }

  // ---------------------------------------------------------------------
  // Table by table: it is the old one plus a renamed row for each of `ids`,
  // and these rows refer to renamed rows

  ghost predicate TAddrsHold(src: Db, r: Ren, base: map<nat, TAddr>, cur: map<nat, TAddr>, ids: set<nat>) {
    && Placed(base, cur, r.taddrs, ids)
    && (forall i :: i in ids ==> i in src.taddrs && cur[r.taddrs[i]] == RenTAddr(r, src.taddrs[i]))
  }

  ghost predicate TxsHold(src: Db, r: Ren, base: map<nat, Tx>, cur: map<nat, Tx>, ids: set<nat>) {
    && Placed(base, cur, r.txs, ids)
    && (forall i :: i in ids ==> i in src.transactions && cur[r.txs[i]] == RenTx(r, src.transactions[i]))
  }

  /** A note comes back unlocked once its spend is recorded. */
  ghost predicate NotesHold(src: Db, r: Ren, base: map<nat, Note>, cur: map<nat, Note>, ids: set<nat>,
                            spent: set<nat>) {
    && Placed(base, cur, r.notes, ids)
    && (forall i :: i in ids ==> i in src.notes && NoteClosed(r, src.notes[i]))
    && (forall i :: i in ids ==> cur[r.notes[i]] == RenNote(r, src.notes[i], i in spent))
  }

  ghost predicate NoteClosed(r: Ren, n: Note) {
    n.tx in r.txs && (n.taddress.Some? ==> n.taddress.value in r.taddrs)
  }

  ghost predicate OutputsHold(src: Db, r: Ren, base: map<nat, Output>, cur: map<nat, Output>, ids: set<nat>) {
    && Placed(base, cur, r.outputs, ids)
    && (forall i :: i in ids ==> i in src.outputs && src.outputs[i].tx in r.txs)
    && (forall i :: i in ids ==> cur[r.outputs[i]] == RenOutput(r, src.outputs[i]))
  }

  ghost predicate SpendsHold(src: Db, r: Ren, base: map<nat, Spend>, cur: map<nat, Spend>, ids: set<nat>) {
    && Kept(base, cur)
    && (forall i :: i in ids ==> i in src.spends && i in r.notes && src.spends[i].tx in r.txs)
    && (forall i :: i in ids ==> SpendName(r, i) !in base && SpendName(r, i) in cur
                                 && cur[SpendName(r, i)] == RenSpend(r, src.spends[i]))
    && (forall k :: k in cur ==> k in base || exists i :: i in ids && SpendName(r, i) == k)
  }

  ghost predicate MemosHold(src: Db, r: Ren, base: map<MemoKey, Memo>, cur: map<MemoKey, Memo>, ids: set<MemoKey>) {
    && Kept(base, cur)
    && (forall k :: k in ids ==> k in src.memos && k.tx in r.txs && MemoClosed(r, src.memos[k]))
    && (forall k :: k in ids ==>
          MemoName(r, k) !in base && MemoName(r, k) in cur && cur[MemoName(r, k)] == RenMemo(r, src.memos[k]))
    && (forall k :: k in cur ==> k in base || exists j :: j in ids && MemoName(r, j) == k)
  }

  ghost predicate MemoClosed(r: Ren, m: Memo) {
    (m.note.Some? ==> m.note.value in r.notes) && (m.output.Some? ==> m.output.value in r.outputs)
  }

  ghost predicate SyncsHold(src: Db, a: nat, b: nat, base: map<OfAccount, nat>, cur: map<OfAccount, nat>,
                            ids: set<nat>) {
    && Kept(base, cur)
    && (forall p :: p in ids ==>
          OfAccount(b, p) !in base && OfAccount(b, p) in cur && OfAccount(a, p) in src.syncHeights
                                 && cur[OfAccount(b, p)] == src.syncHeights[OfAccount(a, p)])
    && (forall k :: k in cur ==> k in base || exists p :: p in ids && OfAccount(b, p) == k)
  }

  ghost predicate UserMemosHold(src: Db, a: nat, r: Ren, base: map<OfAccount, UserMemo>, cur: map<OfAccount, UserMemo>,
                                ids: set<nat>) {
    && Kept(base, cur)
    && (forall t :: t in ids ==> t in r.txs && OfAccount(a, t) in src.userMemos)
    && (forall t :: t in ids ==> UserMemoName(r, t) !in base && UserMemoName(r, t) in cur
                                 && cur[UserMemoName(r, t)] == src.userMemos[OfAccount(a, t)])
    && (forall k :: k in cur ==> k in base || exists t :: t in ids && UserMemoName(r, t) == k)
  }

  ghost predicate HeadersHold(src: Db, a: nat, b: nat, base: map<OfAccount, Header>, cur: map<OfAccount, Header>,
                              ids: set<nat>) {
    && Kept(base, cur)
    && (forall h :: h in ids ==> OfAccount(b, h) !in base && OfAccount(b, h) in cur && OfAccount(a, h) in src.headers
                                 && cur[OfAccount(b, h)] == src.headers[OfAccount(a, h)])
    && (forall k :: k in cur ==> k in base || exists h :: h in ids && OfAccount(b, h) == k)
  }

  ghost predicate WitnessesHold(src: Db, r: Ren, base: map<WitnessKey, Witness>, cur: map<WitnessKey, Witness>,
                                ids: set<WitnessKey>) {
    && Kept(base, cur)
    && (forall k :: k in ids ==> k in src.witnesses && k.note in r.notes)
    && (forall k :: k in ids ==> WitnessName(r, k) !in base && WitnessName(r, k) in cur
                                 && cur[WitnessName(r, k)] == RenWitness(r, src.witnesses[k]))
    && (forall k :: k in cur ==> k in base || exists j :: j in ids && WitnessName(r, j) == k)
  }

  /** `db` is `base` plus a copy of the rows `d` of account a of `src`: one new
      row for each, the links between them kept by the renaming, and nothing
      else changed. */
  ghost predicate Copied(src: Db, a: nat, base: Db, db: Db, r: Ren, d: Done) {
    && TAddrsHold(src, r, base.taddrs, db.taddrs, d.taddrs)
    && TxsHold(src, r, base.transactions, db.transactions, d.txs)
    && NotesHold(src, r, base.notes, db.notes, d.notes, d.spends)
    && OutputsHold(src, r, base.outputs, db.outputs, d.outputs)
    && SpendsHold(src, r, base.spends, db.spends, d.spends)
    && MemosHold(src, r, base.memos, db.memos, d.memos)
    && SyncsHold(src, a, r.account, base.syncHeights, db.syncHeights, d.syncs)
    && UserMemosHold(src, a, r, base.userMemos, db.userMemos, d.userMemos)
    && HeadersHold(src, a, r.account, base.headers, db.headers, d.headers)
    && WitnessesHold(src, r, base.witnesses, db.witnesses, d.witnesses)
  }

  ghost predicate Inv(src: Db, a: nat, base: Db, st: St, d: Done) {
    && st.r.account == NextId(base.positions.Keys)
    && st.db.positions == Positions.Shifted(base.positions, st.r.account)
    && Copied(src, a, base, st.db, st.r, d)
  }

  // ---------------------------------------------------------------------
  // A table keeps what it holds when the renaming grows

  ghost predicate Extends(f: map<nat, nat>, f': map<nat, nat>) {
    forall k :: k in f ==> k in f' && f'[k] == f[k]
  }

  ghost predicate Grows(r: Ren, r': Ren) {
    && r'.account == r.account && r'.cats == r.cats && r'.assets == r.assets
    && Extends(r.taddrs, r'.taddrs) && Extends(r.txs, r'.txs)
    && Extends(r.notes, r'.notes) && Extends(r.outputs, r'.outputs)
  }

  lemma TAddrsKept(src: Db, r: Ren, r': Ren, base: map<nat, TAddr>, cur: map<nat, TAddr>, ids: set<nat>)
    requires TAddrsHold(src, r, base, cur, ids) && Grows(r, r') && r'.taddrs == r.taddrs
    ensures TAddrsHold(src, r', base, cur, ids)
  {}

  lemma TxsKept(src: Db, r: Ren, r': Ren, base: map<nat, Tx>, cur: map<nat, Tx>, ids: set<nat>)
    requires TxsHold(src, r, base, cur, ids) && Grows(r, r') && r'.txs == r.txs
    ensures TxsHold(src, r', base, cur, ids)
  {}

  lemma NotesKept(src: Db, r: Ren, r': Ren, base: map<nat, Note>, cur: map<nat, Note>, ids: set<nat>, spent: set<nat>)
    requires NotesHold(src, r, base, cur, ids, spent) && Grows(r, r') && r'.notes == r.notes
    ensures NotesHold(src, r', base, cur, ids, spent)
  {
    forall i | i in ids
      ensures NoteClosed(r', src.notes[i])
      ensures RenNote(r', src.notes[i], i in spent) == RenNote(r, src.notes[i], i in spent)
    {
      assert NoteClosed(r, src.notes[i]);
    }
  }

  lemma OutputsKept(src: Db, r: Ren, r': Ren, base: map<nat, Output>, cur: map<nat, Output>, ids: set<nat>)
    requires OutputsHold(src, r, base, cur, ids) && Grows(r, r') && r'.outputs == r.outputs
    ensures OutputsHold(src, r', base, cur, ids)
  {}

  lemma SpendsKept(src: Db, r: Ren, r': Ren, base: map<nat, Spend>, cur: map<nat, Spend>, ids: set<nat>)
    requires SpendsHold(src, r, base, cur, ids) && Grows(r, r')
    ensures SpendsHold(src, r', base, cur, ids)
  {
    forall i | i in ids
      ensures i in r'.notes && SpendName(r', i) == SpendName(r, i)
      ensures RenSpend(r', src.spends[i]) == RenSpend(r, src.spends[i])
    {}
    forall k | k in cur && k !in base
      ensures exists i :: i in ids && SpendName(r', i) == k
    {
      var i :| i in ids && SpendName(r, i) == k;
      assert SpendName(r', i) == k;
    }
  }

  lemma MemosKept(src: Db, r: Ren, r': Ren, base: map<MemoKey, Memo>, cur: map<MemoKey, Memo>, ids: set<MemoKey>)
    requires MemosHold(src, r, base, cur, ids) && Grows(r, r')
    ensures MemosHold(src, r', base, cur, ids)
  {
    forall k | k in ids
      ensures k.tx in r'.txs && MemoClosed(r', src.memos[k])
      ensures MemoName(r', k) == MemoName(r, k) && RenMemo(r', src.memos[k]) == RenMemo(r, src.memos[k])
    {
      assert MemoClosed(r, src.memos[k]);
    }
    forall k | k in cur && k !in base
      ensures exists j :: j in ids && MemoName(r', j) == k
    {
      var j :| j in ids && MemoName(r, j) == k;
      assert MemoName(r', j) == k;
    }
  }

  lemma UserMemosKept(src: Db, a: nat, r: Ren, r': Ren, base: map<OfAccount, UserMemo>, cur: map<OfAccount, UserMemo>,
                      ids: set<nat>)
    requires UserMemosHold(src, a, r, base, cur, ids) && Grows(r, r')
    ensures UserMemosHold(src, a, r', base, cur, ids)
  {
    forall t | t in ids
      ensures t in r'.txs && UserMemoName(r', t) == UserMemoName(r, t)
    {}
    forall k | k in cur && k !in base
      ensures exists t :: t in ids && UserMemoName(r', t) == k
    {
      var t :| t in ids && UserMemoName(r, t) == k;
      assert UserMemoName(r', t) == k;
    }
  }

  lemma WitnessesKept(src: Db, r: Ren, r': Ren, base: map<WitnessKey, Witness>, cur: map<WitnessKey, Witness>,
                      ids: set<WitnessKey>)
    requires WitnessesHold(src, r, base, cur, ids) && Grows(r, r')
    ensures WitnessesHold(src, r', base, cur, ids)
  {
    forall k | k in ids
      ensures k.note in r'.notes && WitnessName(r', k) == WitnessName(r, k)
    {}
    forall k | k in cur && k !in base
      ensures exists j :: j in ids && WitnessName(r', j) == k
    {
      var j :| j in ids && WitnessName(r, j) == k;
      assert WitnessName(r', j) == k;
    }
  }

  /** A step wrote the table of its row, and left the others as they were. */
  ghost predicate WroteOnly(src: Db, a: nat, base: Db, st: St, st': St, d: Done, key: Key) {
    var r, r', d' := st.r, st'.r, Mark(d, key);
    && st'.db.positions == st.db.positions && Grows(r, r')
    && (if key.TAddrK? then TAddrsHold(src, r', base.taddrs, st'.db.taddrs, d'.taddrs)
        else st'.db.taddrs == st.db.taddrs && r'.taddrs == r.taddrs)
    && (if key.TxK? then TxsHold(src, r', base.transactions, st'.db.transactions, d'.txs)
        else st'.db.transactions == st.db.transactions && r'.txs == r.txs)
    && (if key.NoteK? || key.SpendK? then NotesHold(src, r', base.notes, st'.db.notes, d'.notes, d'.spends)
        else st'.db.notes == st.db.notes && r'.notes == r.notes)
    && (if key.OutputK? then OutputsHold(src, r', base.outputs, st'.db.outputs, d'.outputs)
        else st'.db.outputs == st.db.outputs && r'.outputs == r.outputs)
    && (if key.SpendK? then SpendsHold(src, r', base.spends, st'.db.spends, d'.spends)
        else st'.db.spends == st.db.spends)
    && (if key.MemoK? then MemosHold(src, r', base.memos, st'.db.memos, d'.memos) else st'.db.memos == st.db.memos)
    && (if key.SyncK? then SyncsHold(src, a, r.account, base.syncHeights, st'.db.syncHeights, d'.syncs)
        else st'.db.syncHeights == st.db.syncHeights)
    && (if key.UserMemoK? then UserMemosHold(src, a, r', base.userMemos, st'.db.userMemos, d'.userMemos)
        else st'.db.userMemos == st.db.userMemos)
    && (if key.HeaderK? then HeadersHold(src, a, r.account, base.headers, st'.db.headers, d'.headers)
        else st'.db.headers == st.db.headers)
    && (if key.WitnessK? then WitnessesHold(src, r', base.witnesses, st'.db.witnesses, d'.witnesses)
        else st'.db.witnesses == st.db.witnesses)
  }

  lemma WroteOnlyKeeps(src: Db, a: nat, base: Db, st: St, st': St, d: Done, key: Key)
    requires Inv(src, a, base, st, d) && WroteOnly(src, a, base, st, st', d, key)
    ensures Inv(src, a, base, st', Mark(d, key))
  {
    var r, r', db := st.r, st'.r, st.db;
    if !key.TAddrK? { TAddrsKept(src, r, r', base.taddrs, db.taddrs, d.taddrs); }
    if !key.TxK? { TxsKept(src, r, r', base.transactions, db.transactions, d.txs); }
    if !key.NoteK? && !key.SpendK? { NotesKept(src, r, r', base.notes, db.notes, d.notes, d.spends); }
    if !key.OutputK? { OutputsKept(src, r, r', base.outputs, db.outputs, d.outputs); }
    if !key.SpendK? { SpendsKept(src, r, r', base.spends, db.spends, d.spends); }
    if !key.MemoK? { MemosKept(src, r, r', base.memos, db.memos, d.memos); }
    if !key.UserMemoK? { UserMemosKept(src, a, r, r', base.userMemos, db.userMemos, d.userMemos); }
    if !key.WitnessK? { WitnessesKept(src, r, r', base.witnesses, db.witnesses, d.witnesses); }
  }

  // ---------------------------------------------------------------------
  // The new row is no conflict

  lemma TAddrFresh(src: Db, r: Ren, base: map<nat, TAddr>, cur: map<nat, TAddr>, ids: set<nat>, i: nat)
    requires TAddrsHold(src, r, base, cur, ids) && UniqueSlots(src.taddrs) && NoTAddrOf(base, r.account)
    requires i in src.taddrs && i !in ids
    requires forall k :: k in ids && k in src.taddrs ==> src.taddrs[k].account == src.taddrs[i].account
    ensures forall x :: x in cur ==> !SameSlot(cur[x], RenTAddr(r, src.taddrs[i]))
  {
    forall x | x in cur
      ensures !SameSlot(cur[x], RenTAddr(r, src.taddrs[i]))
    {
      if x !in base {
        var k := PlacedFrom(base, cur, r.taddrs, ids, x);
        assert !SameSlot(src.taddrs[k], src.taddrs[i]);
      }
    }
  }

  lemma TxFresh(src: Db, r: Ren, base: map<nat, Tx>, cur: map<nat, Tx>, ids: set<nat>, i: nat)
    requires TxsHold(src, r, base, cur, ids) && UniqueTxs(src.transactions) && NoTxOf(base, r.account)
    requires i in src.transactions && i !in ids
    requires forall k :: k in ids && k in src.transactions ==>
      src.transactions[k].account == src.transactions[i].account
    ensures forall x :: x in cur ==> !SameTx(cur[x], RenTx(r, src.transactions[i]))
  {
    forall x | x in cur
      ensures !SameTx(cur[x], RenTx(r, src.transactions[i]))
    {
      if x !in base {
        var k := PlacedFrom(base, cur, r.txs, ids, x);
        assert !SameTx(src.transactions[k], src.transactions[i]);
      }
    }
  }

  lemma NoteFresh(src: Db, r: Ren, base: map<nat, Note>, cur: map<nat, Note>, ids: set<nat>, spent: set<nat>, i: nat)
    requires NotesHold(src, r, base, cur, ids, spent) && UniqueNotes(src.notes) && NoNoteOf(base, r.account)
    requires i in src.notes && i !in ids
    requires forall k :: k in ids && k in src.notes ==> src.notes[k].account == src.notes[i].account
    ensures forall x :: x in cur ==> !SameNote(cur[x], RenNote(r, src.notes[i], false))
  {
    forall x | x in cur
      ensures !SameNote(cur[x], RenNote(r, src.notes[i], false))
    {
      if x !in base {
        var k := PlacedFrom(base, cur, r.notes, ids, x);
        assert !SameNote(src.notes[k], src.notes[i]);
      }
    }
  }

  lemma OutputFresh(src: Db, r: Ren, base: map<nat, Output>, cur: map<nat, Output>, ids: set<nat>, i: nat)
    requires OutputsHold(src, r, base, cur, ids) && UniqueOutputs(src.outputs) && OneToOne(r.txs)
    requires i in src.outputs && i !in ids && src.outputs[i].tx in r.txs
    requires forall x :: x in base ==> base[x].tx != r.txs[src.outputs[i].tx]
    ensures forall x :: x in cur ==> !SameOutput(cur[x], RenOutput(r, src.outputs[i]))
  {
    forall x | x in cur
      ensures !SameOutput(cur[x], RenOutput(r, src.outputs[i]))
    {
      if x !in base {
        var k := PlacedFrom(base, cur, r.outputs, ids, x);
        assert !SameOutput(src.outputs[k], src.outputs[i]);
      }
    }
  }

  ghost predicate NoTAddrOf(t: map<nat, TAddr>, b: nat) {
    forall i :: i in t ==> t[i].account != b
  }

  ghost predicate NoTxOf(t: map<nat, Tx>, b: nat) {
    forall i :: i in t ==> t[i].account != b
  }

  ghost predicate NoNoteOf(t: map<nat, Note>, b: nat) {
    forall i :: i in t ==> t[i].account != b
  }

  lemma SpendFree(src: Db, r: Ren, base: map<nat, Spend>, cur: map<nat, Spend>, ids: set<nat>, i: nat)
    requires SpendsHold(src, r, base, cur, ids) && OneToOne(r.notes) && i in r.notes && i !in ids
    requires SpendName(r, i) !in base
    ensures SpendName(r, i) !in cur
  {
    forall j | j in ids
      ensures SpendName(r, j) != SpendName(r, i)
    {}
  }

  lemma MemoFree(src: Db, r: Ren, base: map<MemoKey, Memo>, cur: map<MemoKey, Memo>, ids: set<MemoKey>, k: MemoKey)
    requires MemosHold(src, r, base, cur, ids) && OneToOne(r.txs) && k.tx in r.txs && k !in ids
    requires MemoName(r, k) !in base
    ensures MemoName(r, k) !in cur
  {
    forall j | j in ids
      ensures MemoName(r, j) != MemoName(r, k)
    {}
  }

  lemma UserMemoFree(src: Db, a: nat, r: Ren, base: map<OfAccount, UserMemo>, cur: map<OfAccount, UserMemo>,
                     ids: set<nat>, t: nat)
    requires UserMemosHold(src, a, r, base, cur, ids) && OneToOne(r.txs) && t in r.txs && t !in ids
    requires UserMemoName(r, t) !in base
    ensures UserMemoName(r, t) !in cur
  {}

  lemma WitnessFree(src: Db, r: Ren, base: map<WitnessKey, Witness>, cur: map<WitnessKey, Witness>,
                    ids: set<WitnessKey>, k: WitnessKey)
    requires WitnessesHold(src, r, base, cur, ids) && OneToOne(r.notes) && k.note in r.notes && k !in ids
    requires WitnessName(r, k) !in base
    ensures WitnessName(r, k) !in cur
  {
    forall j | j in ids
      ensures WitnessName(r, j) != WitnessName(r, k)
    {}
  }

  // ---------------------------------------------------------------------
  // Adding it keeps what the table holds

  lemma TAddrAdded(src: Db, r: Ren, r': Ren, base: map<nat, TAddr>, cur: map<nat, TAddr>, ids: set<nat>, i: nat,
                   id: nat)
    requires TAddrsHold(src, r, base, cur, ids)
    requires i in src.taddrs && i !in ids && id !in cur && r' == r.(taddrs := r.taddrs[i := id])
    ensures TAddrsHold(src, r', base, cur[id := RenTAddr(r, src.taddrs[i])], ids + {i})
  {
    PlaceOne(base, cur, r.taddrs, ids, i, id, RenTAddr(r, src.taddrs[i]));
  }

  lemma TxAdded(src: Db, r: Ren, r': Ren, base: map<nat, Tx>, cur: map<nat, Tx>, ids: set<nat>, i: nat, id: nat)
    requires TxsHold(src, r, base, cur, ids)
    requires i in src.transactions && i !in ids && id !in cur && r' == r.(txs := r.txs[i := id])
    ensures TxsHold(src, r', base, cur[id := RenTx(r, src.transactions[i])], ids + {i})
  {
    PlaceOne(base, cur, r.txs, ids, i, id, RenTx(r, src.transactions[i]));
  }

  lemma NoteAdded(src: Db, r: Ren, r': Ren, base: map<nat, Note>, cur: map<nat, Note>, ids: set<nat>, spent: set<nat>,
                  i: nat, id: nat)
    requires NotesHold(src, r, base, cur, ids, spent) && i in src.notes && NoteClosed(r, src.notes[i])
    requires i !in ids && i !in spent && id !in cur && r' == r.(notes := r.notes[i := id])
    ensures NotesHold(src, r', base, cur[id := RenNote(r, src.notes[i], false)], ids + {i}, spent)
  {
    var cur' := cur[id := RenNote(r, src.notes[i], false)];
    assert Placed(base, cur', r'.notes, ids + {i}) by {
      PlaceOne(base, cur, r.notes, ids, i, id, RenNote(r, src.notes[i], false));
    }
    forall j | j in ids
      ensures NoteClosed(r', src.notes[j]) && cur'[r'.notes[j]] == RenNote(r', src.notes[j], j in spent)
    {
      assert NoteClosed(r, src.notes[j]) && r.notes[j] in cur;
    }
  }

  lemma NoteReleased(src: Db, r: Ren, base: map<nat, Note>, cur: map<nat, Note>, ids: set<nat>, spent: set<nat>, i: nat)
    requires NotesHold(src, r, base, cur, ids, spent) && i in ids && r.notes[i] in cur
    ensures NotesHold(src, r, base, cur[r.notes[i] := cur[r.notes[i]].(locked := false)], ids, spent + {i})
  {
    ChangeOne(base, cur, r.notes, ids, i, cur[r.notes[i]].(locked := false));
  }

  lemma OutputAdded(src: Db, r: Ren, r': Ren, base: map<nat, Output>, cur: map<nat, Output>, ids: set<nat>, i: nat,
                    id: nat)
    requires OutputsHold(src, r, base, cur, ids)
    requires i in src.outputs && src.outputs[i].tx in r.txs
    requires i !in ids && id !in cur && r' == r.(outputs := r.outputs[i := id])
    ensures OutputsHold(src, r', base, cur[id := RenOutput(r, src.outputs[i])], ids + {i})
  {
    PlaceOne(base, cur, r.outputs, ids, i, id, RenOutput(r, src.outputs[i]));
  }

  lemma SpendAdded(src: Db, r: Ren, base: map<nat, Spend>, cur: map<nat, Spend>, ids: set<nat>, i: nat)
    requires SpendsHold(src, r, base, cur, ids)
    requires i in src.spends && i in r.notes && src.spends[i].tx in r.txs && SpendName(r, i) !in base
    requires SpendName(r, i) !in cur
    ensures SpendsHold(src, r, base, cur[SpendName(r, i) := RenSpend(r, src.spends[i])], ids + {i})
  {}

  lemma MemoAdded(src: Db, r: Ren, base: map<MemoKey, Memo>, cur: map<MemoKey, Memo>, ids: set<MemoKey>, k: MemoKey)
    requires MemosHold(src, r, base, cur, ids)
    requires k in src.memos && k.tx in r.txs && MemoClosed(r, src.memos[k]) && MemoName(r, k) !in base
    requires MemoName(r, k) !in cur
    ensures MemosHold(src, r, base, cur[MemoName(r, k) := RenMemo(r, src.memos[k])], ids + {k})
  {}

  lemma SyncAdded(src: Db, a: nat, b: nat, base: map<OfAccount, nat>, cur: map<OfAccount, nat>, ids: set<nat>, p: nat)
    requires SyncsHold(src, a, b, base, cur, ids) && OfAccount(a, p) in src.syncHeights && OfAccount(b, p) !in base
    ensures SyncsHold(src, a, b, base, cur[OfAccount(b, p) := src.syncHeights[OfAccount(a, p)]], ids + {p})
  {}

  lemma UserMemoAdded(src: Db, a: nat, r: Ren, base: map<OfAccount, UserMemo>, cur: map<OfAccount, UserMemo>,
                      ids: set<nat>, t: nat)
    requires UserMemosHold(src, a, r, base, cur, ids) && OfAccount(a, t) in src.userMemos
    requires t in r.txs && UserMemoName(r, t) !in base && UserMemoName(r, t) !in cur
    ensures UserMemosHold(src, a, r, base, cur[UserMemoName(r, t) := src.userMemos[OfAccount(a, t)]], ids + {t})
  {}

  lemma HeaderAdded(src: Db, a: nat, b: nat, base: map<OfAccount, Header>, cur: map<OfAccount, Header>, ids: set<nat>,
                    h: nat)
    requires HeadersHold(src, a, b, base, cur, ids) && OfAccount(a, h) in src.headers && OfAccount(b, h) !in base
    ensures HeadersHold(src, a, b, base, cur[OfAccount(b, h) := src.headers[OfAccount(a, h)]], ids + {h})
  {}

  lemma WitnessAdded(src: Db, r: Ren, base: map<WitnessKey, Witness>, cur: map<WitnessKey, Witness>,
                     ids: set<WitnessKey>, k: WitnessKey)
    requires WitnessesHold(src, r, base, cur, ids)
    requires k in src.witnesses && k.note in r.notes && WitnessName(r, k) !in base && WitnessName(r, k) !in cur
    ensures WitnessesHold(src, r, base, cur[WitnessName(r, k) := RenWitness(r, src.witnesses[k])], ids + {k})
  {}
}
