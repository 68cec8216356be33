/** Restoring what a backup lists gives a copy of the account, under new ids,
    and leaves every other account's rows as they were. */
module Backup {
  import opened Wrappers
  import opened RowIds
  import Positions
  import opened Renaming
  import opened Tables
  import opened BackupFormat
  import opened Restore
  import opened RestoreSteps

  const NOTHING := Done({}, {}, {}, {}, {}, {}, {}, {}, {}, {})

  function Marked(items: seq<Item>): Done {
    if items == [] then NOTHING else Mark(Marked(items[..|items| - 1]), KeyOf(items[|items| - 1]))
  }

  lemma KeysLast(items: seq<Item>)
    requires items != []
    ensures Keys(items) == Keys(items[..|items| - 1]) + {KeyOf(items[|items| - 1])}
  {
    var init := items[..|items| - 1];
    forall k | k in Keys(items)
      ensures k in Keys(init) + {KeyOf(items[|items| - 1])}
    {
      var i :| 0 <= i < |items| && k == KeyOf(items[i]);
      if i < |init| { assert init[i] == items[i]; }
    }
    forall k | k in Keys(init)
      ensures k in Keys(items)
    {
      var i :| 0 <= i < |init| && k == KeyOf(init[i]);
      assert items[i] == init[i];
    }
    assert KeyOf(items[|items| - 1]) in Keys(items);
  }

  lemma MarkHas(d: Done, j: Key, k: Key)
    ensures Has(Mark(d, j), k) <==> Has(d, k) || j == k
  {}

  lemma {:induction false} MarkedHas(items: seq<Item>, k: Key)
    ensures Has(Marked(items), k) <==> k in Keys(items)
  {
    if items != [] {
      var init, last := items[..|items| - 1], items[|items| - 1];
      MarkedHas(init, k);
      MarkHas(Marked(init), KeyOf(last), k);
      KeysLast(items);
    }
  }

  // ---------------------------------------------------------------------

  /** The state in which a restore starts to read the account's rows. */
  function Start(base: Db, cats: map<nat, nat>, assets: map<nat, nat>): St {
    var b := NextId(base.positions.Keys);
    St(base.(positions := Positions.Shifted(base.positions, b)), Ren(b, cats, assets, map[], map[], map[], map[]))
  }

  lemma StartHolds(src: Db, a: nat, base: Db, cats: map<nat, nat>, assets: map<nat, nat>)
    ensures Inv(src, a, base, Start(base, cats, assets), NOTHING)
  {
    var r := Start(base, cats, assets).r;
    assert TAddrsHold(src, r, base.taddrs, base.taddrs, {}) by { NonePlaced(base.taddrs); }
    assert TxsHold(src, r, base.transactions, base.transactions, {}) by { NonePlaced(base.transactions); }
    assert NotesHold(src, r, base.notes, base.notes, {}, {}) by { NonePlaced(base.notes); }
    assert OutputsHold(src, r, base.outputs, base.outputs, {}) by { NonePlaced(base.outputs); }
    NoLinks(src, a, base, r);
  }

  lemma NoLinks(src: Db, a: nat, base: Db, r: Ren)
    ensures SpendsHold(src, r, base.spends, base.spends, {})
    ensures MemosHold(src, r, base.memos, base.memos, {})
    ensures SyncsHold(src, a, r.account, base.syncHeights, base.syncHeights, {})
    ensures UserMemosHold(src, a, r, base.userMemos, base.userMemos, {})
    ensures HeadersHold(src, a, r.account, base.headers, base.headers, {})
    ensures WitnessesHold(src, r, base.witnesses, base.witnesses, {})
  {}

  // ---------------------------------------------------------------------
  // Every row that a backup lists is restored

  ghost predicate AllBelong(src: Db, a: nat, items: seq<Item>) {
    forall k :: k in Keys(items) ==> Belongs(src, a, k)
  }

  lemma ShownBelongs(src: Db, a: nat, item: Item)
    requires Shows(src, a, item)
    ensures Belongs(src, a, KeyOf(item))
  {}

  lemma {:induction false} ListedBelong(src: Db, a: nat, items: seq<Item>)
    requires Lists(src, a, {}, items)
    ensures AllBelong(src, a, items)
  {
    if items != [] {
      ListedBelong(src, a, items[..|items| - 1]);
      KeysLast(items);
      ShownBelongs(src, a, items[|items| - 1]);
    }
  }

  lemma MarkedOwned(src: Db, a: nat, items: seq<Item>)
    requires AllBelong(src, a, items)
    ensures Owned(src, a, Marked(items))
  {
    var d := Marked(items);
    forall i | i in d.taddrs && i in src.taddrs
      ensures src.taddrs[i].account == a
    {
      MarkedHas(items, TAddrK(i));
      assert Belongs(src, a, TAddrK(i));
    }
    forall i | i in d.txs && i in src.transactions
      ensures src.transactions[i].account == a
    {
      MarkedHas(items, TxK(i));
      assert Belongs(src, a, TxK(i));
    }
    forall i | i in d.notes && i in src.notes
      ensures src.notes[i].account == a
    {
      MarkedHas(items, NoteK(i));
      assert Belongs(src, a, NoteK(i));
    }
  }

  /** The rows done so far have their new names. */
  ghost predicate NamesAre(r: Ren, d: Done) {
    r.taddrs.Keys == d.taddrs && r.txs.Keys == d.txs && r.notes.Keys == d.notes && r.outputs.Keys == d.outputs
  }

  lemma NeedsNamed(r: Ren, items: seq<Item>, item: Item)
    requires NamesAre(r, Marked(items)) && Needs(item) <= Keys(items)
    ensures Named(r, item)
  {
    var d := Marked(items);
    forall k | k in Needs(item)
      ensures Has(d, k)
    {
      MarkedHas(items, k);
    }
    match item
    case NoteItem(tx, n) =>
      assert Has(d, TxK(tx));
      assert n.taddress.Some? ==> Has(d, TAddrK(n.taddress.value));
    case OutputItem(tx, o) => assert Has(d, TxK(tx));
    case MemoItem(k, _, n, o, _, _) =>
      assert Has(d, TxK(k.tx));
      assert n.Some? ==> Has(d, NoteK(n.value));
      assert o.Some? ==> Has(d, OutputK(o.value));
    case SpendItem(tx, s) => assert Has(d, TxK(tx)) && Has(d, NoteK(s.note));
    case UserMemoItem(u) => assert Has(d, TxK(u.tx));
    case WitnessItem(w) => assert Has(d, NoteK(w.note));
    case _ =>
  }

  lemma ItemReady(src: Db, a: nat, base: Db, st: St, items: seq<Item>, item: Item)
    requires Integrity(base) && UniqueColumns(src) && Resolves(src, a)
    requires Inv(src, a, base, st, Marked(items)) && Lists(src, a, {}, items)
    requires Shows(src, a, item) && KeyOf(item) !in Keys(items) && Needs(item) <= Keys(items)
    ensures Ready(src, a, base, st, Marked(items), item)
  {
    NewIdUnused(base);
    ListedBelong(src, a, items);
    MarkedOwned(src, a, items);
    MarkedHas(items, KeyOf(item));
    NeedsNamed(st.r, items, item);
  }

  /** The next item of a list can be restored after those before it. */
  lemma NextRestores(src: Db, a: nat, base: Db, st: St, items: seq<Item>) returns (st': St)
    requires Integrity(base) && UniqueColumns(src) && Resolves(src, a)
    requires items != [] && Lists(src, a, {}, items) && Inv(src, a, base, st, Marked(items[..|items| - 1]))
    ensures Step(st, items[|items| - 1]) == Some(st') && Inv(src, a, base, st', Marked(items))
  {
    var init, item := items[..|items| - 1], items[|items| - 1];
    ItemReady(src, a, base, st, init, item);
    st' := StepWrites(src, a, base, st, Marked(init), item);
    WroteOnlyKeeps(src, a, base, st, st', Marked(init), KeyOf(item));
  }

  lemma {:induction false} RunRestores(src: Db, a: nat, base: Db, st: St, items: seq<Item>) returns (end: St)
    requires Integrity(base) && UniqueColumns(src) && Resolves(src, a)
    requires Inv(src, a, base, st, NOTHING) && Lists(src, a, {}, items)
    ensures Run(st, items) == Some(end) && Inv(src, a, base, end, Marked(items))
  {
    if items == [] {
      end := st;
    } else {
      var before := RunRestores(src, a, base, st, items[..|items| - 1]);
      end := NextRestores(src, a, base, before, items);
    }
  }

  // ---------------------------------------------------------------------
  // A complete backup gives a copy of the account

  /** All the rows of the account that a backup can list. */
  ghost function AccountRows(src: Db, a: nat): Done {
    Done(set i | i in src.taddrs && src.taddrs[i].account == a,
         set k | k in src.syncHeights && k.account == a :: k.key,
         set i | i in src.transactions && src.transactions[i].account == a,
         set i | i in src.notes && src.notes[i].account == a,
         set i | i in src.outputs && src.outputs[i].account == a,
         set k | k in src.memos && src.memos[k].account == a && Linked(src.memos[k]),
         set i | i in src.spends && src.spends[i].account == a,
         set k | k in src.userMemos && k.account == a :: k.key,
         set k | k in src.headers && k.account == a && Witnessed(src, a, k.key) :: k.key,
         set k | k in src.witnesses && src.witnesses[k].account == a)
  }

  lemma AccountRowsBelong(src: Db, a: nat, k: Key)
    ensures Has(AccountRows(src, a), k) <==> Belongs(src, a, k)
  {
    match k
    case SyncK(p) => assert OfAccount(a, p).key == p;
    case UserMemoK(t) => assert OfAccount(a, t).key == t;
    case HeaderK(h) => assert OfAccount(a, h).key == h;
    case _ =>
  }

  /** The backup lists every row of the account that a backup can list. */
  ghost predicate Complete(src: Db, a: nat, items: seq<Item>) {
    forall k :: Belongs(src, a, k) ==> k in Keys(items)
  }

  lemma SameRows(d: Done, e: Done)
    requires forall k :: Has(d, k) <==> Has(e, k)
    ensures d == e
  {
    assert forall i :: i in d.taddrs <==> Has(d, TAddrK(i));
    assert forall i :: i in e.taddrs <==> Has(e, TAddrK(i));
    assert d.taddrs == e.taddrs;
    assert forall i :: i in d.syncs <==> Has(d, SyncK(i));
    assert d.syncs == e.syncs;
    assert forall i :: i in d.txs <==> Has(d, TxK(i));
    assert d.txs == e.txs;
    assert forall i :: i in d.notes <==> Has(d, NoteK(i));
    assert d.notes == e.notes;
    assert forall i :: i in d.outputs <==> Has(d, OutputK(i));
    assert d.outputs == e.outputs;
    assert forall i :: i in d.memos <==> Has(d, MemoK(i));
    assert d.memos == e.memos;
    assert forall i :: i in d.spends <==> Has(d, SpendK(i));
    assert d.spends == e.spends;
    assert forall i :: i in d.userMemos <==> Has(d, UserMemoK(i));
    assert d.userMemos == e.userMemos;
    assert forall i :: i in d.headers <==> Has(d, HeaderK(i));
    assert d.headers == e.headers;
    assert forall i :: i in d.witnesses <==> Has(d, WitnessK(i));
    assert d.witnesses == e.witnesses;
  }

  lemma WholeMarked(src: Db, a: nat, items: seq<Item>)
    requires AllBelong(src, a, items) && Complete(src, a, items)
    ensures Marked(items) == AccountRows(src, a)
  {
    forall k
      ensures Has(Marked(items), k) <==> Has(AccountRows(src, a), k)
    {
      MarkedHas(items, k);
      AccountRowsBelong(src, a, k);
    }
    SameRows(Marked(items), AccountRows(src, a));
  }

  /** `db` is `base` plus a whole copy of account a of `src`, at the first
      position, under an id that no account had. */
  ghost predicate CopyAdded(src: Db, a: nat, base: Db, db: Db, r: Ren) {
    && r.account !in base.positions && db.positions == Positions.Shifted(base.positions, r.account)
    && Copied(src, a, base, db, r, AccountRows(src, a))
  }

  /** A restore of a complete backup succeeds, whatever the wallet it is
      restored into, and adds a copy of the account to it. */
  lemma RestoreCopies(src: Db, a: nat, base: Db, cats: map<nat, nat>, assets: map<nat, nat>, items: seq<Item>)
    returns (end: St)
    requires Integrity(base) && UniqueColumns(src) && Resolves(src, a)
    requires Lists(src, a, {}, items) && Complete(src, a, items)
    ensures Run(Start(base, cats, assets), items) == Some(end) && CopyAdded(src, a, base, end.db, end.r)
  {
    StartHolds(src, a, base, cats, assets);
    end := RunRestores(src, a, base, Start(base, cats, assets), items);
    ListedBelong(src, a, items);
    WholeMarked(src, a, items);
  }

  // ---------------------------------------------------------------------
  // A restored wallet can be restored into again

  lemma TAddrsOwned(src: Db, r: Ren, base: map<nat, TAddr>, cur: map<nat, TAddr>, ids: set<nat>, p: set<nat>)
    requires TAddrsHold(src, r, base, cur, ids) && r.account in p && forall i :: i in base ==> base[i].account in p
    ensures forall k :: k in cur ==> cur[k].account in p
  {
    forall k | k in cur
      ensures cur[k].account in p
    {
      if k !in base { var i := PlacedFrom(base, cur, r.taddrs, ids, k); }
    }
  }

  lemma TxsOwned(src: Db, r: Ren, base: map<nat, Tx>, cur: map<nat, Tx>, ids: set<nat>, p: set<nat>)
    requires TxsHold(src, r, base, cur, ids) && r.account in p && forall i :: i in base ==> base[i].account in p
    ensures forall k :: k in cur ==> cur[k].account in p
  {
    forall k | k in cur
      ensures cur[k].account in p
    {
      if k !in base { var i := PlacedFrom(base, cur, r.txs, ids, k); }
    }
  }

  lemma NotesOwned(src: Db, r: Ren, base: map<nat, Note>, cur: map<nat, Note>, ids: set<nat>, spent: set<nat>,
                   p: set<nat>)
    requires NotesHold(src, r, base, cur, ids, spent) && r.account in p
    requires forall i :: i in base ==> base[i].account in p
    ensures forall k :: k in cur ==> cur[k].account in p
  {
    forall k | k in cur
      ensures cur[k].account in p
    {
      if k !in base { var i := PlacedFrom(base, cur, r.notes, ids, k); }
    }
  }

  lemma KeyedOwned(src: Db, a: nat, base: Db, db: Db, r: Ren, d: Done, p: set<nat>)
    requires SyncsHold(src, a, r.account, base.syncHeights, db.syncHeights, d.syncs)
    requires UserMemosHold(src, a, r, base.userMemos, db.userMemos, d.userMemos)
    requires HeadersHold(src, a, r.account, base.headers, db.headers, d.headers)
    requires r.account in p && base.positions.Keys <= p && Integrity(base)
    ensures forall k :: k in db.syncHeights ==> k.account in p
    ensures forall k :: k in db.userMemos ==> k.account in p
    ensures forall k :: k in db.headers ==> k.account in p
  {}

  ghost predicate NamesIn(f: map<nat, nat>, keys: set<nat>) {
    forall i :: i in f ==> f[i] in keys
  }

  lemma PlacedNames<R>(base: map<nat, R>, cur: map<nat, R>, f: map<nat, nat>, ids: set<nat>)
    requires Placed(base, cur, f, ids)
    ensures base.Keys <= cur.Keys && NamesIn(f, cur.Keys)
  {}

  /** The rows that hang on transactions. */
  lemma OutputsOnTxs(src: Db, r: Ren, base: map<nat, Output>, cur: map<nat, Output>, ids: set<nat>, txs: set<nat>)
    requires OutputsHold(src, r, base, cur, ids) && NamesIn(r.txs, txs) && forall i :: i in base ==> base[i].tx in txs
    ensures forall i :: i in cur ==> cur[i].tx in txs
  {
    forall k | k in cur
      ensures cur[k].tx in txs
    {
      if k !in base { var i := PlacedFrom(base, cur, r.outputs, ids, k); }
    }
  }

  lemma MemosOnTxs(src: Db, r: Ren, base: map<MemoKey, Memo>, cur: map<MemoKey, Memo>, ids: set<MemoKey>, txs: set<nat>)
    requires MemosHold(src, r, base, cur, ids) && NamesIn(r.txs, txs) && forall k :: k in base ==> k.tx in txs
    ensures forall k :: k in cur ==> k.tx in txs
  {
    forall k | k in cur
      ensures k.tx in txs
    {
      if k !in base { var j :| j in ids && MemoName(r, j) == k; }
    }
  }

  /** The rows that hang on notes. */
  lemma SpendsOnNotes(src: Db, r: Ren, base: map<nat, Spend>, cur: map<nat, Spend>, ids: set<nat>, notes: set<nat>,
                      p: set<nat>)
    requires SpendsHold(src, r, base, cur, ids) && NamesIn(r.notes, notes) && r.account in p
    requires forall i :: i in base ==> i in notes && base[i].account in p
    ensures forall i :: i in cur ==> i in notes && cur[i].account in p
  {
    forall k | k in cur
      ensures k in notes && cur[k].account in p
    {
      if k !in base { var i :| i in ids && SpendName(r, i) == k; }
    }
  }

  lemma WitnessesOnNotes(src: Db, r: Ren, base: map<WitnessKey, Witness>, cur: map<WitnessKey, Witness>,
                         ids: set<WitnessKey>, notes: set<nat>)
    requires WitnessesHold(src, r, base, cur, ids) && NamesIn(r.notes, notes)
    requires forall k :: k in base ==> k.note in notes
    ensures forall k :: k in cur ==> k.note in notes
  {
    forall k | k in cur
      ensures k.note in notes
    {
      if k !in base { var j :| j in ids && WitnessName(r, j) == k; }
    }
  }

  lemma NewNames(src: Db, r: Ren, base: Db, db: Db, d: Done)
    requires TxsHold(src, r, base.transactions, db.transactions, d.txs)
    requires NotesHold(src, r, base.notes, db.notes, d.notes, d.spends)
    ensures base.transactions.Keys <= db.transactions.Keys && NamesIn(r.txs, db.transactions.Keys)
    ensures base.notes.Keys <= db.notes.Keys && NamesIn(r.notes, db.notes.Keys)
  {
    PlacedNames(base.transactions, db.transactions, r.txs, d.txs);
    PlacedNames(base.notes, db.notes, r.notes, d.notes);
  }

  lemma RestoreKeepsOwners(src: Db, a: nat, base: Db, db: Db, r: Ren, p: set<nat>)
    requires CopyAdded(src, a, base, db, r) && Integrity(base) && p == db.positions.Keys
    ensures base.positions.Keys <= p && r.account in p
    ensures forall i :: i in db.taddrs ==> db.taddrs[i].account in p
    ensures forall i :: i in db.transactions ==> db.transactions[i].account in p
    ensures forall i :: i in db.notes ==> db.notes[i].account in p
  {
    hide TAddrsHold, TxsHold, NotesHold, OutputsHold, SpendsHold, MemosHold, SyncsHold, UserMemosHold,
      HeadersHold, WitnessesHold, AccountRows;
    var d := AccountRows(src, a);
    TAddrsOwned(src, r, base.taddrs, db.taddrs, d.taddrs, p);
    TxsOwned(src, r, base.transactions, db.transactions, d.txs, p);
    NotesOwned(src, r, base.notes, db.notes, d.notes, d.spends, p);
  }

  /** A wallet whose rows belong to its accounts and refer to rows that are
      there is still so after a restore. */
  lemma RestoreKeepsIntegrity(src: Db, a: nat, base: Db, db: Db, r: Ren)
    requires CopyAdded(src, a, base, db, r) && Integrity(base)
    ensures Integrity(db)
  {
    hide TAddrsHold, TxsHold, NotesHold, OutputsHold, SpendsHold, MemosHold, SyncsHold, UserMemosHold,
      HeadersHold, WitnessesHold, AccountRows;
    var d, p := AccountRows(src, a), db.positions.Keys;
    RestoreKeepsOwners(src, a, base, db, r, p);
    KeyedOwned(src, a, base, db, r, d, p);
    NewNames(src, r, base, db, d);
    OutputsOnTxs(src, r, base.outputs, db.outputs, d.outputs, db.transactions.Keys);
    MemosOnTxs(src, r, base.memos, db.memos, d.memos, db.transactions.Keys);
    SpendsOnNotes(src, r, base.spends, db.spends, d.spends, db.notes.Keys, p);
    WitnessesOnNotes(src, r, base.witnesses, db.witnesses, d.witnesses, db.notes.Keys);
  }
}
