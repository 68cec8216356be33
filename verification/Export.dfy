/** What an export writes: the rows of an account, each once, in an order that
    a restore can follow. */
module Export {
  import opened Wrappers
  import opened Tables
  import opened BackupFormat
  import opened Restore
  import opened Backup
  import opened AccountRecords

  // ---------------------------------------------------------------------
  // The answers of the queries, in any order of rows

  ghost predicate TAddrsExported(src: Db, a: nat, s: seq<IOTAddr>) {
    && (forall j :: 0 <= j < |s| ==> ShowsTAddr(src, a, s[j]))
    && (forall j, k :: 0 <= j < k < |s| ==> s[j].id != s[k].id)
    && (forall i :: i in src.taddrs && src.taddrs[i].account == a ==> exists j :: 0 <= j < |s| && s[j].id == i)
  }

  ghost predicate SyncsExported(src: Db, a: nat, s: seq<IOSync>) {
    && (forall j :: 0 <= j < |s| ==> ShowsSync(src, a, s[j]))
    && (forall j, k :: 0 <= j < k < |s| ==> s[j].pool != s[k].pool)
    && (forall k :: k in src.syncHeights && k.account == a ==> exists j :: 0 <= j < |s| && s[j].pool == k.key)
  }

  /** A note with its memo, if it has one. */
  ghost predicate NoteExported(src: Db, a: nat, tx: nat, n: IONote) {
    && ShowsNote(src, a, tx, n)
    && (n.vout.Some? <==> n.memoBytes.Some?)
    && (n.vout.Some? ==> ShowsMemo(src, a, MemoKey(tx, n.pool, n.vout.value),
                                   Memo(a, n.height, Some(n.id), None, n.memoText, n.memoBytes.value)))
    && (forall k :: k in src.memos && src.memos[k].note == Some(n.id) ==>
          n.vout == Some(k.vout) && k.tx == tx && k.pool == n.pool)
  }

  ghost predicate NotesExported(src: Db, a: nat, tx: nat, s: seq<IONote>) {
    && (forall j :: 0 <= j < |s| ==> NoteExported(src, a, tx, s[j]))
    && (forall j, k :: 0 <= j < k < |s| ==> s[j].id != s[k].id)
    && (forall i :: i in src.notes && src.notes[i].tx == tx ==> exists j :: 0 <= j < |s| && s[j].id == i)
  }

  ghost predicate OutputExported(src: Db, a: nat, tx: nat, o: IOOutput) {
    && ShowsOutput(src, a, tx, o)
    && (o.memoBytes.Some? ==> ShowsMemo(src, a, MemoKey(tx, o.pool, o.vout),
                                        Memo(a, o.height, None, Some(o.id), o.memoText, o.memoBytes.value)))
    && (forall k :: k in src.memos && src.memos[k].output == Some(o.id) ==>
          o.memoBytes.Some? && k == MemoKey(tx, o.pool, o.vout))
  }

  ghost predicate OutputsExported(src: Db, a: nat, tx: nat, s: seq<IOOutput>) {
    && (forall j :: 0 <= j < |s| ==> OutputExported(src, a, tx, s[j]))
    && (forall j, k :: 0 <= j < k < |s| ==> s[j].id != s[k].id)
    && (forall i :: i in src.outputs && src.outputs[i].tx == tx ==> exists j :: 0 <= j < |s| && s[j].id == i)
  }

  ghost predicate SpendsExported(src: Db, a: nat, tx: nat, s: seq<IOSpend>) {
    && (forall j :: 0 <= j < |s| ==> ShowsSpend(src, a, tx, s[j]))
    && (forall j, k :: 0 <= j < k < |s| ==> s[j].note != s[k].note)
    && (forall i :: i in src.spends && src.spends[i].tx == tx ==> exists j :: 0 <= j < |s| && s[j].note == i)
  }

  ghost predicate TxExported(src: Db, a: nat, t: IOTransaction) {
    && ShowsTx(src, a, t) && NotesExported(src, a, t.id, t.notes)
    && OutputsExported(src, a, t.id, t.outputs) && SpendsExported(src, a, t.id, t.spends)
  }

  ghost predicate TxsExported(src: Db, a: nat, s: seq<IOTransaction>) {
    && (forall j :: 0 <= j < |s| ==> TxExported(src, a, s[j]))
    && (forall j, k :: 0 <= j < k < |s| ==> s[j].id != s[k].id)
    && (forall i :: i in src.transactions && src.transactions[i].account == a ==>
          exists j :: 0 <= j < |s| && s[j].id == i)
  }

  ghost predicate UserMemosExported(src: Db, a: nat, s: seq<IOUserMemo>) {
    && (forall j :: 0 <= j < |s| ==> ShowsUserMemo(src, a, s[j]))
    && (forall j, k :: 0 <= j < k < |s| ==> s[j].tx != s[k].tx)
    && (forall k :: k in src.userMemos && k.account == a ==> exists j :: 0 <= j < |s| && s[j].tx == k.key)
  }

  ghost predicate BlockExported(src: Db, a: nat, b: IOBlock) {
    && ShowsHeader(src, a, b.height, b.header)
    && (forall j :: 0 <= j < |b.witnesses| ==>
          ShowsWitness(src, a, b.witnesses[j]) && b.witnesses[j].height == b.height)
    && (forall j, k :: 0 <= j < k < |b.witnesses| ==> b.witnesses[j].note != b.witnesses[k].note)
    && (forall k :: k in src.witnesses && src.witnesses[k].account == a && k.height == b.height ==>
          exists j :: 0 <= j < |b.witnesses| && b.witnesses[j].note == k.note)
  }

  ghost predicate BlocksExported(src: Db, a: nat, s: seq<IOBlock>) {
    && (forall j :: 0 <= j < |s| ==> BlockExported(src, a, s[j]))
    && (forall j, k :: 0 <= j < k < |s| ==> s[j].height != s[k].height)
    && (forall k :: k in src.witnesses && src.witnesses[k].account == a ==>
          exists j :: 0 <= j < |s| && s[j].height == k.height)
  }

  /** Every row of the account that a backup can hold, once, the rows of each
      table in any order. */
  ghost predicate RowsExported(src: Db, a: nat, doc: Document) {
    && TAddrsExported(src, a, doc.taddrs) && SyncsExported(src, a, doc.syncHeights)
    && TxsExported(src, a, doc.transactions) && UserMemosExported(src, a, doc.userMemos)
    && BlocksExported(src, a, doc.blocks)
  }

  /** All of the wallet's assets, and all of its categories, whoever uses them. */
  ghost predicate AssetsExported(m: map<nat, Asset>, s: seq<IOAsset>) {
    && (forall j :: 0 <= j < |s| ==> s[j].id in m && AsRow(s[j]) == m[s[j].id].(name := None))
    && (forall j, k :: 0 <= j < k < |s| ==> s[j].id != s[k].id)
    && (forall i :: i in m ==> exists j :: 0 <= j < |s| && s[j].id == i)
  }

  ghost predicate CategoriesExported(m: map<nat, Category>, s: seq<IOCategory>) {
    && (forall j :: 0 <= j < |s| ==> s[j].id in m && s[j].category == m[s[j].id])
    && (forall j, k :: 0 <= j < k < |s| ==> s[j].id != s[k].id)
    && (forall i :: i in m ==> exists j :: 0 <= j < |s| && s[j].id == i)
  }

  /** The document of an account of a wallet. */
  ghost predicate IsExport(src: Contents, a: nat, doc: Document) {
    && AccountExported(src, a, doc.account) && RowsExported(src.db, a, doc)
    && AssetsExported(src.assets, doc.assets) && CategoriesExported(src.categories, doc.categories)
  }

  /** An account whose rows are well formed and whose notes name assets that
      the wallet has. Nothing forces a transaction's category to exist. */
  ghost predicate WellFormed(src: Contents, a: nat) {
    && a in src.accounts && WellFormedRows(src.db, a)
    && forall i :: i in src.db.notes && src.db.notes[i].account == a && src.db.notes[i].asset.Some? ==>
         src.db.notes[i].asset.value in src.assets
  }

  // ---------------------------------------------------------------------
  // Lists of items put together

  lemma KeysConcat(x: seq<Item>, y: seq<Item>)
    ensures Keys(x + y) == Keys(x) + Keys(y)
  {
    forall k | k in Keys(x)
      ensures k in Keys(x + y)
    {
      var i :| 0 <= i < |x| && k == KeyOf(x[i]);
      assert (x + y)[i] == x[i];
    }
    forall k | k in Keys(y)
      ensures k in Keys(x + y)
    {
      var i :| 0 <= i < |y| && k == KeyOf(y[i]);
      assert (x + y)[|x| + i] == y[i];
    }
  }

  lemma {:induction false} ListsConcat(src: Db, a: nat, before: set<Key>, x: seq<Item>, y: seq<Item>)
    requires Lists(src, a, before, x) && Lists(src, a, before + Keys(x), y)
    ensures Lists(src, a, before, x + y)
  {
    if y == [] {
      assert x + y == x;
    } else {
      var init, last := y[..|y| - 1], y[|y| - 1];
      ListsConcat(src, a, before, x, init);
      assert (x + y)[..|x + y| - 1] == x + init;
      KeysConcat(x, init);
    }
  }

  lemma {:induction false} ListsLater(src: Db, a: nat, before: set<Key>, extra: set<Key>, x: seq<Item>)
    requires Lists(src, a, before, x) && Keys(x) !! extra
    ensures Lists(src, a, before + extra, x)
  {
    if x != [] {
      KeysLast(x);
      ListsLater(src, a, before, extra, x[..|x| - 1]);
    }
  }

  ghost predicate Disjoint(parts: seq<seq<Item>>) {
    forall i, j :: 0 <= i < j < |parts| ==> Keys(parts[i]) !! Keys(parts[j])
  }

  lemma {:induction false} ConcatKeys(parts: seq<seq<Item>>, k: Key)
    ensures k in Keys(Concat(parts)) <==> exists j :: 0 <= j < |parts| && k in Keys(parts[j])
  {
    if parts != [] {
      var init, last := parts[..|parts| - 1], parts[|parts| - 1];
      ConcatKeys(init, k);
      KeysConcat(Concat(init), last);
      if j :| 0 <= j < |parts| && k in Keys(parts[j]) && j < |init| {
        assert init[j] == parts[j];
      }
    }
  }

  lemma {:induction false} ConcatLists(src: Db, a: nat, before: set<Key>, parts: seq<seq<Item>>)
    requires Disjoint(parts) && forall j :: 0 <= j < |parts| ==> Lists(src, a, before, parts[j])
    ensures Lists(src, a, before, Concat(parts))
  {
    if parts != [] {
      var init, last := parts[..|parts| - 1], parts[|parts| - 1];
      ConcatLists(src, a, before, init);
      forall k | k in Keys(Concat(init))
        ensures k !in Keys(last)
      {
        ConcatKeys(init, k);
        var j :| 0 <= j < |init| && k in Keys(init[j]);
        assert init[j] == parts[j];
      }
      ListsLater(src, a, before, Keys(Concat(init)), last);
      ListsConcat(src, a, before, Concat(init), last);
    }
  }

  /** Rows of one kind that refer to earlier rows only. */
  lemma {:induction false} FlatLists(src: Db, a: nat, before: set<Key>, x: seq<Item>)
    requires forall i :: 0 <= i < |x| ==> Shows(src, a, x[i]) && KeyOf(x[i]) !in before && Needs(x[i]) <= before
    requires forall i, j :: 0 <= i < j < |x| ==> KeyOf(x[i]) != KeyOf(x[j])
    ensures Lists(src, a, before, x)
  {
    if x != [] {
      FlatLists(src, a, before, x[..|x| - 1]);
    }
  }

  // ---------------------------------------------------------------------
  // Section by section

  /** The section of a document that lists a row. */
  function Rank(k: Key): nat {
    match k
    case TAddrK(_) => 0
    case SyncK(_) => 1
    case SpendK(_) => 3
    case UserMemoK(_) => 4
    case HeaderK(_) => 5
    case WitnessK(_) => 5
    case _ => 2
  }

  ghost predicate Below(keys: set<Key>, n: nat) {
    forall k :: k in keys ==> Rank(k) < n
  }

  ghost predicate Of(keys: set<Key>, n: nat) {
    forall k :: k in keys ==> Rank(k) == n
  }

  ghost predicate Covers(src: Db, a: nat, keys: set<Key>, n: nat) {
    forall k :: Belongs(src, a, k) && Rank(k) == n ==> k in keys
  }

  /** A section that can follow the earlier ones and holds all its rows. */
  ghost predicate Section(src: Db, a: nat, before: set<Key>, items: seq<Item>, n: nat) {
    Lists(src, a, before, items) && Of(Keys(items), n) && Covers(src, a, Keys(items), n)
  }

  lemma KeyAt(items: seq<Item>, i: nat)
    requires i < |items|
    ensures KeyOf(items[i]) in Keys(items)
  {}

  lemma TAddrsSection(src: Db, a: nat, before: set<Key>, s: seq<IOTAddr>)
    requires TAddrsExported(src, a, s) && Below(before, 0)
    ensures Section(src, a, before, TAddrItems(s), 0)
  {
    var items := TAddrItems(s);
    FlatLists(src, a, before, items);
    forall k | Belongs(src, a, k) && Rank(k) == 0
      ensures k in Keys(items)
    {
      var j :| 0 <= j < |s| && s[j].id == k.id;
      KeyAt(items, j);
    }
  }

  lemma SyncsSection(src: Db, a: nat, before: set<Key>, s: seq<IOSync>)
    requires SyncsExported(src, a, s) && Below(before, 1)
    ensures Section(src, a, before, SyncItems(s), 1)
  {
    var items := SyncItems(s);
    FlatLists(src, a, before, items);
    forall k | Belongs(src, a, k) && Rank(k) == 1
      ensures k in Keys(items)
    {
      assert OfAccount(a, k.pool) in src.syncHeights;
      var j :| 0 <= j < |s| && s[j].pool == k.pool;
      KeyAt(items, j);
    }
  }

  lemma UserMemosListed(src: Db, a: nat, before: set<Key>, s: seq<IOUserMemo>)
    requires UserMemosExported(src, a, s) && Below(before, 4) && Resolves(src, a) && Covers(src, a, before, 2)
    ensures Lists(src, a, before, UserMemoItems(s))
  {
    var items := UserMemoItems(s);
    forall i | 0 <= i < |items|
      ensures Needs(items[i]) <= before
    {
      assert UserMemoResolves(src, OfAccount(a, s[i].tx));
      assert Belongs(src, a, TxK(s[i].tx));
    }
    FlatLists(src, a, before, items);
  }

  lemma UserMemosSection(src: Db, a: nat, before: set<Key>, s: seq<IOUserMemo>)
    requires UserMemosExported(src, a, s) && Below(before, 4) && Resolves(src, a) && Covers(src, a, before, 2)
    ensures Section(src, a, before, UserMemoItems(s), 4)
  {
    UserMemosListed(src, a, before, s);
    UserMemosCover(src, a, s);
  }

  lemma UserMemosCover(src: Db, a: nat, s: seq<IOUserMemo>)
    requires UserMemosExported(src, a, s)
    ensures Of(Keys(UserMemoItems(s)), 4) && Covers(src, a, Keys(UserMemoItems(s)), 4)
  {
    forall k | Belongs(src, a, k) && Rank(k) == 4
      ensures k in Keys(UserMemoItems(s))
    {
      assert OfAccount(a, k.tx) in src.userMemos;
      var j :| 0 <= j < |s| && s[j].tx == k.tx;
      KeyAt(UserMemoItems(s), j);
    }
  }

  // The transactions -----------------------------------------------------

  /** The row is a note, or the memo of a note, of this id. */
  ghost predicate OfNote(src: Db, k: Key, i: nat) {
    || (k.NoteK? && k.id == i)
    || (k.MemoK? && k.key in src.memos && src.memos[k.key].note == Some(i) && src.memos[k.key].output == None)
  }

  ghost predicate OfOutput(src: Db, k: Key, i: nat) {
    || (k.OutputK? && k.id == i)
    || (k.MemoK? && k.key in src.memos && src.memos[k.key].output == Some(i) && src.memos[k.key].note == None)
  }

  /** What stands before the notes of a transaction. */
  ghost predicate BeforeNotes(src: Db, a: nat, tx: nat, before: set<Key>) {
    && TxK(tx) in before && Covers(src, a, before, 0)
    && (forall k :: k in before ==> !k.NoteK? && !k.MemoK?)
  }

  ghost predicate BeforeOutputs(src: Db, tx: nat, before: set<Key>) {
    && TxK(tx) in before
    && (forall k :: k in before ==> !k.OutputK? && (k.MemoK? ==> k.key in src.memos && src.memos[k.key].output == None))
  }

  lemma NoteListed(src: Db, a: nat, tx: nat, before: set<Key>, n: IONote)
    requires NoteExported(src, a, tx, n) && AddressResolves(src, a, n.taddress) && BeforeNotes(src, a, tx, before)
    ensures Lists(src, a, before, NoteItems(tx, n)) && forall k :: k in Keys(NoteItems(tx, n)) ==> OfNote(src, k, n.id)
  {
    var first := NoteItem(tx, n);
    if n.taddress.Some? { assert Belongs(src, a, TAddrK(n.taddress.value)); }
    FlatLists(src, a, before, [first]);
    if n.vout.Some? {
      var memo := MemoItem(MemoKey(tx, n.pool, n.vout.value), n.height, Some(n.id), None, n.memoText,
                           n.memoBytes.value);
      assert NoteItems(tx, n) == [first] + [memo];
      KeyAt([first], 0);
      FlatLists(src, a, before + Keys([first]), [memo]);
      ListsConcat(src, a, before, [first], [memo]);
    } else {
      assert NoteItems(tx, n) == [first];
    }
  }

  lemma OutputListed(src: Db, a: nat, tx: nat, before: set<Key>, o: IOOutput)
    requires OutputExported(src, a, tx, o) && BeforeOutputs(src, tx, before)
    ensures Lists(src, a, before, OutputItems(tx, o))
    ensures forall k :: k in Keys(OutputItems(tx, o)) ==> OfOutput(src, k, o.id)
  {
    var first := OutputItem(tx, o);
    FlatLists(src, a, before, [first]);
    if o.memoBytes.Some? {
      var memo := MemoItem(MemoKey(tx, o.pool, o.vout), o.height, None, Some(o.id), o.memoText, o.memoBytes.value);
      assert OutputItems(tx, o) == [first] + [memo];
      KeyAt([first], 0);
      FlatLists(src, a, before + Keys([first]), [memo]);
      ListsConcat(src, a, before, [first], [memo]);
    } else {
      assert OutputItems(tx, o) == [first];
    }
  }

  ghost predicate NoteRows(src: Db, keys: set<Key>, i: nat, tx: nat) {
    forall k :: k in keys ==> OfNote(src, k, i) && InTxOf(src, k, tx)
  }

  ghost predicate OutputRows(src: Db, keys: set<Key>, i: nat, tx: nat) {
    forall k :: k in keys ==> OfOutput(src, k, i) && InTxOf(src, k, tx)
  }

  /** Notes of this transaction, and memos of notes. */
  ghost predicate NotesOf(src: Db, keys: set<Key>, tx: nat) {
    forall k :: k in keys ==>
      InTxOf(src, k, tx) && (k.NoteK? || (k.MemoK? && k.key in src.memos && src.memos[k.key].output == None))
  }

  lemma NotePartListed(src: Db, a: nat, tx: nat, before: set<Key>, n: IONote)
    requires NoteExported(src, a, tx, n) && Resolves(src, a) && BeforeNotes(src, a, tx, before)
    ensures Lists(src, a, before, NoteItems(tx, n)) && NoteRows(src, Keys(NoteItems(tx, n)), n.id, tx)
  {
    assert AddressResolves(src, a, src.notes[n.id].taddress);
    NoteListed(src, a, tx, before, n);
    NoteKeysInTx(src, a, tx, n);
  }

  lemma NotesListed(src: Db, a: nat, tx: nat, before: set<Key>, s: seq<IONote>)
    requires NotesExported(src, a, tx, s) && Resolves(src, a) && BeforeNotes(src, a, tx, before)
    ensures Lists(src, a, before, Concat(NoteParts(tx, s))) && NotesOf(src, Keys(Concat(NoteParts(tx, s))), tx)
  {
    var parts := NoteParts(tx, s);
    forall j | 0 <= j < |parts|
      ensures Lists(src, a, before, parts[j]) && NoteRows(src, Keys(parts[j]), s[j].id, tx)
    {
      NotePartListed(src, a, tx, before, s[j]);
    }
    NotePartsDisjoint(src, tx, s);
    ConcatLists(src, a, before, parts);
    forall k | k in Keys(Concat(parts))
      ensures InTxOf(src, k, tx) && (k.NoteK? || (k.MemoK? && k.key in src.memos && src.memos[k.key].output == None))
    {
      ConcatKeys(parts, k);
      var j :| 0 <= j < |parts| && k in Keys(parts[j]);
      assert OfNote(src, k, s[j].id);
    }
  }

  lemma NotePartsDisjoint(src: Db, tx: nat, s: seq<IONote>)
    requires forall j, k :: 0 <= j < k < |s| ==> s[j].id != s[k].id
    requires forall j :: 0 <= j < |s| ==> NoteRows(src, Keys(NoteItems(tx, s[j])), s[j].id, tx)
    ensures Disjoint(NoteParts(tx, s))
  {
    var parts := NoteParts(tx, s);
    forall i, j | 0 <= i < j < |parts|
      ensures Keys(parts[i]) !! Keys(parts[j])
    {
      assert NoteRows(src, Keys(parts[i]), s[i].id, tx) && NoteRows(src, Keys(parts[j]), s[j].id, tx);
      forall k | k in Keys(parts[i])
        ensures k !in Keys(parts[j])
      {
        assert OfNote(src, k, s[i].id);
      }
    }
  }

  /** The row is one of this transaction: itself, or a note, output, memo of it. */
  ghost predicate InTxOf(src: Db, k: Key, tx: nat) {
    match k
    case TxK(i) => i == tx
    case NoteK(i) => i in src.notes && src.notes[i].tx == tx
    case OutputK(i) => i in src.outputs && src.outputs[i].tx == tx
    case MemoK(key) => key.tx == tx
    case _ => false
  }

  lemma NoteKeysInTx(src: Db, a: nat, tx: nat, n: IONote)
    requires NoteExported(src, a, tx, n)
    ensures forall k :: k in Keys(NoteItems(tx, n)) ==> InTxOf(src, k, tx)
    ensures NoteK(n.id) in Keys(NoteItems(tx, n))
    ensures forall k :: k in src.memos && src.memos[k].note == Some(n.id) ==> MemoK(k) in Keys(NoteItems(tx, n))
  {
    var items := NoteItems(tx, n);
    KeyAt(items, 0);
    forall k | k in src.memos && src.memos[k].note == Some(n.id)
      ensures MemoK(k) in Keys(items)
    {
      assert k == MemoKey(tx, n.pool, n.vout.value);
      KeyAt(items, 1);
    }
  }

  lemma OutputKeysInTx(src: Db, a: nat, tx: nat, o: IOOutput)
    requires OutputExported(src, a, tx, o)
    ensures forall k :: k in Keys(OutputItems(tx, o)) ==> InTxOf(src, k, tx)
    ensures OutputK(o.id) in Keys(OutputItems(tx, o))
    ensures forall k :: k in src.memos && src.memos[k].output == Some(o.id) ==> MemoK(k) in Keys(OutputItems(tx, o))
  {
    var items := OutputItems(tx, o);
    KeyAt(items, 0);
    forall k | k in src.memos && src.memos[k].output == Some(o.id)
      ensures MemoK(k) in Keys(items)
    {
      KeyAt(items, 1);
    }
  }

  lemma OutputPartListed(src: Db, a: nat, tx: nat, before: set<Key>, o: IOOutput)
    requires OutputExported(src, a, tx, o) && BeforeOutputs(src, tx, before)
    ensures Lists(src, a, before, OutputItems(tx, o)) && OutputRows(src, Keys(OutputItems(tx, o)), o.id, tx)
  {
    OutputListed(src, a, tx, before, o);
    OutputKeysInTx(src, a, tx, o);
  }

  lemma OutputPartsDisjoint(src: Db, tx: nat, s: seq<IOOutput>)
    requires forall j, k :: 0 <= j < k < |s| ==> s[j].id != s[k].id
    requires forall j :: 0 <= j < |s| ==> OutputRows(src, Keys(OutputItems(tx, s[j])), s[j].id, tx)
    ensures Disjoint(OutputParts(tx, s))
  {
    var parts := OutputParts(tx, s);
    forall i, j | 0 <= i < j < |parts|
      ensures Keys(parts[i]) !! Keys(parts[j])
    {
      assert OutputRows(src, Keys(parts[i]), s[i].id, tx) && OutputRows(src, Keys(parts[j]), s[j].id, tx);
      forall k | k in Keys(parts[i])
        ensures k !in Keys(parts[j])
      {
        assert OfOutput(src, k, s[i].id);
      }
    }
  }

  lemma OutputsListed(src: Db, a: nat, tx: nat, before: set<Key>, s: seq<IOOutput>)
    requires OutputsExported(src, a, tx, s) && BeforeOutputs(src, tx, before)
    ensures Lists(src, a, before, Concat(OutputParts(tx, s)))
    ensures forall k :: k in Keys(Concat(OutputParts(tx, s))) ==> InTxOf(src, k, tx)
  {
    var parts := OutputParts(tx, s);
    forall j | 0 <= j < |parts|
      ensures Lists(src, a, before, parts[j]) && OutputRows(src, Keys(parts[j]), s[j].id, tx)
    {
      OutputPartListed(src, a, tx, before, s[j]);
    }
    OutputPartsDisjoint(src, tx, s);
    ConcatLists(src, a, before, parts);
    forall k | k in Keys(Concat(parts))
      ensures InTxOf(src, k, tx)
    {
      ConcatKeys(parts, k);
      var j :| 0 <= j < |parts| && k in Keys(parts[j]);
    }
  }

  ghost predicate AllInTx(src: Db, keys: set<Key>, tx: nat) {
    forall k :: k in keys ==> InTxOf(src, k, tx)
  }

  lemma TxRowListed(src: Db, a: nat, before: set<Key>, t: IOTransaction)
    requires ShowsTx(src, a, t) && Below(before, 2)
    ensures Lists(src, a, before, [TxItem(t)]) && Keys([TxItem(t)]) == {TxK(t.id)}
  {
    FlatLists(src, a, before, [TxItem(t)]);
    KeyAt([TxItem(t)], 0);
  }

  lemma TxRowFirst(src: Db, a: nat, before: set<Key>, t: IOTransaction)
    requires Covers(src, a, before, 0) && Below(before, 2)
    ensures BeforeNotes(src, a, t.id, before + Keys([TxItem(t)]))
  {
    KeyAt([TxItem(t)], 0);
  }

  lemma TxNotesListed(src: Db, a: nat, before: set<Key>, t: IOTransaction)
    requires TxExported(src, a, t) && Resolves(src, a) && Covers(src, a, before, 0) && Below(before, 2)
    ensures var items := [TxItem(t)] + Concat(NoteParts(t.id, t.notes));
            && Lists(src, a, before, items) && AllInTx(src, Keys(items), t.id)
            && BeforeOutputs(src, t.id, before + Keys(items))
  {
    hide Lists, Covers, Concat, BeforeNotes;
    var first, notes := [TxItem(t)], Concat(NoteParts(t.id, t.notes));
    TxRowListed(src, a, before, t);
    TxRowFirst(src, a, before, t);
    NotesListed(src, a, t.id, before + Keys(first), t.notes);
    ListsConcat(src, a, before, first, notes);
    KeysConcat(first, notes);
  }

  /** A transaction with its notes, outputs and their memos. */
  lemma TxListed(src: Db, a: nat, before: set<Key>, t: IOTransaction)
    requires TxExported(src, a, t) && Resolves(src, a) && Covers(src, a, before, 0) && Below(before, 2)
    ensures Lists(src, a, before, TxItems(t)) && AllInTx(src, Keys(TxItems(t)), t.id)
  {
    var head, outputs := [TxItem(t)] + Concat(NoteParts(t.id, t.notes)), Concat(OutputParts(t.id, t.outputs));
    TxNotesListed(src, a, before, t);
    OutputsListed(src, a, t.id, before + Keys(head), t.outputs);
    ListsConcat(src, a, before, head, outputs);
    KeysConcat(head, outputs);
  }

  lemma TxPartsDisjoint(src: Db, s: seq<IOTransaction>)
    requires forall j, k :: 0 <= j < k < |s| ==> s[j].id != s[k].id
    requires forall j :: 0 <= j < |s| ==> AllInTx(src, Keys(TxItems(s[j])), s[j].id)
    ensures Disjoint(TxParts(s))
  {
    var parts := TxParts(s);
    forall i, j | 0 <= i < j < |parts|
      ensures Keys(parts[i]) !! Keys(parts[j])
    {
      assert AllInTx(src, Keys(parts[i]), s[i].id) && AllInTx(src, Keys(parts[j]), s[j].id);
    }
  }

  lemma TxsListed(src: Db, a: nat, before: set<Key>, s: seq<IOTransaction>)
    requires TxsExported(src, a, s) && Resolves(src, a) && Covers(src, a, before, 0) && Below(before, 2)
    ensures Lists(src, a, before, Concat(TxParts(s))) && Of(Keys(Concat(TxParts(s))), 2)
  {
    var parts := TxParts(s);
    forall j | 0 <= j < |parts|
      ensures Lists(src, a, before, parts[j]) && AllInTx(src, Keys(parts[j]), s[j].id)
    {
      TxListed(src, a, before, s[j]);
    }
    TxPartsDisjoint(src, s);
    ConcatLists(src, a, before, parts);
    forall k | k in Keys(Concat(parts))
      ensures Rank(k) == 2
    {
      ConcatKeys(parts, k);
      var j :| 0 <= j < |parts| && k in Keys(parts[j]);
      assert InTxOf(src, k, s[j].id);
    }
  }

  // Every row of a transaction is listed with it

  lemma NoteRowListed(src: Db, a: nat, t: IOTransaction, i: nat, k: Key)
    requires TxExported(src, a, t) && i in src.notes && src.notes[i].tx == t.id
    requires k == NoteK(i) || (k.MemoK? && k.key in src.memos && src.memos[k.key].note == Some(i))
    ensures k in Keys(TxItems(t))
  {
    var j :| 0 <= j < |t.notes| && t.notes[j].id == i;
    var parts := NoteParts(t.id, t.notes);
    NoteKeysInTx(src, a, t.id, t.notes[j]);
    assert k in Keys(parts[j]);
    ConcatKeys(parts, k);
    KeysConcat([TxItem(t)], Concat(parts));
    KeysConcat([TxItem(t)] + Concat(parts), Concat(OutputParts(t.id, t.outputs)));
  }

  lemma OutputRowListed(src: Db, a: nat, t: IOTransaction, i: nat, k: Key)
    requires TxExported(src, a, t) && i in src.outputs && src.outputs[i].tx == t.id
    requires k == OutputK(i) || (k.MemoK? && k.key in src.memos && src.memos[k.key].output == Some(i))
    ensures k in Keys(TxItems(t))
  {
    var j :| 0 <= j < |t.outputs| && t.outputs[j].id == i;
    var parts := OutputParts(t.id, t.outputs);
    OutputKeysInTx(src, a, t.id, t.outputs[j]);
    assert k in Keys(parts[j]);
    ConcatKeys(parts, k);
    KeysConcat([TxItem(t)] + Concat(NoteParts(t.id, t.notes)), Concat(parts));
  }

  /** The transaction that a row belongs with. */
  function TxOf(src: Db, k: Key): (tx: nat)
    requires Rank(k) == 2
    requires k.NoteK? ==> k.id in src.notes
    requires k.OutputK? ==> k.id in src.outputs
  {
    match k
    case TxK(i) => i
    case NoteK(i) => src.notes[i].tx
    case OutputK(i) => src.outputs[i].tx
    case MemoK(key) => key.tx
  }

  lemma RowListed(src: Db, a: nat, t: IOTransaction, k: Key)
    requires TxExported(src, a, t) && WellFormedRows(src, a) && Belongs(src, a, k) && Rank(k) == 2
    requires TxOf(src, k) == t.id
    ensures k in Keys(TxItems(t))
  {
    match k
    case TxK(i) =>
      KeyAt(TxItems(t), 0);
    case NoteK(i) => NoteRowListed(src, a, t, i, k);
    case OutputK(i) => OutputRowListed(src, a, t, i, k);
    case MemoK(key) =>
      assert MemoAgrees(src, key);
      if src.memos[key].note.Some? {
        NoteRowListed(src, a, t, src.memos[key].note.value, k);
      } else {
        OutputRowListed(src, a, t, src.memos[key].output.value, k);
      }
  }

  lemma TxBelongs(src: Db, a: nat, k: Key)
    requires WellFormedRows(src, a) && Belongs(src, a, k) && Rank(k) == 2
    ensures TxOf(src, k) in src.transactions && src.transactions[TxOf(src, k)].account == a
  {
    match k
    case TxK(i) =>
    case NoteK(i) => assert InTx(src, a, src.notes[i].account, src.notes[i].tx);
    case OutputK(i) => assert InTx(src, a, src.outputs[i].account, src.outputs[i].tx);
    case MemoK(key) => assert InTx(src, a, src.memos[key].account, key.tx);
  }

  lemma TxsCover(src: Db, a: nat, s: seq<IOTransaction>)
    requires TxsExported(src, a, s) && WellFormedRows(src, a)
    ensures Covers(src, a, Keys(Concat(TxParts(s))), 2)
  {
    forall k | Belongs(src, a, k) && Rank(k) == 2
      ensures k in Keys(Concat(TxParts(s)))
    {
      TxBelongs(src, a, k);
      var j :| 0 <= j < |s| && s[j].id == TxOf(src, k);
      RowListed(src, a, s[j], k);
      assert k in Keys(TxParts(s)[j]);
      ConcatKeys(TxParts(s), k);
    }
  }

  // The spends ------------------------------------------------------------

  ghost predicate SpendsOf(src: Db, keys: set<Key>, tx: nat) {
    forall k :: k in keys ==> k.SpendK? && k.note in src.spends && src.spends[k.note].tx == tx
  }

  lemma SpendsListed(src: Db, a: nat, before: set<Key>, t: IOTransaction)
    requires TxExported(src, a, t) && Resolves(src, a) && Covers(src, a, before, 2) && Below(before, 3)
    ensures Lists(src, a, before, SpendItems(t)) && SpendsOf(src, Keys(SpendItems(t)), t.id)
  {
    hide Lists;
    var items := SpendItems(t);
    assert Belongs(src, a, TxK(t.id));
    forall i | 0 <= i < |items|
      ensures Needs(items[i]) <= before
    {
      assert Belongs(src, a, NoteK(t.spends[i].note));
    }
    FlatLists(src, a, before, items);
  }

  lemma SpendPartsDisjoint(src: Db, s: seq<IOTransaction>)
    requires forall j, k :: 0 <= j < k < |s| ==> s[j].id != s[k].id
    requires forall j :: 0 <= j < |s| ==> SpendsOf(src, Keys(SpendItems(s[j])), s[j].id)
    ensures Disjoint(SpendParts(s)) && Of(Keys(Concat(SpendParts(s))), 3)
  {
    var parts := SpendParts(s);
    forall i, j | 0 <= i < j < |parts|
      ensures Keys(parts[i]) !! Keys(parts[j])
    {
      assert SpendsOf(src, Keys(parts[i]), s[i].id) && SpendsOf(src, Keys(parts[j]), s[j].id);
    }
    forall k | k in Keys(Concat(parts))
      ensures Rank(k) == 3
    {
      ConcatKeys(parts, k);
      var j :| 0 <= j < |parts| && k in Keys(parts[j]);
      assert SpendsOf(src, Keys(parts[j]), s[j].id);
    }
  }

  lemma SpendsSection(src: Db, a: nat, before: set<Key>, s: seq<IOTransaction>)
    requires TxsExported(src, a, s) && WellFormedRows(src, a) && Covers(src, a, before, 2) && Below(before, 3)
    ensures Section(src, a, before, Concat(SpendParts(s)), 3)
  {
    forall j | 0 <= j < |s|
      ensures Lists(src, a, before, SpendItems(s[j])) && SpendsOf(src, Keys(SpendItems(s[j])), s[j].id)
    {
      SpendsListed(src, a, before, s[j]);
    }
    SpendPartsDisjoint(src, s);
    ConcatLists(src, a, before, SpendParts(s));
    SpendsCover(src, a, s);
  }

  lemma SpendsCover(src: Db, a: nat, s: seq<IOTransaction>)
    requires TxsExported(src, a, s) && WellFormedRows(src, a)
    ensures Covers(src, a, Keys(Concat(SpendParts(s))), 3)
  {
    forall k | Belongs(src, a, k) && Rank(k) == 3
      ensures k in Keys(Concat(SpendParts(s)))
    {
      assert InTx(src, a, src.spends[k.note].account, src.spends[k.note].tx);
      SpendRowListed(src, a, s, k.note);
    }
  }

  lemma SpendRowListed(src: Db, a: nat, s: seq<IOTransaction>, i: nat)
    requires TxsExported(src, a, s) && i in src.spends
    requires src.spends[i].tx in src.transactions && src.transactions[src.spends[i].tx].account == a
    ensures SpendK(i) in Keys(Concat(SpendParts(s)))
  {
    var j :| 0 <= j < |s| && s[j].id == src.spends[i].tx;
    assert SpendsExported(src, a, s[j].id, s[j].spends);
    var n :| 0 <= n < |s[j].spends| && s[j].spends[n].note == i;
    KeyAt(SpendItems(s[j]), n);
    assert SpendK(i) in Keys(SpendParts(s)[j]);
    ConcatKeys(SpendParts(s), SpendK(i));
  }

  // The blocks --------------------------------------------------------------

  ghost predicate AtHeight(keys: set<Key>, h: nat) {
    forall k :: k in keys ==> k == HeaderK(h) || (k.WitnessK? && k.wkey.height == h)
  }

  lemma WitnessesListed(src: Db, a: nat, before: set<Key>, b: IOBlock)
    requires BlockExported(src, a, b) && Resolves(src, a) && Covers(src, a, before, 2)
    requires forall k :: k in before ==> !k.WitnessK?
    ensures Lists(src, a, before, WitnessItems(b.witnesses))
  {
    var items := WitnessItems(b.witnesses);
    forall i | 0 <= i < |items|
      ensures Needs(items[i]) <= before
    {
      var w := b.witnesses[i];
      assert WitnessResolves(src, a, WitnessKey(w.note, w.height));
      assert Belongs(src, a, NoteK(w.note));
    }
    FlatLists(src, a, before, items);
  }

  lemma BlockListed(src: Db, a: nat, before: set<Key>, b: IOBlock)
    requires BlockExported(src, a, b) && Resolves(src, a) && Covers(src, a, before, 2) && Below(before, 5)
    ensures Lists(src, a, before, BlockItems(b)) && AtHeight(Keys(BlockItems(b)), b.height)
  {
    var first, rest := [HeaderItem(b.height, b.header)], WitnessItems(b.witnesses);
    assert Keys(first) == {HeaderK(b.height)} by { KeyAt(first, 0); }
    assert Lists(src, a, before, first) by { FlatLists(src, a, before, first); }
    assert Lists(src, a, before + Keys(first), rest) by { WitnessesListed(src, a, before + Keys(first), b); }
    assert Lists(src, a, before, first + rest) by { ListsConcat(src, a, before, first, rest); }
    BlockKeys(src, a, b);
  }

  lemma BlockKeys(src: Db, a: nat, b: IOBlock)
    requires BlockExported(src, a, b)
    ensures AtHeight(Keys(BlockItems(b)), b.height)
  {}

  lemma BlocksSection(src: Db, a: nat, before: set<Key>, s: seq<IOBlock>)
    requires BlocksExported(src, a, s) && WellFormedRows(src, a) && Covers(src, a, before, 2) && Below(before, 5)
    ensures Section(src, a, before, Concat(BlockParts(s)), 5)
  {
    forall j | 0 <= j < |s|
      ensures Lists(src, a, before, BlockItems(s[j])) && AtHeight(Keys(BlockItems(s[j])), s[j].height)
    {
      BlockListed(src, a, before, s[j]);
    }
    BlockPartsDisjoint(s);
    ConcatLists(src, a, before, BlockParts(s));
    BlocksCover(src, a, s);
  }

  lemma BlockPartsDisjoint(s: seq<IOBlock>)
    requires forall j, k :: 0 <= j < k < |s| ==> s[j].height != s[k].height
    requires forall j :: 0 <= j < |s| ==> AtHeight(Keys(BlockItems(s[j])), s[j].height)
    ensures Disjoint(BlockParts(s)) && Of(Keys(Concat(BlockParts(s))), 5)
  {
    var parts := BlockParts(s);
    forall i, j | 0 <= i < j < |parts|
      ensures Keys(parts[i]) !! Keys(parts[j])
    {
      assert AtHeight(Keys(parts[i]), s[i].height) && AtHeight(Keys(parts[j]), s[j].height);
    }
    forall k | k in Keys(Concat(parts))
      ensures Rank(k) == 5
    {
      ConcatKeys(parts, k);
      var j :| 0 <= j < |parts| && k in Keys(parts[j]);
      assert AtHeight(Keys(parts[j]), s[j].height);
    }
  }

  lemma BlocksCover(src: Db, a: nat, s: seq<IOBlock>)
    requires BlocksExported(src, a, s) && WellFormedRows(src, a)
    ensures Covers(src, a, Keys(Concat(BlockParts(s))), 5)
  {
    forall k | Belongs(src, a, k) && Rank(k) == 5
      ensures k in Keys(Concat(BlockParts(s)))
    {
      var h := if k.HeaderK? then k.height else k.wkey.height;
      assert Witnessed(src, a, h);
      var j :| 0 <= j < |s| && s[j].height == h;
      BlockRowListed(src, a, s[j], k);
      assert k in Keys(BlockParts(s)[j]);
      ConcatKeys(BlockParts(s), k);
    }
  }

  lemma BlockRowListed(src: Db, a: nat, b: IOBlock, k: Key)
    requires BlockExported(src, a, b) && Belongs(src, a, k)
    requires k == HeaderK(b.height) || (k.WitnessK? && k.wkey.height == b.height)
    ensures k in Keys(BlockItems(b))
  {
    if k.HeaderK? {
      KeyAt(BlockItems(b), 0);
    } else {
      var i :| 0 <= i < |b.witnesses| && b.witnesses[i].note == k.wkey.note;
      assert BlockItems(b)[i + 1] == WitnessItem(b.witnesses[i]);
      KeyAt(BlockItems(b), i + 1);
    }
  }

  // ---------------------------------------------------------------------

  /** Everything up to section n. */
  ghost predicate UpTo(src: Db, a: nat, items: seq<Item>, n: nat) {
    && Lists(src, a, {}, items) && Below(Keys(items), n + 1)
    && forall m: nat :: m <= n ==> Covers(src, a, Keys(items), m)
  }

  lemma CoversMore(src: Db, a: nat, x: seq<Item>, y: seq<Item>, n: nat)
    requires Covers(src, a, Keys(x), n) || Covers(src, a, Keys(y), n)
    ensures Covers(src, a, Keys(x + y), n)
  {
    KeysConcat(x, y);
  }

  lemma Joined(src: Db, a: nat, x: seq<Item>, y: seq<Item>, m: nat, n: nat)
    requires n == m + 1 && UpTo(src, a, x, m) && Section(src, a, Keys(x), y, n)
    ensures UpTo(src, a, x + y, n)
  {
    assert {} + Keys(x) == Keys(x);
    ListsConcat(src, a, {}, x, y);
    forall l: nat | l <= n
      ensures Covers(src, a, Keys(x + y), l)
    {
      CoversMore(src, a, x, y, l);
    }
    KeysConcat(x, y);
  }

  lemma FirstPass(src: Db, a: nat, doc: Document)
    requires WellFormedRows(src, a) && RowsExported(src, a, doc)
    ensures UpTo(src, a, TAddrItems(doc.taddrs) + SyncItems(doc.syncHeights) + Concat(TxParts(doc.transactions)), 2)
  {
    var p0, p1 := TAddrItems(doc.taddrs), SyncItems(doc.syncHeights);
    TAddrsSection(src, a, {}, doc.taddrs);
    SyncsSection(src, a, Keys(p0), doc.syncHeights);
    assert UpTo(src, a, p0, 0);
    Joined(src, a, p0, p1, 0, 1);
    TxsListed(src, a, Keys(p0 + p1), doc.transactions);
    TxsCover(src, a, doc.transactions);
    Joined(src, a, p0 + p1, Concat(TxParts(doc.transactions)), 1, 2);
  }

  lemma SecondPass(src: Db, a: nat, x: seq<Item>, doc: Document)
    requires WellFormedRows(src, a) && RowsExported(src, a, doc) && UpTo(src, a, x, 2)
    ensures UpTo(src, a, x + Concat(SpendParts(doc.transactions)), 3)
  {
    SpendsSection(src, a, Keys(x), doc.transactions);
    Joined(src, a, x, Concat(SpendParts(doc.transactions)), 2, 3);
  }

  lemma LastPasses(src: Db, a: nat, x: seq<Item>, doc: Document)
    requires WellFormedRows(src, a) && RowsExported(src, a, doc) && UpTo(src, a, x, 3)
    ensures UpTo(src, a, x + UserMemoItems(doc.userMemos) + Concat(BlockParts(doc.blocks)), 5)
  {
    UserMemosSection(src, a, Keys(x), doc.userMemos);
    var y := x + UserMemoItems(doc.userMemos);
    Joined(src, a, x, UserMemoItems(doc.userMemos), 3, 4);
    BlocksSection(src, a, Keys(y), doc.blocks);
    Joined(src, a, y, Concat(BlockParts(doc.blocks)), 4, 5);
  }

  /** The document of a well-formed account lists every row that a backup can
      hold, each once and after the rows it refers to, whatever the order in
      which the transactions stand in it. */
  lemma ExportListed(src: Db, a: nat, doc: Document)
    requires WellFormedRows(src, a) && RowsExported(src, a, doc)
    ensures Lists(src, a, {}, Items(doc)) && Complete(src, a, Items(doc))
  {
    FirstPass(src, a, doc);
    var x := TAddrItems(doc.taddrs) + SyncItems(doc.syncHeights) + Concat(TxParts(doc.transactions));
    SecondPass(src, a, x, doc);
    LastPasses(src, a, x + Concat(SpendParts(doc.transactions)), doc);
    assert UpTo(src, a, Items(doc), 5);
    UpToAll(src, a, Items(doc));
  }

  lemma UpToAll(src: Db, a: nat, items: seq<Item>)
    requires UpTo(src, a, items, 5)
    ensures Complete(src, a, items)
  {
    forall k | Belongs(src, a, k)
      ensures k in Keys(items)
    {
      assert Covers(src, a, Keys(items), Rank(k));
    }
  }
}
