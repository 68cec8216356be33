/** Restoring a document into a wallet, inside one database transaction. */
module Importing {
  import opened Wrappers
  import opened RowIds
  import Positions
  import opened Tables
  import opened BackupFormat
  import opened Restore
  import opened Backup
  import opened SharedTables
  import opened AccountRecords
  import Dkg

  lemma {:induction false} RunConcat(st: St, x: seq<Item>, y: seq<Item>)
    ensures Run(st, x + y) == if Run(st, x).None? then None else Run(Run(st, x).value, y)
  {
    if y == [] {
      assert x + y == x;
    } else {
      assert (x + y)[..|x + y| - 1] == x + y[..|y| - 1];
      RunConcat(st, x, y[..|y| - 1]);
    }
  }

  lemma StepKeepsNames(st: St, item: Item)
    ensures Step(st, item).Some? ==>
      var r := Step(st, item).value.r;
      r.account == st.r.account && r.cats == st.r.cats && r.assets == st.r.assets
  {}

  /** A run renames neither the account nor the shared rows anew. */
  lemma {:induction false} RunKeepsNames(st: St, items: seq<Item>)
    ensures Run(st, items).Some? ==>
      var r := Run(st, items).value.r;
      r.account == st.r.account && r.cats == st.r.cats && r.assets == st.r.assets
  {
    hide Step;
    if items != [] {
      if Run(st, items[..|items| - 1]).Some? {
        StepKeepsNames(Run(st, items[..|items| - 1]).value, items[|items| - 1]);
      }
      RunKeepsNames(st, items[..|items| - 1]);
    }
  }

  /** A run that is stuck stays stuck. */
  lemma Stuck(st: St, x: seq<Item>, whole: seq<Item>)
    requires x <= whole && Run(st, x).None?
    ensures Run(st, whole).None?
  {
    assert whole == x + whole[|x|..];
    RunConcat(st, x, whole[|x|..]);
  }

  /** From `from`, the items lead to `end`, or get stuck. */
  ghost predicate Leads(from: St, items: seq<Item>, ok: bool, end: St) {
    if ok then Run(from, items) == Some(end) else Run(from, items).None?
  }

  lemma OneStep(from: St, item: Item)
    ensures Run(from, [item]) == Step(from, item)
  {
    assert [item][..0] == [];
    assert Run(from, []) == Some(from);
  }

  /** One more round of a loop over rows. */
  lemma RowDone(from: St, items: seq<Item>, n: nat, mid: St, ok: bool, end: St)
    requires n < |items| && Run(from, items[..n]) == Some(mid) && Leads(mid, [items[n]], ok, end)
    ensures if ok then Run(from, items[..n + 1]) == Some(end) else Run(from, items).None?
  {
    OneStep(mid, items[n]);
    assert items[..n + 1][..n] == items[..n];
    if !ok { Stuck(from, items[..n + 1], items); }
  }

  lemma {:induction false} ConcatPrefix(parts: seq<seq<Item>>, n: nat)
    requires n <= |parts|
    ensures Concat(parts[..n]) <= Concat(parts)
  {
    if n < |parts| {
      ConcatPrefix(parts[..|parts| - 1], n);
      assert parts[..|parts| - 1][..n] == parts[..n];
    } else {
      assert parts[..n] == parts;
    }
  }

  /** One more round of a loop whose body restores several rows. */
  lemma PartDone(from: St, parts: seq<seq<Item>>, n: nat, mid: St, ok: bool, end: St)
    requires n < |parts| && Run(from, Concat(parts[..n])) == Some(mid) && Leads(mid, parts[n], ok, end)
    ensures if ok then Run(from, Concat(parts[..n + 1])) == Some(end) else Run(from, Concat(parts)).None?
  {
    assert parts[..n + 1][..n] == parts[..n];
    RunConcat(from, Concat(parts[..n]), parts[n]);
    if !ok {
      ConcatPrefix(parts, n + 1);
      Stuck(from, Concat(parts[..n + 1]), Concat(parts));
    }
  }

  /** One stage after another. */
  lemma StageDone(from: St, x: seq<Item>, y: seq<Item>, mid: St, ok: bool, end: St)
    requires Run(from, x) == Some(mid) && Leads(mid, y, ok, end)
    ensures Leads(from, x + y, ok, end)
  {
    RunConcat(from, x, y);
  }

  /** The wallet after a restore: the shared tables, the account, its rows. */
  function Restored(c: Codec, w: Contents, doc: Document): Option<Contents> {
    var (categories, cats) := UpsertAll(w.categories, doc.categories);
    var assets := RestoreAssets(w.assets, doc.assets);
    var (folders, folder) := PutFolder(w.folders, doc.account.folder);
    var account := RestoreAccount(c, folder, doc.account);
    if !KeysDecode(c, doc) || assets.None? || account.None? then None
    else
      var start := Start(w.db, cats, assets.value.1);
      var end := Run(start, Items(doc));
      if end.None? then None
      else Some(Contents(w.accounts[start.r.account := account.value], folders, end.value.db, categories,
                         assets.value.0))
  }

  class Wallet {
    var accounts: map<nat, Account>
    var folders: map<nat, string>
    var db: Db
    var categories: map<nat, Category>
    var assets: map<nat, Asset>
    // the renaming maps of the restore under way
    var names: Ren

    ghost function State(): St
      reads this
    {
      St(db, names)
    }

    method RestoreAddress(t: IOTAddr) returns (ok: bool)
      modifies this`db, this`names
      ensures Leads(old(State()), [TAddrItem(t)], ok, State())
    {
      OneStep(State(), TAddrItem(t));
      var ins := InsertTAddr(db, TAddr(names.account, t.scope, t.dindex, t.data));
      if ins.None? { return false; }
      db := ins.value.0;
      names := names.(taddrs := names.taddrs[t.id := ins.value.1]);
      ok := true;
    }

    method RestoreAddresses(taddrs: seq<IOTAddr>) returns (ok: bool)
      modifies this`db, this`names
      ensures Leads(old(State()), TAddrItems(taddrs), ok, State())
    {
      ghost var from, items := State(), TAddrItems(taddrs);
      for n := 0 to |taddrs|
        invariant Run(from, items[..n]) == Some(State())
      {
        ghost var mid := State();
        var stored := RestoreAddress(taddrs[n]);
        RowDone(from, items, n, mid, stored, State());
        if !stored { return false; }
      }
      assert items[..|taddrs|] == items;
      ok := true;
    }

    method RestoreSyncHeights(heights: seq<IOSync>)
      modifies this`db
      ensures Run(old(State()), SyncItems(heights)) == Some(State())
    {
      ghost var from, items := State(), SyncItems(heights);
      for n := 0 to |heights|
        invariant Run(from, items[..n]) == Some(State())
      {
        OneStep(State(), items[n]);
        ghost var mid := State();
        db := SetCheckpoint(db, names.account, heights[n].pool, heights[n].height);
        RowDone(from, items, n, mid, true, State());
      }
      assert items[..|heights|] == items;
    }

    method RestoreNote(tx: nat, newTx: nat, n: IONote) returns (ok: bool)
      requires tx in names.txs && names.txs[tx] == newTx
      modifies this`db, this`names
      ensures names.txs == old(names.txs)
      ensures Leads(old(State()), NoteItems(tx, n), ok, State())
    {
      ghost var from, first := State(), NoteItem(tx, n);
      OneStep(from, first);
      var ins := RecordNote(db, Note(names.account, newTx, n.height, n.pool, n.nullifier, AsI64(n.value),
                                     Look(names.taddrs, n.taddress), n.locked, Look(names.assets, n.asset), n.data));
      if ins.None? {
        Stuck(from, [first], NoteItems(tx, n));
        return false;
      }
      db := ins.value.0;
      names := names.(notes := names.notes[n.id := ins.value.1]);
      ghost var mid := State();
      if n.vout.Some? && n.memoBytes.Some? {
        ghost var memo := MemoItem(MemoKey(tx, n.pool, n.vout.value), n.height, Some(n.id), None, n.memoText,
                                   n.memoBytes.value);
        OneStep(mid, memo);
        db := RecordMemo(db, MemoKey(newTx, n.pool, n.vout.value),
                         Memo(names.account, n.height, Some(ins.value.1), None, n.memoText, n.memoBytes.value));
        StageDone(from, [first], [memo], mid, true, State());
      } else {
        assert NoteItems(tx, n) == [first];
      }
      ok := true;
    }

    method RestoreNotes(tx: nat, newTx: nat, notes: seq<IONote>) returns (ok: bool)
      requires tx in names.txs && names.txs[tx] == newTx
      modifies this`db, this`names
      ensures names.txs == old(names.txs)
      ensures Leads(old(State()), Concat(NoteParts(tx, notes)), ok, State())
    {
      ghost var from, parts := State(), NoteParts(tx, notes);
      for n := 0 to |notes|
        invariant names.txs == old(names.txs)
        invariant Run(from, Concat(parts[..n])) == Some(State())
      {
        ghost var mid := State();
        var stored := RestoreNote(tx, newTx, notes[n]);
        PartDone(from, parts, n, mid, stored, State());
        if !stored { return false; }
      }
      assert parts[..|notes|] == parts;
      ok := true;
    }

    method RestoreOutput(tx: nat, newTx: nat, o: IOOutput)
      requires tx in names.txs && names.txs[tx] == newTx
      modifies this`db, this`names
      ensures names.txs == old(names.txs)
      ensures Run(old(State()), OutputItems(tx, o)) == Some(State())
    {
      ghost var from, first := State(), OutputItem(tx, o);
      OneStep(from, first);
      var (db', id) := RecordOutput(db,
        Output(names.account, newTx, o.height, o.pool, o.vout, AsI64(o.value), o.address));
      db := db';
      names := names.(outputs := names.outputs[o.id := id]);
      ghost var mid := State();
      if o.memoBytes.Some? {
        ghost var memo := MemoItem(MemoKey(tx, o.pool, o.vout), o.height, None, Some(o.id), o.memoText,
                                   o.memoBytes.value);
        OneStep(mid, memo);
        db := RecordMemo(db, MemoKey(newTx, o.pool, o.vout),
                         Memo(names.account, o.height, None, Some(id), o.memoText, o.memoBytes.value));
        StageDone(from, [first], [memo], mid, true, State());
      } else {
        assert OutputItems(tx, o) == [first];
      }
    }

    method RestoreOutputs(tx: nat, newTx: nat, outputs: seq<IOOutput>)
      requires tx in names.txs && names.txs[tx] == newTx
      modifies this`db, this`names
      ensures Run(old(State()), Concat(OutputParts(tx, outputs))) == Some(State())
    {
      ghost var from, parts := State(), OutputParts(tx, outputs);
      for n := 0 to |outputs|
        invariant names.txs == old(names.txs)
        invariant Run(from, Concat(parts[..n])) == Some(State())
      {
        ghost var mid := State();
        RestoreOutput(tx, newTx, outputs[n]);
        PartDone(from, parts, n, mid, true, State());
      }
      assert parts[..|outputs|] == parts;
    }

    /** A transaction, its notes and its outputs. */
    method RestoreTransaction(t: IOTransaction) returns (ok: bool)
      modifies this`db, this`names
      ensures Leads(old(State()), TxItems(t), ok, State())
    {
      ghost var from, first, notes := State(), TxItem(t), Concat(NoteParts(t.id, t.notes));
      OneStep(from, first);
      var ins := RecordTransaction(db, Tx(names.account, t.txid, t.height, t.data, Look(names.cats, t.category)));
      if ins.None? {
        Stuck(from, [first], TxItems(t));
        return false;
      }
      db := ins.value.0;
      names := names.(txs := names.txs[t.id := ins.value.1]);
      ghost var mid := State();
      var stored := RestoreNotes(t.id, ins.value.1, t.notes);
      StageDone(from, [first], notes, mid, stored, State());
      if !stored {
        Stuck(from, [first] + notes, TxItems(t));
        return false;
      }
      mid := State();
      RestoreOutputs(t.id, ins.value.1, t.outputs);
      StageDone(from, [first] + notes, Concat(OutputParts(t.id, t.outputs)), mid, true, State());
      ok := true;
    }

    method RestoreTransactions(ts: seq<IOTransaction>) returns (ok: bool)
      modifies this`db, this`names
      ensures Leads(old(State()), Concat(TxParts(ts)), ok, State())
    {
      ghost var from, parts := State(), TxParts(ts);
      for n := 0 to |ts|
        invariant Run(from, Concat(parts[..n])) == Some(State())
      {
        ghost var mid := State();
        var stored := RestoreTransaction(ts[n]);
        PartDone(from, parts, n, mid, stored, State());
        if !stored { return false; }
      }
      assert parts[..|ts|] == parts;
      ok := true;
    }

    method RestoreSpend(tx: nat, s: IOSpend) returns (ok: bool)
      modifies this`db
      ensures Leads(old(State()), [SpendItem(tx, s)], ok, State())
    {
      OneStep(State(), SpendItem(tx, s));
      if tx !in names.txs || s.note !in names.notes { return false; }
      var ins := RecordSpend(db, names.account, names.notes[s.note],
                             Spend(names.account, names.txs[tx], s.height, s.pool, AsI64(s.value)));
      if ins.None? { return false; }
      db := ins.value;
      ok := true;
    }

    method RestoreSpends(t: IOTransaction) returns (ok: bool)
      modifies this`db
      ensures Leads(old(State()), SpendItems(t), ok, State())
    {
      ghost var from, items := State(), SpendItems(t);
      for n := 0 to |t.spends|
        invariant Run(from, items[..n]) == Some(State())
      {
        ghost var mid := State();
        var stored := RestoreSpend(t.id, t.spends[n]);
        RowDone(from, items, n, mid, stored, State());
        if !stored { return false; }
      }
      assert items[..|t.spends|] == items;
      ok := true;
    }

    /** The second pass over the transactions. */
    method RestoreAllSpends(ts: seq<IOTransaction>) returns (ok: bool)
      modifies this`db
      ensures Leads(old(State()), Concat(SpendParts(ts)), ok, State())
    {
      ghost var from, parts := State(), SpendParts(ts);
      for n := 0 to |ts|
        invariant Run(from, Concat(parts[..n])) == Some(State())
      {
        ghost var mid := State();
        var stored := RestoreSpends(ts[n]);
        PartDone(from, parts, n, mid, stored, State());
        if !stored { return false; }
      }
      assert parts[..|ts|] == parts;
      ok := true;
    }

    method RestoreUserMemo(u: IOUserMemo) returns (ok: bool)
      modifies this`db
      ensures Leads(old(State()), [UserMemoItem(u)], ok, State())
    {
      OneStep(State(), UserMemoItem(u));
      ok := true;
      if u.tx in names.txs {
        var ins := InsertUserMemo(db, names.account, names.txs[u.tx], u.text);
        if ins.None? { return false; }
        db := ins.value;
      }
    }

    method RestoreUserMemos(us: seq<IOUserMemo>) returns (ok: bool)
      modifies this`db
      ensures Leads(old(State()), UserMemoItems(us), ok, State())
    {
      ghost var from, items := State(), UserMemoItems(us);
      for n := 0 to |us|
        invariant Run(from, items[..n]) == Some(State())
      {
        ghost var mid := State();
        var stored := RestoreUserMemo(us[n]);
        RowDone(from, items, n, mid, stored, State());
        if !stored { return false; }
      }
      assert items[..|us|] == items;
      ok := true;
    }

    method RestoreWitness(w: IOWitness) returns (ok: bool)
      modifies this`db
      ensures Leads(old(State()), [WitnessItem(w)], ok, State())
    {
      OneStep(State(), WitnessItem(w));
      if w.note !in names.notes { return false; }
      var ins := RecordWitness(db, names.account, names.notes[w.note], w.height, w.path);
      if ins.None? { return false; }
      db := ins.value;
      ok := true;
    }

    /** A header, then the witnesses at its height. */
    method RestoreBlock(b: IOBlock) returns (ok: bool)
      modifies this`db
      ensures Leads(old(State()), BlockItems(b), ok, State())
    {
      ghost var from, items := State(), BlockItems(b);
      OneStep(from, items[0]);
      db := StoreHeader(db, names.account, b.height, b.header);
      assert items[..1] == [items[0]];
      for n := 0 to |b.witnesses|
        invariant Run(from, items[..n + 1]) == Some(State())
      {
        ghost var mid := State();
        var stored := RestoreWitness(b.witnesses[n]);
        RowDone(from, items, n + 1, mid, stored, State());
        if !stored { return false; }
      }
      assert items[..|b.witnesses| + 1] == items;
      ok := true;
    }

    method RestoreBlocks(bs: seq<IOBlock>) returns (ok: bool)
      modifies this`db
      ensures Leads(old(State()), Concat(BlockParts(bs)), ok, State())
    {
      ghost var from, parts := State(), BlockParts(bs);
      for n := 0 to |bs|
        invariant Run(from, Concat(parts[..n])) == Some(State())
      {
        ghost var mid := State();
        var stored := RestoreBlock(bs[n]);
        PartDone(from, parts, n, mid, stored, State());
        if !stored { return false; }
      }
      assert parts[..|bs|] == parts;
      ok := true;
    }

    /** The account's rows, stage by stage. */
    method RestoreRows(doc: Document) returns (ok: bool)
      modifies this`db, this`names
      ensures Leads(old(State()), Items(doc), ok, State())
    {
      ghost var from, items := State(), TAddrItems(doc.taddrs);
      ok := RestoreAddresses(doc.taddrs);
      if !ok { Stuck(from, items, Items(doc)); return; }

      ghost var mid, stage := State(), SyncItems(doc.syncHeights);
      RestoreSyncHeights(doc.syncHeights);
      StageDone(from, items, stage, mid, true, State());
      items := items + stage;

      mid, stage := State(), Concat(TxParts(doc.transactions));
      ok := RestoreTransactions(doc.transactions);
      StageDone(from, items, stage, mid, ok, State());
      items := items + stage;
      if !ok { Stuck(from, items, Items(doc)); return; }

      mid, stage := State(), Concat(SpendParts(doc.transactions));
      ok := RestoreAllSpends(doc.transactions);
      StageDone(from, items, stage, mid, ok, State());
      items := items + stage;
      if !ok { Stuck(from, items, Items(doc)); return; }

      mid, stage := State(), UserMemoItems(doc.userMemos);
      ok := RestoreUserMemos(doc.userMemos);
      StageDone(from, items, stage, mid, ok, State());
      items := items + stage;
      if !ok { Stuck(from, items, Items(doc)); return; }

      mid, stage := State(), Concat(BlockParts(doc.blocks));
      ok := RestoreBlocks(doc.blocks);
      StageDone(from, items, stage, mid, ok, State());
    }

    method RestoreCategories(cs: seq<IOCategory>) returns (ids: map<nat, nat>)
      modifies this`categories
      ensures (categories, ids) == UpsertAll(old(categories), cs)
    {
      ids := map[];
      for n := 0 to |cs|
        invariant (categories, ids) == UpsertAll(old(categories), cs[..n])
      {
        assert cs[..n + 1][..n] == cs[..n];
        var (after, id) := UpsertCategory(categories, cs[n].category);
        categories := after;
        ids := ids[cs[n].id := id];
      }
      assert cs[..|cs|] == cs;
    }

    method RestoreAssetRows(xs: seq<IOAsset>) returns (ids: Option<map<nat, nat>>)
      modifies this`assets
      ensures ids.None? <==> RestoreAssets(old(assets), xs).None?
      ensures ids.Some? ==> RestoreAssets(old(assets), xs) == Some((assets, ids.value))
    {
      var all: map<nat, nat> := map[];
      for n := 0 to |xs|
        invariant RestoreAssets(old(assets), xs[..n]) == Some((assets, all))
      {
        assert xs[..n + 1][..n] == xs[..n];
        var recorded := RecordAsset(assets, AsRow(xs[n]));
        if recorded.None? {
          NoMoreAssets(old(assets), xs, n + 1);
          return None;
        }
        var id := AssetId(recorded.value, AsRow(xs[n]));
        if id.None? {
          NoMoreAssets(old(assets), xs, n + 1);
          return None;
        }
        assets := recorded.value;
        all := all[xs[n].id := id.value];
      }
      assert xs[..|xs|] == xs;
      ids := Some(all);
    }

    /** The folder, and the account with its keys: every other account moves one
        position down. The state of a key generation comes later. */
    method InsertAccount(c: Codec, io: IOAccount, cats: map<nat, nat>, ids: map<nat, nat>) returns (ok: bool)
      modifies this`accounts, this`folders, this`db, this`names
      ensures State() == Start(old(db), cats, ids)
      ensures folders == PutFolder(old(folders), io.folder).0
      ensures ok <==> RestoreSapling(c, io).Some?
      ensures ok ==> accounts == old(accounts)[names.account :=
        Account(io.data, io.dindex, PutFolder(old(folders), io.folder).1, io.transparent, RestoreSapling(c, io).value,
                io.orchard, Dkg.NOT_SHARED)]
    {
      var account := NextId(db.positions.Keys);
      ghost var before := db.positions;
      var positions := map i | i in db.positions :: db.positions[i] + 1;
      positions := positions[account := 1];
      assert positions == Positions.Shifted(before, account);
      db := db.(positions := positions);
      names := Ren(account, cats, ids, map[], map[], map[], map[]);
      var (after, folder) := PutFolder(folders, io.folder);
      folders := after;
      var row := Account(io.data, io.dindex, folder, io.transparent, None, io.orchard, Dkg.NOT_SHARED);
      if io.sapling.Some? {
        var address := SaplingAddress(c, io.sapling.value, io.dindex);
        if address.None? { return false; }
        row := row.(sapling := Some(SaplingRow(io.sapling.value, address.value)));
      }
      accounts := accounts[account := row];
      ok := true;
    }

    /** The sections of a key generation, on the account's row. */
    method RestoreSections(c: Codec, io: Dkg.Sections) returns (ok: bool)
      requires names.account in accounts
      modifies this`accounts
      ensures ok <==> Dkg.RestoreShared(c.text, io).Some?
      ensures ok ==> accounts == old(accounts)[names.account :=
        old(accounts)[names.account].(shared := Dkg.RestoreShared(c.text, io).value)]
    {
      var importer := new Dkg.Importer();
      ok := importer.Import(c.text, io);
      if ok {
        var row := accounts[names.account];
        accounts := accounts[names.account := row.(shared := Dkg.Shared(importer.params, importer.tables))];
      }
    }

    ghost function Whole(): Contents
      reads this
    {
      Contents(accounts, folders, db, categories, assets)
    }

    /** Everything inside one database transaction; what is stored after a
        failure does not matter. */
    method ImportWithin(c: Codec, doc: Document) returns (ok: bool)
      modifies this
      ensures ok <==> Restored(c, old(Whole()), doc).Some?
      ensures ok ==> Restored(c, old(Whole()), doc) == Some(Whole())
    {
      hide RestoreSapling, PutFolder, UpsertAll, RestoreAssets, Items, Run, Start, KeysDecode;
      if !KeysDecode(c, doc) { return false; }
      var cats := RestoreCategories(doc.categories);
      var ids := RestoreAssetRows(doc.assets);
      if ids.None? { return false; }
      ok := InsertAccount(c, doc.account, cats, ids.value);
      if !ok { return; }
      RunKeepsNames(State(), Items(doc));
      ok := RestoreRows(doc);
      if !ok { return; }
      ok := RestoreSections(c, doc.account.shared);
      if ok {
        ghost var account := RestoreAccount(c, PutFolder(old(folders), doc.account.folder).1, doc.account);
        assert accounts == old(accounts)[names.account := account.value];
      }
    }

    /** One transaction: all of the backup is restored, or nothing is. */
    method ImportAccount(c: Codec, doc: Document) returns (ok: bool)
      modifies this
      ensures ok <==> Restored(c, old(Whole()), doc).Some?
      ensures ok ==> Restored(c, old(Whole()), doc) == Some(Whole())
      ensures !ok ==> Whole() == old(Whole())
    {
      var accounts0, folders0, db0, categories0, assets0 := accounts, folders, db, categories, assets;
      ok := ImportWithin(c, doc);
      if !ok {
        accounts, folders, db, categories, assets := accounts0, folders0, db0, categories0, assets0;
      }
    }
  }

  lemma {:induction false} NoMoreAssets(m: map<nat, Asset>, xs: seq<IOAsset>, n: nat)
    requires n <= |xs| && RestoreAssets(m, xs[..n]).None?
    ensures RestoreAssets(m, xs).None?
  {
    if n == |xs| {
      assert xs[..n] == xs;
    } else {
      assert xs[..|xs| - 1][..n] == xs[..n];
      NoMoreAssets(m, xs[..|xs| - 1], n);
    }
  }
}
