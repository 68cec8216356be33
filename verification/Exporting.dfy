/** Writing the document of an account, query by query. */
module Exporting {
  import opened Wrappers
  import opened Tables
  import opened BackupFormat
  import opened Restore
  import opened Export
  import opened AccountRecords
  import Dkg

  /** The rows that a query selects, in some order. */
  method Rows<T(==)>(keys: set<T>) returns (s: seq<T>)
    ensures forall k :: k in keys <==> k in s
    ensures forall i, j :: 0 <= i < j < |s| ==> s[i] != s[j]
    ensures |s| == |keys|
  {
    s := [];
    var left := keys;
    while left != {}
      invariant left <= keys && |s| + |left| == |keys|
      invariant forall k :: k in keys <==> k in left || k in s
      invariant forall k :: k in left ==> k !in s
      invariant forall i, j :: 0 <= i < j < |s| ==> s[i] != s[j]
    {
      var k :| k in left;
      left := left - {k};
      s := s + [k];
    }
  }

  method ExportTAddrs(db: Db, a: nat) returns (s: seq<IOTAddr>)
    ensures TAddrsExported(db, a, s)
  {
    var ids := Rows(set i | i in db.taddrs && db.taddrs[i].account == a);
    s := [];
    for n := 0 to |ids|
      invariant |s| == n && forall j :: 0 <= j < n ==> s[j].id == ids[j] && ShowsTAddr(db, a, s[j])
    {
      assert ids[n] in ids;
      var row := db.taddrs[ids[n]];
      s := s + [IOTAddr(ids[n], row.scope, row.dindex, row.data)];
    }
    forall i | i in db.taddrs && db.taddrs[i].account == a
      ensures exists j :: 0 <= j < |s| && s[j].id == i
    {
      assert i in ids;
      var j :| 0 <= j < |ids| && ids[j] == i;
      assert s[j].id == i;
    }
  }

  method ExportSyncHeights(db: Db, a: nat) returns (s: seq<IOSync>)
    ensures SyncsExported(db, a, s)
  {
    var keys := Rows(set k | k in db.syncHeights && k.account == a);
    s := [];
    for n := 0 to |keys|
      invariant |s| == n && forall j :: 0 <= j < n ==> OfAccount(a, s[j].pool) == keys[j] && ShowsSync(db, a, s[j])
    {
      assert keys[n] in keys;
      s := s + [IOSync(keys[n].key, db.syncHeights[keys[n]])];
    }
    assert forall j, k :: 0 <= j < k < |s| ==> keys[j] != keys[k] && s[j].pool != s[k].pool;
    forall k | k in keys
      ensures exists j :: 0 <= j < |s| && s[j].pool == k.key
    {
      var j :| 0 <= j < |keys| && keys[j] == k;
      assert s[j].pool == k.key;
    }
  }

  method ExportUserMemos(db: Db, a: nat) returns (s: seq<IOUserMemo>)
    ensures UserMemosExported(db, a, s)
  {
    var keys := Rows(set k | k in db.userMemos && k.account == a);
    s := [];
    for n := 0 to |keys|
      invariant |s| == n && forall j :: 0 <= j < n ==> OfAccount(a, s[j].tx) == keys[j] && ShowsUserMemo(db, a, s[j])
    {
      assert keys[n] in keys;
      s := s + [IOUserMemo(keys[n].key, db.userMemos[keys[n]].text)];
    }
    assert forall j, k :: 0 <= j < k < |s| ==> keys[j] != keys[k] && s[j].tx != s[k].tx;
    forall k | k in keys
      ensures exists j :: 0 <= j < |s| && s[j].tx == k.key
    {
      var j :| 0 <= j < |keys| && keys[j] == k;
      assert s[j].tx == k.key;
    }
  }

  /** The transaction is one of an account that can be exported. */
  ghost predicate Exportable(db: Db, a: nat, tx: nat) {
    WellFormedRows(db, a) && tx in db.transactions && db.transactions[tx].account == a
  }

  function WithoutMemo(id: nat, n: Note): IONote {
    IONote(id, n.height, n.pool, n.nullifier, AsU64(n.value), n.taddress, n.locked, n.asset, n.data, None, None, None)
  }

  function WithMemo(id: nat, n: Note, vout: nat, m: Memo): IONote {
    IONote(id, n.height, n.pool, n.nullifier, AsU64(n.value), n.taddress, n.locked, n.asset, n.data, Some(vout), m.text,
           Some(m.bytes))
  }

  lemma NoteShown(db: Db, a: nat, tx: nat, i: nat)
    requires Exportable(db, a, tx) && i in db.notes && db.notes[i].tx == tx
    requires forall k :: k in db.memos ==> db.memos[k].note != Some(i)
    ensures NoteExported(db, a, tx, WithoutMemo(i, db.notes[i]))
  {
    CastRoundTrip(db.notes[i].value);
    assert InTx(db, a, db.notes[i].account, db.notes[i].tx);
  }

  lemma NoteWithMemoShown(db: Db, a: nat, tx: nat, i: nat, k: MemoKey)
    requires Exportable(db, a, tx) && i in db.notes && db.notes[i].tx == tx
    requires k in db.memos && db.memos[k].note == Some(i)
    ensures NoteExported(db, a, tx, WithMemo(i, db.notes[i], k.vout, db.memos[k]))
  {
    CastRoundTrip(db.notes[i].value);
    assert InTx(db, a, db.notes[i].account, db.notes[i].tx);
    assert Linked(db.memos[k]) && MemoAgrees(db, k);
    assert k == MemoKey(tx, db.notes[i].pool, k.vout);
    assert db.memos[k].account == a;
    forall j | j in db.memos && db.memos[j].note == Some(i)
      ensures j == k
    {
      assert SameLink(db.memos[j], db.memos[k]);
    }
  }

  lemma SameMemo(db: Db, a: nat, i: nat, j: MemoKey, k: MemoKey)
    requires MemosAgree(db, a) && j in db.memos && k in db.memos
    requires db.memos[j].note == Some(i) && db.memos[k].note == Some(i)
    ensures j == k
  {
    assert SameLink(db.memos[j], db.memos[k]);
  }

  /** A note joins with at most one memo. */
  lemma OneMemo(db: Db, a: nat, i: nat, s: seq<MemoKey>)
    requires MemosAgree(db, a) && forall n :: 0 <= n < |s| ==> s[n] in db.memos && db.memos[s[n]].note == Some(i)
    requires forall m, n :: 0 <= m < n < |s| ==> s[m] != s[n]
    ensures |s| <= 1
  {
    if |s| > 1 { SameMemo(db, a, i, s[0], s[1]); }
  }

  /** The rows that join a note with its memos: one, unless it has several memos. */
  method JoinMemos(db: Db, a: nat, tx: nat, i: nat) returns (s: seq<IONote>)
    requires i in db.notes && db.notes[i].tx == tx
    ensures Exportable(db, a, tx) ==> |s| == 1 && s[0].id == i && NoteExported(db, a, tx, s[0])
  {
    var memos := Rows(set k | k in db.memos && db.memos[k].note == Some(i));
    assert forall m :: 0 <= m < |memos| ==> memos[m] in memos;
    if memos == [] {
      assert forall k :: k in db.memos && db.memos[k].note == Some(i) ==> k in memos;
      if Exportable(db, a, tx) { NoteShown(db, a, tx, i); }
      s := [WithoutMemo(i, db.notes[i])];
    } else {
      s := [];
      for m := 0 to |memos|
        invariant |s| == m && (m > 0 ==> s[0] == WithMemo(i, db.notes[i], memos[0].vout, db.memos[memos[0]]))
      {
        s := s + [WithMemo(i, db.notes[i], memos[m].vout, db.memos[memos[m]])];
      }
      if Exportable(db, a, tx) {
        OneMemo(db, a, i, memos);
        NoteWithMemoShown(db, a, tx, i, memos[0]);
      }
    }
  }

  /** The notes of a transaction, each joined with its memos. */
  method ExportNotes(db: Db, a: nat, tx: nat) returns (s: seq<IONote>)
    ensures Exportable(db, a, tx) ==> NotesExported(db, a, tx, s)
  {
    var ids := Rows(set i | i in db.notes && db.notes[i].tx == tx);
    s := [];
    for n := 0 to |ids|
      invariant Exportable(db, a, tx) ==>
                  |s| == n && forall j :: 0 <= j < n ==> s[j].id == ids[j] && NoteExported(db, a, tx, s[j])
    {
      assert ids[n] in ids;
      var joined := JoinMemos(db, a, tx, ids[n]);
      s := s + joined;
    }
    if Exportable(db, a, tx) {
      forall i | i in db.notes && db.notes[i].tx == tx
        ensures exists j :: 0 <= j < |s| && s[j].id == i
      {
        assert i in ids;
        var j :| 0 <= j < |ids| && ids[j] == i;
        assert s[j].id == i;
      }
    }
  }

  function Plain(id: nat, o: Output): IOOutput {
    IOOutput(id, o.height, o.pool, o.vout, AsU64(o.value), o.address, None, None)
  }

  lemma OutputShown(db: Db, a: nat, tx: nat, i: nat)
    requires Exportable(db, a, tx) && i in db.outputs && db.outputs[i].tx == tx
    requires forall k :: k in db.memos ==> db.memos[k].output != Some(i)
    ensures OutputExported(db, a, tx, Plain(i, db.outputs[i]))
  {
    CastRoundTrip(db.outputs[i].value);
    assert InTx(db, a, db.outputs[i].account, db.outputs[i].tx);
  }

  lemma OutputWithMemoShown(db: Db, a: nat, tx: nat, i: nat, k: MemoKey)
    requires Exportable(db, a, tx) && i in db.outputs && db.outputs[i].tx == tx
    requires k in db.memos && db.memos[k].output == Some(i)
    ensures
      var plain := Plain(i, db.outputs[i]);
      OutputExported(db, a, tx, plain.(memoText := db.memos[k].text, memoBytes := Some(db.memos[k].bytes)))
  {
    CastRoundTrip(db.outputs[i].value);
    assert InTx(db, a, db.outputs[i].account, db.outputs[i].tx);
    assert Linked(db.memos[k]) && MemoAgrees(db, k);
    assert k == MemoKey(tx, db.outputs[i].pool, db.outputs[i].vout);
    forall j | j in db.memos && db.memos[j].output == Some(i)
      ensures j == k
    {
      assert SameLink(db.memos[j], db.memos[k]);
    }
  }

  lemma SameOutputMemo(db: Db, a: nat, i: nat, j: MemoKey, k: MemoKey)
    requires MemosAgree(db, a) && j in db.memos && k in db.memos
    requires db.memos[j].output == Some(i) && db.memos[k].output == Some(i)
    ensures j == k
  {
    assert SameLink(db.memos[j], db.memos[k]);
  }

  method JoinOutputMemos(db: Db, a: nat, tx: nat, i: nat) returns (s: seq<IOOutput>)
    requires i in db.outputs && db.outputs[i].tx == tx
    ensures Exportable(db, a, tx) ==> |s| == 1 && s[0].id == i && OutputExported(db, a, tx, s[0])
  {
    var memos := Rows(set k | k in db.memos && db.memos[k].output == Some(i));
    assert forall m :: 0 <= m < |memos| ==> memos[m] in memos;
    var o := Plain(i, db.outputs[i]);
    if memos == [] {
      assert forall k :: k in db.memos && db.memos[k].output == Some(i) ==> k in memos;
      if Exportable(db, a, tx) { OutputShown(db, a, tx, i); }
      s := [o];
    } else {
      s := [];
      for m := 0 to |memos|
        invariant |s| == m
        invariant m > 0 ==> s[0] == o.(memoText := db.memos[memos[0]].text, memoBytes := Some(db.memos[memos[0]].bytes))
      {
        s := s + [o.(memoText := db.memos[memos[m]].text, memoBytes := Some(db.memos[memos[m]].bytes))];
      }
      if Exportable(db, a, tx) {
        if |memos| > 1 { SameOutputMemo(db, a, i, memos[0], memos[1]); }
        OutputWithMemoShown(db, a, tx, i, memos[0]);
      }
    }
  }

  method ExportOutputs(db: Db, a: nat, tx: nat) returns (s: seq<IOOutput>)
    ensures Exportable(db, a, tx) ==> OutputsExported(db, a, tx, s)
  {
    var ids := Rows(set i | i in db.outputs && db.outputs[i].tx == tx);
    s := [];
    for n := 0 to |ids|
      invariant Exportable(db, a, tx) ==>
                  |s| == n && forall j :: 0 <= j < n ==> s[j].id == ids[j] && OutputExported(db, a, tx, s[j])
    {
      assert ids[n] in ids;
      var joined := JoinOutputMemos(db, a, tx, ids[n]);
      s := s + joined;
    }
    if Exportable(db, a, tx) {
      forall i | i in db.outputs && db.outputs[i].tx == tx
        ensures exists j :: 0 <= j < |s| && s[j].id == i
      {
        assert i in ids;
        var j :| 0 <= j < |ids| && ids[j] == i;
        assert s[j].id == i;
      }
    }
  }

  method ExportSpends(db: Db, a: nat, tx: nat) returns (s: seq<IOSpend>)
    ensures Exportable(db, a, tx) ==> SpendsExported(db, a, tx, s)
  {
    var ids := Rows(set i | i in db.spends && db.spends[i].tx == tx);
    s := [];
    for n := 0 to |ids|
      invariant |s| == n && forall j :: 0 <= j < n ==> s[j].note == ids[j]
      invariant Exportable(db, a, tx) ==> forall j :: 0 <= j < n ==> ShowsSpend(db, a, tx, s[j])
    {
      assert ids[n] in ids;
      var row := db.spends[ids[n]];
      if Exportable(db, a, tx) {
        CastRoundTrip(row.value);
        assert InTx(db, a, row.account, row.tx);
      }
      s := s + [IOSpend(ids[n], row.height, row.pool, AsU64(row.value))];
    }
    forall i | i in db.spends && db.spends[i].tx == tx
      ensures exists j :: 0 <= j < |s| && s[j].note == i
    {
      assert i in ids;
      var j :| 0 <= j < |ids| && ids[j] == i;
      assert s[j].note == i;
    }
  }

  /** The transactions of the account, then for each of them its notes,
      outputs and spends. */
  method ExportTransactions(db: Db, a: nat) returns (s: seq<IOTransaction>)
    ensures WellFormedRows(db, a) ==> TxsExported(db, a, s)
  {
    var ids := Rows(set i | i in db.transactions && db.transactions[i].account == a);
    s := [];
    for n := 0 to |ids|
      invariant |s| == n && forall j :: 0 <= j < n ==> s[j].id == ids[j]
      invariant WellFormedRows(db, a) ==> forall j :: 0 <= j < n ==> TxExported(db, a, s[j])
    {
      assert ids[n] in ids;
      var t := db.transactions[ids[n]];
      var notes := ExportNotes(db, a, ids[n]);
      var outputs := ExportOutputs(db, a, ids[n]);
      var spends := ExportSpends(db, a, ids[n]);
      s := s + [IOTransaction(ids[n], t.txid, t.height, t.data, t.category, notes, outputs, spends)];
    }
    forall i | i in db.transactions && db.transactions[i].account == a
      ensures exists j :: 0 <= j < |s| && s[j].id == i
    {
      assert i in ids;
      var j :| 0 <= j < |ids| && ids[j] == i;
      assert s[j].id == i;
    }
  }

  /** The witnesses of the account at one height. */
  method ExportWitnesses(db: Db, a: nat, h: nat) returns (s: seq<IOWitness>)
    ensures forall j :: 0 <= j < |s| ==> ShowsWitness(db, a, s[j]) && s[j].height == h
    ensures forall j, k :: 0 <= j < k < |s| ==> s[j].note != s[k].note
    ensures forall k :: k in db.witnesses && db.witnesses[k].account == a && k.height == h ==>
      exists j :: 0 <= j < |s| && s[j].note == k.note
  {
    var keys := Rows(set k | k in db.witnesses && db.witnesses[k].account == a && k.height == h);
    s := [];
    for n := 0 to |keys|
      invariant |s| == n
      invariant forall j :: 0 <= j < n ==>
        WitnessKey(s[j].note, h) == keys[j] && s[j].height == h && ShowsWitness(db, a, s[j])
    {
      assert keys[n] in keys;
      s := s + [IOWitness(keys[n].note, h, db.witnesses[keys[n]].path)];
    }
    assert forall j, k :: 0 <= j < k < |s| ==> keys[j] != keys[k] && s[j].note != s[k].note;
    forall k | k in db.witnesses && db.witnesses[k].account == a && k.height == h
      ensures exists j :: 0 <= j < |s| && s[j].note == k.note
    {
      assert k in keys;
      var j :| 0 <= j < |keys| && keys[j] == k;
      assert s[j].note == k.note;
    }
  }

  /** Every height at which the account has a witness has its header. */
  ghost predicate HeadersKept(db: Db, a: nat) {
    forall k :: k in db.witnesses && db.witnesses[k].account == a ==> OfAccount(a, k.height) in db.headers
  }

  /** One block per height at which the account has a witness. A height
      without a header is an error. */
  method ExportBlocks(db: Db, a: nat) returns (r: Option<seq<IOBlock>>)
    ensures r.Some? <==> HeadersKept(db, a)
    ensures r.Some? ==> BlocksExported(db, a, r.value)
  {
    var heights := Rows(set k | k in db.witnesses && db.witnesses[k].account == a :: k.height);
    var s: seq<IOBlock> := [];
    for n := 0 to |heights|
      invariant |s| == n && forall j :: 0 <= j < n ==> s[j].height == heights[j] && BlockExported(db, a, s[j])
    {
      var h := heights[n];
      assert h in heights;
      if OfAccount(a, h) !in db.headers {
        return None;
      }
      var witnesses := ExportWitnesses(db, a, h);
      s := s + [IOBlock(h, db.headers[OfAccount(a, h)], witnesses)];
    }
    forall k | k in db.witnesses && db.witnesses[k].account == a
      ensures exists j :: 0 <= j < |s| && s[j].height == k.height
    {
      assert k.height in heights;
      var j :| 0 <= j < |heights| && heights[j] == k.height;
      assert s[j].height == k.height;
    }
    forall k | k in db.witnesses && db.witnesses[k].account == a
      ensures OfAccount(a, k.height) in db.headers
    {
      var j :| 0 <= j < |s| && s[j].height == k.height;
      assert BlockExported(db, a, s[j]);
    }
    r := Some(s);
  }

  method ExportAssets(assets: map<nat, Asset>) returns (s: seq<IOAsset>)
    ensures AssetsExported(assets, s)
  {
    var ids := Rows(assets.Keys);
    s := [];
    for n := 0 to |ids|
      invariant |s| == n
      invariant forall j :: 0 <= j < n ==>
        s[j].id == ids[j] && ids[j] in assets && AsRow(s[j]) == assets[ids[j]].(name := None)
    {
      assert ids[n] in ids;
      var x := assets[ids[n]];
      s := s + [IOAsset(ids[n], x.descHash, x.ik, x.base, x.finalized, x.firstSeen)];
    }
    forall i | i in assets
      ensures exists j :: 0 <= j < |s| && s[j].id == i
    {
      assert i in ids;
      var j :| 0 <= j < |ids| && ids[j] == i;
      assert s[j].id == i;
    }
  }

  method ExportCategories(categories: map<nat, Category>) returns (s: seq<IOCategory>)
    ensures CategoriesExported(categories, s)
  {
    var ids := Rows(categories.Keys);
    s := [];
    for n := 0 to |ids|
      invariant |s| == n
      invariant forall j :: 0 <= j < n ==>
        s[j].id == ids[j] && ids[j] in categories && s[j].category == categories[ids[j]]
    {
      assert ids[n] in ids;
      s := s + [IOCategory(ids[n], categories[ids[n]])];
    }
    forall i | i in categories
      ensures exists j :: 0 <= j < |s| && s[j].id == i
    {
      assert i in ids;
      var j :| 0 <= j < |ids| && ids[j] == i;
      assert s[j].id == i;
    }
  }

  method ExportShared(s: Dkg.Shared) returns (io: Dkg.Sections)
    ensures Dkg.SectionsExported(s, io)
  {
    var keys := Rows(s.tables.peers.Keys);
    var peers: seq<Dkg.IOPeer> := [];
    for n := 0 to |keys|
      invariant |peers| == n
      invariant forall j :: 0 <= j < n ==>
        keys[j] in s.tables.peers && peers[j] == Dkg.IOPeer(keys[j], s.tables.peers[keys[j]])
    {
      assert keys[n] in keys;
      peers := peers + [Dkg.IOPeer(keys[n], s.tables.peers[keys[n]])];
    }
    forall k | k in s.tables.peers
      ensures exists j :: 0 <= j < |peers| && peers[j].key == k
    {
      assert k in keys;
      var j :| 0 <= j < |keys| && keys[j] == k;
      assert peers[j].key == k;
    }
    var addresses := ExportAddresses(s.tables.addresses);
    io := Dkg.Sections(Dkg.ExportedParams(s.params), s.tables.state, peers, addresses, []);
  }

  method ExportAddresses(m: map<nat, string>) returns (xs: seq<Dkg.IOAddress>)
    ensures Dkg.AddressesExported(m, xs)
  {
    var ids := Rows(m.Keys);
    xs := [];
    for n := 0 to |ids|
      invariant |xs| == n && forall j :: 0 <= j < n ==> ids[j] in m && xs[j] == Dkg.IOAddress(ids[j], m[ids[j]])
    {
      assert ids[n] in ids;
      xs := xs + [Dkg.IOAddress(ids[n], m[ids[n]])];
    }
    forall k | k in m
      ensures exists j :: 0 <= j < |xs| && xs[j].fromId == k
    {
      assert k in ids;
      var j :| 0 <= j < |ids| && ids[j] == k;
      assert xs[j].fromId == k;
    }
  }

  method ExportIdentity(w: Contents, a: nat) returns (io: IOAccount)
    requires a in w.accounts
    ensures AccountExported(w, a, io)
  {
    var row := w.accounts[a];
    var shared := ExportShared(row.shared);
    io := IOAccount(row.data, row.dindex, FolderName(w.folders, row.folder), row.transparent, SaplingKeys(row.sapling),
                    row.orchard, shared);
  }

  /** The document of a well-formed account is its export; only a missing
      account, or a witness height without a header, makes the export fail. */
  method ExportAccount(w: Contents, a: nat) returns (r: Option<Document>)
    ensures r.Some? <==> a in w.accounts && HeadersKept(w.db, a)
    ensures WellFormed(w, a) ==> r.Some? && IsExport(w, a, r.value)
  {
    if a !in w.accounts {
      return None;
    }
    var db := w.db;
    var account := ExportIdentity(w, a);
    var taddrs := ExportTAddrs(db, a);
    var syncHeights := ExportSyncHeights(db, a);
    var blocks := ExportBlocks(db, a);
    if blocks.None? {
      if WellFormed(w, a) { WellFormedHeaders(db, a); }
      return None;
    }
    var assets := ExportAssets(w.assets);
    var categories := ExportCategories(w.categories);
    var transactions := ExportTransactions(db, a);
    var userMemos := ExportUserMemos(db, a);
    r := Some(Document(account, taddrs, syncHeights, transactions, userMemos, blocks.value, assets, categories));
  }

  lemma WellFormedHeaders(db: Db, a: nat)
    requires WellFormedRows(db, a)
    ensures HeadersKept(db, a)
  {
    forall k | k in db.witnesses && db.witnesses[k].account == a
      ensures OfAccount(a, k.height) in db.headers
    {
      assert WitnessResolves(db, a, k);
    }
  }
}
