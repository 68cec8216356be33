/** The account's own row in a backup: its columns, its keys, its folder. What
    decodes a key or an address is uninterpreted. */
module AccountRecords {
  import opened Wrappers
  import opened RowIds
  import opened Tables
  import opened BackupFormat
  import Dkg

  /** Which blobs are keys of one pool. */
  datatype Decoder = Decoder(xsk: Blob -> bool, xvk: Blob -> bool, ivk: Blob -> bool)

  /** Key decoding, address decoding and Sapling addresses by index. A Sapling
      function has no value on a blob that is no key, or at an index without an
      address. */
  datatype Codec = Codec(
    text: Dkg.Text,
    transparent: Decoder,
    orchard: Decoder,
    address: string -> bool,
    publicKey: Blob -> bool,
    saplingXsk: (Blob, nat) -> Option<string>,
    saplingXvk: (Blob, nat) -> Option<string>,
    saplingIvk: (Blob, nat) -> Option<string>)

  predicate Decodes(d: Decoder, k: Option<KeyRow>) {
    k.Some? ==>
      && (k.value.xsk.Some? ==> d.xsk(k.value.xsk.value))
      && (k.value.xvk.Some? ==> d.xvk(k.value.xvk.value))
      && (k.value.ivk.Some? ==> d.ivk(k.value.ivk.value))
  }

  predicate AddressDecodes(c: Codec, t: TAddrData) { c.address(t.address) && c.publicKey(t.pk) }

  /** The checks before anything is written. */
  predicate KeysDecode(c: Codec, doc: Document) {
    && Decodes(c.transparent, doc.account.transparent) && Decodes(c.orchard, doc.account.orchard)
    && forall j :: 0 <= j < |doc.taddrs| ==> AddressDecodes(c, doc.taddrs[j].data)
  }

  /** The Sapling address of the keys at an index: from the first of the three
      keys that is there. */
  function SaplingAddress(c: Codec, k: KeyRow, dindex: nat): Option<string> {
    if k.xsk.Some? then c.saplingXsk(k.xsk.value, dindex)
    else if k.xvk.Some? then c.saplingXvk(k.xvk.value, dindex)
    else if k.ivk.Some? then c.saplingIvk(k.ivk.value, dindex)
    else None
  }

  /** None when the keys give no address at the account's index. */
  function RestoreSapling(c: Codec, io: IOAccount): Option<Option<SaplingRow>> {
    if io.sapling.None? then Some(None)
    else
      var address := SaplingAddress(c, io.sapling.value, io.dindex);
      if address.None? then None else Some(Some(SaplingRow(io.sapling.value, address.value)))
  }

  /** A folder of this name is added, because names are not unique, and one of
      the folders of this name is taken; an empty name is no folder. */
  function PutFolder(folders: map<nat, string>, name: string): (map<nat, string>, Option<nat>) {
    if name == "" then (folders, None)
    else
      var after := folders[NextId(folders.Keys) := name];
      (after, Some(Largest(FoldersNamed(after, name))))
  }

  function FoldersNamed(folders: map<nat, string>, name: string): set<nat> {
    set i | i in folders && folders[i] == name
  }

  /** A folder of this name is new, and the others are as they were. */
  ghost predicate OneMoreFolder(folders: map<nat, string>, folders': map<nat, string>, name: string) {
    exists id: nat :: id !in folders && folders' == folders[id := name]
  }

  lemma FolderFound(folders: map<nat, string>, name: string)
    requires name != ""
    ensures var (after, folder) := PutFolder(folders, name);
            && folder.Some? && folder.value in after && after[folder.value] == name
            && OneMoreFolder(folders, after, name)
  {
    var after := folders[NextId(folders.Keys) := name];
    var id: nat := NextId(folders.Keys);
    assert id !in folders && after == folders[id := name];
    assert NextId(folders.Keys) in FoldersNamed(after, name);
    assert Largest(FoldersNamed(after, name)) in FoldersNamed(after, name);
  }

  /** The name of an account's folder, empty when it has none. */
  function FolderName(folders: map<nat, string>, folder: Option<nat>): string {
    if folder.Some? && folder.value in folders then folders[folder.value] else ""
  }

  function SaplingKeys(s: Option<SaplingRow>): Option<KeyRow> {
    if s.None? then None else Some(s.value.keys)
  }

  ghost predicate AccountExported(src: Contents, a: nat, io: IOAccount) {
    && a in src.accounts
    && var row := src.accounts[a];
       && io.data == row.data && io.dindex == row.dindex && io.folder == FolderName(src.folders, row.folder)
       && io.transparent == row.transparent && io.sapling == SaplingKeys(row.sapling) && io.orchard == row.orchard
       && Dkg.SectionsExported(row.shared, io.shared)
  }

  /** The account's row under its new id; None is a failure. */
  function RestoreAccount(c: Codec, folder: Option<nat>, io: IOAccount): Option<Account> {
    var sapling, shared := RestoreSapling(c, io), Dkg.RestoreShared(c.text, io.shared);
    if sapling.None? || shared.None? then None
    else Some(Account(io.data, io.dindex, folder, io.transparent, sapling.value, io.orchard, shared.value))
  }

  /** The account's keys and addresses can be read, and its Sapling keys have an
      address at its index. */
  ghost predicate Readable(c: Codec, src: Contents, a: nat)
    requires a in src.accounts
  {
    var row := src.accounts[a];
    && KeysRead(c.transparent, row.transparent) && KeysRead(c.orchard, row.orchard)
    && (row.sapling.Some? ==> exists address :: SaplingAt(c, row.sapling.value.keys, row.dindex, address))
    && forall i :: i in src.db.taddrs && src.db.taddrs[i].account == a ==>
         c.address(src.db.taddrs[i].data.address) && c.publicKey(src.db.taddrs[i].data.pk)
  }

  /** Every blob stored as a key of the pool is one. */
  ghost predicate KeysRead(d: Decoder, k: Option<KeyRow>) {
    forall row: KeyRow, b: Blob :: k == Some(row) ==>
      (row.xsk == Some(b) ==> d.xsk(b)) && (row.xvk == Some(b) ==> d.xvk(b)) && (row.ivk == Some(b) ==> d.ivk(b))
  }

  lemma DecodesIff(d: Decoder, k: Option<KeyRow>)
    ensures Decodes(d, k) <==> KeysRead(d, k)
  {}

  /** The spending key gives the address; without one the viewing key; without
      either the incoming key. */
  ghost predicate SaplingAt(c: Codec, k: KeyRow, dindex: nat, address: string) {
    match (k.xsk, k.xvk, k.ivk)
    case (Some(xsk), _, _) => c.saplingXsk(xsk, dindex) == Some(address)
    case (None, Some(xvk), _) => c.saplingXvk(xvk, dindex) == Some(address)
    case (None, None, Some(ivk)) => c.saplingIvk(ivk, dindex) == Some(address)
    case _ => false
  }

  lemma SaplingAtIff(c: Codec, k: KeyRow, dindex: nat)
    ensures SaplingAddress(c, k, dindex).Some? <==> exists address :: SaplingAt(c, k, dindex, address)
    ensures forall address :: SaplingAt(c, k, dindex, address) <==> SaplingAddress(c, k, dindex) == Some(address)
  {
    if SaplingAddress(c, k, dindex).Some? { assert SaplingAt(c, k, dindex, SaplingAddress(c, k, dindex).value); }
  }

  /** The same account, in a folder of the same name, with the Sapling address
      of its index. */
  ghost predicate SameAccount(c: Codec, row: Account, folders: map<nat, string>, row': Account,
                              folders': map<nat, string>) {
    && (if row.folder.Some? && row.folder.value in folders && folders[row.folder.value] != ""
        then row'.folder.Some? && row'.folder.value in folders'
             && folders'[row'.folder.value] == folders[row.folder.value]
        else row'.folder.None?)
    && (row.sapling.Some? <==> row'.sapling.Some?)
    && (row.sapling.Some? ==>
          && row'.sapling.value.keys == row.sapling.value.keys
          && SaplingAt(c, row.sapling.value.keys, row.dindex, row'.sapling.value.address))
    && row' == row.(folder := row'.folder, sapling := row'.sapling)
  }

  /** A restored account is the exported one; a restore of it fails only on its
      Sapling keys or on an address outside its group. */
  lemma AccountRestored(c: Codec, src: Contents, a: nat, folders: map<nat, string>, io: IOAccount)
    requires AccountExported(src, a, io)
    ensures
      var (folders', folder) := PutFolder(folders, io.folder);
      var row, row' := src.accounts[a], RestoreAccount(c, folder, io);
      && (row'.None? <==>
            || Dkg.OutsideGroup(row.shared)
            || (row.sapling.Some? && !exists address :: SaplingAt(c, row.sapling.value.keys, row.dindex, address)))
      && (row'.Some? ==> SameAccount(c, row, src.folders, row'.value, folders'))
      && (folders' == folders || OneMoreFolder(folders, folders', io.folder))
  {
    if src.accounts[a].sapling.Some? {
      SaplingAtIff(c, src.accounts[a].sapling.value.keys, src.accounts[a].dindex);
    }
    Dkg.SharedRestoredIff(c.text, src.accounts[a].shared, io.shared);
    if io.folder != "" { FolderFound(folders, io.folder); }
  }

  /** The stored Sapling address comes back if and only if it is the one of the
      account's index. */
  lemma SaplingComesBackIff(c: Codec, row: Account, folders: map<nat, string>, row': Account,
                            folders': map<nat, string>)
    requires SameAccount(c, row, folders, row', folders') && row.sapling.Some?
    ensures row'.sapling == row.sapling
      <==> SaplingAt(c, row.sapling.value.keys, row.dindex, row.sapling.value.address)
  {}
}
