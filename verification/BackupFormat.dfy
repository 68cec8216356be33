/** The document an account is exported to, and the rows it lists in the order
    in which a restore reads them. */
module BackupFormat {
  import opened Wrappers
  import opened Tables
  import Dkg

  datatype IOTAddr = IOTAddr(id: nat, scope: nat, dindex: nat, data: TAddrData)
  datatype IOSync = IOSync(pool: nat, height: nat)
  datatype IONote = IONote(id: nat, height: nat, pool: nat, nullifier: Blob, value: U64, taddress: Option<nat>,
    locked: bool, asset: Option<nat>, data: NoteData,
    vout: Option<nat>, memoText: Option<string>, memoBytes: Option<Blob>)
  datatype IOOutput = IOOutput(id: nat, height: nat, pool: nat, vout: nat, value: U64, address: string,
    memoText: Option<string>, memoBytes: Option<Blob>)
  datatype IOSpend = IOSpend(note: nat, height: nat, pool: nat, value: U64)
  datatype IOTransaction = IOTransaction(id: nat, txid: Blob, height: nat, data: TxData, category: Option<nat>,
    notes: seq<IONote>, outputs: seq<IOOutput>, spends: seq<IOSpend>)
  datatype IOUserMemo = IOUserMemo(tx: nat, text: string)
  datatype IOWitness = IOWitness(note: nat, height: nat, path: Blob)
  datatype IOBlock = IOBlock(height: nat, header: Header, witnesses: seq<IOWitness>)

  datatype IOCategory = IOCategory(id: nat, category: Category)
  datatype IOAsset = IOAsset(id: nat, descHash: Blob, ik: Blob, base: Blob, finalized: bool, firstSeen: nat)

  /** The account itself: its folder by name, and no Sapling address. */
  datatype IOAccount = IOAccount(data: AccountData, dindex: nat, folder: string,
    transparent: Option<KeyRow>, sapling: Option<KeyRow>, orchard: Option<KeyRow>, shared: Dkg.Sections)

  datatype Document = Document(
    account: IOAccount, taddrs: seq<IOTAddr>, syncHeights: seq<IOSync>, transactions: seq<IOTransaction>,
    userMemos: seq<IOUserMemo>, blocks: seq<IOBlock>,
    assets: seq<IOAsset>, categories: seq<IOCategory>)

  /** The name a user gave an asset is not backed up. */
  function AsRow(x: IOAsset): Asset { Asset(x.descHash, x.ik, x.base, None, x.finalized, x.firstSeen) }

  /** Rust's casts between i64 and u64. */
  function AsU64(v: I64): U64 { if v < 0 then v + 0x1_0000_0000_0000_0000 else v }

  function AsI64(v: U64): I64 { if v < 0x8000_0000_0000_0000 then v else v - 0x1_0000_0000_0000_0000 }

  lemma CastRoundTrip(v: I64)
    ensures AsI64(AsU64(v)) == v
    ensures AsU64(v) as int == v as int % 0x1_0000_0000_0000_0000
  {}

  /** One row of the document. */
  datatype Item =
    | TAddrItem(taddr: IOTAddr)
    | SyncItem(sync: IOSync)
    | TxItem(t: IOTransaction)
    | NoteItem(tx: nat, note: IONote)
    | OutputItem(tx: nat, output: IOOutput)
    | MemoItem(key: MemoKey, height: nat, ofNote: Option<nat>, ofOutput: Option<nat>, text: Option<string>, bytes: Blob)
    | SpendItem(tx: nat, spend: IOSpend)
    | UserMemoItem(userMemo: IOUserMemo)
    | HeaderItem(height: nat, header: Header)
    | WitnessItem(w: IOWitness)

  /** What identifies a row in the exported wallet. */
  datatype Key = TAddrK(id: nat) | SyncK(pool: nat) | TxK(id: nat) | NoteK(id: nat) | OutputK(id: nat)
    | MemoK(key: MemoKey) | SpendK(note: nat) | UserMemoK(tx: nat) | HeaderK(height: nat) | WitnessK(wkey: WitnessKey)

  function KeyOf(i: Item): Key {
    match i
    case TAddrItem(t) => TAddrK(t.id)
    case SyncItem(s) => SyncK(s.pool)
    case TxItem(t) => TxK(t.id)
    case NoteItem(_, n) => NoteK(n.id)
    case OutputItem(_, o) => OutputK(o.id)
    case MemoItem(k, _, _, _, _, _) => MemoK(k)
    case SpendItem(_, s) => SpendK(s.note)
    case UserMemoItem(u) => UserMemoK(u.tx)
    case HeaderItem(h, _) => HeaderK(h)
    case WitnessItem(w) => WitnessK(WitnessKey(w.note, w.height))
  }

  function Concat(parts: seq<seq<Item>>): seq<Item> {
    if parts == [] then [] else Concat(parts[..|parts| - 1]) + parts[|parts| - 1]
  }

  /** A note, then its memo if it has one. */
  function NoteItems(tx: nat, n: IONote): seq<Item> {
    [NoteItem(tx, n)]
    + if n.vout.Some? && n.memoBytes.Some?
      then [MemoItem(MemoKey(tx, n.pool, n.vout.value), n.height, Some(n.id), None, n.memoText, n.memoBytes.value)]
      else []
  }

  function OutputItems(tx: nat, o: IOOutput): seq<Item> {
    [OutputItem(tx, o)]
    + if o.memoBytes.Some?
      then [MemoItem(MemoKey(tx, o.pool, o.vout), o.height, None, Some(o.id), o.memoText, o.memoBytes.value)]
      else []
  }

  function NoteParts(tx: nat, notes: seq<IONote>): seq<seq<Item>> {
    seq(|notes|, i requires 0 <= i < |notes| => NoteItems(tx, notes[i]))
  }

  function OutputParts(tx: nat, outputs: seq<IOOutput>): seq<seq<Item>> {
    seq(|outputs|, i requires 0 <= i < |outputs| => OutputItems(tx, outputs[i]))
  }

  function TxItems(t: IOTransaction): seq<Item> {
    [TxItem(t)] + Concat(NoteParts(t.id, t.notes)) + Concat(OutputParts(t.id, t.outputs))
  }

  function TxParts(ts: seq<IOTransaction>): seq<seq<Item>> {
    seq(|ts|, i requires 0 <= i < |ts| => TxItems(ts[i]))
  }

  function SpendItems(t: IOTransaction): seq<Item> {
    seq(|t.spends|, i requires 0 <= i < |t.spends| => SpendItem(t.id, t.spends[i]))
  }

  function SpendParts(ts: seq<IOTransaction>): seq<seq<Item>> {
    seq(|ts|, i requires 0 <= i < |ts| => SpendItems(ts[i]))
  }

  function WitnessItems(ws: seq<IOWitness>): seq<Item> {
    seq(|ws|, i requires 0 <= i < |ws| => WitnessItem(ws[i]))
  }

  function BlockItems(b: IOBlock): seq<Item> {
    [HeaderItem(b.height, b.header)] + WitnessItems(b.witnesses)
  }

  function BlockParts(bs: seq<IOBlock>): seq<seq<Item>> {
    seq(|bs|, i requires 0 <= i < |bs| => BlockItems(bs[i]))
  }

  function TAddrItems(s: seq<IOTAddr>): seq<Item> {
    seq(|s|, i requires 0 <= i < |s| => TAddrItem(s[i]))
  }

  function SyncItems(s: seq<IOSync>): seq<Item> {
    seq(|s|, i requires 0 <= i < |s| => SyncItem(s[i]))
  }

  function UserMemoItems(s: seq<IOUserMemo>): seq<Item> {
    seq(|s|, i requires 0 <= i < |s| => UserMemoItem(s[i]))
  }

  /** The rows of a document, in the order of a restore: the transactions are
      read twice, first for everything but the spends, then for the spends. */
  function Items(doc: Document): seq<Item> {
    TAddrItems(doc.taddrs) + SyncItems(doc.syncHeights) + Concat(TxParts(doc.transactions))
    + Concat(SpendParts(doc.transactions)) + UserMemoItems(doc.userMemos) + Concat(BlockParts(doc.blocks))
  }
}
