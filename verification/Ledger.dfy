/** The ways in which the wallet sums an account's ZEC. */
module Ledger {
  import opened Wrappers
  import opened Sums
  import opened Tables
  import opened BackupFormat

  /** A note that holds ZEC. */
  predicate Zec(db: Db, i: nat) {
    i in db.notes && db.notes[i].asset.None?
  }

  /** The ZEC notes of an account, and the spends of ZEC notes by it. */
  function ZecNotes(db: Db, a: nat): set<nat> {
    set i | i in db.notes && Zec(db, i) && db.notes[i].account == a
  }

  function ZecSpends(db: Db, a: nat): set<nat> {
    set i | i in db.spends && Zec(db, i) && db.spends[i].account == a
  }

  function NoteValue(db: Db): nat -> int {
    (i: nat) => if i in db.notes then db.notes[i].value as int else 0
  }

  function SpendValue(db: Db): nat -> int {
    (i: nat) => if i in db.spends then db.spends[i].value as int else 0
  }

  // ---------------------------------------------------------------------
  // Balance of a pool at a height

  function PoolNotes(db: Db, a: nat, pool: nat, height: nat): set<nat> {
    set i | i in ZecNotes(db, a) && db.notes[i].pool == pool && db.notes[i].height <= height
  }

  function PoolSpends(db: Db, a: nat, pool: nat, height: nat): set<nat> {
    set i | i in ZecSpends(db, a) && db.spends[i].pool == pool && db.spends[i].height <= height
  }

  ghost function PoolSum(db: Db, a: nat, pool: nat, height: nat): int {
    Sum(PoolNotes(db, a, pool, height), NoteValue(db)) + Sum(PoolSpends(db, a, pool, height), SpendValue(db))
  }

  // ---------------------------------------------------------------------
  // Value of a transaction

  function TxNotes(db: Db, tx: nat): set<nat> {
    set i | i in db.notes && Zec(db, i) && db.notes[i].tx == tx
  }

  function TxSpends(db: Db, tx: nat): set<nat> {
    set i | i in db.spends && Zec(db, i) && db.spends[i].tx == tx
  }

  ghost function TxValue(db: Db, tx: nat): int {
    Sum(TxNotes(db, tx), NoteValue(db)) + Sum(TxSpends(db, tx), SpendValue(db))
  }

  ghost function TxValues(db: Db): nat -> int {
    (tx: nat) => TxValue(db, tx)
  }

  function Txs(db: Db, a: nat): set<nat> {
    set i | i in db.transactions && db.transactions[i].account == a
  }

  // ---------------------------------------------------------------------
  // Sum of the unspent notes

  function Unspent(db: Db, a: nat): set<nat> {
    set i | i in ZecNotes(db, a) && i !in db.spends
  }

  ghost function UnspentSum(db: Db, a: nat): int {
    Sum(Unspent(db, a), NoteValue(db))
  }

  // ---------------------------------------------------------------------

  /** Every spend by the account negates a note of the account, in its pool,
      and every note of the account has its own spends only. */
  ghost predicate SpendsNegate(db: Db, a: nat) {
    forall i :: i in db.spends && i in db.notes && (db.spends[i].account == a || db.notes[i].account == a) ==>
      Negates(db.spends[i], db.notes[i])
  }

  ghost predicate Negates(s: Spend, n: Note) {
    s.account == n.account && s.pool == n.pool && s.value as int + n.value as int == 0
  }

  ghost predicate IsTxOf(db: Db, a: nat, t: nat) {
    t in db.transactions && db.transactions[t].account == a
  }

  /** The rows of the account's transactions are the account's, and the
      other way round. */
  ghost predicate InOwnTxs(db: Db, a: nat) {
    && (forall i :: i in db.notes ==> (db.notes[i].account == a <==> IsTxOf(db, a, db.notes[i].tx)))
    && (forall i :: i in db.spends ==> (db.spends[i].account == a <==> IsTxOf(db, a, db.spends[i].tx)))
  }

  ghost predicate Bounded(db: Db, a: nat, pools: set<nat>, height: nat) {
    && (forall i :: i in ZecNotes(db, a) ==> db.notes[i].pool in pools && db.notes[i].height <= height)
    && (forall i :: i in ZecSpends(db, a) ==> db.spends[i].pool in pools && db.spends[i].height <= height)
  }

  ghost function PoolSums(db: Db, a: nat, height: nat): nat -> int {
    (pool: nat) => PoolSum(db, a, pool, height)
  }

  ghost function Total(db: Db, a: nat): int {
    Sum(ZecNotes(db, a), NoteValue(db)) + Sum(ZecSpends(db, a), SpendValue(db))
  }

  ghost function NotePool(db: Db): nat -> nat { (i: nat) => if i in db.notes then db.notes[i].pool else 0 }

  ghost function SpendPool(db: Db): nat -> nat { (i: nat) => if i in db.spends then db.spends[i].pool else 0 }

  ghost function NoteTx(db: Db): nat -> nat { (i: nat) => if i in db.notes then db.notes[i].tx else 0 }

  ghost function SpendTx(db: Db): nat -> nat { (i: nat) => if i in db.spends then db.spends[i].tx else 0 }

  ghost function NotesBy(db: Db, a: nat, group: nat -> nat): nat -> int {
    Grouped(ZecNotes(db, a), NoteValue(db), group)
  }

  ghost function SpendsBy(db: Db, a: nat, group: nat -> nat): nat -> int {
    Grouped(ZecSpends(db, a), SpendValue(db), group)
  }

  lemma PoolIsGroup(db: Db, a: nat, pools: set<nat>, height: nat, p: nat)
    requires Bounded(db, a, pools, height)
    ensures PoolSum(db, a, p, height) == NotesBy(db, a, NotePool(db))(p) + SpendsBy(db, a, SpendPool(db))(p)
  {
    assert Fibre(ZecNotes(db, a), NotePool(db), p) == PoolNotes(db, a, p, height);
    assert Fibre(ZecSpends(db, a), SpendPool(db), p) == PoolSpends(db, a, p, height);
  }

  lemma TxIsGroup(db: Db, a: nat, t: nat)
    requires InOwnTxs(db, a) && t in Txs(db, a)
    ensures TxValue(db, t) == NotesBy(db, a, NoteTx(db))(t) + SpendsBy(db, a, SpendTx(db))(t)
  {
    assert Fibre(ZecNotes(db, a), NoteTx(db), t) == TxNotes(db, t);
    assert Fibre(ZecSpends(db, a), SpendTx(db), t) == TxSpends(db, t);
  }

  lemma TotalByPool(db: Db, a: nat, pools: set<nat>, height: nat)
    requires Bounded(db, a, pools, height)
    ensures Sum(pools, PoolSums(db, a, height)) == Total(db, a)
  {
    SumGrouped(ZecNotes(db, a), NoteValue(db), NotePool(db), pools);
    SumGrouped(ZecSpends(db, a), SpendValue(db), SpendPool(db), pools);
    forall p | p in pools
      ensures PoolSums(db, a, height)(p) == NotesBy(db, a, NotePool(db))(p) + SpendsBy(db, a, SpendPool(db))(p)
    {
      PoolIsGroup(db, a, pools, height, p);
    }
    SumTwo(pools, NotesBy(db, a, NotePool(db)), SpendsBy(db, a, SpendPool(db)), PoolSums(db, a, height));
  }

  lemma RowsOnOwnTxs(db: Db, a: nat)
    requires InOwnTxs(db, a)
    ensures forall i :: i in ZecNotes(db, a) ==> NoteTx(db)(i) in Txs(db, a)
    ensures forall i :: i in ZecSpends(db, a) ==> SpendTx(db)(i) in Txs(db, a)
  {
    assert forall t :: IsTxOf(db, a, t) <==> t in Txs(db, a);
  }

  lemma TotalByTx(db: Db, a: nat)
    requires InOwnTxs(db, a)
    ensures Sum(Txs(db, a), TxValues(db)) == Total(db, a)
  {
    RowsOnOwnTxs(db, a);
    forall t | t in Txs(db, a)
      ensures TxValues(db)(t) == NotesBy(db, a, NoteTx(db))(t) + SpendsBy(db, a, SpendTx(db))(t)
    {
      TxIsGroup(db, a, t);
    }
    hide InOwnTxs, TxValue;
    SumGrouped(ZecNotes(db, a), NoteValue(db), NoteTx(db), Txs(db, a));
    SumGrouped(ZecSpends(db, a), SpendValue(db), SpendTx(db), Txs(db, a));
    SumTwo(Txs(db, a), NotesBy(db, a, NoteTx(db)), SpendsBy(db, a, SpendTx(db)), TxValues(db));
  }

  lemma TotalUnspent(db: Db, a: nat)
    requires SpendsNegate(db, a)
    ensures UnspentSum(db, a) == Total(db, a)
  {
    var spent := ZecSpends(db, a);
    assert ZecNotes(db, a) == Unspent(db, a) + spent;
    SumSplit(Unspent(db, a), spent, NoteValue(db));
    SumOpposite(spent, SpendValue(db), NoteValue(db));
  }

  // ---------------------------------------------------------------------
  // Balance in the account list: the rows of its joins

  /** The lowest height an account is synchronized to. */
  datatype Sync = Sync(account: nat, height: nat)

  /** A note beside its spend, or beside NULL. */
  datatype NoteSpend = NoteSpend(note: nat, spend: Option<nat>)

  datatype Joined = Joined(account: nat, sync: Sync, header: Option<OfAccount>, note: Option<NoteSpend>,
                           folder: Option<nat>)

  /** What a left join puts beside a row: its matches, or one row of NULLs. */
  function OrNull<K(==)>(matches: set<K>): set<Option<K>> {
    if matches == {} then {None} else set k | k in matches :: Some(k)
  }

  function Synced(db: Db): set<Sync> {
    set k | k in db.syncHeights && IsLowest(db, k) :: Sync(k.account, db.syncHeights[k])
  }

  predicate IsLowest(db: Db, k: OfAccount)
    requires k in db.syncHeights
  {
    forall j :: j in db.syncHeights && j.account == k.account ==> db.syncHeights[k] <= db.syncHeights[j]
  }

  function UnspentRows(db: Db): set<NoteSpend> {
    set i, s | i in db.notes && s in OrNull(SpendsOf(db, i)) && s.None? && db.notes[i].asset.None? :: NoteSpend(i, s)
  }

  function SpendsOf(db: Db, i: nat): set<nat> { set j | j in db.spends && j == i }

  function HeadersAt(db: Db, s: Sync): set<OfAccount> {
    set k | k in db.headers && k.account == s.account && k.key == s.height
  }

  function UnspentRowsOf(db: Db, a: nat): set<NoteSpend> {
    set u | u in UnspentRows(db) && u.note in db.notes && db.notes[u.note].account == a
  }

  /** The folder column of the accounts, and the folders there are. */
  datatype Folders = Folders(of: map<nat, nat>, names: map<nat, string>)

  function FoldersOf(f: Folders, a: nat): set<nat> {
    set g | g in f.names && a in f.of && f.of[a] == g
  }

  /** The group of one account among the joined rows. */
  function Group(db: Db, f: Folders, a: nat): set<Joined> {
    set s, h, n, g | a in db.positions && s in Synced(db) && s.account == a && h in OrNull(HeadersAt(db, s))
                     && n in OrNull(UnspentRowsOf(db, a)) && g in OrNull(FoldersOf(f, a)) :: Joined(a, s, h, n, g)
  }

  ghost predicate Listed(db: Db, a: nat) {
    a in db.positions && exists k :: k in db.syncHeights && k.account == a
  }

  /** The note of a joined row, or NULL. */
  function NoteOf(t: Joined): Option<nat> {
    if t.note.Some? then Some(t.note.value.note) else None
  }

  ghost function Term(db: Db): Joined -> int {
    (t: Joined) => if t.note.Some? then NoteValue(db)(t.note.value.note) else 0
  }

  ghost function ListedBalance(db: Db, f: Folders, a: nat): int {
    Sum(Group(db, f, a), Term(db))
  }

  lemma {:induction false} LowestExists(db: Db, keys: set<OfAccount>) returns (k: OfAccount)
    requires keys != {} && forall j :: j in keys ==> j in db.syncHeights
    ensures k in keys && forall j :: j in keys ==> db.syncHeights[k] <= db.syncHeights[j]
    decreases |keys|
  {
    k :| k in keys;
    if keys != {k} {
      var m := LowestExists(db, keys - {k});
      if db.syncHeights[m] < db.syncHeights[k] { k := m; }
    }
  }

  /** An account with a sync height joins one row of `sh`, the others none. */
  lemma SyncedOnce(db: Db, a: nat)
    ensures (exists k :: k in db.syncHeights && k.account == a) <==> exists s :: s in Synced(db) && s.account == a
    ensures forall s, t :: s in Synced(db) && t in Synced(db) && s.account == t.account ==> s == t
  {
    if i :| i in db.syncHeights && i.account == a {
      var keys := set k | k in db.syncHeights && k.account == a;
      assert i in keys;
      var k := LowestExists(db, keys);
      assert IsLowest(db, k);
      assert Sync(a, db.syncHeights[k]) in Synced(db);
    }
  }

  /** One match or none leaves one row. */
  lemma OneRow<K>(matches: set<K>)
    requires forall j, k :: j in matches && k in matches ==> j == k
    ensures forall x, y :: x in OrNull(matches) && y in OrNull(matches) ==> x == y
    ensures OrNull(matches) != {}
  {
    if k :| k in matches { assert Some(k) in OrNull(matches); }
  }

  lemma UnspentOnce(db: Db, a: nat)
    ensures forall u :: u in UnspentRowsOf(db, a) <==> u.note in Unspent(db, a) && u.spend.None?
  {
    forall i
      ensures None in OrNull(SpendsOf(db, i)) <==> i !in db.spends
    {
      if i in db.spends { assert i in SpendsOf(db, i); }
    }
  }

  lemma InGroup(db: Db, f: Folders, a: nat, t: Joined)
    ensures t in Group(db, f, a) <==>
      && a in db.positions && t.account == a && t.sync in Synced(db) && t.sync.account == a
      && t.header in OrNull(HeadersAt(db, t.sync)) && t.note in OrNull(UnspentRowsOf(db, a))
      && t.folder in OrNull(FoldersOf(f, a))
  {}

  lemma RowsDiffer(db: Db, f: Folders, a: nat, t: Joined, u: Joined)
    requires t in Group(db, f, a) && u in Group(db, f, a) && NoteOf(t) == NoteOf(u)
    ensures t == u
  {
    hide Group, Synced, HeadersAt, FoldersOf, UnspentRowsOf;
    InGroup(db, f, a, t);
    InGroup(db, f, a, u);
    SyncedOnce(db, a);
    HeaderOnce(db, t.sync);
    FolderOnce(f, a);
    if t.note.Some? {
      UnspentOnce(db, a);
    }
  }

  lemma HeaderOnce(db: Db, s: Sync)
    ensures forall x, y :: x in OrNull(HeadersAt(db, s)) && y in OrNull(HeadersAt(db, s)) ==> x == y
    ensures OrNull(HeadersAt(db, s)) != {}
  {
    OneRow(HeadersAt(db, s));
  }

  lemma FolderOnce(f: Folders, a: nat)
    ensures forall x, y :: x in OrNull(FoldersOf(f, a)) && y in OrNull(FoldersOf(f, a)) ==> x == y
    ensures OrNull(FoldersOf(f, a)) != {}
  {
    OneRow(FoldersOf(f, a));
  }

  /** Every unspent note, or NULL if there is none, has a row. */
  lemma RowExists(db: Db, f: Folders, a: nat, n: Option<NoteSpend>) returns (t: Joined)
    requires Listed(db, a) && n in OrNull(UnspentRowsOf(db, a))
    ensures t in Group(db, f, a) && t.note == n
  {
    hide Group, HeadersAt, FoldersOf, UnspentRowsOf;
    SyncedOnce(db, a);
    var s :| s in Synced(db) && s.account == a;
    HeaderOnce(db, s);
    FolderOnce(f, a);
    var h :| h in OrNull(HeadersAt(db, s));
    var g :| g in OrNull(FoldersOf(f, a));
    t := Joined(a, s, h, n, g);
    InGroup(db, f, a, t);
  }

  /** The joins multiply no row and lose none: the group of an account is empty
      exactly when it is not listed, no two of its rows stand for the same
      note, or both for none, and they stand for all its unspent notes. */
  lemma JoinsMultiplyNoRow(db: Db, f: Folders, a: nat)
    ensures Group(db, f, a) != {} <==> Listed(db, a)
    ensures forall t, u :: t in Group(db, f, a) && u in Group(db, f, a) && NoteOf(t) == NoteOf(u) ==> t == u
    ensures forall t :: t in Group(db, f, a) && NoteOf(t).Some? ==> NoteOf(t).value in Unspent(db, a)
    ensures Listed(db, a) ==>
              forall i :: i in Unspent(db, a) ==> exists t :: t in Group(db, f, a) && NoteOf(t) == Some(i)
  {
    hide Group, UnspentRowsOf, Unspent;
    UnspentOnce(db, a);
    forall t, u | t in Group(db, f, a) && u in Group(db, f, a) && NoteOf(t) == NoteOf(u)
      ensures t == u
    {
      RowsDiffer(db, f, a, t, u);
    }
    forall t | t in Group(db, f, a)
      ensures Listed(db, a) && (NoteOf(t).Some? ==> NoteOf(t).value in Unspent(db, a))
    {
      InGroup(db, f, a, t);
      SyncedOnce(db, a);
    }
    if Listed(db, a) {
      OneOrNone(UnspentRowsOf(db, a));
      var n :| n in OrNull(UnspentRowsOf(db, a));
      var t := RowExists(db, f, a, n);
      forall i | i in Unspent(db, a)
        ensures exists t :: t in Group(db, f, a) && NoteOf(t) == Some(i)
      {
        assert NoteSpend(i, None) in UnspentRowsOf(db, a);
        var t := RowExists(db, f, a, Some(NoteSpend(i, None)));
      }
    }
  }

  lemma OneOrNone<K>(matches: set<K>)
    ensures OrNull(matches) != {}
  {
    if k :| k in matches { assert Some(k) in OrNull(matches); }
  }

  /** So the balance of a listed account is the sum of its unspent notes. */
  lemma ListedIsUnspent(db: Db, f: Folders, a: nat)
    requires Listed(db, a)
    ensures ListedBalance(db, f, a) == UnspentSum(db, a)
    ensures UnspentTotal(db, a, Any(), ListedBalance(db, f, a))
  {
    SumIsUnspentTotal(db, a, Unspent(db, a), Any());
    JoinsMultiplyNoRow(db, f, a);
    OneTermEach(db, Group(db, f, a), Unspent(db, a));
  }

  lemma OneTermEach(db: Db, rows: set<Joined>, ids: set<nat>)
    requires forall t, u :: t in rows && u in rows && NoteOf(t) == NoteOf(u) ==> t == u
    requires forall t :: t in rows && NoteOf(t).Some? ==> NoteOf(t).value in ids
    requires forall i :: i in ids ==> exists t :: t in rows && NoteOf(t) == Some(i)
    ensures Sum(rows, Term(db)) == Sum(ids, NoteValue(db))
  {
    hide Sum;
    var some := set t | t in rows && NoteOf(t).Some?;
    assert some + (rows - some) == rows;
    SumSplit(some, rows - some, Term(db));
    SumZero(rows - some, Term(db));
    var names := map t | t in some :: NoteOf(t).value;
    SumRenamed(some, names, Term(db), ids, NoteValue(db));
  }

  /** Three sums of an account's ZEC agree: over its pools, at a height past
      every row; over its transactions; and over its unspent notes, as the
      account list computes it. */
  lemma Conservation(db: Db, f: Folders, a: nat, pools: set<nat>, height: nat)
    requires SpendsNegate(db, a) && InOwnTxs(db, a) && Bounded(db, a, pools, height)
    ensures Sum(pools, PoolSums(db, a, height)) == UnspentSum(db, a)
    ensures Sum(Txs(db, a), TxValues(db)) == UnspentSum(db, a)
    ensures Listed(db, a) ==> ListedBalance(db, f, a) == UnspentSum(db, a)
  {
    TotalByPool(db, a, pools, height);
    TotalByTx(db, a);
    TotalUnspent(db, a);
    if Listed(db, a) { ListedIsUnspent(db, f, a); }
  }

  // ---------------------------------------------------------------------

  ghost predicate NotesNotNegative(db: Db, a: nat) {
    forall i :: i in db.notes && db.notes[i].account == a ==> db.notes[i].value >= 0
  }

  /** No spend stands below its note. */
  ghost predicate SpentLater(db: Db, a: nat) {
    forall i :: i in db.spends && i in db.notes && db.spends[i].account == a ==>
      db.notes[i].height <= db.spends[i].height
  }

  /** At every height a pool's sum is that of the notes unspent there, so it is
      never negative, and casting it to u64 changes nothing. */
  lemma PoolSumIsUnspent(db: Db, a: nat, pool: nat, height: nat)
    requires SpendsNegate(db, a) && SpentLater(db, a) && NotesNotNegative(db, a)
    ensures PoolSpends(db, a, pool, height) <= PoolNotes(db, a, pool, height)
    ensures PoolSum(db, a, pool, height) ==
            Sum(PoolNotes(db, a, pool, height) - PoolSpends(db, a, pool, height), NoteValue(db))
    ensures PoolSum(db, a, pool, height) >= 0
  {
    var notes, spends := PoolNotes(db, a, pool, height), PoolSpends(db, a, pool, height);
    assert spends <= notes;
    assert notes == (notes - spends) + spends;
    SumSplit(notes - spends, spends, NoteValue(db));
    SumOpposite(spends, SpendValue(db), NoteValue(db));
    SumNotNegative(notes - spends, NoteValue(db));
  }

  // ---------------------------------------------------------------------
  // What the queries select, column by column

  ghost function NotesUpTo(db: Db, a: nat, pool: nat, height: Option<nat>): set<nat> {
    set i | i in db.notes && db.notes[i].account == a && db.notes[i].asset.None? && db.notes[i].pool == pool
            && (height.Some? ==> db.notes[i].height <= height.value)
  }

  ghost function SpendsUpTo(db: Db, a: nat, pool: nat, height: Option<nat>): set<nat> {
    set i | i in db.spends && i in db.notes && db.spends[i].account == a && db.notes[i].asset.None?
            && db.spends[i].pool == pool && (height.Some? ==> db.spends[i].height <= height.value)
  }

  /** The sum of a value column. */
  ghost predicate IsTotal(db: Db, notes: set<nat>, spends: set<nat>, total: int) {
    exists f: nat -> int, g: nat -> int :: Columns(db, notes, spends, f, g) && total == Sum(notes, f) + Sum(spends, g)
  }

  ghost predicate Columns(db: Db, notes: set<nat>, spends: set<nat>, f: nat -> int, g: nat -> int) {
    && (forall i :: i in notes ==> i in db.notes && f(i) == db.notes[i].value as int)
    && (forall i :: i in spends ==> i in db.spends && g(i) == db.spends[i].value as int)
  }

  /** The total of a pool, without a bound on the height if none is given. */
  ghost predicate PoolTotal(db: Db, a: nat, pool: nat, height: Option<nat>, total: int) {
    IsTotal(db, NotesUpTo(db, a, pool, height), SpendsUpTo(db, a, pool, height), total)
  }

  /** Heights are 32 bits wide. */
  ghost predicate HeightsFit(db: Db) {
    && (forall i :: i in db.notes ==> db.notes[i].height < 0x1_0000_0000)
    && (forall i :: i in db.spends ==> db.spends[i].height < 0x1_0000_0000)
  }

  /** Every pool with a row is one of the four, and its total is an i64. */
  ghost predicate TotalsFit(db: Db, a: nat, height: Option<nat>) {
    forall p :: NotesUpTo(db, a, p, height) + SpendsUpTo(db, a, p, height) != {} ==>
      p < 4 && FitsTotal(db, a, p, height)
  }

  ghost predicate FitsTotal(db: Db, a: nat, pool: nat, height: Option<nat>) {
    exists v: I64 :: PoolTotal(db, a, pool, height, v)
  }

  /** The four totals, cast to u64. */
  ghost predicate AreTotals(db: Db, a: nat, height: Option<nat>, balance: seq<U64>) {
    |balance| == 4 && forall p: nat :: p < 4 ==> IsTotalCast(db, a, p, height, balance[p])
  }

  ghost predicate IsTotalCast(db: Db, a: nat, pool: nat, height: Option<nat>, b: U64) {
    exists v: I64 :: PoolTotal(db, a, pool, height, v) && b as int == v as int % 0x1_0000_0000_0000_0000
  }

  lemma TotalIsUnique(db: Db, notes: set<nat>, spends: set<nat>, x: int, y: int)
    requires IsTotal(db, notes, spends, x) && IsTotal(db, notes, spends, y)
    ensures x == y
  {
    hide Sum;
    var f: nat -> int, g: nat -> int :| Columns(db, notes, spends, f, g) && x == Sum(notes, f) + Sum(spends, g);
    var f': nat -> int, g': nat -> int :| Columns(db, notes, spends, f', g') && y == Sum(notes, f') + Sum(spends, g');
    SumSame(notes, f, f');
    SumSame(spends, g, g');
  }

  lemma PoolSumIsTotal(db: Db, a: nat, pool: nat, height: Option<nat>)
    requires height.Some? || HeightsFit(db)
    ensures PoolTotal(db, a, pool, height, PoolSum(db, a, pool, HeightOf(height)))
    ensures pool in PoolsPresent(db, a, HeightOf(height))
      <==> NotesUpTo(db, a, pool, height) + SpendsUpTo(db, a, pool, height) != {}
  {
    SameRows(db, a, pool, height);
    SumOfNotesIsTotal(db, NotesUpTo(db, a, pool, height), SpendsUpTo(db, a, pool, height));
    hide IsTotal, Sum, NotesUpTo, SpendsUpTo, PoolNotes, PoolSpends;
  }

  lemma SameRows(db: Db, a: nat, pool: nat, height: Option<nat>)
    requires height.Some? || HeightsFit(db)
    ensures PoolNotes(db, a, pool, HeightOf(height)) == NotesUpTo(db, a, pool, height)
    ensures PoolSpends(db, a, pool, HeightOf(height)) == SpendsUpTo(db, a, pool, height)
    ensures pool in PoolsPresent(db, a, HeightOf(height))
      <==> PoolNotes(db, a, pool, HeightOf(height)) + PoolSpends(db, a, pool, HeightOf(height)) != {}
  {
    var h := HeightOf(height);
    if i :| i in PoolNotes(db, a, pool, h) { assert pool in PoolsPresent(db, a, h); }
    if i :| i in PoolSpends(db, a, pool, h) { assert pool in PoolsPresent(db, a, h); }
    if pool in PoolsPresent(db, a, h) {
      if i :| i in ZecNotes(db, a) && db.notes[i].height <= h && db.notes[i].pool == pool {
        assert i in PoolNotes(db, a, pool, h);
      } else if i :| i in ZecSpends(db, a) && db.spends[i].height <= h && db.spends[i].pool == pool {
        assert i in PoolSpends(db, a, pool, h);
      }
    }
  }

  lemma PoolFitsIff(db: Db, a: nat, p: nat, height: Option<nat>)
    requires height.Some? || HeightsFit(db)
    ensures p in PoolsPresent(db, a, HeightOf(height))
      <==> NotesUpTo(db, a, p, height) + SpendsUpTo(db, a, p, height) != {}
    ensures FitsI64(PoolSum(db, a, p, HeightOf(height))) <==> FitsTotal(db, a, p, height)
  {
    PoolSumIsTotal(db, a, p, height);
    hide PoolSum, PoolsPresent, NotesUpTo, SpendsUpTo, IsTotal;
    if FitsTotal(db, a, p, height) {
      var v: I64 :| PoolTotal(db, a, p, height, v);
      TotalIsUnique(db, NotesUpTo(db, a, p, height), SpendsUpTo(db, a, p, height),
        PoolSum(db, a, p, HeightOf(height)), v);
    }
    if FitsI64(PoolSum(db, a, p, HeightOf(height))) {
      var v: I64 := PoolSum(db, a, p, HeightOf(height));
      assert PoolTotal(db, a, p, height, v);
    }
  }

  lemma TotalsFitIff(db: Db, a: nat, height: Option<nat>)
    requires height.Some? || HeightsFit(db)
    ensures Countable(db, a, HeightOf(height)) <==> TotalsFit(db, a, height)
  {
    hide PoolSum, PoolsPresent, NotesUpTo, SpendsUpTo, FitsTotal, FitsI64;
    forall p: nat
      ensures p in PoolsPresent(db, a, HeightOf(height))
        <==> NotesUpTo(db, a, p, height) + SpendsUpTo(db, a, p, height) != {}
      ensures FitsI64(PoolSum(db, a, p, HeightOf(height))) <==> FitsTotal(db, a, p, height)
    {
      PoolFitsIff(db, a, p, height);
    }
  }

  /** The unspent ZEC notes of the account that satisfy a condition have this
      sum. */
  ghost predicate UnspentTotal(db: Db, a: nat, chosen: Note -> bool, total: int) {
    IsTotal(db, UnspentRowsWhere(db, a, chosen), {}, total)
  }

  ghost function UnspentRowsWhere(db: Db, a: nat, chosen: Note -> bool): set<nat> {
    set i | i in db.notes && db.notes[i].account == a && db.notes[i].asset.None? && i !in db.spends
            && chosen(db.notes[i])
  }

  ghost function Any(): Note -> bool { (n: Note) => true }

  lemma SumIsUnspentTotal(db: Db, a: nat, ids: set<nat>, chosen: Note -> bool)
    requires forall i :: i in ids <==> i in Unspent(db, a) && chosen(db.notes[i])
    ensures UnspentTotal(db, a, chosen, Sum(ids, NoteValue(db)))
  {
    assert ids == UnspentRowsWhere(db, a, chosen);
    hide IsTotal;
    SumOfNotesIsTotal(db, ids, {});
    assert Sum<nat>({}, SpendValue(db)) == 0;
  }

  lemma SumOfNotesIsTotal(db: Db, notes: set<nat>, spends: set<nat>)
    requires notes <= db.notes.Keys && spends <= db.spends.Keys
    ensures IsTotal(db, notes, spends, Sum(notes, NoteValue(db)) + Sum(spends, SpendValue(db)))
  {
    assert Columns(db, notes, spends, NoteValue(db), SpendValue(db));
  }

  // ---------------------------------------------------------------------
  // Spendable at most

  predicate InMask(mask: nat, pool: nat) { (mask / Pow2(pool)) % 2 == 1 }

  function Pow2(n: nat): (p: nat)
    ensures p > 0
  {
    if n == 0 then 1 else 2 * Pow2(n - 1)
  }

  function Selectable(db: Db, a: nat, mask: nat, dust: nat): set<nat> {
    set i | i in Unspent(db, a) && !db.notes[i].locked && InMask(mask, db.notes[i].pool) && db.notes[i].value >= dust
  }

  ghost function MaxSpendable(db: Db, a: nat, mask: nat, dust: nat): int {
    Sum(Selectable(db, a, mask, dust), NoteValue(db))
  }

  /** The bit of a pool in a mask of 8 bits. */
  ghost predicate PoolBit(mask: nat, pool: nat) {
    match pool
    case 0 => mask % 2 == 1
    case 1 => (mask / 2) % 2 == 1
    case 2 => (mask / 4) % 2 == 1
    case 3 => (mask / 8) % 2 == 1
    case _ => InMask(mask, pool)
  }

  ghost function Sendable(mask: nat, dust: nat): Note -> bool {
    (n: Note) => !n.locked && PoolBit(mask, n.pool) && n.value >= dust
  }

  ghost function LeftOut(mask: nat, dust: nat): Note -> bool {
    (n: Note) => n.locked || !PoolBit(mask, n.pool) || n.value < dust
  }

  lemma PoolBitIff(mask: nat, pool: nat)
    ensures InMask(mask, pool) <==> PoolBit(mask, pool)
  {
    assert Pow2(0) == 1 && Pow2(1) == 2 && Pow2(2) == 4 && Pow2(3) == 8;
  }

  lemma SelectableIff(db: Db, a: nat, mask: nat, dust: nat, i: nat)
    requires i in Unspent(db, a)
    ensures i in Selectable(db, a, mask, dust) <==> Sendable(mask, dust)(db.notes[i])
    ensures Sendable(mask, dust)(db.notes[i]) <==> !LeftOut(mask, dust)(db.notes[i])
  {
    PoolBitIff(mask, db.notes[i].pool);
    hide InMask, PoolBit;
  }

  lemma SelectableAndRest(db: Db, a: nat, mask: nat, dust: nat)
    ensures Selectable(db, a, mask, dust) <= Unspent(db, a)
    ensures UnspentTotal(db, a, Sendable(mask, dust), Sum(Selectable(db, a, mask, dust), NoteValue(db)))
    ensures UnspentTotal(db, a, LeftOut(mask, dust),
                         Sum(Unspent(db, a) - Selectable(db, a, mask, dust), NoteValue(db)))
  {
    var some, all := Selectable(db, a, mask, dust), Unspent(db, a);
    forall i
      ensures i in some <==> i in all && Sendable(mask, dust)(db.notes[i])
      ensures i in all - some <==> i in all && LeftOut(mask, dust)(db.notes[i])
    {
      if i in all { SelectableIff(db, a, mask, dust, i); }
    }
    hide UnspentTotal, Sum, InMask, PoolBit;
    SumIsUnspentTotal(db, a, some, Sendable(mask, dust));
    SumIsUnspentTotal(db, a, all - some, LeftOut(mask, dust));
  }

  /** It is part of the balance; what it leaves out is locked, dust, or in
      another pool. */
  lemma MaxSpendableWithin(db: Db, a: nat, mask: nat, dust: nat)
    requires NotesNotNegative(db, a)
    ensures 0 <= MaxSpendable(db, a, mask, dust) <= UnspentSum(db, a)
    ensures UnspentTotal(db, a, Sendable(mask, dust), MaxSpendable(db, a, mask, dust))
    ensures UnspentTotal(db, a, LeftOut(mask, dust), UnspentSum(db, a) - MaxSpendable(db, a, mask, dust))
  {
    SelectableAndRest(db, a, mask, dust);
    hide UnspentTotal, Selectable, Sum;
    var some, all := Selectable(db, a, mask, dust), Unspent(db, a);
    assert all == some + (all - some);
    SumSplit(some, all - some, NoteValue(db));
    SumNotNegative(some, NoteValue(db));
    SumNotNegative(all - some, NoteValue(db));
  }

  // ---------------------------------------------------------------------
  // The queries

  method SumNotes(db: Db, ids: set<nat>) returns (v: int)
    requires ids <= db.notes.Keys
    ensures v == Sum(ids, NoteValue(db))
  {
    v := 0;
    var left := ids;
    while left != {}
      invariant left <= ids && v + Sum(left, NoteValue(db)) == Sum(ids, NoteValue(db))
    {
      var i :| i in left;
      SumTake(left, NoteValue(db), i);
      v := v + db.notes[i].value;
      left := left - {i};
    }
  }

  method SumSpends(db: Db, ids: set<nat>) returns (v: int)
    requires ids <= db.spends.Keys
    ensures v == Sum(ids, SpendValue(db))
  {
    v := 0;
    var left := ids;
    while left != {}
      invariant left <= ids && v + Sum(left, SpendValue(db)) == Sum(ids, SpendValue(db))
    {
      var i :| i in left;
      SumTake(left, SpendValue(db), i);
      v := v + db.spends[i].value;
      left := left - {i};
    }
  }

  const ANY_HEIGHT: nat := 0xFFFF_FFFF

  function HeightOf(height: Option<nat>): nat { if height.Some? then height.value else ANY_HEIGHT }

  /** The pools that have a row at the height. */
  function PoolsPresent(db: Db, a: nat, height: nat): set<nat> {
    (set i | i in ZecNotes(db, a) && db.notes[i].height <= height :: db.notes[i].pool)
    + (set i | i in ZecSpends(db, a) && db.spends[i].height <= height :: db.spends[i].pool)
  }

  predicate FitsI64(v: int) { -0x8000_0000_0000_0000 <= v < 0x8000_0000_0000_0000 }

  ghost predicate Countable(db: Db, a: nat, height: nat) {
    forall p :: p in PoolsPresent(db, a, height) ==> p < 4 && FitsI64(PoolSum(db, a, p, height))
  }

  lemma AbsentPool(db: Db, a: nat, p: nat, height: nat)
    requires p !in PoolsPresent(db, a, height)
    ensures PoolSum(db, a, p, height) == 0
  {
    assert PoolNotes(db, a, p, height) == {};
    assert PoolSpends(db, a, p, height) == {};
  }

  /** The pools done so far have their sums, the others are at zero. */
  ghost predicate Filled(db: Db, a: nat, height: nat, done: set<nat>, balance: seq<U64>) {
    && |balance| == 4
    && (forall p :: p in done ==>
          p < 4 && FitsI64(PoolSum(db, a, p, height)) && balance[p] == AsU64(PoolSum(db, a, p, height)))
    && (forall p: nat :: p < 4 && p !in done ==> balance[p] == 0)
  }

  method PoolValue(db: Db, a: nat, pool: nat, height: nat) returns (v: int)
    ensures v == PoolSum(db, a, pool, height)
  {
    var received := SumNotes(db, PoolNotes(db, a, pool, height));
    var spent := SumSpends(db, PoolSpends(db, a, pool, height));
    v := received + spent;
  }

  /** The query at a height, row by row. */
  method PoolBalances(db: Db, a: nat, h: nat) returns (r: Option<seq<U64>>)
    ensures r.Some? <==> Countable(db, a, h)
    ensures r.Some? ==> Balances(db, a, h, r.value)
  {
    hide PoolSum, PoolsPresent;
    var balance: seq<U64> := [0, 0, 0, 0];
    ghost var present := PoolsPresent(db, a, h);
    var left := PoolsPresent(db, a, h);
    while left != {}
      invariant left <= present && Filled(db, a, h, present - left, balance)
    {
      var p :| p in left;
      var v := PoolValue(db, a, p, h);
      if p >= 4 || !FitsI64(v) {
        assert p in PoolsPresent(db, a, h);
        return None;
      }
      assert present - (left - {p}) == (present - left) + {p};
      left := left - {p};
      balance := balance[p := AsU64(v)];
    }
    assert present - left == present;
    AllFilled(db, a, h, balance);
    r := Some(balance);
  }

  /** The balance of the four pools. A fifth pool, or a sum past i64, fails. */
  method CalculateBalance(db: Db, a: nat, height: Option<nat>) returns (r: Option<seq<U64>>)
    ensures r.Some? <==> Countable(db, a, HeightOf(height))
    ensures r.Some? ==> Balances(db, a, HeightOf(height), r.value)
    ensures height.Some? || HeightsFit(db) ==> (r.Some? <==> TotalsFit(db, a, height))
    ensures (height.Some? || HeightsFit(db)) && r.Some? ==> AreTotals(db, a, height, r.value)
    ensures height.None? && HeightsFit(db) && r.Some? ==>
      SpendsNegate(db, a) && SpentLater(db, a) && NotesNotNegative(db, a) ==> AddUp(db, a, r.value)
  {
    hide Countable, Balances, TotalsFit, AreTotals, HeightsFit, SpendsNegate, SpentLater, NotesNotNegative, AddUp;
    r := PoolBalances(db, a, if height.Some? then height.value else ANY_HEIGHT);
    if height.Some? || HeightsFit(db) {
      TotalsFitIff(db, a, height);
      if r.Some? { BalancesAreTotals(db, a, height, r.value); }
    }
    if height.None? && HeightsFit(db) && r.Some? {
      if SpendsNegate(db, a) && SpentLater(db, a) && NotesNotNegative(db, a) { BalancesAddUp(db, a, r.value); }
    }
  }

  /** The balances of the four pools are together the sum of the unspent notes. */
  ghost predicate AddUp(db: Db, a: nat, balance: seq<U64>) {
    && |balance| == 4
    && balance[0] as int + balance[1] as int + balance[2] as int + balance[3] as int == UnspentSum(db, a)
  }

  ghost predicate Balances(db: Db, a: nat, height: nat, balance: seq<U64>) {
    |balance| == 4 && forall p: nat :: p < 4 ==> IsBalance(PoolSum(db, a, p, height), balance[p])
  }

  ghost predicate IsBalance(sum: int, b: U64) { FitsI64(sum) && b == AsU64(sum) }

  lemma BalancesAreTotals(db: Db, a: nat, height: Option<nat>, balance: seq<U64>)
    requires (height.Some? || HeightsFit(db)) && Balances(db, a, HeightOf(height), balance)
    ensures AreTotals(db, a, height, balance)
  {
    forall p: nat | p < 4
      ensures IsTotalCast(db, a, p, height, balance[p])
    {
      PoolSumIsTotal(db, a, p, height);
      hide PoolTotal, PoolSum, PoolsPresent;
      assert IsBalance(PoolSum(db, a, p, HeightOf(height)), balance[p]);
      var v: I64 := PoolSum(db, a, p, HeightOf(height));
      CastRoundTrip(v);
      assert PoolTotal(db, a, p, height, v);
    }
    hide IsTotalCast;
  }

  /** Without a height, and when no spend stands below its note, the balances of
      the four pools add up to the account's unspent notes. */
  lemma BalancesAddUp(db: Db, a: nat, balance: seq<U64>)
    requires SpendsNegate(db, a) && SpentLater(db, a) && NotesNotNegative(db, a) && HeightsFit(db)
    requires Countable(db, a, HeightOf(None)) && Balances(db, a, HeightOf(None), balance)
    ensures AddUp(db, a, balance)
  {
    var h := HeightOf(None);
    WithinPools(db, a, h);
    TotalByPool(db, a, FourPools(), h);
    TotalUnspent(db, a);
    SumFour(PoolSums(db, a, h));
    hide PoolSum, UnspentSum, Total, Sum, SpendsNegate, SpentLater, NotesNotNegative, HeightsFit, Countable, FourPools;
    BalanceIsSum(db, a, h, balance, 0);
    BalanceIsSum(db, a, h, balance, 1);
    BalanceIsSum(db, a, h, balance, 2);
    BalanceIsSum(db, a, h, balance, 3);
  }

  /** A balance that is not negative is cast to itself. */
  lemma BalanceIsSum(db: Db, a: nat, height: nat, balance: seq<U64>, p: nat)
    requires SpendsNegate(db, a) && SpentLater(db, a) && NotesNotNegative(db, a)
    requires Balances(db, a, height, balance) && p < 4
    ensures balance[p] as int == PoolSum(db, a, p, height) == PoolSums(db, a, height)(p)
  {
    PoolSumIsUnspent(db, a, p, height);
    hide PoolSum;
    assert IsBalance(PoolSum(db, a, p, height), balance[p]);
  }

  ghost function FourPools(): set<nat> { {0, 1, 2, 3} }

  lemma WithinPools(db: Db, a: nat, height: nat)
    requires HeightsFit(db) && height == HeightOf(None) && Countable(db, a, height)
    ensures Bounded(db, a, FourPools(), height)
  {
    hide PoolSum;
    forall i | i in ZecNotes(db, a)
      ensures db.notes[i].pool < 4
    {
      assert db.notes[i].pool in PoolsPresent(db, a, height);
    }
    forall i | i in ZecSpends(db, a)
      ensures db.spends[i].pool < 4
    {
      assert db.spends[i].pool in PoolsPresent(db, a, height);
    }
  }

  lemma SumFour(f: nat -> int)
    ensures Sum(FourPools(), f) == f(0) + f(1) + f(2) + f(3)
  {
    var p1: set<nat>, p2: set<nat>, p3: set<nat>, p4: set<nat> := {1, 2, 3}, {2, 3}, {3}, {};
    assert FourPools() - {0} == p1 && p1 - {1} == p2 && p2 - {2} == p3 && p3 - {3} == p4;
    SumTake(FourPools(), f, 0);
    SumTake(p1, f, 1);
    SumTake(p2, f, 2);
    SumTake(p3, f, 3);
    assert Sum(p4, f) == 0;
  }

  lemma AllFilled(db: Db, a: nat, height: nat, balance: seq<U64>)
    requires Filled(db, a, height, PoolsPresent(db, a, height), balance)
    ensures Balances(db, a, height, balance)
  {
    forall p: nat | p < 4
      ensures IsBalance(PoolSum(db, a, p, height), balance[p])
    {
      if p !in PoolsPresent(db, a, height) { AbsentPool(db, a, p, height); }
    }
  }
}
