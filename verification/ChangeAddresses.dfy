/** Transparent addresses and their change counterparts: new accounts, the next
    index, the internal-change flag, and the repair that runs when a wallet is
    opened. Derivation is an uninterpreted partial function. */
module ChangeAddresses {
  import opened Wrappers
  import opened RowIds

  type Key = nat

  datatype Account = Account(hw: nat, aindex: nat, dindex: nat, useInternal: bool)
  datatype TKeys = TKeys(xsk: Option<Key>, xvk: Option<Key>, ivk: Option<Key>)
  datatype SKeys = SKeys(xvk: Option<Key>, ivk: Option<Key>, address: string)
  datatype OKeys = OKeys(xvk: Option<Key>, ivk: Option<Key>)
  datatype AddrRow = AddrRow(sk: Option<string>, pk: string, address: string, uncompressed: bool)

  /** The unique key of a stored transparent address. */
  datatype Slot = Slot(account: nat, scope: nat, index: nat)

  datatype Db = Db(
    accounts: map<nat, Account>,
    tkeys: map<nat, TKeys>,
    skeys: map<nat, SKeys>,
    okeys: map<nat, OKeys>,
    addrs: map<Slot, AddrRow>)

  // ---------------------------------------------------------------------
  // Key sources

  datatype Source = Software(xvk: Key, xsk: Option<Key>) | Incoming(ivk: Key) | Ledger(hw: nat, aindex: nat)

  datatype Derived = Derived(sk: Option<string>, pk: string, address: string)

  /** The cryptography and the device. */
  datatype Env = Env(
    software: (Key, Option<Key>, nat, nat) -> Option<Derived>,
    incoming: (Key, nat) -> Option<Derived>,
    device: (nat, nat, nat, nat) -> Option<Derived>,
    saplingAt: (Key, nat) -> Option<string>,
    saplingIncomingAt: (Key, nat) -> Option<string>,
    deviceNext: (nat, nat, nat) -> Option<(nat, string)>)

  function Derive(env: Env, source: Source, scope: nat, index: nat): Option<Derived> {
    match source
    case Software(xvk, xsk) => env.software(xvk, xsk, scope, index)
    case Incoming(ivk) => if scope != 0 then None else env.incoming(ivk, index)
    case Ledger(hw, aindex) => env.device(hw, aindex, scope, index)
  }

  function TryLoad(db: Db, a: nat): Option<Source> {
    if a in db.tkeys && db.tkeys[a].xvk.Some? then Some(Software(db.tkeys[a].xvk.value, db.tkeys[a].xsk))
    else if a in db.tkeys && db.tkeys[a].ivk.Some? then Some(Incoming(db.tkeys[a].ivk.value))
    else if a !in db.accounts || db.accounts[a].hw == 0 then None
    else Some(Ledger(db.accounts[a].hw, db.accounts[a].aindex))
  }

  function DeriveFor(env: Env, db: Db, s: Slot): Option<AddrRow> {
    match TryLoad(db, s.account)
    case None => None
    case Some(source) =>
      match Derive(env, source, s.scope, s.index)
      case None => None
      case Some(d) => Some(AddrRow(d.sk, d.pk, d.address, false))
  }

  // ---------------------------------------------------------------------
  // The internal-change flag

  datatype HwKind = SoftwareHw | Zondax | Official

  function FromHw(hw: nat): HwKind {
    if hw == 1 then Zondax else if hw == 2 then Official else SoftwareHw
  }

  predicate IncomingOnly(db: Db, a: nat) {
    || (a in db.tkeys && db.tkeys[a].xvk.None? && db.tkeys[a].ivk.Some?)
    || (a in db.skeys && db.skeys[a].xvk.None? && db.skeys[a].ivk.Some?)
    || (a in db.okeys && db.okeys[a].xvk.None? && db.okeys[a].ivk.Some?)
  }

  predicate SingleKey(db: Db, a: nat) {
    a in db.tkeys && db.tkeys[a].xsk.None? && db.tkeys[a].xvk.None? && db.tkeys[a].ivk.None?
  }

  /** The only setting the account's key allows, when it fixes one. */
  function FixedUseInternal(db: Db, a: nat): Option<bool>
    requires a in db.accounts
  {
    match FromHw(db.accounts[a].hw)
    case Official => Some(true)
    case Zondax => Some(false)
    case SoftwareHw => if SingleKey(db, a) || IncomingOnly(db, a) then Some(false) else None
  }

  /** The condition of the query that clears the flag at open. */
  predicate Unusable(db: Db, a: nat)
    requires a in db.accounts
  {
    && db.accounts[a].hw == 0
    && ((a in db.tkeys && db.tkeys[a].xvk.None? && (db.tkeys[a].ivk.Some? || db.tkeys[a].xsk.None?))
      || (a in db.skeys && db.skeys[a].xvk.None? && db.skeys[a].ivk.Some?)
      || (a in db.okeys && db.okeys[a].xvk.None? && db.okeys[a].ivk.Some?))
  }

  /** The two queries agree on every software account: open clears the flag
      exactly where an edit could not set it. */
  lemma QueriesAgree(db: Db, a: nat)
    requires a in db.accounts && db.accounts[a].hw == 0
    ensures Unusable(db, a) <==> FixedUseInternal(db, a) == Some(false)
    ensures Unusable(db, a) || FixedUseInternal(db, a) == None
  {}

  // ---------------------------------------------------------------------
  // State changes

  /** db' is db with the missing ones of these slots filled in, each as the
      account's own source derives it, and nothing else changed. */
  ghost predicate Adds(env: Env, db: Db, db': Db, slots: set<Slot>) {
    && db'.(addrs := db.addrs) == db
    && db'.addrs.Keys == db.addrs.Keys + slots
    && (forall s :: s in db.addrs ==> db'.addrs[s] == db.addrs[s])
    && (forall s :: s in slots && s !in db.addrs ==> DeriveFor(env, db, s) == Some(db'.addrs[s]))
  }

  ghost predicate AllDerivable(env: Env, db: Db, slots: set<Slot>) {
    forall s :: s in slots && s !in db.addrs ==> DeriveFor(env, db, s).Some?
  }

  lemma AddsCompose(env: Env, a: Db, b: Db, c: Db, s: set<Slot>, t: set<Slot>)
    requires Adds(env, a, b, s) && Adds(env, b, c, t)
    ensures Adds(env, a, c, s + t)
  {
    SameSources(env, a, b, s);
    hide DeriveFor;
  }

  /** Adding addresses changes no source. */
  lemma SameSources(env: Env, db: Db, db': Db, slots: set<Slot>)
    requires Adds(env, db, db', slots)
    ensures forall s :: DeriveFor(env, db', s) == DeriveFor(env, db, s)
  {}

  /** Adding addresses changes no account and no key. */
  lemma AddsElsewhere(env: Env, db: Db, db': Db, slots: set<Slot>, a: nat)
    requires Adds(env, db, db', slots)
    ensures db'.accounts == db.accounts && TryLoad(db', a) == TryLoad(db, a)
  {}

  lemma AddsOne(env: Env, db: Db, slot: Slot, row: AddrRow)
    requires slot !in db.addrs && DeriveFor(env, db, slot) == Some(row)
    ensures Adds(env, db, db.(addrs := db.addrs[slot := row]), {slot})
    ensures |db.addrs[slot := row]| == |db.addrs| + 1
  {}

  predicate NeedsPairs(db: Db, a: nat) {
    a in db.accounts && db.accounts[a].useInternal && TryLoad(db, a).Some? && TryLoad(db, a).value.Software?
  }

  /** The change counterparts of the account's external addresses. */
  function InternalSlots(db: Db, a: nat): set<Slot> {
    if NeedsPairs(db, a) then set s | s in db.addrs && s.account == a && s.scope == 0 :: Slot(a, 1, s.index)
    else {}
  }

  function AllInternalSlots(db: Db): set<Slot> {
    set s | s in db.addrs && s.scope == 0 && NeedsPairs(db, s.account) :: Slot(s.account, 1, s.index)
  }

  function Cleared(db: Db): Db {
    db.(accounts := map a | a in db.accounts :: if Unusable(db, a)
      then db.accounts[a].(useInternal := false) else db.accounts[a])
  }

  /** No software account whose key has no change chain has the flag on. */
  ghost predicate FlagsUsable(db: Db) {
    forall a :: a in db.accounts && Unusable(db, a) ==> !db.accounts[a].useInternal
  }

  /** Every account with software keys and the flag on has a change address
      for each external one. */
  ghost predicate Paired(db: Db) {
    forall s :: s in db.addrs && s.scope == 0 && NeedsPairs(db, s.account) ==> Slot(s.account, 1, s.index) in db.addrs
  }

  /** From any database: a successful open establishes both, and a second one
      changes nothing. */
  lemma OpenRepairs(env: Env, db: Db, db': Db)
    requires Adds(env, Cleared(db), db', AllInternalSlots(Cleared(db)))
    ensures FlagsUsable(db') && Paired(db')
    ensures Cleared(db') == db' && AllDerivable(env, db', AllInternalSlots(db'))
    ensures forall db'' :: Adds(env, Cleared(db'), db'', AllInternalSlots(Cleared(db'))) ==> db'' == db'
  {
    forall s | s in db'.addrs && s.scope == 0 && NeedsPairs(db', s.account)
      ensures Slot(s.account, 1, s.index) in db'.addrs
    {
      assert s in Cleared(db).addrs;
    }
    PairedIsFixed(env, db');
  }

  lemma PairedIsFixed(env: Env, db: Db)
    requires FlagsUsable(db) && Paired(db)
    ensures Cleared(db) == db && AllInternalSlots(db) <= db.addrs.Keys
    ensures forall db' :: Adds(env, db, db', AllInternalSlots(db)) ==> db' == db
  {
    assert Cleared(db).accounts == db.accounts;
    forall db' | Adds(env, db, db', AllInternalSlots(db))
      ensures db' == db
    {
      assert db'.addrs == db.addrs;
    }
  }

  // ---------------------------------------------------------------------
  // New accounts

  /** What a key string is classified as. `Full` is a seed phrase, an extended
      private or public key, a Sapling key or a full viewing key. */
  datatype KeySource =
    | Full(xvk: Option<Key>, xsk: Option<Key>, sapling: Option<Key>, orchard: Option<Key>, dindex: nat)
    | IncomingKeys(ivk: Option<Key>, sapling: Option<Key>, orchard: Option<Key>, dindex: nat)
    | Single(row: AddrRow)
    | ZondaxDevice(transparent: bool, fvk: Option<Key>, address: string, aindex: nat)
    | OfficialDevice(xvk: Option<Key>, orchard: Option<Key>, aindex: nat)

  function ResolveUseInternal(hw: HwKind, source: KeySource, requested: Option<bool>): Option<bool> {
    var fixed :=
      if hw.Official? then Some(true)
      else if hw.Zondax? || source.IncomingKeys? || source.Single? then Some(false)
      else None;
    if fixed.Some? && requested.Some? && requested != fixed then None
    else if fixed.Some? then fixed
    else if requested.Some? then requested
    else Some(true)
  }

  /** Which sources each kind of wallet accepts. */
  ghost predicate Classified(hw: HwKind, source: KeySource) {
    match source
    case Full(xvk, _, _, _, _) => hw.Zondax? ==> xvk.None?
    case IncomingKeys(_, _, _, _) => hw.SoftwareHw?
    case Single(_) => hw.SoftwareHw?
    case ZondaxDevice(_, _, _, _) => hw.Zondax?
    case OfficialDevice(_, _, _) => hw.Official?
  }

  function NewAccountRow(source: KeySource, useInternal: bool): Account {
    match source
    case Full(_, _, _, _, dindex) => Account(0, 0, dindex, useInternal)
    case IncomingKeys(_, _, _, dindex) => Account(0, 0, dindex, useInternal)
    case Single(_) => Account(0, 0, 0, useInternal)
    case ZondaxDevice(_, _, _, aindex) => Account(1, aindex, 0, useInternal)
    case OfficialDevice(_, _, aindex) => Account(2, aindex, 0, useInternal)
  }

  function NewTKeys(source: KeySource): Option<TKeys> {
    match source
    case Full(xvk, xsk, _, _, _) => if xvk.Some? then Some(TKeys(xsk, xvk, None)) else None
    case IncomingKeys(ivk, _, _, _) => if ivk.Some? then Some(TKeys(None, None, ivk)) else None
    case Single(_) => Some(TKeys(None, None, None))
    case ZondaxDevice(transparent, _, _, _) => if transparent then Some(TKeys(None, None, None)) else None
    case OfficialDevice(xvk, _, _) => if xvk.Some? then Some(TKeys(None, xvk, None)) else None
  }

  /** The Sapling keys and address, or None when there is no address at the
      default index. */
  function NewSKeys(env: Env, source: KeySource): Option<Option<SKeys>> {
    match source
    case Full(_, _, sapling, _, dindex) =>
      if sapling.None? then Some(None)
      else
        var address := env.saplingAt(sapling.value, dindex);
        if address.None? then None else Some(Some(SKeys(sapling, None, address.value)))
    case IncomingKeys(_, sapling, _, dindex) =>
      if sapling.None? then Some(None)
      else
        var address := env.saplingIncomingAt(sapling.value, dindex);
        if address.None? then None else Some(Some(SKeys(None, sapling, address.value)))
    case ZondaxDevice(_, fvk, address, _) => Some(if fvk.None? then None else Some(SKeys(fvk, None, address)))
    case _ => Some(None)
  }

  function NewOKeys(source: KeySource): Option<OKeys> {
    match source
    case Full(_, _, _, orchard, _) => if orchard.None? then None else Some(OKeys(orchard, None))
    case IncomingKeys(_, _, orchard, _) => if orchard.None? then None else Some(OKeys(None, orchard))
    case OfficialDevice(_, orchard, _) => if orchard.None? then None else Some(OKeys(orchard, None))
    case _ => None
  }

  function Put<T>(m: map<nat, T>, a: nat, v: Option<T>): map<nat, T> {
    if v.None? then m else m[a := v.value]
  }

  /** The account row and its keys, before any address. */
  function WithAccount(db: Db, a: nat, source: KeySource, skeys: Option<SKeys>, useInternal: bool): Db {
    Db(db.accounts[a := NewAccountRow(source, useInternal)],
       Put(db.tkeys, a, NewTKeys(source)), Put(db.skeys, a, skeys), Put(db.okeys, a, NewOKeys(source)),
       if source.Single? then db.addrs[Slot(a, 0, 0) := source.row] else db.addrs)
  }

  /** The addresses at index 0 and at the default index, with their change
      counterparts when the flag is on. */
  function NewSlots(a: nat, source: KeySource, useInternal: bool): set<Slot> {
    var d := NewAccountRow(source, useInternal).dindex;
    if source.Single? || NewTKeys(source).None? then {}
    else {Slot(a, 0, 0), Slot(a, 0, d)} + if useInternal then {Slot(a, 1, 0), Slot(a, 1, d)} else {}
  }

  ghost predicate NewAccountStep(env: Env, db: Db, a: nat, hw: HwKind, source: KeySource, requested: Option<bool>,
                                 db': Db) {
    && a !in db.accounts && Classified(hw, source)
    && NewSKeys(env, source).Some? && ResolveUseInternal(hw, source, requested).Some?
    && var useInternal := ResolveUseInternal(hw, source, requested).value;
       Adds(env, WithAccount(db, a, source, NewSKeys(env, source).value, useInternal), db',
            NewSlots(a, source, useInternal))
  }

  // ---------------------------------------------------------------------
  // The next index and the flag

  const INDEXES: nat := 0x1_0000_0000

  /** The first valid Sapling index at or after `from`, with its address. */
  function FindSapling(env: Env, key: Key, from: nat): (r: Option<(nat, string)>)
    ensures r.Some? ==> from <= r.value.0 < INDEXES && env.saplingAt(key, r.value.0) == Some(r.value.1)
    ensures r.Some? ==> forall i: nat :: from <= i < r.value.0 ==> env.saplingAt(key, i).None?
    ensures r.None? ==> forall i: nat :: from <= i < INDEXES ==> env.saplingAt(key, i).None?
    decreases INDEXES - from
  {
    if from >= INDEXES then None
    else if env.saplingAt(key, from).Some? then Some((from, env.saplingAt(key, from).value))
    else FindSapling(env, key, from + 1)
  }

  /** The next index, and the new Sapling address if it changes. */
  function NextIndex(env: Env, db: Db, a: nat): Option<(nat, Option<string>)>
    requires a in db.accounts
  {
    var acct := db.accounts[a];
    if acct.dindex + 1 >= INDEXES then None
    else if a in db.skeys && db.skeys[a].xvk.Some? then
      var found := if acct.hw != 0 then env.deviceNext(acct.hw, acct.aindex, acct.dindex + 1)
                   else FindSapling(env, db.skeys[a].xvk.value, acct.dindex + 1);
      if found.None? then None else Some((found.value.0, Some(found.value.1)))
    else Some((acct.dindex + 1, None))
  }

  function WithIndex(db: Db, a: nat, index: nat, address: Option<string>): Db
    requires a in db.accounts && (address.Some? ==> a in db.skeys)
  {
    db.(accounts := db.accounts[a := db.accounts[a].(dindex := index)],
        skeys := if address.None? then db.skeys else db.skeys[a := db.skeys[a].(address := address.value)])
  }

  function IndexSlots(db: Db, a: nat, index: nat): set<Slot>
    requires a in db.accounts
  {
    if TryLoad(db, a).None? then {}
    else {Slot(a, 0, index)} + if db.accounts[a].useInternal then {Slot(a, 1, index)} else {}
  }

  /** The external address is derived whether it is stored or not. */
  predicate ExternalDerives(env: Env, db: Db, a: nat, index: nat) {
    TryLoad(db, a).Some? ==> DeriveFor(env, db, Slot(a, 0, index)).Some?
  }

  ghost predicate NextIndexStep(env: Env, db: Db, a: nat, db': Db) {
    && a in db.accounts && NextIndex(env, db, a).Some?
    && var (index, address) := NextIndex(env, db, a).value;
       ExternalDerives(env, db, a, index) && Adds(env, WithIndex(db, a, index, address), db', IndexSlots(db, a, index))
  }

  function WithFlag(db: Db, a: nat, flag: bool): Db
    requires a in db.accounts
  {
    db.(accounts := db.accounts[a := db.accounts[a].(useInternal := flag)])
  }

  ghost predicate SetFlagStep(env: Env, db: Db, a: nat, flag: bool, db': Db) {
    && a in db.accounts
    && (FixedUseInternal(db, a).Some? ==> FixedUseInternal(db, a) == Some(flag))
    && Adds(env, WithFlag(db, a, flag), db', InternalSlots(WithFlag(db, a, flag), a))
  }

  ghost predicate OpenStep(env: Env, db: Db, db': Db) {
    Adds(env, Cleared(db), db', AllInternalSlots(Cleared(db)))
  }

  // ---------------------------------------------------------------------
  // Every reachable wallet

  /** The transparent account has a key source. */
  ghost predicate Pays(db: Db, a: nat) {
    a in db.accounts && a in db.tkeys && TryLoad(db, a).Some?
  }

  ghost predicate Good(env: Env, db: Db) {
    && Belongs(db) && FixedFlags(db) && Paired(db) && Current(db) && AllDerived(env, db) && SaplingCurrent(env, db)
  }

  /** Keys and addresses belong to accounts of the three kinds. */
  ghost predicate Belongs(db: Db) {
    && db.tkeys.Keys <= db.accounts.Keys && db.skeys.Keys <= db.accounts.Keys && db.okeys.Keys <= db.accounts.Keys
    && (forall s :: s in db.addrs ==> s.account in db.accounts)
    && (forall a :: a in db.accounts ==> db.accounts[a].hw <= 2)
  }

  /** Where the key fixes the flag, the flag is so. */
  ghost predicate FixedFlags(db: Db) {
    forall a :: a in db.accounts && FixedUseInternal(db, a).Some?
      ==> db.accounts[a].useInternal == FixedUseInternal(db, a).value
  }

  /** Each transparent account has its address at the current index, and the
      change counterpart when the flag is on. */
  ghost predicate Current(db: Db) {
    forall a :: Pays(db, a) ==>
      && Slot(a, 0, db.accounts[a].dindex) in db.addrs
      && (db.accounts[a].useInternal ==> Slot(a, 1, db.accounts[a].dindex) in db.addrs)
  }

  /** Every stored address of an account with a key source is what the source
      derives at its scope and index. */
  ghost predicate AllDerived(env: Env, db: Db) {
    forall s :: s in db.addrs && TryLoad(db, s.account).Some? ==> DeriveFor(env, db, s) == Some(db.addrs[s])
  }

  /** With a full software Sapling key, the stored Sapling address is the one
      at the current index. */
  ghost predicate SaplingCurrent(env: Env, db: Db) {
    forall a :: a in db.accounts && a in db.skeys && db.accounts[a].hw == 0 && db.skeys[a].xvk.Some?
      ==> env.saplingAt(db.skeys[a].xvk.value, db.accounts[a].dindex) == Some(db.skeys[a].address)
  }

  lemma FixedFlagsAreUsable(db: Db)
    requires FixedFlags(db)
    ensures FlagsUsable(db)
  {
    forall a | a in db.accounts && Unusable(db, a)
      ensures !db.accounts[a].useInternal
    {
      QueriesAgree(db, a);
    }
  }

  /** The part of `Good` that filling in slots cannot break. */
  ghost predicate Sound(env: Env, db: Db) {
    Belongs(db) && FixedFlags(db) && AllDerived(env, db) && SaplingCurrent(env, db)
  }

  lemma AddsKeepsSound(env: Env, db: Db, db': Db, slots: set<Slot>)
    requires Sound(env, db) && Adds(env, db, db', slots) && forall s :: s in slots ==> s.account in db.accounts
    ensures Sound(env, db')
  {
    hide DeriveFor;
    forall a | a in db'.accounts
      ensures FixedUseInternal(db', a) == FixedUseInternal(db, a)
    {}
    SameSources(env, db, db', slots);
  }

  /** `DeriveFor` reads the account's device and its transparent keys only. */
  lemma SameDerivation(env: Env, db: Db, db': Db, s: Slot)
    requires TryLoad(db', s.account) == TryLoad(db, s.account)
    ensures DeriveFor(env, db', s) == DeriveFor(env, db, s)
  {}

  lemma WithFlagIsSound(env: Env, db: Db, a: nat, flag: bool)
    requires Sound(env, db) && a in db.accounts
    requires FixedUseInternal(db, a).Some? ==> FixedUseInternal(db, a) == Some(flag)
    ensures Sound(env, WithFlag(db, a, flag))
  {
    hide DeriveFor;
    var db1 := WithFlag(db, a, flag);
    forall b | b in db1.accounts && FixedUseInternal(db1, b).Some?
      ensures db1.accounts[b].useInternal == FixedUseInternal(db1, b).value
    {
      assert FixedUseInternal(db1, b) == FixedUseInternal(db, b);
    }
    forall s | s in db1.addrs && TryLoad(db1, s.account).Some?
      ensures DeriveFor(env, db1, s) == Some(db1.addrs[s])
    {
      SameDerivation(env, db, db1, s);
    }
  }

  lemma SetFlagKeepsGood(env: Env, db: Db, a: nat, flag: bool, db': Db)
    requires Good(env, db) && SetFlagStep(env, db, a, flag, db')
    ensures Good(env, db')
  {
    WithFlagIsSound(env, db, a, flag);
    AddsKeepsSound(env, WithFlag(db, a, flag), db', InternalSlots(WithFlag(db, a, flag), a));
    SetFlagKeepsPairs(env, db, a, flag, db');
  }

  lemma SetFlagKeepsPairs(env: Env, db: Db, a: nat, flag: bool, db': Db)
    requires FixedFlags(db) && Paired(db) && Current(db) && Belongs(db) && SetFlagStep(env, db, a, flag, db')
    ensures Paired(db') && Current(db')
  {
    var db1 := WithFlag(db, a, flag);
    forall b
      ensures TryLoad(db', b) == TryLoad(db, b)
    {}
    forall s | s in db'.addrs && s.scope == 0 && NeedsPairs(db', s.account)
      ensures Slot(s.account, 1, s.index) in db'.addrs
    {
      assert s in db.addrs;
      if s.account == a {
        assert Slot(a, 1, s.index) in InternalSlots(db1, a);
      } else {
        assert NeedsPairs(db, s.account);
      }
    }
    forall b | Pays(db', b)
      ensures Slot(b, 0, db'.accounts[b].dindex) in db'.addrs
      ensures db'.accounts[b].useInternal ==> Slot(b, 1, db'.accounts[b].dindex) in db'.addrs
    {
      assert Pays(db, b);
      if b == a && flag && TryLoad(db, a).value.Software? {
        assert NeedsPairs(db', a);
      }
    }
  }

  lemma WithIndexIsCurrent(env: Env, db: Db, a: nat)
    requires SaplingCurrent(env, db) && a in db.accounts && NextIndex(env, db, a).Some?
    ensures SaplingCurrent(env, WithIndex(db, a, NextIndex(env, db, a).value.0, NextIndex(env, db, a).value.1))
  {}

  lemma WithIndexIsSound(env: Env, db: Db, a: nat)
    requires Sound(env, db) && a in db.accounts && NextIndex(env, db, a).Some?
    ensures Sound(env, WithIndex(db, a, NextIndex(env, db, a).value.0, NextIndex(env, db, a).value.1))
  {
    WithIndexIsCurrent(env, db, a);
    hide DeriveFor, SaplingCurrent, NextIndex;
    var db1 := WithIndex(db, a, NextIndex(env, db, a).value.0, NextIndex(env, db, a).value.1);
    forall b | b in db1.accounts && FixedUseInternal(db1, b).Some?
      ensures db1.accounts[b].useInternal == FixedUseInternal(db1, b).value
    {
      assert FixedUseInternal(db1, b) == FixedUseInternal(db, b);
    }
    forall s | s in db1.addrs && TryLoad(db1, s.account).Some?
      ensures DeriveFor(env, db1, s) == Some(db1.addrs[s])
    {
      SameDerivation(env, db, db1, s);
    }
  }

  lemma NextIndexKeepsPairs(env: Env, db: Db, a: nat, db': Db)
    requires Paired(db) && Current(db) && NextIndexStep(env, db, a, db')
    ensures Paired(db') && Current(db')
  {
    forall b
      ensures TryLoad(db', b) == TryLoad(db, b)
    {}
    forall s | s in db'.addrs && s.scope == 0 && NeedsPairs(db', s.account)
      ensures Slot(s.account, 1, s.index) in db'.addrs
    {
      assert NeedsPairs(db, s.account);
      assert s in db.addrs || s in IndexSlots(db, a, NextIndex(env, db, a).value.0);
    }
    forall b | Pays(db', b)
      ensures Slot(b, 0, db'.accounts[b].dindex) in db'.addrs
      ensures db'.accounts[b].useInternal ==> Slot(b, 1, db'.accounts[b].dindex) in db'.addrs
    {
      assert Pays(db, b);
    }
  }

  lemma NextIndexKeepsGood(env: Env, db: Db, a: nat, db': Db)
    requires Good(env, db) && NextIndexStep(env, db, a, db')
    ensures Good(env, db')
  {
    var (index, address) := NextIndex(env, db, a).value;
    WithIndexIsSound(env, db, a);
    AddsKeepsSound(env, WithIndex(db, a, index, address), db', IndexSlots(db, a, index));
    NextIndexKeepsPairs(env, db, a, db');
  }

  lemma OpenKeepsGood(env: Env, db: Db, db': Db)
    requires Good(env, db) && OpenStep(env, db, db')
    ensures db' == db
  {
    FixedFlagsAreUsable(db);
    PairedIsFixed(env, db);
  }

  lemma NewAccountKeepsGood(env: Env, db: Db, a: nat, hw: HwKind, source: KeySource, requested: Option<bool>, db': Db)
    requires Good(env, db) && NewAccountStep(env, db, a, hw, source, requested, db')
    ensures Good(env, db')
  {
    var useInternal := ResolveUseInternal(hw, source, requested).value;
    var db1 := WithAccount(db, a, source, NewSKeys(env, source).value, useInternal);
    NewAccountIsSound(env, db, a, hw, source, requested);
    AddsKeepsSound(env, db1, db', NewSlots(a, source, useInternal));
    NewAccountIsPaired(env, db, a, hw, source, requested, db');
  }

  /** The two databases agree on every account but a. */
  ghost predicate SameBut(db: Db, db': Db, a: nat) {
    && (forall b :: b != a ==> (b in db'.accounts <==> b in db.accounts))
    && (forall b :: b != a && b in db.accounts ==> db'.accounts[b] == db.accounts[b])
    && (forall b :: b != a ==> TryLoad(db', b) == TryLoad(db, b) && (b in db'.tkeys <==> b in db.tkeys))
    && (forall b :: b != a && b in db.accounts ==> FixedUseInternal(db', b) == FixedUseInternal(db, b))
  }

  lemma WithAccountSameBut(db: Db, a: nat, source: KeySource, skeys: Option<SKeys>, useInternal: bool)
    ensures SameBut(db, WithAccount(db, a, source, skeys, useInternal), a)
  {
    var db' := WithAccount(db, a, source, skeys, useInternal);
    forall b: nat | b != a
      ensures b in db'.accounts <==> b in db.accounts
      ensures b in db.accounts ==> db'.accounts[b] == db.accounts[b]
      ensures TryLoad(db', b) == TryLoad(db, b) && (b in db'.tkeys <==> b in db.tkeys)
      ensures b in db.accounts ==> FixedUseInternal(db', b) == FixedUseInternal(db, b)
    {
      WithAccountElsewhere(db, a, source, skeys, useInternal, b);
    }
  }

  lemma WithAccountElsewhere(db: Db, a: nat, source: KeySource, skeys: Option<SKeys>, useInternal: bool, b: nat)
    requires b != a
    ensures
      var db' := WithAccount(db, a, source, skeys, useInternal);
      && (b in db'.accounts <==> b in db.accounts)
      && (b in db.accounts ==> db'.accounts[b] == db.accounts[b])
      && TryLoad(db', b) == TryLoad(db, b) && (b in db'.tkeys <==> b in db.tkeys)
      && (b in db.accounts ==> FixedUseInternal(db', b) == FixedUseInternal(db, b))
  {}

  lemma WithAccountBelongs(db: Db, a: nat, source: KeySource, skeys: Option<SKeys>, useInternal: bool)
    requires Belongs(db) && a !in db.accounts
    ensures Belongs(WithAccount(db, a, source, skeys, useInternal))
    ensures TryLoad(WithAccount(db, a, source, skeys, useInternal), a).Some? ==> !source.Single?
  {}

  lemma NewAccountIsSound(env: Env, db: Db, a: nat, hw: HwKind, source: KeySource, requested: Option<bool>)
    requires Sound(env, db) && a !in db.accounts && Classified(hw, source)
    requires NewSKeys(env, source).Some? && ResolveUseInternal(hw, source, requested).Some?
    ensures
      var useInternal := ResolveUseInternal(hw, source, requested).value;
      Sound(env, WithAccount(db, a, source, NewSKeys(env, source).value, useInternal))
  {
    var useInternal := ResolveUseInternal(hw, source, requested).value;
    var db1 := WithAccount(db, a, source, NewSKeys(env, source).value, useInternal);
    WithAccountSameBut(db, a, source, NewSKeys(env, source).value, useInternal);
    WithAccountBelongs(db, a, source, NewSKeys(env, source).value, useInternal);
    NewFlagIsFixed(env, db, a, hw, source, requested);
    NewSaplingIsCurrent(env, db, a, source, useInternal);
    forall s | s in db1.addrs && TryLoad(db1, s.account).Some?
      ensures DeriveFor(env, db1, s) == Some(db1.addrs[s])
    {
      SameDerivation(env, db, db1, s);
    }
  }

  lemma NewFlagIsFixed(env: Env, db: Db, a: nat, hw: HwKind, source: KeySource, requested: Option<bool>)
    requires Belongs(db) && a !in db.accounts && Classified(hw, source)
    requires NewSKeys(env, source).Some? && ResolveUseInternal(hw, source, requested).Some?
    ensures
      var useInternal := ResolveUseInternal(hw, source, requested).value;
      var db1 := WithAccount(db, a, source, NewSKeys(env, source).value, useInternal);
      FixedUseInternal(db1, a).Some? ==> FixedUseInternal(db1, a) == Some(useInternal)
  {}

  lemma NewSaplingIsCurrent(env: Env, db: Db, a: nat, source: KeySource, useInternal: bool)
    requires Belongs(db) && SaplingCurrent(env, db) && a !in db.accounts && NewSKeys(env, source).Some?
    ensures SaplingCurrent(env, WithAccount(db, a, source, NewSKeys(env, source).value, useInternal))
  {}

  lemma NewAccountIsPaired(env: Env, db: Db, a: nat, hw: HwKind, source: KeySource, requested: Option<bool>, db': Db)
    requires Good(env, db) && NewAccountStep(env, db, a, hw, source, requested, db')
    ensures Paired(db') && Current(db')
  {
    var useInternal := ResolveUseInternal(hw, source, requested).value;
    var db1 := WithAccount(db, a, source, NewSKeys(env, source).value, useInternal);
    WithAccountSameBut(db, a, source, NewSKeys(env, source).value, useInternal);
    NewSlotsArePaired(env, db, db1, a, source, useInternal);
    PairsAppend(env, db, db1, db', a, NewSlots(a, source, useInternal));
  }

  lemma NewSlotsArePaired(env: Env, db: Db, db1: Db, a: nat, source: KeySource, useInternal: bool)
    requires Belongs(db) && a !in db.accounts && NewSKeys(env, source).Some?
    requires db1 == WithAccount(db, a, source, NewSKeys(env, source).value, useInternal)
    ensures Pays(db1, a) ==> Slot(a, 0, db1.accounts[a].dindex) in NewSlots(a, source, useInternal)
    ensures forall s :: s in NewSlots(a, source, useInternal) && s.scope == 0 && db1.accounts[a].useInternal ==>
      Slot(a, 1, s.index) in NewSlots(a, source, useInternal)
    ensures forall s :: s in NewSlots(a, source, useInternal) ==> s.account == a
    ensures forall s :: s in db1.addrs && s.account == a ==> TryLoad(db1, a).None?
  {}

  lemma PairsAppend(env: Env, db: Db, db1: Db, db': Db, a: nat, slots: set<Slot>)
    requires Belongs(db) && Paired(db) && Current(db) && a !in db.accounts
    requires a in db1.accounts && SameBut(db, db1, a) && Adds(env, db1, db', slots)
    requires forall s: Slot :: s.account != a ==> (s in db1.addrs <==> s in db.addrs)
    requires Pays(db1, a) ==> Slot(a, 0, db1.accounts[a].dindex) in slots
    requires forall s :: s in slots && s.scope == 0 && db1.accounts[a].useInternal ==> Slot(a, 1, s.index) in slots
    requires forall s :: s in slots ==> s.account == a
    requires forall s :: s in db1.addrs && s.account == a ==> TryLoad(db1, a).None?
    ensures Paired(db') && Current(db')
  {
    hide DeriveFor;
    forall b
      ensures TryLoad(db', b) == TryLoad(db1, b)
    {}
    forall s | s in db'.addrs && s.scope == 0 && NeedsPairs(db', s.account)
      ensures Slot(s.account, 1, s.index) in db'.addrs
    {
      if s.account != a {
        assert s in db.addrs && NeedsPairs(db, s.account);
      }
    }
    forall b | Pays(db', b)
      ensures Slot(b, 0, db'.accounts[b].dindex) in db'.addrs
      ensures db'.accounts[b].useInternal ==> Slot(b, 1, db'.accounts[b].dindex) in db'.addrs
    {
      if b != a {
        assert Pays(db, b);
      } else {
        assert Pays(db1, a);
      }
    }
  }

  datatype Step =
    | NewAccountOf(a: nat, hw: HwKind, source: KeySource, requested: Option<bool>)
    | NextIndexOf(a: nat)
    | SetFlagOf(a: nat, flag: bool)
    | Open

  ghost predicate Takes(env: Env, db: Db, step: Step, db': Db) {
    match step
    case NewAccountOf(a, hw, source, requested) => NewAccountStep(env, db, a, hw, source, requested, db')
    case NextIndexOf(a) => NextIndexStep(env, db, a, db')
    case SetFlagOf(a, flag) => SetFlagStep(env, db, a, flag, db')
    case Open => OpenStep(env, db, db')
  }

  const EMPTY := Db(map[], map[], map[], map[], map[])

  ghost predicate Run(env: Env, steps: seq<Step>, dbs: seq<Db>) {
    && |dbs| == |steps| + 1 && dbs[0] == EMPTY
    && forall i :: 0 <= i < |steps| ==> Takes(env, dbs[i], steps[i], dbs[i + 1])
  }

  lemma {:induction false} GoodAlways(env: Env, steps: seq<Step>, dbs: seq<Db>, n: nat)
    requires Run(env, steps, dbs) && n < |dbs|
    ensures Good(env, dbs[n])
  {
    if n > 0 {
      GoodAlways(env, steps, dbs, n - 1);
      assert Takes(env, dbs[n - 1], steps[n - 1], dbs[n]);
      match steps[n - 1]
      case NewAccountOf(a, hw, source, requested) =>
        NewAccountKeepsGood(env, dbs[n - 1], a, hw, source, requested, dbs[n]);
      case NextIndexOf(a) => NextIndexKeepsGood(env, dbs[n - 1], a, dbs[n]);
      case SetFlagOf(a, flag) => SetFlagKeepsGood(env, dbs[n - 1], a, flag, dbs[n]);
      case Open => OpenKeepsGood(env, dbs[n - 1], dbs[n]);
    }
  }

  /** The stored address that receives transparent change. */
  function TransparentChangeAddress(db: Db, a: nat, useInternal: bool, dindex: nat): Option<string> {
    var s := Slot(a, if useInternal then 1 else 0, dindex);
    if s in db.addrs then Some(db.addrs[s].address) else None
  }

  /** In every state of every run, the change address of an account with
      transparent keys is found, and it is the one its source derives. */
  lemma ChangeAddressIsFound(env: Env, steps: seq<Step>, dbs: seq<Db>, n: nat, a: nat)
    requires Run(env, steps, dbs) && n < |dbs| && Pays(dbs[n], a)
    ensures
      var acct := dbs[n].accounts[a];
      var derived := Derive(env, TryLoad(dbs[n], a).value, if acct.useInternal then 1 else 0, acct.dindex);
      && derived.Some?
      && TransparentChangeAddress(dbs[n], a, acct.useInternal, acct.dindex) == Some(derived.value.address)
  {
    GoodAlways(env, steps, dbs, n);
    var acct := dbs[n].accounts[a];
    var s := Slot(a, if acct.useInternal then 1 else 0, acct.dindex);
    assert s in dbs[n].addrs;
    assert DeriveFor(env, dbs[n], s) == Some(dbs[n].addrs[s]);
  }

  /** With full software Sapling keys the next index skips only indexes without
      a Sapling address, and the stored address follows it; with incoming
      Sapling keys alone the stored address stays behind. A device with a
      Sapling key gives the index and the address itself. */
  lemma NextIndexMoves(env: Env, db: Db, a: nat, db': Db)
    requires NextIndexStep(env, db, a, db')
    ensures db.accounts[a].hw == 0 && a in db.skeys && db.skeys[a].xvk.Some? ==>
      && db'.accounts[a].dindex > db.accounts[a].dindex
      && (forall i: nat :: db.accounts[a].dindex < i < db'.accounts[a].dindex
            ==> env.saplingAt(db.skeys[a].xvk.value, i).None?)
      && env.saplingAt(db.skeys[a].xvk.value, db'.accounts[a].dindex) == Some(db'.skeys[a].address)
    ensures !(a in db.skeys && db.skeys[a].xvk.Some?) ==>
      db'.accounts[a].dindex == db.accounts[a].dindex + 1 && db'.skeys == db.skeys
    ensures db.accounts[a].hw != 0 && a in db.skeys && db.skeys[a].xvk.Some? ==>
      env.deviceNext(db.accounts[a].hw, db.accounts[a].aindex, db.accounts[a].dindex + 1)
        == Some((db'.accounts[a].dindex, db'.skeys[a].address))
  {}

  /** Devices answer with an index at or after the one they are asked for. */
  ghost predicate DevicesMoveOn(env: Env) {
    forall hw, aindex, from :: env.deviceNext(hw, aindex, from).Some? ==>
      env.deviceNext(hw, aindex, from).value.0 >= from
  }

  lemma StepMoves(env: Env, db: Db, step: Step, db': Db, a: nat)
    requires DevicesMoveOn(env) && Takes(env, db, step, db') && a in db.accounts
    ensures a in db'.accounts
    ensures db'.accounts[a].dindex >= db.accounts[a].dindex + if step == NextIndexOf(a) then 1 else 0
  {
    match step
    case NewAccountOf(b, hw, source, requested) =>
    case NextIndexOf(b) => NextIndexMoves(env, db, b, db');
    case SetFlagOf(b, flag) =>
    case Open =>
  }

  /** Over every run an account's index never goes back, and each step to the
      next index moves it: no two of these steps end on the same index. */
  lemma {:induction false} NoIndexTwice(env: Env, steps: seq<Step>, dbs: seq<Db>, n: nat, m: nat, a: nat)
    requires DevicesMoveOn(env) && Run(env, steps, dbs) && n <= m < |dbs| && a in dbs[n].accounts
    ensures a in dbs[m].accounts && dbs[m].accounts[a].dindex >= dbs[n].accounts[a].dindex
    ensures n < m && steps[m - 1] == NextIndexOf(a) ==> dbs[m].accounts[a].dindex > dbs[n].accounts[a].dindex
    decreases m - n
  {
    if n < m {
      NoIndexTwice(env, steps, dbs, n, m - 1, a);
      assert Takes(env, dbs[m - 1], steps[m - 1], dbs[m]);
      StepMoves(env, dbs[m - 1], steps[m - 1], dbs[m], a);
    }
  }

  // ---------------------------------------------------------------------
  // The wallet

  datatype Error = NotDerivable | NoTransparentKey | NoAccount | Fixed(required: bool) | NoSaplingAddress

  class Wallet {
    var db: Db

    /** Stores the address of the slot when it is missing; false when it was
        there. */
    method EnsureTransparentAddress(env: Env, source: Source, slot: Slot) returns (r: Result<bool, Error>)
      requires TryLoad(db, slot.account) == Some(source)
      modifies this
      ensures r.Ok? ==> r.value == (slot !in old(db).addrs) && Adds(env, old(db), db, {slot})
      ensures r.Err? <==> slot !in old(db).addrs && DeriveFor(env, old(db), slot).None?
      ensures r.Err? ==> db == old(db)
      ensures |db.addrs| == |old(db).addrs| + if r == Ok(true) then 1 else 0
    {
      if slot in db.addrs {
        return Ok(false);
      }
      var d := Derive(env, source, slot.scope, slot.index);
      if d.None? {
        return Err(NotDerivable);
      }
      ghost var before := db;
      db := db.(addrs := db.addrs[slot := AddrRow(d.value.sk, d.value.pk, d.value.address, false)]);
      AddsOne(env, before, slot, AddrRow(d.value.sk, d.value.pk, d.value.address, false));
      r := Ok(true);
    }

    /** Fills in the missing ones of an account's slots, one at a time. */
    method FillSlots(env: Env, source: Source, slots: set<Slot>) returns (r: Result<nat, Error>)
      requires forall s :: s in slots ==> TryLoad(db, s.account) == Some(source)
      modifies this
      ensures r.Ok? ==> Adds(env, old(db), db, slots)
      ensures r.Ok? ==> r.value == |db.addrs| - |old(db).addrs|
      ensures r.Ok? <==> AllDerivable(env, old(db), slots)
      ensures r.Err? ==> exists part :: part <= slots && Adds(env, old(db), db, part)
    {
      var todo := slots;
      var added := 0;
      while todo != {}
        invariant Filling(env, old(db), db, slots, todo, added)
        decreases todo
      {
        var slot :| slot in todo;
        ghost var before := db;
        FillStep(env, old(db), before, slots, todo, added, slot);
        var e := EnsureTransparentAddress(env, source, slot);
        if e.Err? {
          FillStopped(env, old(db), before, slots, todo, added, slot);
          return Err(e.error);
        }
        FillAdded(env, old(db), before, db, slots, todo, added, slot);
        added := if e.value then added + 1 else added;
        todo := todo - {slot};
      }
      FillDone(env, old(db), db, slots, added);
      r := Ok(added);
    }

    /** Fills in the change counterpart of every external address of an
        account with software keys and the flag on. */
    method BackfillAccount(env: Env, a: nat) returns (r: Result<nat, Error>)
      modifies this
      ensures r.Ok? ==> Adds(env, old(db), db, InternalSlots(old(db), a))
      ensures r.Ok? ==> r.value == |db.addrs| - |old(db).addrs|
      ensures r.Ok? <==> AllDerivable(env, old(db), InternalSlots(old(db), a))
      ensures r.Err? ==> exists part :: part <= InternalSlots(old(db), a) && Adds(env, old(db), db, part)
    {
      var source := TryLoad(db, a);
      if source.None? || !source.value.Software? {
        return Ok(0);
      }
      if a !in db.accounts || !db.accounts[a].useInternal {
        return Ok(0);
      }
      r := FillSlots(env, source.value, InternalSlots(db, a));
    }

    /** Backfills every account that has the flag on and an external address. */
    method Backfill(env: Env) returns (r: Result<nat, Error>)
      modifies this
      ensures r.Ok? ==> Adds(env, old(db), db, AllInternalSlots(old(db)))
      ensures r.Ok? ==> r.value == |db.addrs| - |old(db).addrs|
      ensures r.Ok? <==> AllDerivable(env, old(db), AllInternalSlots(old(db)))
      ensures r.Err? ==> exists part :: part <= AllInternalSlots(old(db)) && Adds(env, old(db), db, part)
    {
      hide Filling, AllInternalSlots, SlotsOf, InternalSlots;
      var todo := set a | a in db.accounts && db.accounts[a].useInternal && HasExternal(db, a);
      var added := 0;
      FillBegin(env, db, todo);
      while todo != {}
        invariant Filling(env, old(db), db, AllInternalSlots(old(db)), SlotsOf(old(db), todo), added)
        decreases todo
      {
        var a :| a in todo;
        ghost var before := db;
        AccountStep(env, old(db), before, todo, added, a);
        var n := BackfillAccount(env, a);
        if n.Err? {
          AccountStopped(env, old(db), before, db, todo, added, a);
          return Err(n.error);
        }
        AccountAdded(env, old(db), before, db, todo, added, a);
        added := added + n.value;
        todo := todo - {a};
      }
      NoAccountLeft(old(db));
      FillDone(env, old(db), db, AllInternalSlots(old(db)), added);
      r := Ok(added);
    }

    /** The repair steps of opening a wallet, in their order. A failed open is
        not rolled back: the flags are cleared and some of the missing
        addresses are there. */
    method OpenDatabase(env: Env) returns (r: Result<nat, Error>)
      modifies this
      ensures r.Ok? ==> Adds(env, Cleared(old(db)), db, AllInternalSlots(Cleared(old(db))))
      ensures r.Ok? ==> FlagsUsable(db) && Paired(db)
      ensures r.Ok? <==> AllDerivable(env, Cleared(old(db)), AllInternalSlots(Cleared(old(db))))
      ensures r.Err? ==>
        exists part :: part <= AllInternalSlots(Cleared(old(db))) && Adds(env, Cleared(old(db)), db, part)
      ensures FlagsUsable(old(db)) && Paired(old(db)) ==> r == Ok(0) && db == old(db)
    {
      if FlagsUsable(db) && Paired(db) {
        PairedIsFixed(env, db);
      }
      db := Cleared(db);
      r := Backfill(env);
      if r.Ok? {
        OpenRepairs(env, old(db), db);
      }
    }

    method SetUseInternal(env: Env, a: nat, flag: bool) returns (r: Result<nat, Error>)
      modifies this
      ensures r.Ok? ==> SetFlagStep(env, old(db), a, flag, db)
      ensures r.Err? ==> db == old(db)
      ensures r.Ok? <==>
        && a in old(db).accounts && (FixedUseInternal(old(db), a).Some? ==> FixedUseInternal(old(db), a) == Some(flag))
        && AllDerivable(env, WithFlag(old(db), a, flag), InternalSlots(WithFlag(old(db), a, flag), a))
    {
      if a !in db.accounts {
        return Err(NoAccount);
      }
      var fixed := FixedUseInternal(db, a);
      if fixed.Some? && fixed.value != flag {
        return Err(Fixed(fixed.value));
      }
      var saved := db;
      db := WithFlag(db, a, flag);
      r := Ok(0);
      if flag {
        r := BackfillAccount(env, a);
      }
      if r.Err? {
        db := saved;
      }
    }

    /** Derives the account's address at an index and stores it unless it is
        there, then its change counterpart when the flag is on. */
    method StorePair(env: Env, a: nat, index: nat) returns (r: Result<bool, Error>)
      requires a in db.accounts
      modifies this
      ensures r.Ok? ==> Adds(env, old(db), db, IndexSlots(old(db), a, index))
      ensures r.Ok? <==>
        ExternalDerives(env, old(db), a, index) && AllDerivable(env, old(db), IndexSlots(old(db), a, index))
      ensures r.Err? ==> exists part :: part <= IndexSlots(old(db), a, index) && Adds(env, old(db), db, part)
    {
      hide Adds, AllDerivable, DeriveFor, TryLoad;
      ghost var db0 := db;
      var source := TryLoad(db, a);
      NothingToAdd(env, db);
      if source.None? {
        return Ok(false);
      }
      var external, internal := Slot(a, 0, index), Slot(a, 1, index);
      PairDerivable(env, db, a, index);
      r := StoreDerived(env, source.value, external);
      if r.Err? {
        return;
      }
      ghost var db1 := db;
      AddsElsewhere(env, db0, db1, {external}, a);
      SameSecondSlot(env, db0, db1, a, index);
      assert {external} <= IndexSlots(db0, a, index);
      if db.accounts[a].useInternal {
        r := EnsureTransparentAddress(env, source.value, internal);
        if r.Ok? {
          AddsCompose(env, db0, db1, db, {external}, {internal});
        }
      } else {
        assert {external} + {} == {external};
      }
    }

    /** Derives the address of a slot, and stores it unless one is there. */
    method StoreDerived(env: Env, source: Source, slot: Slot) returns (r: Result<bool, Error>)
      requires TryLoad(db, slot.account) == Some(source)
      modifies this
      ensures r.Ok? ==> Adds(env, old(db), db, {slot})
      ensures r.Ok? <==> DeriveFor(env, old(db), slot).Some?
      ensures r.Err? ==> db == old(db)
    {
      var d := Derive(env, source, slot.scope, slot.index);
      if d.None? {
        return Err(NotDerivable);
      }
      ghost var before := db;
      var row := AddrRow(d.value.sk, d.value.pk, d.value.address, false);
      if slot !in db.addrs {
        db := db.(addrs := db.addrs[slot := row]);
        AddsOne(env, before, slot, row);
        return Ok(true);
      }
      r := Ok(false);
    }

    method GenerateNextDindex(env: Env, a: nat) returns (r: Result<nat, Error>)
      modifies this
      ensures r.Ok? ==> NextIndexStep(env, old(db), a, db) && r.value == db.accounts[a].dindex
      ensures r.Ok? <==>
        && a in old(db).accounts && NextIndex(env, old(db), a).Some?
        && var (index, address) := NextIndex(env, old(db), a).value;
           && ExternalDerives(env, old(db), a, index)
           && AllDerivable(env, WithIndex(old(db), a, index, address), IndexSlots(old(db), a, index))
      ensures r.Err? ==> db == old(db)
    {
      if a !in db.accounts {
        return Err(NoAccount);
      }
      var next := NextIndex(env, db, a);
      if next.None? {
        return Err(NoSaplingAddress);
      }
      var saved := db;
      var (index, address) := next.value;
      db := WithIndex(db, a, index, address);
      IndexSlotsKept(db, saved, a, index);
      var e := StorePair(env, a, index);
      if e.Err? {
        db := saved;
        return Err(e.error);
      }
      r := Ok(index);
    }

    method NewAccount(env: Env, hw: HwKind, source: KeySource, requested: Option<bool>) returns (r: Result<nat, Error>)
      requires Belongs(db) && Classified(hw, source)
      modifies this
      ensures r.Ok? ==> NewAccountStep(env, old(db), r.value, hw, source, requested, db)
      ensures r.Ok? <==>
        && ResolveUseInternal(hw, source, requested).Some? && NewSKeys(env, source).Some?
        && NewDerivable(env, old(db), source, ResolveUseInternal(hw, source, requested).value)
      ensures r.Err? ==> db == old(db)
    {
      var useInternal, skeys := ResolveUseInternal(hw, source, requested), NewSKeys(env, source);
      if useInternal.None? {
        return Err(Fixed(hw.Official?));
      }
      if skeys.None? {
        return Err(NoSaplingAddress);
      }
      var saved, a := db, NextId(db.accounts.Keys);
      db := WithAccount(db, a, source, skeys.value, useInternal.value);
      if source.Single? || NewTKeys(source).None? {
        NothingToAdd(env, db);
        return Ok(a);
      }
      ghost var db1 := db;
      var d := db.accounts[a].dindex;
      NewSlotsAreIndexSlots(db, saved, a, source, skeys.value, useInternal.value);
      NewHasNoAddress(saved, a, source, skeys.value, useInternal.value);
      PairsDerivable(env, db1, a, 0, d);
      hide Adds, AllDerivable, DeriveFor, TryLoad, ExternalDerives, WithAccount, IndexSlots;
      var e := StorePair(env, a, 0);
      ghost var db2 := db;
      FirstPair(env, db1, a, 0);
      if e.Ok? {
        AddsElsewhere(env, db1, db2, IndexSlots(db1, a, 0), a);
        SecondPair(env, db1, db2, a, 0, d);
        IndexSlotsKept(db2, db1, a, d);
        e := StorePair(env, a, d);
      }
      if e.Err? {
        db := saved;
        return Err(e.error);
      }
      AddsCompose(env, db1, db2, db, IndexSlots(db1, a, 0), IndexSlots(db1, a, d));
      r := Ok(a);
    }
  }

  ghost predicate NoAddressOf(db: Db, a: nat) { forall s :: s in db.addrs ==> s.account != a }

  lemma NewHasNoAddress(db: Db, a: nat, source: KeySource, skeys: Option<SKeys>, useInternal: bool)
    requires Belongs(db) && a !in db.accounts && !source.Single?
    ensures NoAddressOf(WithAccount(db, a, source, skeys, useInternal), a)
  {}

  lemma PairsDerivable(env: Env, db: Db, a: nat, i: nat, j: nat)
    requires a in db.accounts
    ensures AllDerivable(env, db, IndexSlots(db, a, i) + IndexSlots(db, a, j))
      <==> AllDerivable(env, db, IndexSlots(db, a, i)) && AllDerivable(env, db, IndexSlots(db, a, j))
  {}

  lemma FirstPair(env: Env, db: Db, a: nat, i: nat)
    requires a in db.accounts && NoAddressOf(db, a)
    ensures AllDerivable(env, db, IndexSlots(db, a, i)) ==> ExternalDerives(env, db, a, i)
  {
    if TryLoad(db, a).Some? { assert Slot(a, 0, i) in IndexSlots(db, a, i); }
  }

  lemma SecondPair(env: Env, db: Db, db': Db, a: nat, i: nat, j: nat)
    requires a in db.accounts && NoAddressOf(db, a) && Adds(env, db, db', IndexSlots(db, a, i))
    ensures AllDerivable(env, db, IndexSlots(db, a, j))
      <==> ExternalDerives(env, db', a, j) && AllDerivable(env, db', IndexSlots(db', a, j))
  {
    assert TryLoad(db', a) == TryLoad(db, a);
    forall s: Slot | s.account == a
      ensures DeriveFor(env, db', s) == DeriveFor(env, db, s)
      ensures s in db'.addrs <==> s in IndexSlots(db, a, i)
    {}
    hide TryLoad;
    if TryLoad(db, a).Some? { assert Slot(a, 0, j) in IndexSlots(db, a, j); }
  }

  /** Every address of a new account with this source can be derived. */
  ghost predicate NewDerivable(env: Env, db: Db, source: KeySource, useInternal: bool)
    requires NewSKeys(env, source).Some?
  {
    var a := NextId(db.accounts.Keys);
    AllDerivable(env, WithAccount(db, a, source, NewSKeys(env, source).value, useInternal),
                 NewSlots(a, source, useInternal))
  }

  lemma PairDerivable(env: Env, db: Db, a: nat, index: nat)
    requires a in db.accounts && TryLoad(db, a).Some?
    ensures AllDerivable(env, db, IndexSlots(db, a, index)) <==>
      && (Slot(a, 0, index) in db.addrs || DeriveFor(env, db, Slot(a, 0, index)).Some?)
      && (db.accounts[a].useInternal ==> Slot(a, 1, index) in db.addrs || DeriveFor(env, db, Slot(a, 1, index)).Some?)
  {
    var slots := IndexSlots(db, a, index);
    assert Slot(a, 0, index) in slots;
    assert db.accounts[a].useInternal ==> Slot(a, 1, index) in slots;
  }

  lemma SameSecondSlot(env: Env, db: Db, db': Db, a: nat, index: nat)
    requires Adds(env, db, db', {Slot(a, 0, index)})
    ensures Slot(a, 1, index) in db'.addrs <==> Slot(a, 1, index) in db.addrs
    ensures DeriveFor(env, db', Slot(a, 1, index)) == DeriveFor(env, db, Slot(a, 1, index))
    ensures Slot(a, 0, index) in db.addrs || DeriveFor(env, db, Slot(a, 0, index)).Some?
  {}

  lemma NothingToAdd(env: Env, db: Db)
    ensures Adds(env, db, db, {}) && AllDerivable(env, db, {})
  {}

  lemma IndexSlotsKept(db: Db, db': Db, a: nat, index: nat)
    requires a in db.accounts && a in db'.accounts && TryLoad(db, a) == TryLoad(db', a)
    requires db.accounts[a].useInternal == db'.accounts[a].useInternal
    ensures IndexSlots(db, a, index) == IndexSlots(db', a, index)
  {}

  lemma NewSlotsAreIndexSlots(db: Db, before: Db, a: nat, source: KeySource, skeys: Option<SKeys>, useInternal: bool)
    requires db == WithAccount(before, a, source, skeys, useInternal)
    requires !source.Single? && NewTKeys(source).Some?
    ensures NewSlots(a, source, useInternal) == IndexSlots(db, a, 0) + IndexSlots(db, a, db.accounts[a].dindex)
  {
    assert TryLoad(db, a).Some?;
  }

  predicate HasExternal(db: Db, a: nat) {
    exists s :: s in db.addrs && s.account == a && s.scope == 0
  }

  /** Part of the slots is filled in, `todo` remains. */
  ghost predicate Filling(env: Env, first: Db, db: Db, slots: set<Slot>, todo: set<Slot>, added: int) {
    && todo <= slots
    && Adds(env, first, db, slots - todo)
    && added == |db.addrs| - |first.addrs|
  }

  lemma FillStep(env: Env, first: Db, db: Db, slots: set<Slot>, todo: set<Slot>, added: int, slot: Slot)
    requires Filling(env, first, db, slots, todo, added) && slot in todo
    ensures TryLoad(db, slot.account) == TryLoad(first, slot.account)
  {}

  lemma FillStopped(env: Env, first: Db, db: Db, slots: set<Slot>, todo: set<Slot>, added: int, slot: Slot)
    requires Filling(env, first, db, slots, todo, added) && slot in todo
    requires slot !in db.addrs && DeriveFor(env, db, slot).None?
    ensures !AllDerivable(env, first, slots)
    ensures exists part :: part <= slots && Adds(env, first, db, part)
  {
    SameSources(env, first, db, slots - todo);
    hide DeriveFor;
    assert slots - todo <= slots;
  }

  lemma FillAdded(env: Env, first: Db, db: Db, db': Db, slots: set<Slot>, todo: set<Slot>, added: int, slot: Slot)
    requires Filling(env, first, db, slots, todo, added) && slot in todo
    requires Adds(env, db, db', {slot})
    ensures Filling(env, first, db', slots, todo - {slot}, added + |db'.addrs| - |db.addrs|)
  {
    MoveOver(slots, todo, {slot});
    AddsCompose(env, first, db, db', slots - todo, {slot});
  }

  lemma MoveOver(slots: set<Slot>, todo: set<Slot>, moved: set<Slot>)
    requires moved <= todo <= slots
    ensures slots - todo + moved == slots - (todo - moved)
  {}

  lemma FillDone(env: Env, first: Db, db: Db, slots: set<Slot>, added: int)
    requires Filling(env, first, db, slots, {}, added)
    ensures Adds(env, first, db, slots) && AllDerivable(env, first, slots)
    ensures added == |db.addrs| - |first.addrs|
  {
    assert slots - {} == slots;
  }

  function SlotsOf(db: Db, accounts: set<nat>): set<Slot> {
    set s | s in db.addrs && s.scope == 0 && NeedsPairs(db, s.account) && s.account in accounts ::
      Slot(s.account, 1, s.index)
  }

  lemma FillBegin(env: Env, db: Db, todo: set<nat>)
    requires todo == set a | a in db.accounts && db.accounts[a].useInternal && HasExternal(db, a)
    ensures Filling(env, db, db, AllInternalSlots(db), SlotsOf(db, todo), 0)
  {
    assert SlotsOf(db, todo) == AllInternalSlots(db);
  }

  lemma NoAccountLeft(db: Db)
    ensures SlotsOf(db, {}) == {}
  {}

  lemma AccountStep(env: Env, first: Db, db: Db, todo: set<nat>, added: int, a: nat)
    requires Filling(env, first, db, AllInternalSlots(first), SlotsOf(first, todo), added) && a in todo
    ensures InternalSlots(db, a) == SlotsOf(first, {a})
    ensures AllDerivable(env, first, AllInternalSlots(first)) ==> AllDerivable(env, db, InternalSlots(db, a))
  {
    SameExternals(env, first, db, AllInternalSlots(first) - SlotsOf(first, todo), a);
    SlotsAmongAll(first, a);
    if AllDerivable(env, first, AllInternalSlots(first)) {
      StillDerivable(env, first, db, AllInternalSlots(first) - SlotsOf(first, todo), AllInternalSlots(first));
    }
    hide DeriveFor, SlotsOf, AllInternalSlots, InternalSlots, Adds;
  }

  lemma StillDerivable(env: Env, first: Db, db: Db, added: set<Slot>, slots: set<Slot>)
    requires Adds(env, first, db, added) && AllDerivable(env, first, slots)
    ensures AllDerivable(env, db, slots)
  {
    SameSources(env, first, db, added);
    hide DeriveFor;
  }

  lemma SlotsAmongAll(db: Db, a: nat)
    ensures SlotsOf(db, {a}) <= AllInternalSlots(db)
  {}

  lemma AccountStopped(env: Env, first: Db, db: Db, db': Db, todo: set<nat>, added: int, a: nat)
    requires Filling(env, first, db, AllInternalSlots(first), SlotsOf(first, todo), added) && a in todo
    requires exists part :: part <= SlotsOf(first, {a}) && Adds(env, db, db', part)
    ensures exists part :: part <= AllInternalSlots(first) && Adds(env, first, db', part)
  {
    var part :| part <= SlotsOf(first, {a}) && Adds(env, db, db', part);
    var before := AllInternalSlots(first) - SlotsOf(first, todo);
    AddsCompose(env, first, db, db', before, part);
    assert part <= AllInternalSlots(first);
    assert before + part <= AllInternalSlots(first);
  }

  lemma SameExternals(env: Env, first: Db, db: Db, added: set<Slot>, a: nat)
    requires Adds(env, first, db, added) && forall s :: s in added ==> s.scope == 1
    ensures InternalSlots(db, a) == SlotsOf(first, {a})
  {
    assert NeedsPairs(db, a) == NeedsPairs(first, a);
    assert forall s :: s in db.addrs && s.scope == 0 ==> s in first.addrs;
  }

  lemma AccountAdded(env: Env, first: Db, db: Db, db': Db, todo: set<nat>, added: int, a: nat)
    requires Filling(env, first, db, AllInternalSlots(first), SlotsOf(first, todo), added) && a in todo
    requires Adds(env, db, db', SlotsOf(first, {a}))
    ensures Filling(env, first, db', AllInternalSlots(first), SlotsOf(first, todo - {a}),
                    added + |db'.addrs| - |db.addrs|)
  {
    var all, rest, mine := AllInternalSlots(first), SlotsOf(first, todo), SlotsOf(first, {a});
    assert rest - mine == SlotsOf(first, todo - {a});
    MoveOver(all, rest, mine);
    AddsCompose(env, first, db, db', all - rest, mine);
  }
}
