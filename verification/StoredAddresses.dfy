/** What the steps of the wallet store, column by column: keys, flags, and each
    address with what its key or its device derives. */
module StoredAddresses {
  import opened Wrappers
  import opened RowIds
  import opened ChangeAddresses

  ghost predicate IsRow(d: Option<Derived>, row: AddrRow) {
    d.Some? && row == AddrRow(d.value.sk, d.value.pk, d.value.address, false)
  }

  /** The viewing key derives it, with the secret key if there is one; without a
      viewing key the incoming key does, for external addresses only; without
      either the device does, if there is one. */
  ghost predicate DerivesAs(env: Env, db: Db, s: Slot, row: AddrRow) {
    if s.account in db.tkeys && db.tkeys[s.account].xvk.Some? then
      IsRow(env.software(db.tkeys[s.account].xvk.value, db.tkeys[s.account].xsk, s.scope, s.index), row)
    else if s.account in db.tkeys && db.tkeys[s.account].ivk.Some? then
      s.scope == 0 && IsRow(env.incoming(db.tkeys[s.account].ivk.value, s.index), row)
    else
      && s.account in db.accounts && db.accounts[s.account].hw != 0
      && IsRow(env.device(db.accounts[s.account].hw, db.accounts[s.account].aindex, s.scope, s.index), row)
  }

  lemma DerivesIff(env: Env, db: Db, s: Slot, row: AddrRow)
    ensures DeriveFor(env, db, s) == Some(row) <==> DerivesAs(env, db, s, row)
  {}

  ghost predicate HasSource(db: Db, a: nat) {
    || (a in db.tkeys && (db.tkeys[a].xvk.Some? || db.tkeys[a].ivk.Some?))
    || (a in db.accounts && db.accounts[a].hw != 0)
  }

  /** Exactly these slots are stored, the old rows as they were and the new ones
      as they are derived. */
  ghost predicate Stores(env: Env, db: Db, db': Db, added: Slot -> bool) {
    && (forall s :: s in db'.addrs <==> s in db.addrs || added(s))
    && (forall s :: s in db.addrs ==> db'.addrs[s] == db.addrs[s])
    && (forall s :: s in db'.addrs && s !in db.addrs ==> DerivesAs(env, db', s, db'.addrs[s]))
  }

  lemma AddsStores(env: Env, db: Db, db': Db, slots: set<Slot>, added: Slot -> bool)
    requires Adds(env, db, db', slots) && forall s :: s in db.addrs || (s in slots <==> added(s))
    ensures Stores(env, db, db', added)
  {
    forall s | s in db'.addrs && s !in db.addrs
      ensures DerivesAs(env, db', s, db'.addrs[s])
    {
      SameSources(env, db, db', slots);
      DerivesIff(env, db', s, db'.addrs[s]);
    }
  }

  // ---------------------------------------------------------------------
  // The flag

  /** A kind of account that cannot choose has one setting; the others take what
      is asked for, or internal change if nothing is. */
  ghost predicate FlagFor(hw: HwKind, source: KeySource, requested: Option<bool>, flag: bool) {
    && (requested.Some? ==> flag == requested.value)
    && (if hw == Official then flag
        else if hw == Zondax || source.IncomingKeys? || source.Single? then !flag
        else requested.None? ==> flag)
  }

  lemma ResolveIff(hw: HwKind, source: KeySource, requested: Option<bool>, flag: bool)
    ensures ResolveUseInternal(hw, source, requested) == Some(flag) <==> FlagFor(hw, source, requested, flag)
  {}

  /** On a software account, the flag cannot be set when one of its pools has an
      incoming key and no viewing key, or its transparent pool no key at all. */
  ghost predicate NoChange(db: Db, a: nat) {
    || (a in db.tkeys && db.tkeys[a].xvk.None? && (db.tkeys[a].ivk.Some? || db.tkeys[a].xsk.None?))
    || (a in db.skeys && db.skeys[a].xvk.None? && db.skeys[a].ivk.Some?)
    || (a in db.okeys && db.okeys[a].xvk.None? && db.okeys[a].ivk.Some?)
  }

  ghost predicate MayHaveFlag(db: Db, a: nat, flag: bool)
    requires a in db.accounts
  {
    if db.accounts[a].hw == 1 then !flag
    else if db.accounts[a].hw == 2 then flag
    else flag ==> !NoChange(db, a)
  }

  /** Software accounts whose keys cannot make change may have the flag off
      only; the others may have either setting. */
  lemma FixedIff(db: Db, a: nat, flag: bool)
    requires a in db.accounts
    ensures (FixedUseInternal(db, a).Some? ==> FixedUseInternal(db, a) == Some(flag)) <==> MayHaveFlag(db, a, flag)
  {}

  lemma SetFlagStores(env: Env, db: Db, a: nat, flag: bool, db': Db)
    requires SetFlagStep(env, db, a, flag, db')
    ensures a in db.accounts && MayHaveFlag(db, a, flag)
    ensures db' == db.(accounts := db.accounts[a := db.accounts[a].(useInternal := flag)], addrs := db'.addrs)
    ensures Stores(env, db, db', (s: Slot) => s.account == a && s.scope == 1 && flag && Slot(a, 0, s.index) in db.addrs
                                              && a in db.tkeys && db.tkeys[a].xvk.Some?)
  {
    FixedIff(db, a, flag);
    var db1 := WithFlag(db, a, flag);
    forall s
      ensures s in InternalSlots(db1, a) <==>
        && s.account == a && s.scope == 1 && flag && Slot(a, 0, s.index) in db.addrs
        && a in db.tkeys && db.tkeys[a].xvk.Some?
    {
      if s.account == a && Slot(a, 0, s.index) in db.addrs { assert Slot(a, 0, s.index) in db1.addrs; }
    }
    AddsStores(env, db1, db', InternalSlots(db1, a),
      (s: Slot) => s.account == a && s.scope == 1 && flag && Slot(a, 0, s.index) in db.addrs
                   && a in db.tkeys && db.tkeys[a].xvk.Some?);
  }

  // ---------------------------------------------------------------------
  // Opening a wallet

  lemma OpenStores(env: Env, db: Db, db': Db)
    requires OpenStep(env, db, db')
    ensures db'.accounts.Keys == db.accounts.Keys
    ensures forall a :: a in db.accounts ==>
      db'.accounts[a] == if db.accounts[a].hw == 0 && NoChange(db, a) then db.accounts[a].(useInternal := false)
                         else db.accounts[a]
    ensures db'.tkeys == db.tkeys && db'.skeys == db.skeys && db'.okeys == db.okeys
    ensures Stores(env, db, db', (s: Slot) => s.scope == 1 && Slot(s.account, 0, s.index) in db.addrs
                                              && s.account in db'.accounts && db'.accounts[s.account].useInternal
                                              && s.account in db.tkeys && db.tkeys[s.account].xvk.Some?)
  {
    var db1 := Cleared(db);
    forall s
      ensures s in AllInternalSlots(db1) <==>
        && s.scope == 1 && Slot(s.account, 0, s.index) in db.addrs && s.account in db1.accounts
        && db1.accounts[s.account].useInternal && s.account in db.tkeys && db.tkeys[s.account].xvk.Some?
    {
      if Slot(s.account, 0, s.index) in db.addrs { assert Slot(s.account, 0, s.index) in db1.addrs; }
    }
    AddsStores(env, db1, db', AllInternalSlots(db1),
      (s: Slot) => s.scope == 1 && Slot(s.account, 0, s.index) in db.addrs
                   && s.account in db'.accounts && db'.accounts[s.account].useInternal
                   && s.account in db.tkeys && db.tkeys[s.account].xvk.Some?);
  }

  // ---------------------------------------------------------------------
  // The next index

  lemma NextIndexStores(env: Env, db: Db, a: nat, db': Db)
    requires NextIndexStep(env, db, a, db')
    ensures a in db.accounts && db'.accounts.Keys == db.accounts.Keys && a in db'.accounts
    ensures
      var index := db'.accounts[a].dindex;
      && db'.accounts == db.accounts[a := db.accounts[a].(dindex := index)]
      && db'.tkeys == db.tkeys && db'.okeys == db.okeys && db'.skeys.Keys == db.skeys.Keys
      && (forall b :: b in db.skeys && b != a ==> db'.skeys[b] == db.skeys[b])
      && (a in db.skeys ==> db'.skeys[a] == db.skeys[a].(address := db'.skeys[a].address))
      && Stores(env, db, db', (s: Slot) => s.account == a && s.index == index && HasSource(db, a)
                                           && (s.scope == 0 || (s.scope == 1 && db.accounts[a].useInternal)))
  {
    var (index, address) := NextIndex(env, db, a).value;
    var db1 := WithIndex(db, a, index, address);
    AddsStores(env, db1, db', IndexSlots(db, a, index),
      (s: Slot) => s.account == a && s.index == index && HasSource(db, a)
                   && (s.scope == 0 || (s.scope == 1 && db.accounts[a].useInternal)));
  }

  /** There is no next index past the last one, and none when neither the
      Sapling key nor the device has an address any more. */
  lemma NextIndexFailsIff(env: Env, db: Db, a: nat)
    requires a in db.accounts
    ensures NextIndex(env, db, a).None? <==>
      var from := db.accounts[a].dindex + 1;
      || from >= 0x1_0000_0000
      || (a in db.skeys && db.skeys[a].xvk.Some?
          && if db.accounts[a].hw == 0
             then forall i: nat :: from <= i < 0x1_0000_0000 ==> env.saplingAt(db.skeys[a].xvk.value, i).None?
             else env.deviceNext(db.accounts[a].hw, db.accounts[a].aindex, from).None?)
  {}

  // ---------------------------------------------------------------------
  // A new account

  /** The account and its keys in each pool. */
  ghost predicate KeysStored(env: Env, source: KeySource, flag: bool, account: Account, t: Option<TKeys>,
                             s: Option<SKeys>, o: Option<OKeys>) {
    match source
    case Full(xvk, xsk, sapling, orchard, dindex) =>
      && account == Account(0, 0, dindex, flag)
      && (if xvk.None? then t.None? else t == Some(TKeys(xsk, xvk, None)))
      && (if sapling.None? then s.None?
          else s.Some? && s.value.xvk == sapling && s.value.ivk.None?
               && env.saplingAt(sapling.value, dindex) == Some(s.value.address))
      && (if orchard.None? then o.None? else o == Some(OKeys(orchard, None)))
    case IncomingKeys(ivk, sapling, orchard, dindex) =>
      && account == Account(0, 0, dindex, flag)
      && (if ivk.None? then t.None? else t == Some(TKeys(None, None, ivk)))
      && (if sapling.None? then s.None?
          else s.Some? && s.value.xvk.None? && s.value.ivk == sapling
               && env.saplingIncomingAt(sapling.value, dindex) == Some(s.value.address))
      && (if orchard.None? then o.None? else o == Some(OKeys(None, orchard)))
    case Single(_) =>
      account == Account(0, 0, 0, flag) && t == Some(TKeys(None, None, None)) && s.None? && o.None?
    case ZondaxDevice(transparent, fvk, address, aindex) =>
      && account == Account(1, aindex, 0, flag)
      && (if transparent then t == Some(TKeys(None, None, None)) else t.None?)
      && (if fvk.None? then s.None? else s == Some(SKeys(fvk, None, address))) && o.None?
    case OfficialDevice(xvk, orchard, aindex) =>
      && account == Account(2, aindex, 0, flag)
      && (if xvk.None? then t.None? else t == Some(TKeys(None, xvk, None)))
      && s.None? && (if orchard.None? then o.None? else o == Some(OKeys(orchard, None)))
  }

  /** The scopes and indexes of its addresses. */
  ghost predicate HasAddress(source: KeySource, flag: bool, scope: nat, index: nat) {
    match source
    case Full(xvk, _, _, _, d) => xvk.Some? && (index == 0 || index == d) && (scope == 0 || (scope == 1 && flag))
    case IncomingKeys(ivk, _, _, d) => ivk.Some? && (index == 0 || index == d) && scope == 0
    case Single(_) => scope == 0 && index == 0
    case ZondaxDevice(transparent, _, _, _) => transparent && scope == 0 && index == 0
    case OfficialDevice(xvk, _, _) => xvk.Some? && scope <= 1 && index == 0
  }

  /** What an address of it is. */
  ghost predicate NewRow(env: Env, source: KeySource, scope: nat, index: nat, row: AddrRow) {
    match source
    case Full(xvk, xsk, _, _, _) => xvk.Some? && IsRow(env.software(xvk.value, xsk, scope, index), row)
    case IncomingKeys(ivk, _, _, _) => ivk.Some? && IsRow(env.incoming(ivk.value, index), row)
    case Single(r) => row == r
    case ZondaxDevice(_, _, _, aindex) => IsRow(env.device(1, aindex, scope, index), row)
    case OfficialDevice(xvk, _, _) => xvk.Some? && IsRow(env.software(xvk.value, None, scope, index), row)
  }

  function Get<T>(m: map<nat, T>, a: nat): Option<T> {
    if a in m then Some(m[a]) else None
  }

  lemma NewKeysStored(env: Env, db: Db, a: nat, source: KeySource, flag: bool)
    requires Belongs(db) && a !in db.accounts && NewSKeys(env, source).Some?
    ensures
      var db1 := WithAccount(db, a, source, NewSKeys(env, source).value, flag);
      KeysStored(env, source, flag, db1.accounts[a], Get(db1.tkeys, a), Get(db1.skeys, a), Get(db1.okeys, a))
  {}

  /** The account, its keys, and nothing of the other accounts. */
  lemma NewAccountStoresKeys(env: Env, db: Db, a: nat, hw: HwKind, source: KeySource, requested: Option<bool>, db': Db)
    returns (flag: bool)
    requires Belongs(db) && NewAccountStep(env, db, a, hw, source, requested, db')
    ensures FlagFor(hw, source, requested, flag) && a !in db.accounts && a in db'.accounts
    ensures KeysStored(env, source, flag, db'.accounts[a], Get(db'.tkeys, a), Get(db'.skeys, a), Get(db'.okeys, a))
    ensures forall b :: b != a ==>
      && Get(db'.accounts, b) == Get(db.accounts, b) && Get(db'.tkeys, b) == Get(db.tkeys, b)
      && Get(db'.skeys, b) == Get(db.skeys, b) && Get(db'.okeys, b) == Get(db.okeys, b)
  {
    flag := ResolveUseInternal(hw, source, requested).value;
    ResolveIff(hw, source, requested, flag);
    NewKeysStored(env, db, a, source, flag);
    hide KeysStored, NewAccountRow, NewTKeys, NewSKeys, NewOKeys, NewSlots, FlagFor, Belongs;
  }

  lemma NewSlotsIff(db: Db, a: nat, hw: HwKind, source: KeySource, skeys: Option<SKeys>, flag: bool, s: Slot)
    requires Belongs(db) && a !in db.accounts && Classified(hw, source) && s.account == a
    requires hw.Official? ==> flag
    requires hw.Zondax? || source.IncomingKeys? || source.Single? ==> !flag
    ensures var db1 := WithAccount(db, a, source, skeys, flag);
            s in db1.addrs || s in NewSlots(a, source, flag) <==> HasAddress(source, flag, s.scope, s.index)
    ensures s in NewSlots(a, source, flag) ==> s !in WithAccount(db, a, source, skeys, flag).addrs
  {}

  lemma NewRowIff(env: Env, db: Db, a: nat, source: KeySource, skeys: Option<SKeys>, flag: bool, s: Slot, row: AddrRow)
    requires Belongs(db) && a !in db.accounts && s in NewSlots(a, source, flag)
    requires source.IncomingKeys? ==> s.scope == 0
    ensures DeriveFor(env, WithAccount(db, a, source, skeys, flag), s) == Some(row)
      <==> NewRow(env, source, s.scope, s.index, row)
  {}

  /** Its addresses, each as its key or device derives it, and nothing of the
      other accounts. */
  lemma NewAccountStoresAddresses(env: Env, db: Db, a: nat, hw: HwKind, source: KeySource, requested: Option<bool>,
                                  db': Db, flag: bool)
    requires Belongs(db) && NewAccountStep(env, db, a, hw, source, requested, db')
    requires FlagFor(hw, source, requested, flag)
    ensures forall s: Slot :: s.account == a ==> (s in db'.addrs <==> HasAddress(source, flag, s.scope, s.index))
    ensures forall s: Slot :: s.account == a && s in db'.addrs ==>
      NewRow(env, source, s.scope, s.index, db'.addrs[s])
    ensures forall s: Slot :: s.account != a ==> (s in db'.addrs <==> s in db.addrs)
    ensures forall s: Slot :: s.account != a && s in db.addrs ==> db'.addrs[s] == db.addrs[s]
  {
    ResolveIff(hw, source, requested, flag);
    var skeys := NewSKeys(env, source).value;
    var db1 := WithAccount(db, a, source, skeys, flag);
    forall s: Slot | s.account == a
      ensures s in db'.addrs <==> HasAddress(source, flag, s.scope, s.index)
      ensures s in db'.addrs ==> NewRow(env, source, s.scope, s.index, db'.addrs[s])
    {
      NewSlotsIff(db, a, hw, source, skeys, flag, s);
      if s in NewSlots(a, source, flag) {
        NewRowIff(env, db, a, source, skeys, flag, s, db'.addrs[s]);
      } else if s in db1.addrs {
        OldSlot(db, a, source, skeys, flag, s);
      }
    }
    OthersKept(db, a, source, skeys, flag);
    hide WithAccount, NewSlots, HasAddress, NewRow, DeriveFor, Belongs;
  }

  lemma OldSlot(db: Db, a: nat, source: KeySource, skeys: Option<SKeys>, flag: bool, s: Slot)
    requires Belongs(db) && a !in db.accounts && s.account == a && s in WithAccount(db, a, source, skeys, flag).addrs
    ensures source == Single(WithAccount(db, a, source, skeys, flag).addrs[s])
  {}

  lemma OthersKept(db: Db, a: nat, source: KeySource, skeys: Option<SKeys>, flag: bool)
    ensures var db1 := WithAccount(db, a, source, skeys, flag);
            && (forall s: Slot :: s.account != a ==> (s in db1.addrs <==> s in db.addrs))
            && (forall s: Slot :: s.account != a && s in db.addrs ==> db1.addrs[s] == db.addrs[s])
            && forall s :: s in NewSlots(a, source, flag) ==> s.account == a
  {}

  /** A new account fails when another setting of the flag is asked for than the
      one it can have, or when its Sapling key has no address at its first
      index. */
  lemma NewAccountFailsIff(env: Env, hw: HwKind, source: KeySource, requested: Option<bool>)
    ensures ResolveUseInternal(hw, source, requested).None? <==>
      requested.Some? && !FlagFor(hw, source, requested, requested.value)
    ensures NewSKeys(env, source).None? <==>
      || (source.Full? && source.sapling.Some? && env.saplingAt(source.sapling.value, source.dindex).None?)
      || (source.IncomingKeys? && source.sapling.Some?
          && env.saplingIncomingAt(source.sapling.value, source.dindex).None?)
  {}

  /** Otherwise it fails when one of its addresses cannot be derived. */
  lemma NewDerivableIff(env: Env, db: Db, hw: HwKind, source: KeySource, requested: Option<bool>, flag: bool)
    requires Belongs(db) && Classified(hw, source) && NewSKeys(env, source).Some?
    requires FlagFor(hw, source, requested, flag)
    ensures NewDerivable(env, db, source, flag) <==>
      forall scope, index :: HasAddress(source, flag, scope, index) ==>
        exists row :: NewRow(env, source, scope, index, row)
  {
    var a, skeys := NextId(db.accounts.Keys), NewSKeys(env, source).value;
    var db1 := WithAccount(db, a, source, skeys, flag);
    forall scope, index
      ensures HasAddress(source, flag, scope, index) ==>
        ((exists row :: NewRow(env, source, scope, index, row))
          <==> Slot(a, scope, index) in NewSlots(a, source, flag) ==> DeriveFor(env, db1, Slot(a, scope, index)).Some?)
      ensures Slot(a, scope, index) in NewSlots(a, source, flag) ==> HasAddress(source, flag, scope, index)
      ensures Slot(a, scope, index) in NewSlots(a, source, flag) ==> Slot(a, scope, index) !in db1.addrs
    {
      var s := Slot(a, scope, index);
      NewSlotsIff(db, a, hw, source, skeys, flag, s);
      if s in NewSlots(a, source, flag) {
        forall row
          ensures DeriveFor(env, db1, s) == Some(row) <==> NewRow(env, source, scope, index, row)
        {
          NewRowIff(env, db, a, source, skeys, flag, s, row);
        }
        if DeriveFor(env, db1, s).Some? { assert NewRow(env, source, scope, index, DeriveFor(env, db1, s).value); }
      } else if HasAddress(source, flag, scope, index) {
        OldSlot(db, a, source, skeys, flag, s);
        assert NewRow(env, source, scope, index, db1.addrs[s]);
      }
    }
    OthersKept(db, a, source, skeys, flag);
    hide WithAccount, NewSlots, HasAddress, NewRow, DeriveFor, Belongs, FlagFor;
  }
}
