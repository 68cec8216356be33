/** Key generation state of a shared account, restored from a backup: the
    sections of the current format, then the packages of older files. */
module Dkg {
  import opened Wrappers

  type Blob = string

  datatype Package = Package(public: bool, round: nat, fromId: nat, data: Blob)
  datatype State = State(keypair: Option<Blob>, secret1: Option<Blob>, secret2: Option<Blob>, keyPackage: Option<Blob>,
    pending: Option<Blob>)
  datatype PeerKey = PeerKey(round: nat, fromId: nat)

  function KeyOf(p: Package): PeerKey { PeerKey(p.round, p.fromId) }

  /** The three tables, for one account. */
  datatype Tables = Tables(addresses: map<nat, string>, peers: map<PeerKey, Blob>, state: Option<State>)

  const EMPTY_STATE := State(None, None, None, None, None)

  /** How bytes are read as text: strictly, and by an SQL cast. */
  datatype Text = Text(decode: Blob -> Option<string>, cast: Blob -> string)

  ghost predicate Lawful(u: Text) {
    forall b :: u.decode(b).Some? ==> u.cast(b) == u.decode(b).value
  }

  predicate Participant(participants: Option<nat>, fromId: nat) {
    participants.Some? ==> 1 <= fromId <= participants.value
  }

  predicate IsAddress(p: Package) { p.public && p.round == 0 }

  predicate IsPeer(p: Package) { p.public && 1 <= p.round <= 3 }

  predicate IsSecret(p: Package) { !p.public && 1 <= p.round <= 3 }

  // ---------------------------------------------------------------------
  // The loop over the packages of a file

  function InsertAddress(t: Tables, fromId: nat, address: string): Tables {
    if fromId in t.addresses then t else t.(addresses := t.addresses[fromId := address])
  }

  function InsertPeer(t: Tables, k: PeerKey, data: Blob): Tables {
    if k in t.peers then t else t.(peers := t.peers[k := data])
  }

  function Column(s: State, round: nat): Option<Blob> {
    match round
    case 1 => s.secret1
    case 2 => s.secret2
    case _ => s.keyPackage
  }

  function SetColumn(s: State, round: nat, v: Option<Blob>): State {
    match round
    case 1 => s.(secret1 := v)
    case 2 => s.(secret2 := v)
    case _ => s.(keyPackage := v)
  }

  /** Fills the column of an existing row if it is null. */
  function FillColumn(t: Tables, round: nat, data: Blob): Tables {
    if t.state.Some? && Column(t.state.value, round).None?
    then t.(state := Some(SetColumn(t.state.value, round, Some(data))))
    else t
  }

  function AddPackage(u: Text, participants: Option<nat>, t: Tables, p: Package): Option<Tables> {
    if IsAddress(p) then
      if !Participant(participants, p.fromId) || u.decode(p.data).None? then None
      else Some(InsertAddress(t, p.fromId, u.decode(p.data).value))
    else if IsPeer(p) then Some(InsertPeer(t, KeyOf(p), p.data))
    else if IsSecret(p) then Some(FillColumn(t, p.round, p.data))
    else Some(t)
  }

  function AddPackages(u: Text, participants: Option<nat>, t: Tables, ps: seq<Package>): Option<Tables> {
    if ps == [] then Some(t)
    else
      var before := AddPackages(u, participants, t, ps[..|ps| - 1]);
      if before.None? then None else AddPackage(u, participants, before.value, ps[|ps| - 1])
  }

  predicate HasSecrets(ps: seq<Package>) {
    exists i :: 0 <= i < |ps| && IsSecret(ps[i])
  }

  function WithState(t: Tables): Tables {
    if t.state.Some? then t else t.(state := Some(EMPTY_STATE))
  }

  function ImportPackages(u: Text, participants: Option<nat>, t: Tables, ps: seq<Package>): Option<Tables> {
    AddPackages(u, participants, if HasSecrets(ps) then WithState(t) else t, ps)
  }

  // ---------------------------------------------------------------------
  // The SQL migration of a table of packages

  function Rows(ps: seq<Package>): set<Package> { set i | 0 <= i < |ps| :: ps[i] }

  /** The table's unique columns, and one secret per round. */
  ghost predicate UniqueRows(rows: set<Package>) {
    && (forall p, q :: p in rows && q in rows && p.public == q.public && p.round == q.round && p.fromId == q.fromId ==>
          p == q)
    && (forall p, q :: p in rows && q in rows && IsSecret(p) && IsSecret(q) && p.round == q.round ==> p == q)
  }

  /** Addresses after `INSERT OR IGNORE … SELECT`: old rows stay, the others
      come from the selected packages. */
  ghost predicate AddressesFrom(u: Text, before: map<nat, string>, rows: set<Package>, after: map<nat, string>) {
    && (forall k :: k in before ==> k in after && after[k] == before[k])
    && (forall p :: p in rows && p.public && p.round == 0 && p.fromId !in before ==>
          p.fromId in after && after[p.fromId] == u.cast(p.data))
    && (forall k :: k in after ==> k in before || exists p :: p in rows && p.public && p.round == 0 && p.fromId == k)
  }

  ghost predicate PeersFrom(before: map<PeerKey, Blob>, rows: set<Package>, after: map<PeerKey, Blob>) {
    && (forall k :: k in before ==> k in after && after[k] == before[k])
    && (forall p :: p in rows && p.public && 1 <= p.round <= 3 && PeerKey(p.round, p.fromId) !in before ==>
          PeerKey(p.round, p.fromId) in after && after[PeerKey(p.round, p.fromId)] == p.data)
    && (forall k :: k in after ==>
          k in before || exists p :: p in rows && p.public && 1 <= p.round <= 3 && PeerKey(p.round, p.fromId) == k)
  }

  /** A null column takes the secret of its round, if there is one. */
  ghost predicate ColumnFrom(before: Option<Blob>, rows: set<Package>, round: nat, after: Option<Blob>) {
    if before.Some? then after == before
    else
      && (forall p :: p in rows && !p.public && p.round == round ==> after == Some(p.data))
      && (after.Some? ==> exists p :: p in rows && !p.public && p.round == round)
  }

  ghost predicate ColumnsFrom(before: State, rows: set<Package>, after: State) {
    && after.keypair == before.keypair && after.pending == before.pending
    && ColumnFrom(before.secret1, rows, 1, after.secret1)
    && ColumnFrom(before.secret2, rows, 2, after.secret2)
    && ColumnFrom(before.keyPackage, rows, 3, after.keyPackage)
  }

  /** A stub row if some package is secret, then its columns filled. */
  ghost predicate StateFrom(before: Option<State>, rows: set<Package>, after: Option<State>) {
    if before.None? && !(exists p :: p in rows && !p.public && 1 <= p.round <= 3) then after.None?
    else
      after.Some?
      && ColumnsFrom(if before.Some? then before.value else State(None, None, None, None, None), rows, after.value)
  }

  ghost predicate Migrated(u: Text, before: Tables, rows: set<Package>, after: Tables) {
    && AddressesFrom(u, before.addresses, rows, after.addresses)
    && PeersFrom(before.peers, rows, after.peers)
    && StateFrom(before.state, rows, after.state)
  }

  // ---------------------------------------------------------------------
  // The loop does what the migration does

  /** An address package that stops the import. */
  predicate Rejected(u: Text, participants: Option<nat>, p: Package) {
    && p.public && p.round == 0
    && ((participants.Some? && !(1 <= p.fromId <= participants.value)) || u.decode(p.data).None?)
  }

  ghost predicate AnyRejected(u: Text, participants: Option<nat>, ps: seq<Package>) {
    exists i :: 0 <= i < |ps| && Rejected(u, participants, ps[i])
  }

  /** The rows added so far, the state row being there if it is ever needed. */
  ghost predicate Added(u: Text, before: Tables, rows: set<Package>, after: Tables) {
    && AddressesFrom(u, before.addresses, rows, after.addresses)
    && PeersFrom(before.peers, rows, after.peers)
    && (before.state.Some? <==> after.state.Some?)
    && (before.state.Some? ==> ColumnsFrom(before.state.value, rows, after.state.value))
  }

  lemma RowsLast(ps: seq<Package>)
    requires ps != []
    ensures Rows(ps) == Rows(ps[..|ps| - 1]) + {ps[|ps| - 1]}
  {
    var init := ps[..|ps| - 1];
    assert forall i :: 0 <= i < |init| ==> init[i] == ps[i];
  }

  lemma AddressAdded(u: Text, before: Tables, rows: set<Package>, t: Tables, p: Package)
    requires Lawful(u) && Added(u, before, rows, t) && UniqueRows(rows + {p}) && p !in rows
    requires IsAddress(p) && u.decode(p.data).Some?
    ensures Added(u, before, rows + {p}, InsertAddress(t, p.fromId, u.decode(p.data).value))
  {
    var t' := InsertAddress(t, p.fromId, u.decode(p.data).value);
    assert p in rows + {p};
    forall q | q in rows && IsAddress(q)
      ensures q.fromId != p.fromId
    {
      assert q in rows + {p};
    }
    assert AddressesFrom(u, before.addresses, rows + {p}, t'.addresses);
  }

  lemma PeerAdded(u: Text, before: Tables, rows: set<Package>, t: Tables, p: Package)
    requires Added(u, before, rows, t) && UniqueRows(rows + {p}) && p !in rows && IsPeer(p)
    ensures Added(u, before, rows + {p}, InsertPeer(t, KeyOf(p), p.data))
  {
    assert p in rows + {p};
    forall q | q in rows && IsPeer(q)
      ensures KeyOf(q) != KeyOf(p)
    {
      assert q in rows + {p};
    }
    PeerInserted(before.peers, rows, t.peers, p);
    ColumnsKept(before, rows, t, p);
  }

  lemma PeerInserted(before: map<PeerKey, Blob>, rows: set<Package>, cur: map<PeerKey, Blob>, p: Package)
    requires PeersFrom(before, rows, cur) && IsPeer(p)
    requires forall q :: q in rows && IsPeer(q) ==> KeyOf(q) != KeyOf(p)
    ensures PeersFrom(before, rows + {p}, if KeyOf(p) in cur then cur else cur[KeyOf(p) := p.data])
  {
    assert p in rows + {p};
  }

  lemma ColumnsKept(before: Tables, rows: set<Package>, t: Tables, p: Package)
    requires !IsSecret(p) && before.state.Some? && t.state.Some? ==>
      ColumnsFrom(before.state.value, rows, t.state.value)
    ensures !IsSecret(p) && before.state.Some? && t.state.Some? ==>
      ColumnsFrom(before.state.value, rows + {p}, t.state.value)
  {}

  lemma SecretAdded(u: Text, before: Tables, rows: set<Package>, t: Tables, p: Package)
    requires Added(u, before, rows, t) && UniqueRows(rows + {p}) && p !in rows && IsSecret(p) && before.state.Some?
    ensures Added(u, before, rows + {p}, FillColumn(t, p.round, p.data))
  {
    assert p in rows + {p};
    forall q | q in rows && IsSecret(q)
      ensures q.round != p.round
    {
      assert q in rows + {p};
    }
    var s, s' := t.state.value, FillColumn(t, p.round, p.data).state.value;
    ColumnAdded(before.state.value.secret1, rows, 1, s.secret1, p);
    ColumnAdded(before.state.value.secret2, rows, 2, s.secret2, p);
    ColumnAdded(before.state.value.keyPackage, rows, 3, s.keyPackage, p);
    assert ColumnsFrom(before.state.value, rows + {p}, s');
    NotPublic(u, before, rows, t, p);
  }

  lemma NotPublic(u: Text, before: Tables, rows: set<Package>, t: Tables, p: Package)
    requires Added(u, before, rows, t) && !p.public
    ensures AddressesFrom(u, before.addresses, rows + {p}, t.addresses) && PeersFrom(before.peers, rows + {p}, t.peers)
  {}

  lemma ColumnAdded(before: Option<Blob>, rows: set<Package>, round: nat, after: Option<Blob>, p: Package)
    requires ColumnFrom(before, rows, round, after) && IsSecret(p)
    requires forall q :: q in rows && IsSecret(q) ==> q.round != p.round
    ensures ColumnFrom(before, rows + {p}, round, if p.round == round && after.None? then Some(p.data) else after)
  {
    assert p in rows + {p};
  }

  lemma OtherAdded(u: Text, before: Tables, rows: set<Package>, t: Tables, p: Package)
    requires Added(u, before, rows, t) && !IsAddress(p) && !IsPeer(p) && !IsSecret(p)
    ensures Added(u, before, rows + {p}, t)
  {}

  lemma PackageAdded(u: Text, participants: Option<nat>, before: Tables, rows: set<Package>, t: Tables, p: Package)
    requires Lawful(u) && Added(u, before, rows, t) && UniqueRows(rows + {p}) && p !in rows
    requires !Rejected(u, participants, p) && (IsSecret(p) ==> before.state.Some?)
    ensures AddPackage(u, participants, t, p).Some?
    ensures Added(u, before, rows + {p}, AddPackage(u, participants, t, p).value)
  {
    if IsAddress(p) {
      AddressAdded(u, before, rows, t, p);
    } else if IsPeer(p) {
      PeerAdded(u, before, rows, t, p);
    } else if IsSecret(p) {
      SecretAdded(u, before, rows, t, p);
    } else {
      OtherAdded(u, before, rows, t, p);
    }
  }

  ghost predicate NoRepeats(ps: seq<Package>) {
    forall i, j :: 0 <= i < j < |ps| ==> ps[i] != ps[j]
  }

  lemma {:induction false} PackagesAdded(u: Text, participants: Option<nat>, before: Tables, ps: seq<Package>)
    requires Lawful(u) && UniqueRows(Rows(ps)) && NoRepeats(ps) && !AnyRejected(u, participants, ps)
    requires HasSecrets(ps) ==> before.state.Some?
    ensures AddPackages(u, participants, before, ps).Some?
    ensures Added(u, before, Rows(ps), AddPackages(u, participants, before, ps).value)
  {
    if ps != [] {
      var init, last := ps[..|ps| - 1], ps[|ps| - 1];
      RowsLast(ps);
      forall i | 0 <= i < |init|
        ensures init[i] == ps[i] && !Rejected(u, participants, init[i])
      {}
      assert !Rejected(u, participants, last);
      PackagesAdded(u, participants, before, init);
      PackageAdded(u, participants, before, Rows(init), AddPackages(u, participants, before, init).value, last);
    }
  }

  lemma {:induction false} RejectedStops(u: Text, participants: Option<nat>, t: Tables, ps: seq<Package>)
    ensures AddPackages(u, participants, t, ps).None? <==> AnyRejected(u, participants, ps)
  {
    if ps != [] {
      var init, last := ps[..|ps| - 1], ps[|ps| - 1];
      RejectedStops(u, participants, t, init);
      if i :| 0 <= i < |ps| && Rejected(u, participants, ps[i]) {
        if i < |init| { assert init[i] == ps[i]; }
      }
      if i :| 0 <= i < |init| && Rejected(u, participants, init[i]) {
        assert init[i] == ps[i];
      }
    }
  }

  /** Restoring the packages of an old file gives what the migration of a table
      holding them gives; an address with an id outside the group or that is not
      text stops the restore, and nothing else does. */
  lemma LoopIsMigration(u: Text, participants: Option<nat>, t: Tables, ps: seq<Package>)
    requires Lawful(u) && UniqueRows(Rows(ps)) && NoRepeats(ps)
    ensures ImportPackages(u, participants, t, ps).None? <==> AnyRejected(u, participants, ps)
    ensures ImportPackages(u, participants, t, ps).Some? ==>
      Migrated(u, t, Rows(ps), ImportPackages(u, participants, t, ps).value)
  {
    var before := if HasSecrets(ps) then WithState(t) else t;
    RejectedStops(u, participants, before, ps);
    if !AnyRejected(u, participants, ps) {
      PackagesAdded(u, participants, before, ps);
      if HasSecrets(ps) {
        var i :| 0 <= i < |ps| && IsSecret(ps[i]);
        assert ps[i] in Rows(ps);
      } else {
        NoSecrets(ps, if t.state.Some? then t.state.value else EMPTY_STATE);
      }
    }
  }

  lemma NoSecrets(ps: seq<Package>, s: State)
    requires !HasSecrets(ps)
    ensures forall p :: p in Rows(ps) ==> !IsSecret(p)
    ensures ColumnsFrom(s, Rows(ps), s)
  {
    forall p | p in Rows(ps)
      ensures !IsSecret(p)
    {
      var i :| 0 <= i < |ps| && ps[i] == p;
    }
  }

  /** The migration has one outcome, whatever the order of the packages. */
  lemma MigrationIsUnique(u: Text, t: Tables, rows: set<Package>, x: Tables, y: Tables)
    requires Migrated(u, t, rows, x) && Migrated(u, t, rows, y)
    ensures x == y
  {
    AddressesUnique(u, t.addresses, rows, x.addresses, y.addresses);
    PeersUnique(t.peers, rows, x.peers, y.peers);
  }

  lemma AddressesUnique(u: Text, before: map<nat, string>, rows: set<Package>, x: map<nat, string>, y: map<nat, string>)
    requires AddressesFrom(u, before, rows, x) && AddressesFrom(u, before, rows, y)
    ensures x == y
  {}

  lemma PeersUnique(before: map<PeerKey, Blob>, rows: set<Package>, x: map<PeerKey, Blob>, y: map<PeerKey, Blob>)
    requires PeersFrom(before, rows, x) && PeersFrom(before, rows, y)
    ensures x == y
  {}

  // ---------------------------------------------------------------------
  // The whole restore

  datatype IOPeer = IOPeer(key: PeerKey, data: Blob)
  datatype IOAddress = IOAddress(fromId: nat, address: string)

  datatype ParamsData = ParamsData(id: nat, t: nat, seed: string, birth: nat, name: string, sk: Option<Blob>)

  /** The parameters of a group of n; a file may lack the version. */
  datatype Params = Params(n: nat, version: nat, data: ParamsData)
  datatype IOParams = IOParams(n: nat, version: Option<nat>, data: ParamsData)

  /** Everything an account stores of its key generation. */
  datatype Shared = Shared(params: Option<Params>, tables: Tables)

  const NOT_SHARED := Shared(None, Tables(map[], map[], None))

  /** The sections of a backup file. */
  datatype Sections = Sections(
    params: Option<IOParams>,
    state: Option<State>,
    peers: seq<IOPeer>,
    addresses: seq<IOAddress>,
    packages: seq<Package>)
  {
    /** The group size, if the file has parameters. */
    function Participants(): Option<nat> {
      if params.Some? then Some(params.value.n) else None
    }
  }

  function AddPeers(t: Tables, ps: seq<IOPeer>): Tables {
    if ps == [] then t else InsertPeer(AddPeers(t, ps[..|ps| - 1]), ps[|ps| - 1].key, ps[|ps| - 1].data)
  }

  function AddAddresses(participants: Option<nat>, t: Tables, xs: seq<IOAddress>): Option<Tables> {
    if xs == [] then Some(t)
    else
      var before, last := AddAddresses(participants, t, xs[..|xs| - 1]), xs[|xs| - 1];
      if before.None? || !Participant(participants, last.fromId) then None
      else Some(InsertAddress(before.value, last.fromId, last.address))
  }

  function RestoreSections(io: Sections): Option<Tables> {
    AddAddresses(io.Participants(), AddPeers(Tables(map[], map[], io.state), io.peers), io.addresses)
  }

  function RestoreDkg(u: Text, io: Sections): Option<Tables> {
    var t := RestoreSections(io);
    if t.None? then None else ImportPackages(u, io.Participants(), t.value, io.packages)
  }

  /** The version given to a file without one. */
  function InferredVersion(io: Sections): nat {
    var completed := (io.state.Some? && io.state.value.keyPackage.Some?) || HasFinalSecret(io.packages);
    if completed && !HasGreeting(io.peers) then 0 else 1
  }

  predicate HasFinalSecret(ps: seq<Package>) {
    exists i :: 0 <= i < |ps| && !ps[i].public && ps[i].round == 3
  }

  predicate HasGreeting(ps: seq<IOPeer>) {
    exists i :: 0 <= i < |ps| && ps[i].key.round == 0
  }

  /** The version that the column's backfill gives to stored tables. */
  ghost function BackfilledVersion(t: Tables): nat {
    if t.state.Some? && t.state.value.keyPackage.Some? && !(exists k :: k in t.peers && k.round == 0) then 0 else 1
  }

  ghost predicate Greeted(t: Tables) { exists k :: k in t.peers && k.round == 0 }

  ghost predicate Completed(t: Tables) { t.state.Some? && t.state.value.keyPackage.Some? }

  lemma {:induction false} PeersGreet(t: Tables, ps: seq<IOPeer>)
    ensures Greeted(AddPeers(t, ps)) <==> Greeted(t) || HasGreeting(ps)
    ensures AddPeers(t, ps).state == t.state
  {
    if ps != [] {
      var init, last := ps[..|ps| - 1], ps[|ps| - 1];
      PeersGreet(t, init);
      PeerGreets(AddPeers(t, init), last.key, last.data);
      GreetingLast(ps);
    }
  }

  lemma PeerGreets(t: Tables, k: PeerKey, data: Blob)
    ensures Greeted(InsertPeer(t, k, data)) <==> Greeted(t) || k.round == 0
  {
    var t' := InsertPeer(t, k, data);
    assert k in t'.peers;
    if j :| j in t.peers && j.round == 0 { assert j in t'.peers; }
  }

  lemma GreetingLast(ps: seq<IOPeer>)
    requires ps != []
    ensures HasGreeting(ps) <==> HasGreeting(ps[..|ps| - 1]) || ps[|ps| - 1].key.round == 0
  {
    var init := ps[..|ps| - 1];
    if i :| 0 <= i < |init| && init[i].key.round == 0 { assert ps[i] == init[i]; }
    if i :| 0 <= i < |ps| && ps[i].key.round == 0 && i < |init| { assert init[i] == ps[i]; }
  }

  lemma {:induction false} AddressesKeep(participants: Option<nat>, t: Tables, xs: seq<IOAddress>)
    requires AddAddresses(participants, t, xs).Some?
    ensures AddAddresses(participants, t, xs).value.peers == t.peers
    ensures AddAddresses(participants, t, xs).value.state == t.state
  {
    if xs != [] {
      AddressesKeep(participants, t, xs[..|xs| - 1]);
    }
  }

  lemma {:induction false} PackagesComplete(u: Text, participants: Option<nat>, t: Tables, ps: seq<Package>)
    requires AddPackages(u, participants, t, ps).Some? && (HasFinalSecret(ps) ==> t.state.Some?)
    ensures var t' := AddPackages(u, participants, t, ps).value;
            (Completed(t') <==> Completed(t) || HasFinalSecret(ps)) && (Greeted(t') <==> Greeted(t))
            && (t'.state.Some? <==> t.state.Some?)
  {
    if ps != [] {
      var init, last := ps[..|ps| - 1], ps[|ps| - 1];
      FinalLast(ps);
      PackagesComplete(u, participants, t, init);
      PackageCompletes(u, participants, AddPackages(u, participants, t, init).value, last);
    }
  }

  lemma FinalLast(ps: seq<Package>)
    requires ps != []
    ensures HasFinalSecret(ps) <==> HasFinalSecret(ps[..|ps| - 1]) || (!ps[|ps| - 1].public && ps[|ps| - 1].round == 3)
  {
    var init := ps[..|ps| - 1];
    if i :| 0 <= i < |init| && !init[i].public && init[i].round == 3 { assert ps[i] == init[i]; }
    if i :| 0 <= i < |ps| && !ps[i].public && ps[i].round == 3 && i < |init| { assert init[i] == ps[i]; }
  }

  lemma PackageCompletes(u: Text, participants: Option<nat>, t: Tables, p: Package)
    requires AddPackage(u, participants, t, p).Some? && (!p.public && p.round == 3 ==> t.state.Some?)
    ensures var t' := AddPackage(u, participants, t, p).value;
            && (Completed(t') <==> Completed(t) || (!p.public && p.round == 3))
            && (Greeted(t') <==> Greeted(t)) && (t'.state.Some? <==> t.state.Some?)
  {
    if IsPeer(p) { PeerGreets(t, KeyOf(p), p.data); }
  }

  function RestoreParams(io: Sections): Option<Params> {
    if io.params.None? then None
    else
      var p := io.params.value;
      Some(Params(p.n, if p.version.Some? then p.version.value else InferredVersion(io), p.data))
  }

  function RestoreShared(u: Text, io: Sections): Option<Shared> {
    var t := RestoreDkg(u, io);
    if t.None? then None else Some(Shared(RestoreParams(io), t.value))
  }

  /** A file without a version gets the one that the backfill would compute
      on the tables the restore makes. */
  lemma VersionAgrees(u: Text, io: Sections)
    requires RestoreDkg(u, io).Some?
    ensures InferredVersion(io) == BackfilledVersion(RestoreDkg(u, io).value)
  {
    var t0 := Tables(map[], map[], io.state);
    var t := RestoreSections(io).value;
    PeersGreet(t0, io.peers);
    AddressesKeep(io.Participants(), AddPeers(t0, io.peers), io.addresses);
    assert HasFinalSecret(io.packages) ==> HasSecrets(io.packages);
    PackagesComplete(u, io.Participants(), if HasSecrets(io.packages) then WithState(t) else t, io.packages);
  }

  // ---------------------------------------------------------------------
  // Exported and restored

  ghost predicate PeersExported(m: map<PeerKey, Blob>, ps: seq<IOPeer>) {
    && (forall j :: 0 <= j < |ps| ==> ps[j].key in m && m[ps[j].key] == ps[j].data)
    && (forall k :: k in m ==> exists j :: 0 <= j < |ps| && ps[j].key == k)
  }

  ghost predicate AddressesExported(m: map<nat, string>, xs: seq<IOAddress>) {
    && (forall j :: 0 <= j < |xs| ==> xs[j].fromId in m && m[xs[j].fromId] == xs[j].address)
    && (forall k :: k in m ==> exists j :: 0 <= j < |xs| && xs[j].fromId == k)
  }

  function ExportedParams(p: Option<Params>): Option<IOParams> {
    if p.None? then None else Some(IOParams(p.value.n, Some(p.value.version), p.value.data))
  }

  /** What a backup holds of an account's key generation: no old packages. */
  ghost predicate SectionsExported(s: Shared, io: Sections) {
    && io.params == ExportedParams(s.params) && io.state == s.tables.state && io.packages == []
    && PeersExported(s.tables.peers, io.peers) && AddressesExported(s.tables.addresses, io.addresses)
  }

  /** An address is stored for an id that is not in the group. */
  ghost predicate OutsideGroup(s: Shared) {
    s.params.Some? && exists k :: k in s.tables.addresses && !(1 <= k <= s.params.value.n)
  }

  lemma {:induction false} PeersRead(t: Tables, m: map<PeerKey, Blob>, ps: seq<IOPeer>)
    requires t.peers == map[] && forall j :: 0 <= j < |ps| ==> ps[j].key in m && m[ps[j].key] == ps[j].data
    ensures var r := AddPeers(t, ps);
            && r == t.(peers := r.peers)
            && (forall k :: k in r.peers ==> k in m && r.peers[k] == m[k])
            && forall j :: 0 <= j < |ps| ==> ps[j].key in r.peers
  {
    if ps != [] {
      var init := ps[..|ps| - 1];
      assert forall j :: 0 <= j < |init| ==> init[j] == ps[j];
      PeersRead(t, m, init);
    }
  }

  lemma {:induction false} AddressesRead(n: Option<nat>, t: Tables, m: map<nat, string>, xs: seq<IOAddress>)
    requires t.addresses == map[] && forall j :: 0 <= j < |xs| ==> xs[j].fromId in m && m[xs[j].fromId] == xs[j].address
    ensures AddAddresses(n, t, xs).None? <==> exists j :: 0 <= j < |xs| && !Participant(n, xs[j].fromId)
    ensures AddAddresses(n, t, xs).Some? ==>
      var r := AddAddresses(n, t, xs).value;
      && r == t.(addresses := r.addresses)
      && (forall k :: k in r.addresses ==> k in m && r.addresses[k] == m[k])
      && forall j :: 0 <= j < |xs| ==> xs[j].fromId in r.addresses
  {
    if xs != [] {
      var init := xs[..|xs| - 1];
      assert forall j :: 0 <= j < |init| ==> init[j] == xs[j];
      AddressesRead(n, t, m, init);
      if j :| 0 <= j < |init| && !Participant(n, init[j].fromId) { assert xs[j] == init[j]; }
    }
  }

  /** The state of an account comes back whole, unless an address is stored for
      an id outside its group; then the restore fails. */
  lemma SharedRestoredIff(u: Text, s: Shared, io: Sections)
    requires SectionsExported(s, io)
    ensures RestoreShared(u, io).None? <==> OutsideGroup(s)
    ensures RestoreShared(u, io).Some? ==> RestoreShared(u, io) == Some(s)
  {
    var t0 := Tables(map[], map[], io.state);
    PeersRead(t0, s.tables.peers, io.peers);
    var t1 := AddPeers(t0, io.peers);
    assert t1.peers == s.tables.peers;
    AddressesRead(io.Participants(), t1, s.tables.addresses, io.addresses);
    if k :| k in s.tables.addresses && !Participant(io.Participants(), k) {
      var j :| 0 <= j < |io.addresses| && io.addresses[j].fromId == k;
    }
    if RestoreSections(io).Some? {
      var t2 := RestoreSections(io).value;
      assert t2.addresses == s.tables.addresses;
      assert AddPackages(u, io.Participants(), t2, []) == Some(t2);
      assert !HasSecrets(io.packages);
    }
  }

  // ---------------------------------------------------------------------
  // Any file

  /** The tables that the sections alone make: the first row of a key stays. */
  ghost predicate FromSections(io: Sections, t: Tables) {
    && t.state == io.state
    && t.peers.Keys == (set j | 0 <= j < |io.peers| :: io.peers[j].key)
    && t.addresses.Keys == (set j | 0 <= j < |io.addresses| :: io.addresses[j].fromId)
    && (forall j :: 0 <= j < |io.peers| && FirstPeer(io.peers, j) ==> t.peers[io.peers[j].key] == io.peers[j].data)
    && (forall j :: 0 <= j < |io.addresses| && FirstAddress(io.addresses, j) ==>
          t.addresses[io.addresses[j].fromId] == io.addresses[j].address)
  }

  ghost predicate FirstPeer(ps: seq<IOPeer>, j: nat)
    requires j < |ps|
  {
    forall l :: 0 <= l < j ==> ps[l].key != ps[j].key
  }

  ghost predicate FirstAddress(xs: seq<IOAddress>, j: nat)
    requires j < |xs|
  {
    forall l :: 0 <= l < j ==> xs[l].fromId != xs[j].fromId
  }

  lemma {:induction false} PeersOfFile(t: Tables, ps: seq<IOPeer>)
    requires t.peers == map[]
    ensures var r := AddPeers(t, ps);
            r == t.(peers := r.peers) && r.peers.Keys == set j | 0 <= j < |ps| :: ps[j].key
  {
    if ps != [] {
      var init, last := ps[..|ps| - 1], ps[|ps| - 1];
      PeersOfFile(t, init);
      assert (set j | 0 <= j < |ps| :: ps[j].key) == (set j | 0 <= j < |init| :: init[j].key) + {last.key};
    }
  }

  lemma {:induction false} FirstPeerStays(t: Tables, ps: seq<IOPeer>, j: nat)
    requires t.peers == map[] && j < |ps| && FirstPeer(ps, j)
    ensures ps[j].key in AddPeers(t, ps).peers && AddPeers(t, ps).peers[ps[j].key] == ps[j].data
  {
    var init := ps[..|ps| - 1];
    if j < |init| {
      FirstPeerStays(t, init, j);
    } else {
      PeersOfFile(t, init);
    }
  }

  lemma {:induction false} AddressesOfFile(n: Option<nat>, t: Tables, xs: seq<IOAddress>)
    requires t.addresses == map[]
    ensures AddAddresses(n, t, xs).None? <==> AnyOutside(n, xs)
    ensures AddAddresses(n, t, xs).Some? ==>
      var r := AddAddresses(n, t, xs).value;
      r == t.(addresses := r.addresses) && r.addresses.Keys == set j | 0 <= j < |xs| :: xs[j].fromId
  {
    if xs != [] {
      var init, last := xs[..|xs| - 1], xs[|xs| - 1];
      AddressesOfFile(n, t, init);
      OutsideLast(n, xs);
      assert (set j | 0 <= j < |xs| :: xs[j].fromId) == (set j | 0 <= j < |init| :: init[j].fromId) + {last.fromId};
    }
  }

  /** An address is listed for an id outside the group. */
  ghost predicate AnyOutside(n: Option<nat>, xs: seq<IOAddress>) {
    n.Some? && exists j :: 0 <= j < |xs| && !(1 <= xs[j].fromId <= n.value)
  }

  lemma OutsideLast(n: Option<nat>, xs: seq<IOAddress>)
    requires xs != []
    ensures AnyOutside(n, xs) <==>
      AnyOutside(n, xs[..|xs| - 1]) || (n.Some? && !(1 <= xs[|xs| - 1].fromId <= n.value))
  {
    var init := xs[..|xs| - 1];
    if AnyOutside(n, init) {
      var j :| 0 <= j < |init| && !(1 <= init[j].fromId <= n.value);
      assert xs[j] == init[j];
    } else if AnyOutside(n, xs) {
      var j :| 0 <= j < |xs| && !(1 <= xs[j].fromId <= n.value);
      if j < |init| { assert init[j] == xs[j]; }
    }
  }

  lemma {:induction false} FirstAddressStays(n: Option<nat>, t: Tables, xs: seq<IOAddress>, j: nat)
    requires t.addresses == map[] && j < |xs| && FirstAddress(xs, j) && AddAddresses(n, t, xs).Some?
    ensures xs[j].fromId in AddAddresses(n, t, xs).value.addresses
    ensures AddAddresses(n, t, xs).value.addresses[xs[j].fromId] == xs[j].address
  {
    var init := xs[..|xs| - 1];
    if j < |init| {
      FirstAddressStays(n, t, init, j);
    } else {
      AddressesOfFile(n, t, init);
    }
  }

  lemma SectionsRestored(io: Sections)
    ensures RestoreSections(io).None? <==>
      AnyOutside(if io.params.Some? then Some(io.params.value.n) else None, io.addresses)
    ensures RestoreSections(io).Some? ==> FromSections(io, RestoreSections(io).value)
  {
    var n: Option<nat> := if io.params.Some? then Some(io.params.value.n) else None;
    var t0 := Tables(map[], map[], io.state);
    var t1 := AddPeers(t0, io.peers);
    PeersOfFile(t0, io.peers);
    AddressesOfFile(n, t1, io.addresses);
    if AddAddresses(n, t1, io.addresses).Some? {
      forall j | 0 <= j < |io.peers| && FirstPeer(io.peers, j)
        ensures io.peers[j].key in t1.peers && t1.peers[io.peers[j].key] == io.peers[j].data
      {
        FirstPeerStays(t0, io.peers, j);
      }
      var t := AddAddresses(n, t1, io.addresses).value;
      forall j | 0 <= j < |io.addresses| && FirstAddress(io.addresses, j)
        ensures io.addresses[j].fromId in t.addresses
        ensures t.addresses[io.addresses[j].fromId] == io.addresses[j].address
      {
        FirstAddressStays(n, t1, io.addresses, j);
      }
    }
  }

  /** A restored file, with sections, with old packages or with both: the tables
      of the sections migrated by its packages, its parameters, and the version
      it tells or else the one that the backfill computes. It fails exactly on
      an address for an id outside the group, or one that is not text. */
  lemma FileRestored(u: Text, io: Sections)
    requires Lawful(u) && UniqueRows(Rows(io.packages)) && NoRepeats(io.packages)
    ensures
      var n := if io.params.Some? then Some(io.params.value.n) else None;
      RestoreShared(u, io).None? <==> AnyOutside(n, io.addresses) || AnyRejected(u, n, io.packages)
    ensures RestoreShared(u, io).Some? ==>
      var s := RestoreShared(u, io).value;
      && (exists t :: FromSections(io, t) && Migrated(u, t, Rows(io.packages), s.tables))
      && (s.params.Some? <==> io.params.Some?)
      && (s.params.Some? ==>
            && s.params.value.n == io.params.value.n && s.params.value.data == io.params.value.data
            && s.params.value.version == if io.params.value.version.Some? then io.params.value.version.value
                                         else BackfilledVersion(s.tables))
  {
    SectionsRestored(io);
    hide RestoreSections, AnyOutside, AnyRejected, FromSections, Migrated, ImportPackages;
    var t := RestoreSections(io);
    if t.Some? {
      LoopIsMigration(u, io.Participants(), t.value, io.packages);
      if RestoreShared(u, io).Some? { VersionAgrees(u, io); }
    }
  }

  // ---------------------------------------------------------------------
  // Statement by statement

  class Importer {
    var params: Option<Params>
    var tables: Tables

    constructor ()
      ensures Shared(params, tables) == NOT_SHARED
    {
      params, tables := None, Tables(map[], map[], None);
    }

    method ImportPackageRows(u: Text, participants: Option<nat>, packages: seq<Package>) returns (ok: bool)
      modifies this`tables
      ensures ok <==> ImportPackages(u, participants, old(tables), packages).Some?
      ensures ok ==> ImportPackages(u, participants, old(tables), packages) == Some(tables)
    {
      if packages == [] { return true; }
      ghost var before := if HasSecrets(packages) then WithState(tables) else tables;
      if exists i :: 0 <= i < |packages| && IsSecret(packages[i]) {
        tables := WithState(tables);
      }
      for n := 0 to |packages|
        invariant AddPackages(u, participants, before, packages[..n]) == Some(tables)
      {
        var p := packages[n];
        assert packages[..n + 1][..n] == packages[..n];
        if IsAddress(p) {
          if !Participant(participants, p.fromId) || u.decode(p.data).None? {
            RejectedStops(u, participants, before, packages);
            return false;
          }
          tables := InsertAddress(tables, p.fromId, u.decode(p.data).value);
        } else if IsPeer(p) {
          tables := InsertPeer(tables, KeyOf(p), p.data);
        } else if IsSecret(p) {
          tables := FillColumn(tables, p.round, p.data);
        }
      }
      assert packages[..|packages|] == packages;
      ok := true;
    }

    method Import(u: Text, io: Sections) returns (ok: bool)
      modifies this
      ensures ok <==> RestoreShared(u, io).Some?
      ensures ok ==> RestoreShared(u, io) == Some(Shared(params, tables))
    {
      params := RestoreParams(io);
      ghost var t0 := Tables(map[], map[], io.state);
      tables := Tables(map[], map[], io.state);
      for n := 0 to |io.peers|
        invariant params == RestoreParams(io) && tables == AddPeers(t0, io.peers[..n])
      {
        assert io.peers[..n + 1][..n] == io.peers[..n];
        tables := InsertPeer(tables, io.peers[n].key, io.peers[n].data);
      }
      assert io.peers[..|io.peers|] == io.peers;
      ghost var t1 := tables;
      for n := 0 to |io.addresses|
        invariant params == RestoreParams(io)
        invariant AddAddresses(io.Participants(), t1, io.addresses[..n]) == Some(tables)
      {
        assert io.addresses[..n + 1][..n] == io.addresses[..n];
        if !Participant(io.Participants(), io.addresses[n].fromId) {
          AddressStops(io.Participants(), t1, io.addresses, n + 1);
          return false;
        }
        tables := InsertAddress(tables, io.addresses[n].fromId, io.addresses[n].address);
      }
      assert io.addresses[..|io.addresses|] == io.addresses;
      ok := ImportPackageRows(u, io.Participants(), io.packages);
    }
  }

  lemma {:induction false} AddressStops(participants: Option<nat>, t: Tables, xs: seq<IOAddress>, n: nat)
    requires n <= |xs| && AddAddresses(participants, t, xs[..n]).None?
    ensures AddAddresses(participants, t, xs).None?
  {
    if n == |xs| {
      assert xs[..n] == xs;
    } else {
      assert xs[..|xs| - 1][..n] == xs[..n];
      AddressStops(participants, t, xs[..|xs| - 1], n);
    }
  }
}
