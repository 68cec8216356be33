/** The lifecycle of saved swaps. Every SQL statement is one atomic step on the
    table; a status refresh is two of them with a network call in between, so
    any number of refreshes, expiries, deposits, deletions and saves may
    interleave. */
module Swaps {
  import opened Wrappers
  import opened RowIds

  type Time = int

  /** A deadline: its text, and the time that SQLite reads in it, if any. */
  datatype Deadline = Deadline(text: string, at: Option<Time>)

  /** The columns a quote fixes: requested is the deadline inside the
      provider's answer, which older rows do not repeat in their column. */
  datatype Terms = Terms(
    origin: string,
    destination: string,
    exactInput: bool,
    amount: string,
    slippage: int,
    recipient: string,
    refundTo: string,
    deadline: Deadline,
    amountIn: string,
    amountOut: string,
    leastIn: Option<string>,
    leastOut: Option<string>,
    memo: Option<string>,
    answer: string,
    requested: Option<Deadline>)

  datatype Swap = Swap(
    account: nat,
    terms: Terms,
    address: string,
    hash: Option<string>,
    submittedAt: Option<Time>,
    status: Option<string>,
    response: Option<string>,
    checkedAt: Option<Time>,
    completedAt: Option<Time>,
    createdAt: Time,
    updatedAt: Time)

  type Rows = map<nat, Swap>

  const ZEC_ASSET := "nep141:zec.omft.near"
  const DAY: Time := 86400

  // ---------------------------------------------------------------------
  // Statements

  predicate Blank(s: string) {
    forall i :: 0 <= i < |s| ==> s[i] == ' '
  }

  /** A positive amount in decimal digits. */
  predicate Amount(s: string) {
    (forall i :: 0 <= i < |s| ==> '0' <= s[i] <= '9') && exists i :: 0 <= i < |s| && s[i] != '0'
  }

  predicate TermsPass(t: Terms) {
    Amount(t.amount) && 0 <= t.slippage <= 10000 && Amount(t.amountIn) && Amount(t.amountOut)
  }

  datatype Quote = Quote(terms: Terms, address: Option<string>)

  /** The checks, the reference and the unique column of the table. */
  predicate CanInsert(accounts: set<nat>, rows: Rows, account: nat, q: Quote) {
    && account in accounts && TermsPass(q.terms)
    && q.address.Some? && !Blank(q.address.value) && forall id :: id in rows ==> rows[id].address != q.address.value
  }

  function Inserted(rows: Rows, account: nat, q: Quote, now: Time): Rows
    requires q.address.Some?
  {
    rows[NextId(rows.Keys) := Swap(account, q.terms, q.address.value, None, None, None, None, None, None, now, now)]
  }

  /** The requested deadline, or the column where the answer holds none. */
  function Due(t: Terms): Deadline {
    if t.requested.Some? then t.requested.value else t.deadline
  }

  predicate Overdue(t: Terms, now: Time) {
    Due(t).at.Some? && Due(t).at.value + DAY <= now
  }

  /** Neither funded nor closed, and not yet past waiting for its deposit. */
  predicate Waiting(s: Swap) {
    s.completedAt.None? && s.hash.None? && (s.status.None? || s.status.value == "PENDING_DEPOSIT")
  }

  function Expired(rows: Rows, account: nat, now: Time): Rows {
    map id | id in rows :: if rows[id].account == account && Waiting(rows[id]) && Overdue(rows[id].terms, now)
      then rows[id].(status := Some("EXPIRED"), completedAt := Some(now), updatedAt := now)
      else rows[id]
  }

  predicate Final(status: string) {
    status == "SUCCESS" || status == "REFUNDED" || status == "FAILED"
  }

  /** What a refresh remembers between its read and its write. */
  datatype Snapshot = Snapshot(id: nat, account: nat, address: string, memo: Option<string>, previous: Option<string>)

  datatype Status = Status(status: string, response: string)

  predicate Owns(rows: Rows, id: nat, account: nat) {
    id in rows && rows[id].account == account
  }

  function Observe(rows: Rows, id: nat, account: nat): Option<Snapshot> {
    if Owns(rows, id, account)
    then Some(Snapshot(id, account, rows[id].address, rows[id].terms.memo, rows[id].response))
    else None
  }

  predicate Matches(rows: Rows, s: Snapshot) {
    Observe(rows, s.id, s.account) == Some(s)
  }

  function WithStatus(s: Swap, current: Status, now: Time): Swap {
    s.(status := Some(current.status), response := Some(current.response),
       checkedAt := Some(now), updatedAt := now,
       completedAt := if !Final(current.status) then None
                      else if s.completedAt.Some? then s.completedAt else Some(now))
  }

  function Persisted(rows: Rows, s: Snapshot, current: Status, now: Time): Rows {
    if Matches(rows, s) then rows[s.id := WithStatus(rows[s.id], current, now)] else rows
  }

  predicate IsTxHash(h: string) {
    |h| == 64 && forall i :: 0 <= i < 64 ==> '0' <= h[i] <= '9' || 'a' <= h[i] <= 'f' || 'A' <= h[i] <= 'F'
  }

  predicate CanRecord(rows: Rows, id: nat, account: nat, hash: string) {
    && IsTxHash(hash) && Owns(rows, id, account) && rows[id].terms.origin == ZEC_ASSET
    && (rows[id].hash.None? || rows[id].hash == Some(hash))
  }

  function Recorded(rows: Rows, id: nat, account: nat, hash: string, now: Time): Rows {
    if CanRecord(rows, id, account, hash)
    then rows[id := rows[id].(hash := Some(hash), updatedAt := now)]
    else rows
  }

  predicate CanStamp(rows: Rows, id: nat, account: nat, hash: string) {
    Owns(rows, id, account) && rows[id].hash == Some(hash)
  }

  function Stamped(rows: Rows, id: nat, account: nat, hash: string, now: Time): Rows {
    if CanStamp(rows, id, account, hash)
    then rows[id := rows[id].(submittedAt := if rows[id].submittedAt.Some? then rows[id].submittedAt else Some(now),
                              updatedAt := now)]
    else rows
  }

  function Without(rows: Rows, id: nat, account: nat): Rows {
    if Owns(rows, id, account) then rows - {id} else rows
  }

  function WithoutClosed(rows: Rows, account: nat): Rows {
    map id | id in rows && !(rows[id].account == account && rows[id].completedAt.Some?) :: rows[id]
  }

  function WithoutAccount(rows: Rows, account: nat): Rows {
    map id | id in rows && rows[id].account != account :: rows[id]
  }

  // ---------------------------------------------------------------------
  // Listing

  datatype Saved = Saved(id: nat, swap: Swap)

  /** A row as the user sees it: with the deadline that counts. */
  function Shown(id: nat, s: Swap): Saved {
    Saved(id, s.(terms := s.terms.(deadline := Due(s.terms))))
  }

  ghost predicate IsShown(e: Saved, id: nat, s: Swap) {
    e.id == id && e.swap == s.(terms := s.terms.(deadline :=
      if s.terms.requested.Some? then s.terms.requested.value else s.terms.deadline))
  }

  predicate Newer(a: Saved, b: Saved) {
    a.swap.createdAt > b.swap.createdAt || (a.swap.createdAt == b.swap.createdAt && a.id > b.id)
  }

  /** The rows of these ids, newest first. */
  function Listed(rows: Rows, ids: set<nat>): (list: seq<Saved>)
    requires ids <= rows.Keys
    ensures forall e :: e in list <==> e.id in ids && e == Shown(e.id, rows[e.id])
    ensures forall i, j :: 0 <= i < j < |list| ==> Newer(list[i], list[j])
  {
    if ids == {} then []
    else
      NewestExists(rows, ids);
      var top :| IsNewest(rows, ids, top);
      var rest := Listed(rows, ids - {top});
      assert forall e :: e in rest ==> Newer(Shown(top, rows[top]), e);
      [Shown(top, rows[top])] + rest
  }

  predicate IsNewest(rows: Rows, ids: set<nat>, top: nat)
    requires ids <= rows.Keys
  {
    top in ids && forall k :: k in ids && k != top ==> Newer(Shown(top, rows[top]), Shown(k, rows[k]))
  }

  lemma {:induction false} NewestExists(rows: Rows, ids: set<nat>)
    requires ids != {} && ids <= rows.Keys
    ensures exists top :: IsNewest(rows, ids, top)
  {
    var x :| x in ids;
    if ids == {x} {
      assert IsNewest(rows, ids, x);
    } else {
      NewestExists(rows, ids - {x});
      var m :| IsNewest(rows, ids - {x}, m);
      assert IsNewest(rows, ids, if Newer(Shown(x, rows[x]), Shown(m, rows[m])) then x else m);
    }
  }

  // ---------------------------------------------------------------------
  // Steps

  datatype State = State(accounts: set<nat>, rows: Rows, now: Time, refreshes: map<nat, Snapshot>)

  datatype Step =
    | Tick(to: Time)
    | NewAccount(account: nat)
    | Save(account: nat, quote: Quote)
    | Expire(account: nat)
    | Read(client: nat, account: nat, id: nat)
    | Write(client: nat, current: Status)
    | Deposit(account: nat, id: nat, hash: string)
    | Stamp(account: nat, id: nat, hash: string)
    | Delete(account: nat, id: nat)
    | Clear(account: nat)
    | DeleteAccount(account: nat)

  function Next(s: State, step: Step): State {
    match step
    case Tick(to) => s.(now := to)
    case NewAccount(a) => s.(accounts := s.accounts + {a})
    case Save(a, q) =>
      if CanInsert(s.accounts, s.rows, a, q) then s.(rows := Inserted(s.rows, a, q, s.now)) else s
    case Expire(a) => s.(rows := Expired(s.rows, a, s.now))
    case Read(c, a, id) =>
      var o := Observe(s.rows, id, a);
      s.(refreshes := if o.Some? then s.refreshes[c := o.value] else s.refreshes - {c})
    case Write(c, current) =>
      if c in s.refreshes
      then s.(rows := Persisted(s.rows, s.refreshes[c], current, s.now), refreshes := s.refreshes - {c})
      else s
    case Deposit(a, id, h) => s.(rows := Recorded(s.rows, id, a, h, s.now))
    case Stamp(a, id, h) => s.(rows := Stamped(s.rows, id, a, h, s.now))
    case Delete(a, id) => s.(rows := Without(s.rows, id, a))
    case Clear(a) => s.(rows := WithoutClosed(s.rows, a))
    case DeleteAccount(a) => s.(accounts := s.accounts - {a}, rows := WithoutAccount(s.rows, a))
  }

  /** The steps that no method of the table takes. */
  lemma OtherSteps(s: State, to: Time, a: nat)
    ensures Next(s, Tick(to)) == State(s.accounts, s.rows, to, s.refreshes)
    ensures Next(s, NewAccount(a)) == State(s.accounts + {a}, s.rows, s.now, s.refreshes)
    ensures var t := Next(s, DeleteAccount(a));
            && t.accounts == s.accounts - {a} && t.now == s.now && t.refreshes == s.refreshes
            && (forall id :: id in t.rows <==> id in s.rows && s.rows[id].account != a)
            && forall id :: id in t.rows ==> t.rows[id] == s.rows[id]
  {}

  // ---------------------------------------------------------------------
  // What the statements say, column by column

  /** A row after the expiry of an account's swaps. */
  ghost function AfterExpiry(s: Swap, account: nat, now: Time): Swap {
    var due := if s.terms.requested.Some? then s.terms.requested.value.at else s.terms.deadline.at;
    if s.account == account && s.completedAt.None? && s.hash.None?
       && s.status in {None, Some("PENDING_DEPOSIT")} && due.Some? && due.value + 86400 <= now
    then s.(status := Some("EXPIRED"), completedAt := Some(now), updatedAt := now)
    else s
  }

  ghost predicate AllExpired(was: Rows, rows: Rows, account: nat, now: Time) {
    rows.Keys == was.Keys && forall id :: id in rows ==> rows[id] == AfterExpiry(was[id], account, now)
  }

  /** A row after a provider answer and before the expiry. */
  ghost predicate AfterAnswer(s: Swap, current: Status, now: Time, t: Swap) {
    && t.status == Some(current.status) && t.response == Some(current.response)
    && t.checkedAt == Some(now) && t.updatedAt == now
    && (if current.status in {"SUCCESS", "REFUNDED", "FAILED"}
        then t.completedAt == if s.completedAt.Some? then s.completedAt else Some(now)
        else t.completedAt.None?)
    && t.account == s.account && t.terms == s.terms && t.address == s.address && t.hash == s.hash
    && t.submittedAt == s.submittedAt && t.createdAt == s.createdAt
  }

  /** Decimal digits, not all of them zero. */
  ghost predicate PositiveDigits(s: string) {
    (forall c :: c in s ==> c in "0123456789") && exists c :: c in s && c != '0'
  }

  ghost predicate TableTakes(accounts: set<nat>, rows: Rows, account: nat, t: Terms, address: string) {
    && account in accounts && PositiveDigits(t.amount) && PositiveDigits(t.amountIn) && PositiveDigits(t.amountOut)
    && 0 <= t.slippage <= 10000 && (exists c :: c in address && c != ' ')
    && forall id :: id in rows ==> rows[id].address != address
  }

  lemma CanInsertIff(accounts: set<nat>, rows: Rows, account: nat, q: Quote)
    ensures CanInsert(accounts, rows, account, q)
      <==> q.address.Some? && TableTakes(accounts, rows, account, q.terms, q.address.value)
  {
    AmountIff(q.terms.amount);
    AmountIff(q.terms.amountIn);
    AmountIff(q.terms.amountOut);
    if q.address.Some? { BlankIff(q.address.value); }
    hide Amount, PositiveDigits, Blank;
  }

  lemma BlankIff(s: string)
    ensures Blank(s) <==> !exists c :: c in s && c != ' '
  {
    forall i | 0 <= i < |s|
      ensures s[i] in s
    {}
  }

  lemma AmountIff(s: string)
    ensures Amount(s) <==> PositiveDigits(s)
  {
    forall c: char
      ensures c in "0123456789" <==> '0' <= c <= '9'
    {
      Digit(c);
    }
    forall i | 0 <= i < |s|
      ensures s[i] in s
    {}
  }

  lemma Digit(c: char)
    ensures c in "0123456789" <==> '0' <= c <= '9'
  {
    var digits := "0123456789";
    if '0' <= c <= '9' {
      assert digits[c as int - '0' as int] == c;
    }
  }

  lemma HexDigit(c: char)
    ensures c in "0123456789abcdefABCDEF" <==> '0' <= c <= '9' || 'a' <= c <= 'f' || 'A' <= c <= 'F'
  {
    var digits := "0123456789abcdefABCDEF";
    if '0' <= c <= '9' {
      assert digits[c as int - '0' as int] == c;
    } else if 'a' <= c <= 'f' {
      assert digits[10 + c as int - 'a' as int] == c;
    } else if 'A' <= c <= 'F' {
      assert digits[16 + c as int - 'A' as int] == c;
    }
  }

  ghost predicate HexHash(h: string) {
    |h| == 64 && forall c :: c in h ==> c in "0123456789abcdefABCDEF"
  }

  lemma TxHashIff(h: string)
    ensures IsTxHash(h) <==> HexHash(h)
  {
    forall c: char
      ensures c in "0123456789abcdefABCDEF" <==> '0' <= c <= '9' || 'a' <= c <= 'f' || 'A' <= c <= 'F'
    {
      HexDigit(c);
    }
    forall i | 0 <= i < |h|
      ensures h[i] in h
    {}
  }

  // ---------------------------------------------------------------------
  // The table

  datatype Error = PreviewQuote | MissingAddress | Rejected | NotFound | Changed | InvalidHash

  /** Each method is one step of the table's runs, or two of them; its contract
      says which, and what the caller finds in the columns afterwards. */
  class SwapTable {
    const accounts: set<nat>
    var rows: Rows

    constructor (accounts: set<nat>)
      ensures this.accounts == accounts && rows == map[]
    {
      this.accounts := accounts;
      rows := map[];
    }

    /** Whatever refreshes are in flight, the change since then is this step. */
    twostate predicate Took(now: Time, step: Step)
      reads this
    {
      forall r :: Next(State(accounts, old(rows), now, r), step) == State(accounts, rows, now, r)
    }

    method ExpireSwaps(account: nat, now: Time)
      modifies this
      ensures Took(now, Expire(account)) && AllExpired(old(rows), rows, account, now)
      ensures forall id :: id in rows && rows[id].account == account && Waiting(rows[id]) ==>
        !Overdue(rows[id].terms, now)
    {
      rows := Expired(rows, account, now);
    }

    /** Expires, then lists the account's swaps, newest first, the closed ones
        only when asked for. */
    method ReadSwaps(account: nat, pendingOnly: bool, now: Time) returns (list: seq<Saved>)
      modifies this
      ensures Took(now, Expire(account)) && AllExpired(old(rows), rows, account, now)
      ensures forall e :: e in list ==>
        && e.id in rows && rows[e.id].account == account && (pendingOnly ==> rows[e.id].completedAt.None?)
        && IsShown(e, e.id, rows[e.id])
      ensures forall id :: id in rows && rows[id].account == account && (pendingOnly ==> rows[id].completedAt.None?) ==>
        exists e :: e in list && e.id == id
      ensures forall i, j :: 0 <= i < j < |list| ==>
        || list[i].swap.createdAt > list[j].swap.createdAt
        || (list[i].swap.createdAt == list[j].swap.createdAt && list[i].id > list[j].id)
    {
      hide AllExpired, AfterExpiry, Expired;
      ExpireSwaps(account, now);
      list := Listed(rows,
        set id | id in rows && rows[id].account == account && (!pendingOnly || rows[id].completedAt.None?));
      forall id | id in rows && rows[id].account == account && (pendingOnly ==> rows[id].completedAt.None?)
        ensures exists e :: e in list && e.id == id
      {
        assert Shown(id, rows[id]) in list;
      }
    }

    method SaveSwap(account: nat, dry: bool, q: Quote, now: Time) returns (r: Result<Saved, Error>)
      modifies this
      ensures r.Err? ==> rows == old(rows)
      ensures r.Err? ==>
        r.error == if dry then PreviewQuote else if q.address.None? then MissingAddress else Rejected
      ensures r.Ok? <==>
        !dry && q.address.Some? && TableTakes(accounts, old(rows), account, q.terms, q.address.value)
      ensures r.Ok? ==>
        var id := r.value.id;
        var row := Swap(account, q.terms, q.address.value, None, None, None, None, None, None, now, now);
        && id !in old(rows) && (forall k :: k in old(rows) ==> k < id)
        && AllExpired(old(rows)[id := row], rows, account, now) && IsShown(r.value, id, rows[id])
      ensures r.Ok? ==> forall s ::
        Next(Next(State(accounts, old(rows), now, s), Save(account, q)), Expire(account))
          == State(accounts, rows, now, s)
    {
      CanInsertIff(accounts, rows, account, q);
      if dry {
        return Err(PreviewQuote);
      }
      if q.address.None? {
        return Err(MissingAddress);
      }
      if !CanInsert(accounts, rows, account, q) {
        return Err(Rejected);
      }
      var id := NextId(rows.Keys);
      rows := Inserted(rows, account, q, now);
      var list := ReadSwaps(account, false, now);
      assert id in rows && rows[id].account == account;
      var saved :| saved in list && saved.id == id;
      r := Ok(saved);
    }

    /** The snapshot goes stale exactly when the row goes or changes owner,
        address, memo or response. */
    method SwapStatusSnapshot(id: nat, account: nat) returns (r: Result<Snapshot, Error>)
      ensures r.Ok? <==> id in rows && rows[id].account == account
      ensures r.Err? ==> r.error == NotFound
      ensures r.Ok? ==> r.value == Snapshot(id, account, rows[id].address, rows[id].terms.memo, rows[id].response)
      ensures r.Ok? ==> forall later: Rows ::
        Matches(later, r.value) <==>
          && id in later && later[id].account == account && later[id].address == rows[id].address
          && later[id].terms.memo == rows[id].terms.memo && later[id].response == rows[id].response
      ensures forall now, c, s ::
        Next(State(accounts, rows, now, s), Read(c, account, id))
          == State(accounts, rows, now, if r.Ok? then s[c := r.value] else s - {c})
    {
      var s := Observe(rows, id, account);
      r := if s.Some? then Ok(s.value) else Err(NotFound);
    }

    /** Writes a provider answer over the row the snapshot was read from, if
        the row still shows that snapshot, and then expires. */
    method PersistSwapStatus(s: Snapshot, current: Status, now: Time) returns (ok: bool)
      modifies this
      ensures ok <==>
        && s.id in old(rows) && old(rows)[s.id].account == s.account && old(rows)[s.id].address == s.address
        && old(rows)[s.id].terms.memo == s.memo && old(rows)[s.id].response == s.previous
      ensures !ok ==> rows == old(rows)
      ensures ok ==> exists answered ::
        && AfterAnswer(old(rows)[s.id], current, now, answered)
        && AllExpired(old(rows)[s.id := answered], rows, s.account, now)
      ensures ok && current.status != "PENDING_DEPOSIT" ==> AfterAnswer(old(rows)[s.id], current, now, rows[s.id])
      ensures ok ==> forall c, r :: c in r && r[c] == s ==>
        Next(Next(State(accounts, old(rows), now, r), Write(c, current)), Expire(s.account))
          == State(accounts, rows, now, r - {c})
      ensures !ok ==> forall c, r :: c in r && r[c] == s ==>
        Next(State(accounts, old(rows), now, r), Write(c, current)) == State(accounts, rows, now, r - {c})
    {
      ok := Matches(rows, s);
      if ok {
        assert AfterAnswer(rows[s.id], current, now, WithStatus(rows[s.id], current, now));
        rows := Persisted(rows, s, current, now);
        ExpireSwaps(s.account, now);
      }
    }

    /** The update and the query for the address to notify. */
    method RecordDeposit(id: nat, account: nat, hash: string, now: Time) returns (r: Result<string, Error>)
      modifies this
      ensures Took(now, Deposit(account, id, hash))
      ensures r.Ok? <==>
        && HexHash(hash) && id in old(rows) && old(rows)[id].account == account
        && old(rows)[id].terms.origin == "nep141:zec.omft.near" && old(rows)[id].hash in {None, Some(hash)}
      ensures r.Err? ==> rows == old(rows) && r.error == if HexHash(hash) then NotFound else InvalidHash
      ensures r.Ok? ==> id in rows && rows == old(rows)[id := old(rows)[id].(hash := Some(hash), updatedAt := now)]
      ensures r.Ok? ==> r.value == rows[id].address
    {
      TxHashIff(hash);
      if !IsTxHash(hash) {
        return Err(InvalidHash);
      }
      if !CanRecord(rows, id, account, hash) {
        return Err(NotFound);
      }
      rows := Recorded(rows, id, account, hash, now);
      r := Ok(rows[id].address);
    }

    /** The first stamp stays; no other column but the time of the update, and
        no other row, changes. */
    method StampDepositSubmitted(id: nat, account: nat, hash: string, now: Time) returns (ok: bool)
      modifies this
      ensures Took(now, Stamp(account, id, hash))
      ensures ok <==> id in old(rows) && old(rows)[id].account == account && old(rows)[id].hash == Some(hash)
      ensures !ok ==> rows == old(rows)
      ensures rows.Keys == old(rows).Keys && forall k :: k in rows && k != id ==> rows[k] == old(rows)[k]
      ensures ok ==> rows[id] == old(rows)[id].(submittedAt := rows[id].submittedAt, updatedAt := now)
      ensures ok && old(rows)[id].submittedAt.Some? ==> rows[id].submittedAt == old(rows)[id].submittedAt
      ensures ok && old(rows)[id].submittedAt.None? ==> rows[id].submittedAt == Some(now)
    {
      ok := CanStamp(rows, id, account, hash);
      rows := Stamped(rows, id, account, hash, now);
    }

    /** Whether the swap is closed does not matter, despite the name. */
    method DeleteClosedSwap(account: nat, id: nat) returns (ok: bool)
      modifies this
      ensures forall now :: Took(now, Delete(account, id))
      ensures ok <==> id in old(rows) && old(rows)[id].account == account
      ensures rows.Keys == if ok then old(rows).Keys - {id} else old(rows).Keys
      ensures forall k :: k in rows ==> rows[k] == old(rows)[k]
    {
      ok := Owns(rows, id, account);
      rows := Without(rows, id, account);
    }

    method ClearClosedSwaps(account: nat)
      modifies this
      ensures forall now :: Took(now, Clear(account))
      ensures forall id :: id in rows ==> id in old(rows) && rows[id] == old(rows)[id]
      ensures forall id :: id in old(rows) && id !in rows ==>
        old(rows)[id].account == account && old(rows)[id].completedAt.Some?
      ensures forall id :: id in rows && rows[id].account == account ==> rows[id].completedAt.None?
    {
      rows := WithoutClosed(rows, account);
    }
  }

  // ---------------------------------------------------------------------
  // Runs

  /** The state after the first n steps. */
  function At(s: State, steps: seq<Step>, n: nat): State
    requires n <= |steps|
  {
    if n == 0 then s else Next(At(s, steps, n - 1), steps[n - 1])
  }

  /** A run takes its steps one by one, all of them. */
  lemma OneByOne(s: State, steps: seq<Step>, n: nat)
    requires n < |steps|
    ensures At(s, steps, 0) == s && At(s, steps, n + 1) == Next(At(s, steps, n), steps[n])
  {}

  ghost predicate RowInv(s: Swap) {
    && (s.status.Some? && Final(s.status.value) ==> s.completedAt.Some?)
    && (s.completedAt.Some? ==> s.status.Some? && (Final(s.status.value) || s.status.value == "EXPIRED"))
    && (s.submittedAt.Some? ==> s.hash.Some?)
  }

  ghost predicate Inv(s: State) {
    && (forall id :: id in s.rows ==> s.rows[id].account in s.accounts && RowInv(s.rows[id]))
    && (forall i, j :: i in s.rows && j in s.rows && s.rows[i].address == s.rows[j].address ==> i == j)
  }

  lemma InvRow(s: State, step: Step, id: nat)
    requires !step.Save? && id in Next(s, step).rows
    requires forall k :: k in s.rows ==> s.rows[k].account in s.accounts && RowInv(s.rows[k])
    ensures id in s.rows && Next(s, step).rows[id].address == s.rows[id].address
    ensures Next(s, step).rows[id].account in Next(s, step).accounts && RowInv(Next(s, step).rows[id])
  {}

  lemma InvStep(s: State, step: Step)
    requires Inv(s)
    ensures Inv(Next(s, step))
  {
    if !step.Save? {
      var rows := Next(s, step).rows;
      forall id | id in rows
        ensures id in s.rows && rows[id].address == s.rows[id].address
        ensures rows[id].account in Next(s, step).accounts && RowInv(rows[id])
      {
        InvRow(s, step, id);
      }
      hide Next, RowInv;
      assert Inv(Next(s, step));
    }
  }

  /** Over every run: a swap belongs to an account, a final status is closed, a
      closed swap is final or expired, a submitted stamp comes with a recorded
      deposit, and deposit addresses are distinct. */
  lemma {:induction false} InvAlways(s: State, steps: seq<Step>, n: nat)
    requires Inv(s) && n <= |steps|
    ensures Inv(At(s, steps, n))
  {
    if n > 0 {
      InvAlways(s, steps, n - 1);
      InvStep(At(s, steps, n - 1), steps[n - 1]);
    }
  }

  /** The row exists in every state from the i-th to the j-th. */
  ghost predicate Lives(s: State, steps: seq<Step>, id: nat, i: nat, j: nat) {
    i <= j <= |steps| && forall m: nat :: i <= m <= j ==> id in At(s, steps, m).rows
  }

  /** What no step changes in a row: its quote, and its deposit once recorded. */
  ghost predicate SameSwap(a: Swap, b: Swap) {
    && a.account == b.account && a.terms == b.terms && a.address == b.address && a.createdAt == b.createdAt
    && (a.hash.Some? ==> b.hash == a.hash)
    && (a.submittedAt.Some? ==> b.submittedAt == a.submittedAt)
  }

  lemma StepKeepsSwap(s: State, step: Step, id: nat)
    requires id in s.rows && id in Next(s, step).rows
    ensures SameSwap(s.rows[id], Next(s, step).rows[id])
  {}

  /** While a row lives, its quote never changes, and neither do its deposit
      hash and its submitted stamp once they are set. */
  lemma {:induction false} DepositIsPermanent(s: State, steps: seq<Step>, id: nat, i: nat, j: nat)
    requires Lives(s, steps, id, i, j)
    ensures SameSwap(At(s, steps, i).rows[id], At(s, steps, j).rows[id])
    decreases j - i
  {
    if i < j {
      DepositIsPermanent(s, steps, id, i, j - 1);
      assert At(s, steps, j) == Next(At(s, steps, j - 1), steps[j - 1]);
      StepKeepsSwap(At(s, steps, j - 1), steps[j - 1], id);
    }
  }

  /** Expiry closes exactly the account's unfunded open swaps a day past their
      deadline; every other row keeps every column. */
  lemma ExpiryTouches(rows: Rows, account: nat, now: Time, id: nat)
    requires id in rows
    ensures Expired(rows, account, now).Keys == rows.Keys
    ensures Expired(rows, account, now)[id] != rows[id] ==>
      rows[id].account == account && rows[id].hash.None? && rows[id].completedAt.None?
    ensures Expired(rows, account, now)[id].status == Some("EXPIRED") && rows[id].status != Some("EXPIRED")
      <==> rows[id].account == account && Waiting(rows[id]) && Overdue(rows[id].terms, now)
    ensures Expired(rows, account, now)[id] == AfterExpiry(rows[id], account, now)
  {}

  // ---------------------------------------------------------------------
  // Refreshes do not overwrite one another

  /** The n-th step writes a provider answer on row id. */
  predicate WritesTo(s: State, steps: seq<Step>, n: nat, id: nat) {
    && n < |steps| && steps[n].Write?
    && steps[n].client in At(s, steps, n).refreshes
    && At(s, steps, n).refreshes[steps[n].client].id == id
    && Matches(At(s, steps, n).rows, At(s, steps, n).refreshes[steps[n].client])
  }

  /** The i-th step is the read that the n-th step, a write, relies on. */
  ghost predicate ReadBy(s: State, steps: seq<Step>, i: nat, n: nat) {
    && i < n < |steps| && steps[n].Write?
    && steps[i].Read? && steps[i].client == steps[n].client
    && Owns(At(s, steps, i).rows, steps[i].id, steps[i].account)
    && (forall m: nat :: i < m <= n ==> Holds(At(s, steps, m), steps[n].client, Seen(s, steps, i)))
  }

  /** The snapshot that the i-th step, a successful read, takes. */
  function Seen(s: State, steps: seq<Step>, i: nat): Snapshot
    requires i < |steps| && steps[i].Read? && Owns(At(s, steps, i).rows, steps[i].id, steps[i].account)
  {
    Observe(At(s, steps, i).rows, steps[i].id, steps[i].account).value
  }

  ghost predicate Holds(s: State, client: nat, snapshot: Snapshot) {
    client in s.refreshes && s.refreshes[client] == snapshot
  }

  /** Every refresh in flight holds what an earlier read saw. */
  lemma RefreshComesFrom(s: State, steps: seq<Step>, n: nat, m: nat, held: Snapshot) returns (i: nat)
    requires s.refreshes == map[] && m <= n < |steps| && steps[n].Write?
    requires forall k: nat :: m <= k <= n ==> Holds(At(s, steps, k), steps[n].client, held)
    ensures i < m && ReadBy(s, steps, i, n) && Seen(s, steps, i) == held
    decreases m
  {
    assert Holds(At(s, steps, m), steps[n].client, held);
    if steps[m - 1].Read? && steps[m - 1].client == steps[n].client {
      i := m - 1;
    } else {
      i := RefreshComesFrom(s, steps, n, m - 1, held);
    }
  }

  /** A row that is not written keeps its response. */
  lemma {:induction false} ResponseKept(s: State, steps: seq<Step>, id: nat, i: nat, j: nat)
    requires Lives(s, steps, id, i, j)
    requires forall m: nat :: i <= m < j ==> !WritesTo(s, steps, m, id)
    ensures At(s, steps, i).rows[id].response == At(s, steps, j).rows[id].response
    decreases j - i
  {
    if i < j {
      ResponseKept(s, steps, id, i, j - 1);
      assert !WritesTo(s, steps, j - 1, id);
    }
  }

  lemma ResponseWritten(s: State, steps: seq<Step>, n: nat, id: nat)
    requires WritesTo(s, steps, n, id)
    ensures id in At(s, steps, n + 1).rows
    ensures At(s, steps, n + 1).rows[id].response == Some(steps[n].current.response)
  {}

  /** Compare and swap, for a row that lives from the read to the write: after
      other writes the write goes through if and only if the last of them
      left the response that was read; after none it always does. */
  lemma WriteSucceedsIff(s: State, steps: seq<Step>, i: nat, n: nat, last: nat)
    requires ReadBy(s, steps, i, n) && Lives(s, steps, steps[i].id, i, n)
    requires i < last <= n
    requires last < n ==> WritesTo(s, steps, last, steps[i].id)
    requires forall m: nat :: (if last < n then last + 1 else i) <= m < n ==> !WritesTo(s, steps, m, steps[i].id)
    ensures WritesTo(s, steps, n, steps[i].id)
      <==> last == n || At(s, steps, i).rows[steps[i].id].response == Some(steps[last].current.response)
  {
    var id := steps[i].id;
    DepositIsPermanent(s, steps, id, i, n);
    if last < n {
      ResponseWritten(s, steps, last, id);
      ResponseKept(s, steps, id, last + 1, n);
    } else {
      ResponseKept(s, steps, id, i, n);
    }
    assert At(s, steps, n).refreshes[steps[n].client].id == id;
  }

  /** No two writes, and no write and no row of the first state, carry the same
      provider answer. */
  ghost predicate FreshResponses(s: State, steps: seq<Step>) {
    && (forall i, j :: 0 <= i < j < |steps| && steps[i].Write? && steps[j].Write?
          ==> steps[i].current.response != steps[j].current.response)
    && (forall i, id :: 0 <= i < |steps| && steps[i].Write? && id in s.rows
          ==> s.rows[id].response != Some(steps[i].current.response))
  }

  /** The k-th step saves a swap with this deposit address. */
  ghost predicate Saves(s: State, steps: seq<Step>, k: nat, address: string) {
    && k < |steps| && steps[k].Save? && steps[k].quote.address == Some(address)
    && CanInsert(At(s, steps, k).accounts, At(s, steps, k).rows, steps[k].account, steps[k].quote)
  }

  /** Where the address of a row that is absent at m comes from: a save since. */
  lemma {:induction false} SavedSince(s: State, steps: seq<Step>, id: nat, m: nat, n: nat) returns (k: nat)
    requires m <= n <= |steps| && id !in At(s, steps, m).rows && id in At(s, steps, n).rows
    ensures m <= k < n && Saves(s, steps, k, At(s, steps, n).rows[id].address)
    decreases n - m
  {
    if id in At(s, steps, n - 1).rows {
      k := SavedSince(s, steps, id, m, n - 1);
    } else {
      k := n - 1;
    }
  }

  /** Where a stored response comes from. */
  lemma {:induction false} ResponseOrigin(s: State, steps: seq<Step>, id: nat, n: nat)
    requires n <= |steps| && id in At(s, steps, n).rows && At(s, steps, n).rows[id].response.Some?
    ensures
      || (id in s.rows && s.rows[id].response == At(s, steps, n).rows[id].response)
      || exists k ::
           0 <= k < n && steps[k].Write? && At(s, steps, n).rows[id].response == Some(steps[k].current.response)
  {
    if n > 0 && id in At(s, steps, n - 1).rows {
      if At(s, steps, n - 1).rows[id].response == At(s, steps, n).rows[id].response {
        ResponseOrigin(s, steps, id, n - 1);
      } else {
        assert steps[n - 1].Write?;
      }
    }
  }

  /** The last write on row id among the steps from i to n - 1, or n. */
  function LastWrite(s: State, steps: seq<Step>, id: nat, i: nat, n: nat): (k: nat)
    requires i <= n <= |steps|
    ensures k == n || (i <= k < n && WritesTo(s, steps, k, id))
    ensures forall m: nat :: (if k < n then k + 1 else i) <= m < n ==> !WritesTo(s, steps, m, id)
    decreases n - i
  {
    if i == n then n
    else if WritesTo(s, steps, n - 1, id) then n - 1
    else
      var k := LastWrite(s, steps, id, i, n - 1);
      if k == n - 1 then n else k
  }

  /** A write that goes through has read what the last write before it in the
      life of the row stored. */
  lemma ReadsTheLastWrite(s: State, steps: seq<Step>, i: nat, n: nat, k: nat)
    requires ReadBy(s, steps, i, n) && WritesTo(s, steps, n, steps[i].id)
    requires k < n && WritesTo(s, steps, k, steps[i].id) && Lives(s, steps, steps[i].id, k, n)
    requires forall m: nat :: k < m < n ==> !WritesTo(s, steps, m, steps[i].id)
    ensures Seen(s, steps, i).previous == Some(steps[k].current.response)
  {
    var id := steps[i].id;
    ResponseWritten(s, steps, k, id);
    ResponseKept(s, steps, id, k + 1, n);
    assert Holds(At(s, steps, n), steps[n].client, Seen(s, steps, i));
  }

  /** The chain: with fresh answers, and in any interleaving of refreshes,
      expiries, deletions and saves, a write that goes through skips no
      earlier write in the life of the row it lands on. */
  lemma NoWriteIsSkipped(s: State, steps: seq<Step>, i: nat, n: nat, m: nat)
    requires FreshResponses(s, steps)
    requires ReadBy(s, steps, i, n) && WritesTo(s, steps, n, steps[i].id)
    requires i <= m < n && Lives(s, steps, steps[i].id, m, n)
    ensures !WritesTo(s, steps, m, steps[i].id)
  {
    var id := steps[i].id;
    var k := LastWrite(s, steps, id, m, n);
    if k < n {
      ReadsTheLastWrite(s, steps, i, n, k);
      assert steps[i].Read?;
      ResponseOrigin(s, steps, id, i);
      assert false;
    }
  }

  /** With fresh answers a refresh that writes is atomic as far as the row it
      writes has lived: between its read and its write no other refresh
      writes that row. */
  lemma RefreshIsAtomic(s: State, steps: seq<Step>, i: nat, n: nat)
    requires FreshResponses(s, steps)
    requires ReadBy(s, steps, i, n) && WritesTo(s, steps, n, steps[i].id)
    ensures forall m: nat :: i <= m < n && Lives(s, steps, steps[i].id, m, n) ==> !WritesTo(s, steps, m, steps[i].id)
  {
    forall m: nat | i <= m < n && Lives(s, steps, steps[i].id, m, n)
      ensures !WritesTo(s, steps, m, steps[i].id)
    {
      NoWriteIsSkipped(s, steps, i, n, m);
    }
  }

  /** Every write that goes through, in a run that starts with no refresh in
      flight, has a read; every earlier write in the life of the row it lands
      on came before that read, which saw what the last of them stored. */
  lemma EveryWriteIsAtomic(s: State, steps: seq<Step>, n: nat, id: nat) returns (i: nat)
    requires s.refreshes == map[] && FreshResponses(s, steps)
    requires WritesTo(s, steps, n, id)
    ensures ReadBy(s, steps, i, n) && steps[i].id == id
    ensures forall k: nat :: k < n && Lives(s, steps, id, k, n) && WritesTo(s, steps, k, id) ==> k < i
    ensures forall k: nat :: k < n && Lives(s, steps, id, k, n) && LastWrite(s, steps, id, k, n) == k ==>
      Seen(s, steps, i).previous == Some(steps[k].current.response)
  {
    i := RefreshComesFrom(s, steps, n, n, At(s, steps, n).refreshes[steps[n].client]);
    RefreshIsAtomic(s, steps, i, n);
    forall k: nat | k < n && Lives(s, steps, id, k, n) && LastWrite(s, steps, id, k, n) == k
      ensures Seen(s, steps, i).previous == Some(steps[k].current.response)
    {
      ReadsTheLastWrite(s, steps, i, n, k);
    }
  }

  /** When a write lands on the very row that was read: if and only if nobody
      saved that row's deposit address again in between. */
  lemma WriteHitsTheRowReadIff(s: State, steps: seq<Step>, i: nat, n: nat)
    requires ReadBy(s, steps, i, n) && WritesTo(s, steps, n, steps[i].id)
    ensures Lives(s, steps, steps[i].id, i, n)
      <==> forall k: nat :: i < k < n ==> !Saves(s, steps, k, Seen(s, steps, i).address)
  {
    var id := steps[i].id;
    assert Holds(At(s, steps, n), steps[n].client, Seen(s, steps, i));
    if Lives(s, steps, id, i, n) {
      forall k: nat | i < k < n
        ensures !Saves(s, steps, k, Seen(s, steps, i).address)
      {
        DepositIsPermanent(s, steps, id, i, k);
        assert id in At(s, steps, k).rows;
      }
    } else {
      var m: nat :| i <= m <= n && id !in At(s, steps, m).rows;
      var k := SavedSince(s, steps, id, m, n);
      assert i < k < n && Saves(s, steps, k, Seen(s, steps, i).address);
    }
  }

  /** The comparison alone does not tell a replaced row from the one that was
      read: a swap deleted and saved again, with the address and the memo it
      had and no answer stored yet, takes the write of the old one. */
  lemma WriteHitsAReplacedRow(s: State, row: Swap, q: Quote, b: Status)
    requires s.rows == map[1 := row] && row.response.None?
    requires CanInsert(s.accounts, map[], row.account, q)
    requires q.address == Some(row.address) && q.terms.memo == row.terms.memo
    ensures
      var o := row.account;
      var steps := [Read(0, o, 1), Delete(o, 1), Save(o, q), Write(0, b)];
      ReadBy(s, steps, 0, 3) && WritesTo(s, steps, 3, 1) && !Lives(s, steps, 1, 0, 3)
  {
    var o := row.account;
    var steps := [Read(0, o, 1), Delete(o, 1), Save(o, q), Write(0, b)];
    var seen := Snapshot(1, o, row.address, row.terms.memo, None);
    assert At(s, steps, 0) == s;
    var s1, s2, s3 := At(s, steps, 1), At(s, steps, 2), At(s, steps, 3);
    assert s1 == Next(s, steps[0]) && s1 == s.(refreshes := s.refreshes[0 := seen]);
    assert s2 == Next(s1, steps[1]) && s2.rows == map[];
    assert s3 == Next(s2, steps[2]) && s3.rows == Inserted(map[], o, q, s.now);
  }

  /** The submitted stamp appears on a row only by a stamp step that names the
      hash the row carries. */
  lemma StampNamesTheHash(s: State, step: Step, id: nat)
    requires id in s.rows && id in Next(s, step).rows
    requires s.rows[id].submittedAt.None? && Next(s, step).rows[id].submittedAt.Some?
    ensures step.Stamp? && step.id == id && s.rows[id].hash == Some(step.hash)
  {}

  /** Without fresh answers the chain can break: the provider answers "b" and
      then "a" again, and a refresh that read "a" first overwrites both. */
  lemma RepeatedAnswerHidesWrites(s: State, row: Swap, b: Status, a: Status)
    requires s.rows == map[1 := row] && s.refreshes == map[]
    requires row.response == Some(a.response) && b.response != a.response
    ensures
      var o := row.account;
      var steps := [Read(0, o, 1), Read(1, o, 1), Write(1, b), Read(1, o, 1), Write(1, a), Write(0, b)];
      ReadBy(s, steps, 0, 5) && WritesTo(s, steps, 5, 1) && WritesTo(s, steps, 2, 1) && WritesTo(s, steps, 4, 1)
  {
    var o := row.account;
    var steps := [Read(0, o, 1), Read(1, o, 1), Write(1, b), Read(1, o, 1), Write(1, a), Write(0, b)];
    var seen := Snapshot(1, o, row.address, row.terms.memo, row.response);
    hide Expired, Inserted, CanInsert, IsTxHash;
    assert At(s, steps, 0) == s;
    var s1, s2, s3 := At(s, steps, 1), At(s, steps, 2), At(s, steps, 3);
    assert s1 == Next(s, steps[0]) && s1.refreshes == map[0 := seen];
    assert s2 == Next(s1, steps[1]) && s2.refreshes == map[0 := seen, 1 := seen];
    assert s3 == Next(s2, steps[2]);
    var s4, s5 := At(s, steps, 4), At(s, steps, 5);
    assert s4 == Next(s3, steps[3]) && s5 == Next(s4, steps[4]);
  }
}
