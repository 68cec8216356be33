/** The stored Sapling address of an account with incoming Sapling keys alone,
    which no step to the next index updates. */
module StaleAddresses {
  import opened Wrappers
  import opened ChangeAddresses

  /** The account has incoming Sapling keys alone. */
  ghost predicate IncomingSapling(db: Db, a: nat) {
    a in db.accounts && db.accounts[a].hw == 0 && a in db.skeys && db.skeys[a].xvk.None? && db.skeys[a].ivk.Some?
  }

  /** How often the first n steps moved the account to its next index. */
  function Moves(steps: seq<Step>, n: nat, a: nat): nat
    requires n <= |steps|
  {
    if n == 0 then 0 else Moves(steps, n - 1, a) + if steps[n - 1] == NextIndexOf(a) then 1 else 0
  }

  /** The stored address is that of the index the account began with. */
  ghost predicate StoredAtFirst(env: Env, db: Db, a: nat, moves: nat)
    requires IncomingSapling(db, a)
  {
    && moves <= db.accounts[a].dindex
    && env.saplingIncomingAt(db.skeys[a].ivk.value, db.accounts[a].dindex - moves) == Some(db.skeys[a].address)
  }

  lemma StepKeepsFirst(env: Env, db: Db, step: Step, db': Db, a: nat, moves: nat)
    requires Belongs(db) && Takes(env, db, step, db') && IncomingSapling(db', a) && a in db.accounts
    requires IncomingSapling(db, a) ==> StoredAtFirst(env, db, a, moves)
    ensures IncomingSapling(db, a)
    ensures StoredAtFirst(env, db', a, moves + if step == NextIndexOf(a) then 1 else 0)
  {
    match step
    case NewAccountOf(b, hw, source, requested) =>
    case NextIndexOf(b) => NextIndexMoves(env, db, b, db');
    case SetFlagOf(b, flag) =>
    case Open =>
  }

  lemma NewIsFirst(env: Env, db: Db, step: Step, db': Db, a: nat)
    requires Belongs(db) && Takes(env, db, step, db') && IncomingSapling(db', a) && a !in db.accounts
    ensures StoredAtFirst(env, db', a, 0) && step != NextIndexOf(a)
  {}

  lemma HasAccount(db: Db, a: nat)
    requires IncomingSapling(db, a)
    ensures a in db.accounts
  {}

  lemma RunShape(env: Env, steps: seq<Step>, dbs: seq<Db>)
    requires Run(env, steps, dbs)
    ensures |dbs| == |steps| + 1 && dbs[0].accounts.Keys == {}
  {}

  lemma TakesStep(env: Env, steps: seq<Step>, dbs: seq<Db>, n: nat)
    requires Run(env, steps, dbs) && n < |steps|
    ensures n + 1 < |dbs| && Takes(env, dbs[n], steps[n], dbs[n + 1])
  {}

  lemma NotThere(env: Env, db: Db, step: Step, db': Db, a: nat)
    requires Takes(env, db, step, db') && a !in db'.accounts
    ensures a !in db.accounts && step != NextIndexOf(a)
  {}

  /** An account that is not there yet was not moved. */
  lemma {:induction false} NotMovedYet(env: Env, steps: seq<Step>, dbs: seq<Db>, n: nat, a: nat)
    requires Run(env, steps, dbs) && n < |dbs| && a !in dbs[n].accounts
    ensures n <= |steps| && Moves(steps, n, a) == 0
  {
    RunShape(env, steps, dbs);
    hide Run, Takes;
    if n > 0 {
      TakesStep(env, steps, dbs, n - 1);
      NotThere(env, dbs[n - 1], steps[n - 1], dbs[n], a);
      NotMovedYet(env, steps, dbs, n - 1, a);
    }
  }

  lemma BelongsAlways(env: Env, steps: seq<Step>, dbs: seq<Db>, n: nat)
    requires Run(env, steps, dbs) && n < |dbs|
    ensures Belongs(dbs[n])
  {
    GoodAlways(env, steps, dbs, n);
  }

  lemma OneStep(env: Env, db: Db, step: Step, db': Db, a: nat, moves: nat)
    requires Belongs(db) && Takes(env, db, step, db') && IncomingSapling(db', a)
    requires if a in db.accounts then IncomingSapling(db, a) ==> StoredAtFirst(env, db, a, moves) else moves == 0
    ensures StoredAtFirst(env, db', a, moves + if step == NextIndexOf(a) then 1 else 0)
  {
    hide Takes, IncomingSapling, StoredAtFirst, Belongs;
    if a in db.accounts {
      StepKeepsFirst(env, db, step, db', a, moves);
    } else {
      NewIsFirst(env, db, step, db', a);
    }
  }

  lemma {:induction false} FirstAlways(env: Env, steps: seq<Step>, dbs: seq<Db>, n: nat, a: nat)
    requires Run(env, steps, dbs) && n < |dbs| && IncomingSapling(dbs[n], a)
    ensures StoredAtFirst(env, dbs[n], a, Moves(steps, n, a))
  {
    RunShape(env, steps, dbs);
    HasAccount(dbs[n], a);
    hide Run, Takes, IncomingSapling, StoredAtFirst, Belongs;
    if n > 0 {
      TakesStep(env, steps, dbs, n - 1);
      BelongsAlways(env, steps, dbs, n - 1);
      if a !in dbs[n - 1].accounts {
        NotMovedYet(env, steps, dbs, n - 1, a);
      } else if IncomingSapling(dbs[n - 1], a) {
        FirstAlways(env, steps, dbs, n - 1, a);
      }
      OneStep(env, dbs[n - 1], steps[n - 1], dbs[n], a, Moves(steps, n - 1, a));
    }
  }

  /** Over every run: with incoming Sapling keys alone the stored address is
      that of the current index exactly when the account was never moved to a
      next index, different indexes having different addresses. (With full
      keys it always is: `SaplingCurrent`.) */
  lemma IncomingSaplingIsCurrentIff(env: Env, steps: seq<Step>, dbs: seq<Db>, n: nat, a: nat)
    requires Run(env, steps, dbs) && n < |dbs| && IncomingSapling(dbs[n], a)
    requires forall k, i, j ::
      env.saplingIncomingAt(k, i).Some? && env.saplingIncomingAt(k, i) == env.saplingIncomingAt(k, j) ==> i == j
    ensures env.saplingIncomingAt(dbs[n].skeys[a].ivk.value, dbs[n].accounts[a].dindex) == Some(dbs[n].skeys[a].address)
      <==> Moves(steps, n, a) == 0
  {
    FirstAlways(env, steps, dbs, n, a);
  }

  /** A run that leaves it behind. */
  lemma IncomingSaplingStaysBehind(env: Env, k: Key, d: nat, address: string) returns (steps: seq<Step>, dbs: seq<Db>)
    requires d + 1 < INDEXES && env.saplingIncomingAt(k, d) == Some(address)
    ensures Run(env, steps, dbs) && |dbs| == 3
    ensures dbs[2].accounts.Keys == {1} && dbs[2].accounts[1].dindex == d + 1
    ensures 1 in dbs[2].skeys && dbs[2].skeys[1] == SKeys(None, Some(k), address)
  {
    var source := IncomingKeys(None, Some(k), None, d);
    steps := [NewAccountOf(1, SoftwareHw, source, None), NextIndexOf(1)];
    var first := WithAccount(EMPTY, 1, source, Some(SKeys(None, Some(k), address)), false);
    var second := WithIndex(first, 1, d + 1, None);
    dbs := [EMPTY, first, second];
    NothingToAdd(env, first);
    NothingToAdd(env, second);
    assert NewAccountStep(env, EMPTY, 1, SoftwareHw, source, None, first);
    assert NextIndex(env, first, 1) == Some((d + 1, None));
    assert IndexSlots(first, 1, d + 1) == {};
    assert NextIndexStep(env, first, 1, second);
  }
}
