/**
  What the audit table holds, told from the calls of `RecordEvent` alone: the data of each call in
  its own columns, chained in the order in which the calls of a tenant committed.
 */
module AuditRecords {
  import opened Basics
  import opened AuditChain
  import opened AuditWriters

  /** The call of a writer: its `Begin`. */
  function CallOf(actions: seq<Action>, w: nat): Option<Action> {
    if actions == [] then None
    else
      var n := |actions| - 1;
      if actions[n].Begin? && actions[n].w == w then Some(actions[n]) else CallOf(actions[..n], w)
  }

  /** The calls for a tenant in the order in which they committed. */
  function Commits(actions: seq<Action>, tenant: string): seq<Action> {
    if actions == [] then []
    else
      var n := |actions| - 1;
      var was, call := Commits(actions[..n], tenant), CallOf(actions[..n], actions[n].w);
      if actions[n].Commit? && call.Some? && call.value.Begin? && call.value.tenant == tenant then was + [call.value] else was
  }

  /** Every column that the caller decides. */
  predicate Carries(row: Row, call: Action)
    requires call.Begin?
  {
    && row.id == call.id && row.tenant == call.tenant && row.event == call.event
    && row.tool == call.tool && row.request == call.request && row.recordedAt == call.at
  }

  lemma {:induction false} LastStep(env: Env, key: string -> int, db: Db, actions: seq<Action>, end: Db) returns (mid: Db)
    requires Runs(env, key, db, actions, end) && actions != []
    ensures var n := |actions| - 1;
            Runs(env, key, db, actions[..n], mid) && Enabled(key, mid, actions[n]) && end == Apply(env, key, mid, actions[n])
    decreases |actions|
  {
    var n := |actions| - 1;
    if n == 0 {
      mid := db;
      assert actions[..n] == [];
    } else {
      mid := LastStep(env, key, Apply(env, key, db, actions[0]), actions[1..], end);
      assert actions[1..][..n - 1] == actions[..n][1..];
    }
  }

  // ----- Writers carry the data of their calls -----

  ghost predicate WriterFits(x: Writer, call: Option<Action>) {
    && call.Some? && call.value.Begin?
    && x.id == call.value.id && x.tenant == call.value.tenant && x.event == call.value.event
    && x.tool == call.value.tool && x.request == call.value.request && x.at == call.value.at
  }

  ghost predicate AsCalled(db: Db, actions: seq<Action>, w: nat) {
    if w in db.writers then WriterFits(db.writers[w], CallOf(actions, w)) else CallOf(actions, w) == None
  }

  lemma StepAsCalled(env: Env, key: string -> int, db: Db, actions: seq<Action>, a: Action, w: nat)
    requires Enabled(key, db, a) && AsCalled(db, actions, w)
    ensures AsCalled(Apply(env, key, db, a), actions + [a], w)
  {
    assert (actions + [a])[..|actions|] == actions;
  }

  lemma {:induction false} WritersAsCalled(env: Env, key: string -> int, actions: seq<Action>, db: Db, w: nat)
    requires Runs(env, key, Empty, actions, db)
    ensures AsCalled(db, actions, w)
    decreases |actions|
  {
    if actions != [] {
      var n := |actions| - 1;
      var mid := LastStep(env, key, Empty, actions, db);
      WritersAsCalled(env, key, actions[..n], mid, w);
      StepAsCalled(env, key, mid, actions[..n], actions[n], w);
      assert actions == actions[..n] + [actions[n]];
    }
  }

  // ----- Chains carry the calls, in the order of their commits -----

  /** The stored previous hash is that of the row before, and the hash is over it and the row. */
  ghost predicate LinkedAt(env: Env, rows: seq<Row>, i: nat)
    requires i < |rows|
  {
    rows[i].prevHash == Head(rows[..i]) && rows[i].hash == AuditHash(env, rows[i].prevHash, rows[i])
  }

  ghost predicate ChainCarries(env: Env, rows: seq<Row>, calls: seq<Action>) {
    && |rows| == |calls|
    && forall i :: 0 <= i < |rows| ==> LinkedAt(env, rows, i) && calls[i].Begin? && Carries(rows[i], calls[i])
  }

  lemma NewRowCarries(env: Env, x: Writer, prev: string, call: Action)
    requires WriterFits(x, Some(call))
    ensures var row := NewRow(env, x, prev);
            Carries(row, call) && row.prevHash == prev && row.hash == AuditHash(env, prev, row)
  {
    var row := NewRow(env, x, prev);
    assert Fields(env, row) == Fields(env, row.(hash := ""));
  }

  lemma ChainCarriesMore(env: Env, rows: seq<Row>, calls: seq<Action>, row: Row, call: Action)
    requires ChainCarries(env, rows, calls) && call.Begin? && Carries(row, call)
    requires row.prevHash == Head(rows) && row.hash == AuditHash(env, row.prevHash, row)
    ensures ChainCarries(env, rows + [row], calls + [call])
  {
    var all := rows + [row];
    forall i | 0 <= i < |all| ensures LinkedAt(env, all, i) {
      assert i < |rows| ==> all[..i] == rows[..i] && LinkedAt(env, rows, i);
      assert i == |rows| ==> all[..i] == rows;
    }
  }

  lemma CommitsNext(actions: seq<Action>, a: Action, tenant: string)
    ensures var call := CallOf(actions, a.w);
            Commits(actions + [a], tenant) == Commits(actions, tenant) +
            if a.Commit? && call.Some? && call.value.Begin? && call.value.tenant == tenant then [call.value] else []
  {
    assert (actions + [a])[..|actions|] == actions;
  }

  lemma StepChainCarries(env: Env, key: string -> int, db: Db, actions: seq<Action>, a: Action, tenant: string)
    requires Inv(env, key, db) && Enabled(key, db, a) && AsCalled(db, actions, a.w)
    requires ChainCarries(env, Chain(db, tenant), Commits(actions, tenant))
    ensures ChainCarries(env, Chain(Apply(env, key, db, a), tenant), Commits(actions + [a], tenant))
  {
    CommitsNext(actions, a, tenant);
    if a.Commit? {
      var x := db.writers[a.w];
      CommitKeepsChains(env, key, db, a.w);
      if x.tenant == tenant {
        assert Current(env, db, x);
        NewRowCarries(env, x, Head(Chain(db, tenant)), CallOf(actions, a.w).value);
        ChainCarriesMore(env, Chain(db, tenant), Commits(actions, tenant), x.phase.row, CallOf(actions, a.w).value);
      }
    } else {
      QuietStepKeepsCurrent(env, key, db, a);
    }
  }

  /**
    After any interleaving the rows of a tenant, in seq order, are the calls for that tenant that
    committed, in the order of their commits: every column is the call's, the previous hash is that
    of the row before, and the hash is over that and the row.
   */
  lemma {:induction false} ChainIsHistory(env: Env, key: string -> int, actions: seq<Action>, db: Db, tenant: string)
    requires Runs(env, key, Empty, actions, db)
    ensures ChainCarries(env, Chain(db, tenant), Commits(actions, tenant))
    decreases |actions|
  {
    if actions != [] {
      var n := |actions| - 1;
      var mid := LastStep(env, key, Empty, actions, db);
      ChainIsHistory(env, key, actions[..n], mid, tenant);
      EmptyInv(env, key);
      RunKeepsInv(env, key, Empty, actions[..n], mid);
      WritersAsCalled(env, key, actions[..n], mid, actions[n].w);
      StepChainCarries(env, key, mid, actions[..n], actions[n], tenant);
      assert actions == actions[..n] + [actions[n]];
    } else {
      assert Chain(Empty, tenant) == [];
    }
  }

  // ----- Rows by their numbers -----

  /** The nearest row of the same tenant before row `n`. */
  ghost predicate Precedes(rows: map<nat, Row>, m: nat, n: nat)
    requires n in rows
  {
    && m < n && m in rows && rows[m].tenant == rows[n].tenant
    && forall k :: m < k < n && k in rows ==> rows[k].tenant != rows[n].tenant
  }

  ghost predicate FirstOfTenant(rows: map<nat, Row>, n: nat)
    requires n in rows
  {
    forall k :: k < n && k in rows ==> rows[k].tenant != rows[n].tenant
  }

  /** The previous hash is that of the preceding row of the tenant, and empty for the first. */
  ghost predicate NamesPredecessor(rows: map<nat, Row>, n: nat)
    requires n in rows
  {
    && (FirstOfTenant(rows, n) ==> rows[n].prevHash == "")
    && (forall m :: Precedes(rows, m, n) ==> rows[n].prevHash == rows[m].hash)
  }

  lemma {:induction false} NoneBelow(rows: map<nat, Row>, n: nat, tenant: string)
    requires forall k :: k < n && k in rows ==> rows[k].tenant != tenant
    ensures TenantRows(rows, n, tenant) == []
  {
    if n > 0 {
      NoneBelow(rows, n - 1, tenant);
    }
  }

  lemma {:induction false} NearestBelow(rows: map<nat, Row>, n: nat, m: nat, tenant: string)
    requires m < n && m in rows && rows[m].tenant == tenant
    requires forall k :: m < k < n && k in rows ==> rows[k].tenant != tenant
    ensures Head(TenantRows(rows, n, tenant)) == rows[m].hash
  {
    if m < n - 1 {
      NearestBelow(rows, n - 1, m, tenant);
    }
  }

  lemma {:induction false} PlaceInChain(rows: map<nat, Row>, n: nat, m: nat)
    requires m < n && m in rows
    ensures var all, below := TenantRows(rows, n, rows[m].tenant), TenantRows(rows, m, rows[m].tenant);
            |below| < |all| && all[|below|] == rows[m] && all[..|below|] == below
  {
    if m < n - 1 {
      PlaceInChain(rows, n - 1, m);
    }
  }

  lemma RowIsLinked(env: Env, db: Db, n: nat, calls: seq<Action>)
    requires n in db.rows && n < db.nextSeq && ChainCarries(env, Chain(db, db.rows[n].tenant), calls)
    ensures NamesPredecessor(db.rows, n) && db.rows[n].hash == AuditHash(env, db.rows[n].prevHash, db.rows[n])
  {
    var tenant := db.rows[n].tenant;
    PlaceInChain(db.rows, db.nextSeq, n);
    assert LinkedAt(env, Chain(db, tenant), |TenantRows(db.rows, n, tenant)|);
    if FirstOfTenant(db.rows, n) {
      NoneBelow(db.rows, n, tenant);
    }
    forall m | Precedes(db.rows, m, n) ensures db.rows[n].prevHash == db.rows[m].hash {
      NearestBelow(db.rows, n, m, tenant);
    }
  }

  // ----- One row per committed call -----

  ghost predicate CommitFits(db: Db, actions: seq<Action>, w: nat) {
    Commit(w) in actions <==> w in db.writers && db.writers[w].phase.Committed?
  }

  lemma StepCommitFits(env: Env, key: string -> int, db: Db, actions: seq<Action>, a: Action, w: nat)
    requires Enabled(key, db, a) && CommitFits(db, actions, w)
    ensures CommitFits(Apply(env, key, db, a), actions + [a], w)
  {
  }

  lemma {:induction false} CommittedIffCommit(env: Env, key: string -> int, actions: seq<Action>, db: Db, w: nat)
    requires Runs(env, key, Empty, actions, db)
    ensures CommitFits(db, actions, w)
    decreases |actions|
  {
    if actions != [] {
      var n := |actions| - 1;
      var mid := LastStep(env, key, Empty, actions, db);
      CommittedIffCommit(env, key, actions[..n], mid, w);
      StepCommitFits(env, key, mid, actions[..n], actions[n], w);
      assert actions == actions[..n] + [actions[n]];
    }
  }

  /** The row of a call that committed: its data, column by column, chained to the row before. */
  ghost predicate RowOfCall(env: Env, db: Db, actions: seq<Action>, w: nat)
    requires w in db.writers && db.writers[w].phase.Committed?
  {
    var n, call := db.writers[w].phase.num, CallOf(actions, w);
    && n in db.rows && call.Some? && call.value.Begin? && Carries(db.rows[n], call.value)
    && NamesPredecessor(db.rows, n)
    && db.rows[n].hash == AuditHash(env, db.rows[n].prevHash, db.rows[n])
  }

  lemma CommittedRow(env: Env, key: string -> int, actions: seq<Action>, db: Db, w: nat)
    requires Runs(env, key, Empty, actions, db) && w in db.writers && db.writers[w].phase.Committed?
    ensures RowOfCall(env, db, actions, w)
  {
    EmptyInv(env, key);
    RunKeepsInv(env, key, Empty, actions, db);
    WritersAsCalled(env, key, actions, db, w);
    var x := db.writers[w];
    var n := x.phase.num;
    assert Current(env, db, x);
    var prev :| db.rows[n] == NewRow(env, x, prev);
    NewRowCarries(env, x, prev, CallOf(actions, w).value);
    RowsBelow(db);
    ChainIsHistory(env, key, actions, db, x.tenant);
    RowIsLinked(env, db, n, Commits(actions, x.tenant));
  }

  lemma RowsOfWriters(env: Env, key: string -> int, actions: seq<Action>, db: Db)
    requires Runs(env, key, Empty, actions, db)
    ensures forall m :: m in db.rows ==> CommittedBySome(db, m)
    ensures forall v, w :: v in db.writers && w in db.writers && db.writers[v].phase.Committed? ==>
              (db.writers[v].phase == db.writers[w].phase ==> v == w)
  {
    EmptyInv(env, key);
    RunKeepsInv(env, key, Empty, actions, db);
    forall v, w | v in db.writers && w in db.writers && db.writers[v].phase.Committed? && db.writers[v].phase == db.writers[w].phase
      ensures v == w
    {
      assert Numbered(db.writers[v]) && Numbered(db.writers[w]);
    }
  }

  /**
    The table holds exactly one row per call that committed, with the data of that call in its own
    columns, the hash of the tenant's preceding row, and the hash over that and the row.
   */
  lemma OneRowPerCommit(env: Env, key: string -> int, actions: seq<Action>, db: Db)
    requires Runs(env, key, Empty, actions, db)
    ensures forall w :: CommitFits(db, actions, w)
    ensures forall w :: w in db.writers && db.writers[w].phase.Committed? ==> RowOfCall(env, db, actions, w)
    ensures forall m :: m in db.rows ==> CommittedBySome(db, m)
    ensures forall v, w :: v in db.writers && w in db.writers && db.writers[v].phase.Committed? ==>
              (db.writers[v].phase == db.writers[w].phase ==> v == w)
  {
    RowsOfWriters(env, key, actions, db);
    forall w ensures CommitFits(db, actions, w) {
      CommittedIffCommit(env, key, actions, db, w);
    }
    forall w | w in db.writers && db.writers[w].phase.Committed? ensures RowOfCall(env, db, actions, w) {
      CommittedRow(env, key, actions, db, w);
    }
  }

  // ----- Every call can be brought to its end -----

  /** The call neither committed nor was given up. */
  predicate Open(x: Writer) {
    !x.phase.Committed? && !x.phase.RolledBack?
  }

  /** No other writer is inside the critical section of this one's tenant, or of another with the same lock. */
  ghost predicate NotBlocked(key: string -> int, db: Db, w: nat)
    requires w in db.writers
  {
    forall v :: v in db.writers && v != w && db.writers[v].Holding() ==> key(db.writers[v].tenant) != key(db.writers[w].tenant)
  }

  function NextStep(x: Writer, w: nat): Action
    requires Open(x)
  {
    match x.phase
    case Started => TakeLock(w)
    case Locked => Read(w)
    case ReadLast(_) => Insert(w)
    case _ => Commit(w)
  }

  function StepsLeft(x: Writer): nat {
    match x.phase
    case Started => 4
    case Locked => 3
    case ReadLast(_) => 2
    case Inserted(_, _) => 1
    case _ => 0
  }

  lemma NextStepIsNearer(env: Env, key: string -> int, db: Db, w: nat)
    requires Inv(env, key, db) && w in db.writers && Open(db.writers[w]) && NotBlocked(key, db, w)
    ensures var a := NextStep(db.writers[w], w);
            && Enabled(key, db, a)
            && var end := Apply(env, key, db, a);
               && w in end.writers && StepsLeft(end.writers[w]) == StepsLeft(db.writers[w]) - 1
               && end.writers[w] == db.writers[w].(phase := end.writers[w].phase) && !end.writers[w].phase.RolledBack?
               && NotBlocked(key, end, w)
  {
    LockIsFree(key, db, w);
  }

  lemma LockIsFree(key: string -> int, db: Db, w: nat)
    requires LocksHeld(key, db) && w in db.writers && NotBlocked(key, db, w)
    ensures key(db.writers[w].tenant) in db.locks ==> db.writers[w].Holding()
  {
    var k := key(db.writers[w].tenant);
    if k in db.locks {
      var v := db.locks[k];
      assert v in db.writers && db.writers[v].Holding() && key(db.writers[v].tenant) == k;
    }
  }

  ghost predicate OnlyOf(actions: seq<Action>, w: nat) {
    forall i :: 0 <= i < |actions| ==> actions[i].w == w
  }

  /** With the lock free, or its own, a call reaches its commit by its own steps, at most four. */
  lemma {:induction false} CanCommit(env: Env, key: string -> int, db: Db, w: nat) returns (actions: seq<Action>, end: Db)
    requires Inv(env, key, db) && w in db.writers && Open(db.writers[w]) && NotBlocked(key, db, w)
    ensures Runs(env, key, db, actions, end) && OnlyOf(actions, w) && |actions| == StepsLeft(db.writers[w])
    ensures w in end.writers && end.writers[w].phase.Committed?
    decreases StepsLeft(db.writers[w])
  {
    var a := NextStep(db.writers[w], w);
    NextStepIsNearer(env, key, db, w);
    var next := Apply(env, key, db, a);
    if next.writers[w].phase.Committed? {
      actions, end := [a], next;
      assert actions[1..] == [];
    } else {
      StepKeepsInv(env, key, db, a);
      var rest, last := CanCommit(env, key, next, w);
      actions, end := [a] + rest, last;
      assert actions[1..] == rest;
    }
  }

  lemma HolderNotBlocked(env: Env, key: string -> int, db: Db, w: nat)
    requires Inv(env, key, db) && w in db.writers && db.writers[w].Holding()
    ensures NotBlocked(key, db, w)
  {
  }

  /** No call waits in vain: it can commit by its own steps, or the one that holds its lock can by its own. */
  lemma NeverStuck(env: Env, key: string -> int, db: Db, w: nat) returns (v: nat, actions: seq<Action>, end: Db)
    requires Inv(env, key, db) && w in db.writers && Open(db.writers[w])
    ensures v in db.writers && (v == w || (db.writers[v].Holding() && key(db.writers[v].tenant) == key(db.writers[w].tenant)))
    ensures Runs(env, key, db, actions, end) && OnlyOf(actions, v) && |actions| <= 4
    ensures v in end.writers && end.writers[v].phase.Committed?
  {
    if NotBlocked(key, db, w) {
      v := w;
    } else {
      v :| v in db.writers && v != w && db.writers[v].Holding() && key(db.writers[v].tenant) == key(db.writers[w].tenant);
      HolderNotBlocked(env, key, db, v);
    }
    actions, end := CanCommit(env, key, db, v);
  }

  /** A call can be given up as long as it is open, and leaves no row and no lock behind. */
  lemma RollbackLeavesNothing(env: Env, key: string -> int, db: Db, w: nat)
    requires Inv(env, key, db) && w in db.writers
    ensures Enabled(key, db, Rollback(w)) <==> Open(db.writers[w])
    ensures Open(db.writers[w]) ==>
              var end := Apply(env, key, db, Rollback(w));
              && end.rows == db.rows && w in end.writers && end.writers[w].phase.RolledBack?
              && (forall k :: k in end.locks <==> k in db.locks && db.locks[k] != w)
              && (forall k :: k in end.locks ==> end.locks[k] == db.locks[k])
  {
  }
}
