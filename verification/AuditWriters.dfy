/**
  `RecordEvent` of `pkg/billing/postgres_store.go` as an interleaving of transactions: any
  number of writers, for any tenants, each sampling its id and time, then taking the
  tenant's advisory lock, reading the last hash by `seq`, inserting, and committing or
  rolling back. Rows are seen by others only once committed; `seq` values are handed out at
  insert time and never reused.
 */
module AuditWriters {
  import opened AuditChain
  import opened Sorting

  datatype Phase =
    | Started
    | Locked
    | ReadLast(prev: string)
    | Inserted(num: nat, row: Row)
    | Committed(num: nat)
    | RolledBack

  /** One call of `RecordEvent`. `at` is sampled before the lock, so it may lie in any order. */
  datatype Writer = Writer(id: string, tenant: string, event: string, tool: string, request: string, at: nat,
                           phase: Phase)
  {
    predicate Holding() {
      phase.Locked? || phase.ReadLast? || phase.Inserted?
    }
  }

  /** `rows` are the committed rows by `seq`; `locks` maps an advisory key to its holder. */
  datatype Db = Db(rows: map<nat, Row>, nextSeq: nat, locks: map<int, nat>, writers: map<nat, Writer>)

  datatype Action =
    | Begin(w: nat, id: string, tenant: string, event: string, tool: string, request: string, at: nat)
    | TakeLock(w: nat)
    | Read(w: nat)
    | Insert(w: nat)
    | Commit(w: nat)
    | Rollback(w: nat)

  const Empty := Db(map[], 0, map[], map[])

  /** The rows of one tenant among `seq` numbers below `n`, in `seq` order. */
  function TenantRows(rows: map<nat, Row>, n: nat, tenant: string): seq<Row> {
    if n == 0 then []
    else TenantRows(rows, n - 1, tenant) +
         (if n - 1 in rows && rows[n - 1].tenant == tenant then [rows[n - 1]] else [])
  }

  function Chain(db: Db, tenant: string): seq<Row> {
    TenantRows(db.rows, db.nextSeq, tenant)
  }

  function NewRow(env: Env, x: Writer, prev: string): Row {
    var row := Row(x.id, x.tenant, x.event, x.tool, x.request, x.at, "", prev);
    row.(hash := AuditHash(env, prev, row))
  }

  /** `key` is Postgres' `hashtext`: different tenants may share a lock. */
  ghost predicate Enabled(key: string -> int, db: Db, a: Action) {
    if a.Begin? then a.w !in db.writers
    else
      && a.w in db.writers
      && var x := db.writers[a.w];
         match a
         case TakeLock(_) => x.phase.Started? && key(x.tenant) !in db.locks
         case Read(_) => x.phase.Locked?
         case Insert(_) => x.phase.ReadLast?
         case Commit(_) => x.phase.Inserted?
         case Rollback(_) => x.phase.Started? || x.Holding()
         case _ => true
  }

  ghost function Apply(env: Env, key: string -> int, db: Db, a: Action): Db
    requires Enabled(key, db, a)
  {
    if a.Begin? then
      db.(writers := db.writers[a.w := Writer(a.id, a.tenant, a.event, a.tool, a.request, a.at, Started)])
    else
      var x := db.writers[a.w];
      match a
      case TakeLock(w) =>
        db.(locks := db.locks[key(x.tenant) := w], writers := db.writers[w := x.(phase := Locked)])
      case Read(w) =>
        db.(writers := db.writers[w := x.(phase := ReadLast(Head(Chain(db, x.tenant))))])
      case Insert(w) =>
        db.(nextSeq := db.nextSeq + 1,
            writers := db.writers[w := x.(phase := Inserted(db.nextSeq, NewRow(env, x, x.phase.prev)))])
      case Commit(w) =>
        db.(rows := db.rows[x.phase.num := x.phase.row], locks := db.locks - {key(x.tenant)},
            writers := db.writers[w := x.(phase := Committed(x.phase.num))])
      case Rollback(w) =>
        db.(locks := if x.Holding() then db.locks - {key(x.tenant)} else db.locks,
            writers := db.writers[w := x.(phase := RolledBack)])
      case _ => db
  }

  /** `actions`, all enabled in turn, lead from `db` to `end`. */
  ghost predicate Runs(env: Env, key: string -> int, db: Db, actions: seq<Action>, end: Db)
    decreases |actions|
  {
    if actions == [] then db == end
    else Enabled(key, db, actions[0]) && Runs(env, key, Apply(env, key, db, actions[0]), actions[1..], end)
  }

  // ----- The invariant -----

  /** The lock table lists exactly the writers inside their critical section. */
  ghost predicate LocksHeld(key: string -> int, db: Db) {
    && (forall k :: k in db.locks ==>
          db.locks[k] in db.writers && db.writers[db.locks[k]].Holding() && key(db.writers[db.locks[k]].tenant) == k)
    && (forall w :: w in db.writers && db.writers[w].Holding() ==>
          key(db.writers[w].tenant) in db.locks && db.locks[key(db.writers[w].tenant)] == w)
  }

  ghost predicate ChainsValid(env: Env, db: Db) {
    forall t :: ChainValid(env, Chain(db, t))
  }

  /** What a writer knows stays true until it gives up its lock. */
  ghost predicate Current(env: Env, db: Db, x: Writer) {
    match x.phase
    case ReadLast(prev) => prev == Head(Chain(db, x.tenant))
    case Inserted(n, row) =>
      && row == NewRow(env, x, Head(Chain(db, x.tenant)))
      && forall m :: m in db.rows && db.rows[m].tenant == x.tenant ==> m < n
    case Committed(n) => n in db.rows && exists prev :: db.rows[n] == NewRow(env, x, prev)
    case _ => true
  }

  ghost predicate AllCurrent(env: Env, db: Db) {
    forall w :: w in db.writers ==> Current(env, db, db.writers[w])
  }

  ghost predicate Numbered(x: Writer) {
    x.phase.Inserted? || x.phase.Committed?
  }

  /** Every number handed out belongs to one writer. */
  ghost predicate NumbersOwned(db: Db) {
    && (forall w :: w in db.writers && Numbered(db.writers[w]) ==> db.writers[w].phase.num < db.nextSeq)
    && (forall v, w :: v in db.writers && w in db.writers && Numbered(db.writers[v]) && Numbered(db.writers[w]) ==>
          (db.writers[v].phase.num == db.writers[w].phase.num ==> v == w))
  }

  /** The rows are those whose writer committed. */
  ghost predicate RowsOwned(db: Db) {
    forall m :: m in db.rows ==> CommittedBySome(db, m)
  }

  ghost predicate CommittedBySome(db: Db, m: nat) {
    exists w :: w in db.writers && db.writers[w].phase == Committed(m)
  }

  ghost predicate Inv(env: Env, key: string -> int, db: Db) {
    LocksHeld(key, db) && NumbersOwned(db) && RowsOwned(db) && ChainsValid(env, db) && AllCurrent(env, db)
  }

  lemma {:induction false} OtherRowsIgnored(rows: map<nat, Row>, n: nat, tenant: string, m: nat, row: Row)
    requires m !in rows && row.tenant != tenant
    ensures TenantRows(rows[m := row], n, tenant) == TenantRows(rows, n, tenant)
  {
    if n > 0 {
      OtherRowsIgnored(rows, n - 1, tenant, m, row);
    }
  }

  /** A row numbered above all others of its tenant goes to the end of that tenant's chain. */
  lemma {:induction false} LastRowAppended(rows: map<nat, Row>, n: nat, m: nat, row: Row)
    requires m !in rows
    requires forall i :: i in rows && rows[i].tenant == row.tenant ==> i < m
    ensures TenantRows(rows[m := row], n, row.tenant) ==
            TenantRows(rows, n, row.tenant) + (if m < n then [row] else [])
  {
    if n > 0 {
      LastRowAppended(rows, n - 1, m, row);
    }
  }

  lemma FreshNumberIgnored(rows: map<nat, Row>, n: nat, tenant: string)
    requires n !in rows
    ensures TenantRows(rows, n + 1, tenant) == TenantRows(rows, n, tenant)
  {
  }

  lemma CommitKeepsChains(env: Env, key: string -> int, db: Db, w: nat)
    requires Inv(env, key, db) && Enabled(key, db, Commit(w))
    ensures var x, end := db.writers[w], Apply(env, key, db, Commit(w));
            && Chain(end, x.tenant) == Chain(db, x.tenant) + [x.phase.row]
            && (forall t :: t != x.tenant ==> Chain(end, t) == Chain(db, t))
            && ChainsValid(env, end)
  {
    var x, end := db.writers[w], Apply(env, key, db, Commit(w));
    var n, row := x.phase.num, x.phase.row;
    assert Current(env, db, x);
    NumbersExclusive(db, w);
    LastRowAppended(db.rows, db.nextSeq, n, row);
    forall t | t != x.tenant ensures Chain(end, t) == Chain(db, t) {
      OtherRowsIgnored(db.rows, db.nextSeq, t, n, row);
    }
    forall t ensures ChainValid(env, Chain(end, t)) {
      if t == x.tenant {
        assert Fields(env, row) == Fields(env, row.(hash := ""));
        ChainExtends(env, Chain(db, t), row);
      }
    }
  }

  /** Two writers in their critical sections never serve the same tenant. */
  lemma OneHolder(key: string -> int, db: Db, v: nat, w: nat)
    requires LocksHeld(key, db) && v in db.writers && w in db.writers
    requires db.writers[v].Holding() && db.writers[w].Holding() && v != w
    ensures db.writers[v].tenant != db.writers[w].tenant
  {
  }

  lemma StepKeepsLocks(env: Env, key: string -> int, db: Db, a: Action)
    requires LocksHeld(key, db) && Enabled(key, db, a)
    ensures LocksHeld(key, Apply(env, key, db, a))
  {
    var end := Apply(env, key, db, a);
    if a.Commit? || a.Rollback? {
      var x := db.writers[a.w];
      forall v | v in end.writers && end.writers[v].Holding()
        ensures key(end.writers[v].tenant) in end.locks && end.locks[key(end.writers[v].tenant)] == v
      {
        assert v != a.w && db.writers[v].Holding();
      }
    }
  }

  lemma CommittedKept(db: Db, end: Db, w: nat, m: nat)
    requires CommittedBySome(db, m)
    requires w in db.writers ==> !db.writers[w].phase.Committed?
    requires forall v :: v in db.writers && v != w ==> v in end.writers && end.writers[v] == db.writers[v]
    ensures CommittedBySome(end, m)
  {
    var v :| v in db.writers && db.writers[v].phase == Committed(m);
    assert end.writers[v].phase == Committed(m);
  }

  /** Where a writer's number comes from: it had it before, or it has just inserted. */
  ghost predicate NumberKept(db: Db, end: Db, v: nat)
    requires v in end.writers && Numbered(end.writers[v])
  {
    && v in db.writers
    && Numbered(db.writers[v])
    && end.writers[v].phase.num == db.writers[v].phase.num
  }

  lemma NumbersFollow(db: Db, end: Db, w: nat)
    requires NumbersOwned(db) && db.nextSeq <= end.nextSeq
    requires forall v :: v in end.writers && Numbered(end.writers[v]) ==>
               || NumberKept(db, end, v)
               || (v == w && end.writers[v].phase.num == db.nextSeq < end.nextSeq)
    ensures NumbersOwned(end)
  {
  }

  lemma StepKeepsNumbers(env: Env, key: string -> int, db: Db, a: Action)
    requires NumbersOwned(db) && Enabled(key, db, a)
    ensures NumbersOwned(Apply(env, key, db, a))
  {
    NumbersFollow(db, Apply(env, key, db, a), a.w);
  }

  lemma StepKeepsRows(env: Env, key: string -> int, db: Db, a: Action)
    requires RowsOwned(db) && Enabled(key, db, a)
    ensures RowsOwned(Apply(env, key, db, a))
  {
    var end := Apply(env, key, db, a);
    forall m | m in end.rows ensures CommittedBySome(end, m) {
      if m in db.rows && !(a.Commit? && db.writers[a.w].phase.num == m) {
        CommittedKept(db, end, a.w, m);
      } else {
        assert end.writers[a.w].phase == Committed(m);
      }
    }
  }

  /** A number is either unused, or being inserted, or committed: never two of these. */
  lemma NumbersExclusive(db: Db, w: nat)
    requires NumbersOwned(db) && RowsOwned(db) && w in db.writers && db.writers[w].phase.Inserted?
    ensures db.writers[w].phase.num !in db.rows
  {
    var m := db.writers[w].phase.num;
    forall v | v in db.writers ensures db.writers[v].phase != Committed(m) {
      assert v != w && Numbered(db.writers[v]) ==> db.writers[v].phase.num != m;
    }
    assert !CommittedBySome(db, m);
  }

  lemma RowsBelow(db: Db)
    requires NumbersOwned(db) && RowsOwned(db)
    ensures forall m :: m in db.rows ==> m < db.nextSeq
  {
    forall m | m in db.rows ensures m < db.nextSeq {
      var v :| v in db.writers && db.writers[v].phase == Committed(m);
    }
  }

  lemma CommitKeepsCurrent(env: Env, key: string -> int, db: Db, w: nat, v: nat)
    requires Inv(env, key, db) && Enabled(key, db, Commit(w)) && v in db.writers
    ensures var end := Apply(env, key, db, Commit(w)); Current(env, end, end.writers[v])
  {
    var x, end := db.writers[w], Apply(env, key, db, Commit(w));
    CommitKeepsChains(env, key, db, w);
    NumbersExclusive(db, w);
    assert Current(env, db, db.writers[v]);
    if v == w {
      assert end.rows[x.phase.num] == NewRow(env, end.writers[v], x.phase.row.prevHash);
    } else if db.writers[v].Holding() {
      OneHolder(key, db, v, w);
    }
  }

  lemma QuietStepKeepsChains(env: Env, key: string -> int, db: Db, a: Action)
    requires NumbersOwned(db) && RowsOwned(db) && Enabled(key, db, a) && !a.Commit?
    ensures var end := Apply(env, key, db, a); end.rows == db.rows && forall t :: Chain(end, t) == Chain(db, t)
  {
    var end := Apply(env, key, db, a);
    RowsBelow(db);
    forall t ensures Chain(end, t) == Chain(db, t) {
      if a.Insert? {
        FreshNumberIgnored(db.rows, db.nextSeq, t);
      }
    }
  }

  lemma CurrentCarries(env: Env, db: Db, end: Db, x: Writer)
    requires Current(env, db, x) && end.rows == db.rows && Chain(end, x.tenant) == Chain(db, x.tenant)
    ensures Current(env, end, x)
  {
  }

  /** The writer that took the step knows what it has just read, or what it knew. */
  lemma StepIsCurrent(env: Env, key: string -> int, db: Db, a: Action)
    requires NumbersOwned(db) && RowsOwned(db) && Enabled(key, db, a) && !a.Commit?
    requires a.w in db.writers ==> Current(env, db, db.writers[a.w])
    ensures var end := Apply(env, key, db, a); Current(env, db, end.writers[a.w])
  {
    RowsBelow(db);
  }

  /** A step that leaves all chains alone leaves what the writers know alone. */
  lemma QuietStepKeepsCurrent(env: Env, key: string -> int, db: Db, a: Action)
    requires Inv(env, key, db) && Enabled(key, db, a) && !a.Commit?
    ensures var end := Apply(env, key, db, a);
            (forall t :: Chain(end, t) == Chain(db, t)) && AllCurrent(env, end)
  {
    var end := Apply(env, key, db, a);
    QuietStepKeepsChains(env, key, db, a);
    StepIsCurrent(env, key, db, a);
    forall v | v in end.writers ensures Current(env, end, end.writers[v]) {
      assert v != a.w ==> end.writers[v] == db.writers[v];
      CurrentCarries(env, db, end, end.writers[v]);
    }
  }

  lemma StepKeepsInv(env: Env, key: string -> int, db: Db, a: Action)
    requires Inv(env, key, db) && Enabled(key, db, a)
    ensures Inv(env, key, Apply(env, key, db, a))
  {
    StepKeepsLocks(env, key, db, a);
    StepKeepsNumbers(env, key, db, a);
    StepKeepsRows(env, key, db, a);
    var end := Apply(env, key, db, a);
    if a.Commit? {
      CommitKeepsChains(env, key, db, a.w);
      forall v | v in end.writers ensures Current(env, end, end.writers[v]) {
        CommitKeepsCurrent(env, key, db, a.w, v);
      }
    } else {
      QuietStepKeepsCurrent(env, key, db, a);
    }
  }

  lemma {:induction false} RunKeepsInv(env: Env, key: string -> int, db: Db, actions: seq<Action>, end: Db)
    requires Inv(env, key, db) && Runs(env, key, db, actions, end)
    ensures Inv(env, key, end)
    decreases |actions|
  {
    if actions != [] {
      StepKeepsInv(env, key, db, actions[0]);
      RunKeepsInv(env, key, Apply(env, key, db, actions[0]), actions[1..], end);
    }
  }

  ghost function RowsOf(db: Db, tenant: string): set<nat> {
    set m | m in db.rows && db.rows[m].tenant == tenant
  }

  lemma {:induction false} ChainCounts(rows: map<nat, Row>, n: nat, tenant: string)
    ensures |TenantRows(rows, n, tenant)| == |set m | m in rows && m < n && rows[m].tenant == tenant|
  {
    var below := set m | m in rows && m < n && rows[m].tenant == tenant;
    if n == 0 {
      assert below == {};
    } else {
      ChainCounts(rows, n - 1, tenant);
      var fewer := set m | m in rows && m < n - 1 && rows[m].tenant == tenant;
      if n - 1 in rows && rows[n - 1].tenant == tenant {
        assert below == fewer + {n - 1};
      } else {
        assert below == fewer;
      }
    }
  }

  /**
    Whatever the interleaving, every tenant's rows in `seq` order verify, and the count the
    verifier reports is the number of rows committed for that tenant.
   */
  lemma WritersNeverBreakChain(env: Env, key: string -> int, actions: seq<Action>, db: Db, tenant: string, verdict: Verdict)
    requires Runs(env, key, Empty, actions, db)
    requires Reports(env, Chain(db, tenant), verdict)
    ensures !verdict.tampered
    ensures verdict.verified == |RowsOf(db, tenant)|
  {
    EmptyInv(env, key);
    RunKeepsInv(env, key, Empty, actions, db);
    ChainCounts(db.rows, db.nextSeq, tenant);
    RowsBelow(db);
    assert RowsOf(db, tenant) == set m | m in db.rows && m < db.nextSeq && db.rows[m].tenant == tenant;
  }

  lemma EmptyInv(env: Env, key: string -> int)
    ensures Inv(env, key, Empty)
  {
    forall t ensures Chain(Empty, t) == [] {
    }
  }

  // ----- Verification of the table -----

  /** The query reads the rows of one tenant. */
  lemma {:induction false} ReadsOneTenant(rows: map<nat, Row>, n: nat, tenant: string)
    ensures OfTenant(TenantRows(rows, n, tenant), tenant)
  {
    if n > 0 {
      ReadsOneTenant(rows, n - 1, tenant);
    }
  }

  ghost predicate NoneTwice(s: seq<string>) {
    forall i, j :: 0 <= i < j < |s| ==> s[i] != s[j]
  }

  lemma {:induction false} NoneTwiceCounts(s: seq<string>, x: string)
    requires NoneTwice(s)
    ensures multiset(s)[x] <= 1
  {
    if s != [] {
      var n := |s| - 1;
      NoneTwiceCounts(s[..n], x);
      assert s == s[..n] + [s[n]];
      assert s[n] !in s[..n];
    }
  }

  lemma NoneTwiceReordered(a: seq<string>, b: seq<string>)
    requires NoneTwice(a) && multiset(a) == multiset(b)
    ensures NoneTwice(b)
  {
    forall i, j | 0 <= i < j < |b| ensures b[i] != b[j] {
      NoneTwiceCounts(a, b[i]);
      if b[i] == b[j] {
        TwiceCounts(b, i, j);
      }
    }
  }

  /** The tenants that have rows, each once and in the order of the database's collation. */
  ghost predicate ListsTenants(db: Db, rank: string -> int, tenants: seq<string>) {
    && NoneTwice(tenants) && SortedBy(tenants, rank)
    && (forall t :: t in tenants <==> RowsOf(db, t) != {})
  }

  method CollectTenants(db: Db) returns (tenants: seq<string>)
    ensures NoneTwice(tenants) && forall t :: t in tenants <==> RowsOf(db, t) != {}
  {
    tenants := [];
    var todo := db.rows.Keys;
    while todo != {}
      invariant todo <= db.rows.Keys
      invariant NoneTwice(tenants)
      invariant forall t :: t in tenants <==> exists m :: m in db.rows.Keys - todo && db.rows[m].tenant == t
    {
      var m :| m in todo;
      var t := db.rows[m].tenant;
      if t !in tenants {
        tenants := tenants + [t];
      }
      todo := todo - {m};
    }
    forall t ensures t in tenants <==> RowsOf(db, t) != {} {
      assert forall m :: m in RowsOf(db, t) <==> m in db.rows && db.rows[m].tenant == t;
    }
  }

  /** The query for the distinct tenants; `rank` is the place of a name in the collation. */
  method DistinctTenants(db: Db, rank: string -> int) returns (tenants: seq<string>)
    ensures ListsTenants(db, rank, tenants)
  {
    var found := CollectTenants(db);
    tenants := SortBy(found, rank);
    NoneTwiceReordered(found, tenants);
    forall t ensures t in tenants <==> t in found {
      assert t in multiset(tenants) <==> t in multiset(found);
    }
  }

  /** One verdict for the tenant asked for, or for each tenant that has rows. */
  method VerifyAuditChain(env: Env, db: Db, rank: string -> int, tenantID: string) returns (results: seq<Verdict>)
    ensures if tenantID != "" then |results| == 1 && results[0].tenant == tenantID
            else ListsTenants(db, rank, seq(|results|, i requires 0 <= i < |results| => results[i].tenant))
    ensures forall i :: 0 <= i < |results| ==> Reports(env, Chain(db, results[i].tenant), results[i])
  {
    var tenants := [tenantID];
    if tenantID == "" {
      tenants := DistinctTenants(db, rank);
    }
    results := [];
    for k := 0 to |tenants|
      invariant |results| == k
      invariant forall i :: 0 <= i < k ==>
                  results[i].tenant == tenants[i] && Reports(env, Chain(db, tenants[i]), results[i])
    {
      var res := VerifyTenant(env, tenants[k], Chain(db, tenants[k]));
      results := results + [res];
    }
    assert seq(|results|, i requires 0 <= i < |results| => results[i].tenant) == tenants;
  }
}
