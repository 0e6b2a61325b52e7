/**
  The per-tenant audit hash chain: `auditHash` (`pkg/billing/store.go`) and the Postgres
  `VerifyAuditChain` (`pkg/billing/postgres_store.go`).

  SHA-256 is any function with 64 hex characters of output. It is not assumed to be free of
  collisions (no such function is): results about tampering say "or here are two different
  texts among those hashed whose digests agree".
 */
module AuditChain {

  /** What the code calls but does not define: the digest, and RFC 3339 formatting of a second. */
  datatype Env = Env(digest: string -> string, rfc3339: int -> string)

  ghost predicate IsHex(c: char) {
    '0' <= c <= '9' || 'a' <= c <= 'f'
  }

  ghost predicate Is64Hex(s: string) {
    |s| == 64 && forall i :: 0 <= i < 64 ==> IsHex(s[i])
  }

  ghost predicate Sound(env: Env) {
    && (forall s :: Is64Hex(env.digest(s)))
    && (forall t, u :: env.rfc3339(t) == env.rfc3339(u) ==> t == u)
    && (forall t :: '|' !in env.rfc3339(t))
  }

  /** A row of `usage_events`; `recordedAt` counts microseconds. */
  datatype Row = Row(id: string, tenant: string, event: string, tool: string, request: string,
                     recordedAt: nat, hash: string, prevHash: string)

  const MICROS := 1_000_000

  function Join(parts: seq<string>): string {
    if parts == [] then ""
    else if |parts| == 1 then parts[0]
    else parts[0] + "|" + Join(parts[1..])
  }

  /** The hashed columns. Seconds only: RFC 3339 drops the fraction. */
  function Fields(env: Env, row: Row): seq<string> {
    [row.id, row.tenant, row.event, row.tool, row.request, env.rfc3339(row.recordedAt / MICROS)]
  }

  function Canonical(env: Env, row: Row): string {
    Join(Fields(env, row))
  }

  function AuditHash(env: Env, prev: string, row: Row): string {
    env.digest(prev + Canonical(env, row))
  }

  /** What is hashed: the previous hash, then the six columns with a pipe between each two. */
  lemma HashedText(env: Env, prev: string, row: Row)
    ensures AuditHash(env, prev, row) ==
            env.digest(prev + (row.id + "|" + (row.tenant + "|" + (row.event + "|" + (row.tool + "|" +
                       (row.request + "|" + env.rfc3339(row.recordedAt / 1_000_000)))))))
  {
    var f := Fields(env, row);
    assert f[1..][1..] == f[2..] && f[2..][1..] == f[3..] && f[3..][1..] == f[4..] && f[4..][1..] == f[5..];
    assert Join(f[5..]) == f[5];
    assert Join(f[4..]) == f[4] + "|" + Join(f[5..]);
    assert Join(f[3..]) == f[3] + "|" + Join(f[4..]);
    assert Join(f[2..]) == f[2] + "|" + Join(f[3..]);
    assert Join(f[1..]) == f[1] + "|" + Join(f[2..]);
    assert row.id + "|" + Join(f[1..]) == row.id + "|" + (row.tenant + "|" + Join(f[2..]));
  }

  /** The hash a new row would be chained to. */
  function Head(rows: seq<Row>): string {
    if rows == [] then "" else rows[|rows| - 1].hash
  }

  function Preimage(env: Env, rows: seq<Row>, i: nat): string
    requires i < |rows|
  {
    Head(rows[..i]) + Canonical(env, rows[i])
  }

  ghost predicate RowOk(env: Env, rows: seq<Row>, i: nat)
    requires i < |rows|
  {
    rows[i].hash == env.digest(Preimage(env, rows, i))
  }

  ghost predicate ChainValid(env: Env, rows: seq<Row>) {
    forall i :: 0 <= i < |rows| ==> RowOk(env, rows, i)
  }

  lemma ChainPrefix(env: Env, rows: seq<Row>, n: nat)
    requires n <= |rows|
    ensures ChainValid(env, rows[..n]) <==> forall i :: 0 <= i < n ==> RowOk(env, rows, i)
  {
    forall i | 0 <= i < n ensures RowOk(env, rows[..n], i) == RowOk(env, rows, i) {
      assert rows[..n][..i] == rows[..i];
    }
  }

  lemma ChainExtends(env: Env, rows: seq<Row>, row: Row)
    requires ChainValid(env, rows) && row.hash == AuditHash(env, Head(rows), row)
    ensures ChainValid(env, rows + [row])
  {
    var all := rows + [row];
    assert all[..|rows|] == rows;
    ChainPrefix(env, all, |rows|);
  }

  // ----- Verification -----

  datatype Verdict = Verdict(tenant: string, verified: nat, tampered: bool, firstBadID: string, firstBadTime: nat)

  /** `v` is the index of the first row whose stored hash is not the recomputed one. */
  ghost predicate FirstBad(env: Env, rows: seq<Row>, v: nat) {
    && v < |rows|
    && !RowOk(env, rows, v)
    && forall i :: 0 <= i < v ==> RowOk(env, rows, i)
  }

  ghost predicate Reports(env: Env, rows: seq<Row>, verdict: Verdict) {
    if ChainValid(env, rows) then
      !verdict.tampered && verdict.verified == |rows|
    else
      && verdict.tampered
      && FirstBad(env, rows, verdict.verified)
      && verdict.firstBadID == rows[verdict.verified].id
      && verdict.firstBadTime == rows[verdict.verified].recordedAt
  }

  method VerifyTenant(env: Env, tenant: string, rows: seq<Row>) returns (res: Verdict)
    ensures res.tenant == tenant
    ensures Reports(env, rows, res)
  {
    res := Verdict(tenant, 0, false, "", 0);
    var prevHash := "";
    while res.verified < |rows|
      invariant res.verified <= |rows| && !res.tampered && res.tenant == tenant
      invariant prevHash == Head(rows[..res.verified])
      invariant forall i :: 0 <= i < res.verified ==> RowOk(env, rows, i)
      decreases |rows| - res.verified
    {
      var row := rows[res.verified];
      var expected := AuditHash(env, prevHash, row);
      if expected != row.hash {
        assert !RowOk(env, rows, res.verified);
        res := res.(tampered := true, firstBadID := row.id, firstBadTime := row.recordedAt);
        return;
      }
      prevHash := row.hash;
      res := res.(verified := res.verified + 1);
    }
  }

  // ----- Tamper evidence -----

  /** Ids are `e_` and eight hex digits. */
  ghost predicate EventId(id: string) {
    |id| == 10 && id[..2] == "e_" && forall i :: 2 <= i < 10 ==> IsHex(id[i])
  }

  ghost predicate HasIds(rows: seq<Row>) {
    forall i :: 0 <= i < |rows| ==> EventId(rows[i].id)
  }

  ghost predicate Collision(env: Env, x: string, y: string) {
    x != y && env.digest(x) == env.digest(y)
  }

  /** Two of the texts hashed for `a` and `b` collide. */
  ghost predicate Collide(env: Env, a: seq<Row>, b: seq<Row>) {
    exists i, j :: 0 <= i < |a| && 0 <= j < |b| && Collision(env, Preimage(env, a, i), Preimage(env, b, j))
  }

  /** Row for row the same hashed text and the same stored hash. */
  ghost predicate SameText(env: Env, a: seq<Row>, b: seq<Row>) {
    && |a| == |b|
    && forall i :: 0 <= i < |a| ==> Canonical(env, a[i]) == Canonical(env, b[i]) && a[i].hash == b[i].hash
  }

  /** The second hashed character tells whether a previous hash came first. */
  lemma SecondCharacter(env: Env, p: string, row: Row)
    requires (p == "" || Is64Hex(p)) && EventId(row.id)
    ensures |p + Canonical(env, row)| > 1
    ensures IsHex((p + Canonical(env, row))[1]) <==> p != ""
  {
    assert Canonical(env, row)[..10] == row.id;
    assert row.id[1] == row.id[..2][1] == '_';
  }

  lemma PreimageSplits(env: Env, p: string, row: Row, q: string, row': Row)
    requires (p == "" || Is64Hex(p)) && (q == "" || Is64Hex(q))
    requires EventId(row.id) && EventId(row'.id)
    requires p + Canonical(env, row) == q + Canonical(env, row')
    ensures p == q && Canonical(env, row) == Canonical(env, row')
  {
    var c, c' := Canonical(env, row), Canonical(env, row');
    SecondCharacter(env, p, row);
    SecondCharacter(env, q, row');
    assert |p| == |q|;
    assert p == (p + c)[..|p|] && q == (q + c')[..|q|];
    assert c == (p + c)[|p|..] && c' == (q + c')[|q|..];
  }

  lemma HeadIsHex(env: Env, rows: seq<Row>)
    requires Sound(env) && ChainValid(env, rows)
    ensures if rows == [] then Head(rows) == "" else Is64Hex(Head(rows))
  {
    if rows != [] {
      assert RowOk(env, rows, |rows| - 1);
    }
  }

  /** A verified chain is fixed by its last hash, up to the text that was hashed. */
  lemma {:induction false} HeadFixesText(env: Env, a: seq<Row>, b: seq<Row>)
    requires Sound(env) && HasIds(a) && HasIds(b)
    requires ChainValid(env, a) && ChainValid(env, b) && Head(a) == Head(b)
    ensures SameText(env, a, b) || Collide(env, a, b)
    decreases |a|
  {
    HeadIsHex(env, a);
    HeadIsHex(env, b);
    if a != [] && b != [] {
      var m, n := |a| - 1, |b| - 1;
      var a', b' := a[..m], b[..n];
      ChainPrefix(env, a, m);
      ChainPrefix(env, b, n);
      assert RowOk(env, a, m) && RowOk(env, b, n);
      if Preimage(env, a, m) != Preimage(env, b, n) {
        assert Collision(env, Preimage(env, a, m), Preimage(env, b, n));
      } else {
        HeadIsHex(env, a');
        HeadIsHex(env, b');
        PreimageSplits(env, Head(a'), a[m], Head(b'), b[n]);
        HeadFixesText(env, a', b');
        if !SameText(env, a', b') {
          CollideOfPrefixes(env, a, m, b, n);
        }
      }
    }
  }

  lemma CollideOfPrefixes(env: Env, a: seq<Row>, m: nat, b: seq<Row>, n: nat)
    requires m <= |a| && n <= |b| && Collide(env, a[..m], b[..n])
    ensures Collide(env, a, b)
  {
    var i, j :| 0 <= i < m && 0 <= j < n && Collision(env, Preimage(env, a[..m], i), Preimage(env, b[..n], j));
    assert a[..m][..i] == a[..i] && b[..n][..j] == b[..j];
    assert Collision(env, Preimage(env, a, i), Preimage(env, b, j));
  }

  lemma SameTextVerifies(env: Env, a: seq<Row>, b: seq<Row>)
    requires ChainValid(env, a) && SameText(env, a, b)
    ensures ChainValid(env, b) && Head(a) == Head(b)
  {
    forall i | 0 <= i < |b| ensures RowOk(env, b, i) {
      assert RowOk(env, a, i);
      assert Head(a[..i]) == Head(b[..i]);
    }
  }

  /**
    Exactly which substitutes for a verified chain go unnoticed while its last hash is kept:
    those that leave every row's hashed text and stored hash as they were.
   */
  lemma UndetectedIffSameText(env: Env, a: seq<Row>, b: seq<Row>)
    requires Sound(env) && HasIds(a) && HasIds(b) && ChainValid(env, a) && !Collide(env, a, b)
    ensures ChainValid(env, b) && Head(b) == Head(a) <==> SameText(env, a, b)
  {
    if ChainValid(env, b) && Head(b) == Head(a) {
      HeadFixesText(env, a, b);
    }
    if SameText(env, a, b) {
      SameTextVerifies(env, a, b);
    }
  }

  // ----- From hashed text to columns -----

  ghost predicate PipeFree(s: string) {
    '|' !in s
  }

  /** No pipe in the columns of a row, its tenant aside. */
  ghost predicate Clean(row: Row) {
    PipeFree(row.id) && PipeFree(row.event) && PipeFree(row.tool) && PipeFree(row.request)
  }

  ghost predicate AllClean(rows: seq<Row>) {
    forall i :: 0 <= i < |rows| ==> Clean(rows[i])
  }

  lemma PipePosition(x: string, s: string)
    requires PipeFree(x)
    ensures var u := x + "|" + s; u[|x|] == '|' && forall i :: 0 <= i < |x| ==> u[i] != '|'
  {
  }

  lemma FirstPipe(x: string, s: string, y: string, t: string)
    requires PipeFree(x) && PipeFree(y) && x + "|" + s == y + "|" + t
    ensures x == y && s == t
  {
    var u, v := x + "|" + s, y + "|" + t;
    PipePosition(x, s);
    PipePosition(y, t);
    assert |x| == |y|;
    assert x == u[..|x|] && y == v[..|y|];
    assert s == u[|x| + 1..] && t == v[|y| + 1..];
  }

  function Pipes(s: string): nat {
    if s == "" then 0 else (if s[0] == '|' then 1 else 0) + Pipes(s[1..])
  }

  lemma {:induction false} PipesConcat(x: string, y: string)
    ensures Pipes(x + y) == Pipes(x) + Pipes(y)
  {
    if x == "" {
      assert x + y == y;
    } else {
      assert (x + y)[0] == x[0] && (x + y)[1..] == x[1..] + y;
      PipesConcat(x[1..], y);
    }
  }

  lemma {:induction false} NoPipes(s: string)
    ensures Pipes(s) == 0 <==> PipeFree(s)
  {
    if s != "" {
      NoPipes(s[1..]);
      assert s == [s[0]] + s[1..];
    }
  }

  ghost predicate AllPipeFree(parts: seq<string>) {
    forall i :: 0 <= i < |parts| ==> PipeFree(parts[i])
  }

  /** Joining adds one pipe between neighbours, so counting them tells whether the parts had any. */
  lemma {:induction false} JoinPipes(parts: seq<string>)
    requires parts != []
    ensures Pipes(Join(parts)) >= |parts| - 1
    ensures Pipes(Join(parts)) == |parts| - 1 <==> AllPipeFree(parts)
  {
    NoPipes(parts[0]);
    if |parts| > 1 {
      var rest := parts[1..];
      JoinPipes(rest);
      PipesConcat(parts[0] + "|", Join(rest));
      PipesConcat(parts[0], "|");
      assert Pipes("|") == 1;
      assert parts == [parts[0]] + rest;
      assert AllPipeFree(parts) <==> PipeFree(parts[0]) && AllPipeFree(rest);
    }
  }

  lemma {:induction false} PartsOfJoin(a: seq<string>, b: seq<string>)
    requires |a| == |b| && Join(a) == Join(b) && AllPipeFree(a) && AllPipeFree(b)
    ensures a == b
  {
    if |a| > 1 {
      FirstPipe(a[0], Join(a[1..]), b[0], Join(b[1..]));
      PartsOfJoin(a[1..], b[1..]);
      assert a == [a[0]] + a[1..] && b == [b[0]] + b[1..];
    }
  }

  /** Text joined from parts without a pipe cannot be joined from other parts, whatever is in those. */
  lemma JoinInjective(a: seq<string>, b: seq<string>)
    requires |a| == |b| && Join(a) == Join(b) && AllPipeFree(a)
    ensures a == b
  {
    if a != [] {
      JoinPipes(a);
      JoinPipes(b);
      PartsOfJoin(a, b);
    }
  }

  /** All the verifier protects: every column but `prev_hash`, the time to the second. */
  ghost predicate SameAudit(x: Row, y: Row) {
    && x.id == y.id && x.tenant == y.tenant && x.event == y.event && x.tool == y.tool && x.request == y.request
    && x.recordedAt / MICROS == y.recordedAt / MICROS
    && x.hash == y.hash
  }

  ghost predicate SameAudits(a: seq<Row>, b: seq<Row>) {
    |a| == |b| && forall i :: 0 <= i < |a| ==> SameAudit(a[i], b[i])
  }

  /** What verification reads: the query selects the rows of one tenant. */
  ghost predicate OfTenant(rows: seq<Row>, t: string) {
    forall i :: 0 <= i < |rows| ==> rows[i].tenant == t
  }

  /** The tenant of `x` cannot be mistaken: the other row has the same one, or there is no pipe in it. */
  ghost predicate TenantKept(x: Row, y: Row) {
    x.tenant == y.tenant || PipeFree(x.tenant)
  }

  /** So it is for any two chains of one tenant. */
  ghost predicate TenantsKept(a: seq<Row>, b: seq<Row>) {
    forall i, j :: 0 <= i < |a| && 0 <= j < |b| ==> TenantKept(a[i], b[j])
  }

  /** The columns after the tenant. */
  function Details(env: Env, row: Row): seq<string> {
    [row.event, row.tool, row.request, env.rfc3339(row.recordedAt / MICROS)]
  }

  lemma CanonicalIs(env: Env, row: Row)
    ensures Canonical(env, row) == row.id + "|" + (row.tenant + "|" + Join(Details(env, row)))
  {
    var f := Fields(env, row);
    assert f[1..][0] == row.tenant && f[1..][1..] == Details(env, row);
    assert Join(f[1..]) == row.tenant + "|" + Join(Details(env, row));
  }

  lemma CanonicalPipes(env: Env, row: Row)
    ensures Pipes(Canonical(env, row)) == Pipes(row.id) + Pipes(row.tenant) + Pipes(Join(Details(env, row))) + 2
  {
    var d := Join(Details(env, row));
    CanonicalIs(env, row);
    PipesConcat(row.id + "|", row.tenant + "|" + d);
    PipesConcat(row.id, "|");
    PipesConcat(row.tenant + "|", d);
    PipesConcat(row.tenant, "|");
    assert Pipes("|") == 1;
  }

  /** Rows of one tenant: whatever its name, the counts of the pipes leave none for the other row's id. */
  lemma SameTenantFixesId(env: Env, x: Row, y: Row)
    requires Sound(env) && Clean(x) && Canonical(env, x) == Canonical(env, y) && x.tenant == y.tenant
    ensures x.id == y.id && Join(Details(env, x)) == Join(Details(env, y))
  {
    var d, e := Join(Details(env, x)), Join(Details(env, y));
    CanonicalPipes(env, x);
    CanonicalPipes(env, y);
    JoinPipes(Details(env, x));
    JoinPipes(Details(env, y));
    NoPipes(x.id);
    NoPipes(y.id);
    CanonicalIs(env, x);
    CanonicalIs(env, y);
    FirstPipe(x.id, x.tenant + "|" + d, y.id, y.tenant + "|" + e);
    var n := |x.tenant| + 1;
    assert d == (x.tenant + "|" + d)[n..] && e == (y.tenant + "|" + e)[n..];
  }

  lemma SameDetails(env: Env, x: Row, y: Row)
    requires Sound(env) && Details(env, x) == Details(env, y)
    ensures x.event == y.event && x.tool == y.tool && x.request == y.request && x.recordedAt / MICROS == y.recordedAt / MICROS
  {
    var f, g := Details(env, x), Details(env, y);
    assert f[0] == g[0] && f[1] == g[1] && f[2] == g[2] && f[3] == g[3];
  }

  lemma CleanTextFixesColumns(env: Env, x: Row, y: Row)
    requires Sound(env) && Clean(x) && TenantKept(x, y) && Canonical(env, x) == Canonical(env, y) && x.hash == y.hash
    ensures SameAudit(x, y)
  {
    if PipeFree(x.tenant) {
      var f, g := Fields(env, x), Fields(env, y);
      JoinInjective(f, g);
      assert f[1] == g[1];
    }
    SameTenantFixesId(env, x, y);
    JoinInjective(Details(env, x), Details(env, y));
    SameDetails(env, x, y);
  }

  /** With no `|` in the columns of a chain, what goes unnoticed is exactly what leaves every protected column alone. */
  lemma UndetectedIffSameColumns(env: Env, a: seq<Row>, b: seq<Row>)
    requires Sound(env) && HasIds(a) && HasIds(b) && AllClean(a) && TenantsKept(a, b)
    requires ChainValid(env, a) && !Collide(env, a, b)
    ensures ChainValid(env, b) && Head(b) == Head(a) <==> SameAudits(a, b)
  {
    UndetectedIffSameText(env, a, b);
    if SameText(env, a, b) {
      forall i | 0 <= i < |a| ensures SameAudit(a[i], b[i]) {
        CleanTextFixesColumns(env, a[i], b[i]);
      }
    }
    if SameAudits(a, b) {
      forall i | 0 <= i < |a| ensures Canonical(env, a[i]) == Canonical(env, b[i]) {
        assert SameAudit(a[i], b[i]);
        assert Fields(env, a[i]) == Fields(env, b[i]);
      }
    }
  }

  // ----- A pipe is what an edit can hide behind -----

  lemma PipeAt(s: string) returns (x: string, y: string)
    requires !PipeFree(s)
    ensures s == x + "|" + y && |x| < |s|
  {
    var i :| 0 <= i < |s| && s[i] == '|';
    x, y := s[..i], s[i + 1..];
  }

  lemma {:induction false} JoinTwo(f: seq<string>, g: seq<string>, i: nat)
    requires i + 1 < |f| == |g| && f[..i] == g[..i] && f[i + 2..] == g[i + 2..]
    requires f[i] + "|" + f[i + 1] == g[i] + "|" + g[i + 1]
    ensures Join(f) == Join(g)
    decreases i
  {
    if i == 0 {
      assert f[1..][1..] == f[2..] && g[1..][1..] == g[2..];
      if |f| > 2 {
        assert Join(f) == f[0] + "|" + (f[1] + "|" + Join(f[2..]));
        assert Join(f) == (f[0] + "|" + f[1]) + ("|" + Join(f[2..]));
        assert Join(g) == (g[0] + "|" + g[1]) + ("|" + Join(g[2..]));
      }
    } else {
      assert f[0] == f[..i][0] == g[..i][0] == g[0];
      assert f[1..][..i - 1] == f[..i][1..] && g[1..][..i - 1] == g[..i][1..];
      assert f[1..][i + 1..] == f[i + 2..] && g[1..][i + 1..] == g[i + 2..];
      JoinTwo(f[1..], g[1..], i - 1);
    }
  }

  lemma Shifted(x: string, y: string, z: string)
    ensures (x + "|" + y) + "|" + z == x + "|" + (y + "|" + z)
  {
  }

  /** The text on one side of a pipe moves to the neighbouring column, and the hashed text stays. */
  lemma ShiftedRow(env: Env, row: Row) returns (other: Row)
    requires EventId(row.id) && !Clean(row)
    ensures other.id == row.id && other.tenant == row.tenant && other.hash == row.hash && !SameAudit(row, other)
    ensures Canonical(env, other) == Canonical(env, row)
  {
    assert PipeFree(row.id) by { IdIsPipeFree(row.id); }
    if !PipeFree(row.event) {
      var x, y := PipeAt(row.event);
      other := row.(event := x, tool := y + "|" + row.tool);
      Shifted(x, y, row.tool);
      JoinTwo(Fields(env, row), Fields(env, other), 2);
    } else if !PipeFree(row.tool) {
      var x, y := PipeAt(row.tool);
      other := row.(tool := x, request := y + "|" + row.request);
      Shifted(x, y, row.request);
      JoinTwo(Fields(env, row), Fields(env, other), 3);
    } else {
      var x, y := PipeAt(row.request);
      other := row.(tool := row.tool + "|" + x, request := y);
      Shifted(row.tool, x, y);
      JoinTwo(Fields(env, row), Fields(env, other), 3);
    }
  }

  lemma IdIsPipeFree(id: string)
    requires EventId(id)
    ensures PipeFree(id)
  {
    assert id[0] == id[..2][0] && id[1] == id[..2][1];
  }

  lemma SamePreimage(env: Env, a: seq<Row>, b: seq<Row>, i: nat)
    requires SameText(env, a, b) && i < |a|
    ensures Preimage(env, a, i) == Preimage(env, b, i)
  {
    assert Head(a[..i]) == Head(b[..i]);
  }

  lemma SameTextCollides(env: Env, a: seq<Row>, b: seq<Row>)
    requires SameText(env, a, b) && Collide(env, a, b)
    ensures Collide(env, a, a)
  {
    var i, j :| 0 <= i < |a| && 0 <= j < |b| && Collision(env, Preimage(env, a, i), Preimage(env, b, j));
    SamePreimage(env, a, b, j);
    assert Collision(env, Preimage(env, a, i), Preimage(env, a, j));
  }

  /** A pipe in some column of a tenant's verified chain lets an edit of that row go unnoticed. */
  lemma PipeHidesEdit(env: Env, a: seq<Row>, t: string) returns (b: seq<Row>)
    requires HasIds(a) && OfTenant(a, t) && ChainValid(env, a) && !AllClean(a)
    ensures HasIds(b) && OfTenant(b, t) && ChainValid(env, b) && Head(b) == Head(a)
    ensures SameText(env, a, b) && !SameAudits(a, b)
  {
    var i :| 0 <= i < |a| && !Clean(a[i]);
    var other := ShiftedRow(env, a[i]);
    b := a[i := other];
    SameTextVerifies(env, a, b);
    assert !SameAudit(a[i], b[i]);
  }

  /** `b` passes for the chain `a` of tenant `t`: verification reads it, accepts it and ends with the same hash. */
  ghost predicate PassesFor(env: Env, a: seq<Row>, t: string, b: seq<Row>) {
    HasIds(b) && OfTenant(b, t) && ChainValid(env, b) && Head(b) == Head(a) && !Collide(env, a, b)
  }

  /** Only what is, column for column, `a` passes for it. */
  ghost predicate OnlyItself(env: Env, a: seq<Row>, t: string) {
    forall b :: PassesFor(env, a, t, b) ==> SameAudits(a, b)
  }

  /** Exactly the chains without a pipe in their columns admit no unnoticed edit; the name of the tenant does not matter. */
  lemma ProtectedIffClean(env: Env, a: seq<Row>, t: string)
    requires Sound(env) && HasIds(a) && OfTenant(a, t) && ChainValid(env, a) && !Collide(env, a, a)
    ensures OnlyItself(env, a, t) <==> AllClean(a)
  {
    if AllClean(a) {
      forall b | PassesFor(env, a, t, b) ensures SameAudits(a, b) {
        UndetectedIffSameColumns(env, a, b);
      }
    } else {
      var b := PipeHidesEdit(env, a, t);
      if Collide(env, a, b) {
        SameTextCollides(env, a, b);
      }
      assert PassesFor(env, a, t, b);
    }
  }

  /**
    Ids are part of what is protected: the verifier does not look at their form, so a first row
    can be deleted if the next one takes its hash into its id.
   */
  lemma RenamedRowHidesDeletion(env: Env, a: seq<Row>) returns (b: seq<Row>)
    requires ChainValid(env, a) && |a| >= 2
    ensures |b| == |a| - 1 && b[1..] == a[2..] && b[0] == a[1].(id := a[0].hash + a[1].id)
    ensures ChainValid(env, b) && Head(b) == Head(a)
  {
    b := [a[1].(id := a[0].hash + a[1].id)] + a[2..];
    var f, g := Fields(env, a[1]), Fields(env, b[0]);
    assert f[1..] == g[1..];
    assert Join(g) == a[0].hash + Join(f);
    forall i | 0 <= i < |b| ensures RowOk(env, b, i) {
      assert RowOk(env, a, i + 1);
      assert a[..1] == [a[0]] && b[..0] == [];
      assert Head(b[..i]) + Canonical(env, b[i]) == Head(a[..i + 1]) + Canonical(env, a[i + 1]);
    }
  }

  /** `b` and `a` part ways at row `k`: all rows before it agree, and it is not the end of both. */
  ghost predicate DivergeAt(a: seq<Row>, b: seq<Row>, k: nat) {
    && k <= |a| && k <= |b|
    && SameAudits(a[..k], b[..k])
    && (k < |a| && k < |b| ==> !SameAudit(a[k], b[k]))
    && !(k == |a| == |b|)
  }

  /** A row of the chain in another place than its own is bad there: what a deletion or a reordering leaves. */
  lemma MovedRowIsBad(env: Env, a: seq<Row>, b: seq<Row>, k: nat, j: nat)
    requires Sound(env) && HasIds(a) && HasIds(b) && ChainValid(env, a) && !Collide(env, a, b) && !Collide(env, a, a)
    requires k < |b| && k <= |a| && SameAudits(a[..k], b[..k])
    requires j < |a| && j != k && SameAudit(a[j], b[k])
    ensures FirstBad(env, b, k)
  {
    AgreeingRowsVerify(env, a, b, k);
    if RowOk(env, b, k) {
      assert RowOk(env, a, j);
      assert !Collision(env, Preimage(env, a, j), Preimage(env, b, k));
      ChainPrefix(env, a, j);
      ChainPrefix(env, a, k);
      HeadIsHex(env, a[..j]);
      HeadIsHex(env, a[..k]);
      PreimageSplits(env, Head(a[..j]), a[j], Head(a[..k]), b[k]);
      HeadFixesText(env, a[..j], a[..k]);
      assert |a[..j]| != |a[..k]|;
      CollideOfPrefixes(env, a, j, a, k);
    }
  }

  /** A row that kept its stored hash, but not its columns, is bad. */
  lemma EditedRowIsBad(env: Env, a: seq<Row>, b: seq<Row>, k: nat)
    requires Sound(env) && ChainValid(env, a) && !Collide(env, a, b)
    requires k < |a| && k < |b| && SameAudits(a[..k], b[..k])
    requires Clean(a[k]) && TenantKept(a[k], b[k]) && !SameAudit(a[k], b[k]) && a[k].hash == b[k].hash
    ensures FirstBad(env, b, k)
  {
    AgreeingRowsVerify(env, a, b, k);
    if RowOk(env, b, k) {
      assert RowOk(env, a, k);
      assert !Collision(env, Preimage(env, a, k), Preimage(env, b, k));
      var p := Head(a[..k]);
      assert Canonical(env, a[k]) == Preimage(env, a, k)[|p|..];
      assert Canonical(env, b[k]) == Preimage(env, b, k)[|p|..];
      CleanTextFixesColumns(env, a[k], b[k]);
    }
  }

  /**
    Every edit, reordering, insertion or deletion that keeps the last hash is reported, never
    before the first row that differs. It is reported at that row exactly when the row does not
    carry the hash that continues the rows before it; so always when it kept its stored hash, and
    always when it is another row of the chain.
   */
  lemma DivergenceReported(env: Env, a: seq<Row>, b: seq<Row>, k: nat, verdict: Verdict)
    requires Sound(env) && HasIds(a) && HasIds(b) && AllClean(a) && ChainValid(env, a) && !Collide(env, a, b)
    requires TenantsKept(a, b) && Head(a) == Head(b) && DivergeAt(a, b, k) && Reports(env, b, verdict)
    ensures verdict.tampered && k <= verdict.verified < |b|
    ensures verdict.verified == k <==> b[k].hash != AuditHash(env, Head(a[..k]), b[k])
    ensures verdict.verified == k ==> verdict.firstBadID == b[k].id
    ensures k < |a| && a[k].hash == b[k].hash ==> verdict.verified == k
    ensures !Collide(env, a, a) && (exists j :: 0 <= j < |a| && SameAudit(a[j], b[k])) ==> verdict.verified == k
  {
    UndetectedIffSameColumns(env, a, b);
    assert !SameAudits(a, b);
    AgreeingRowsVerify(env, a, b, k);
    assert k < |b| ==> (RowOk(env, b, k) <==> b[k].hash == AuditHash(env, Head(a[..k]), b[k]));
    if k < |a| && a[k].hash == b[k].hash {
      EditedRowIsBad(env, a, b, k);
    }
    if !Collide(env, a, a) && (exists j :: 0 <= j < |a| && SameAudit(a[j], b[k])) {
      var j :| 0 <= j < |a| && SameAudit(a[j], b[k]);
      MovedRowIsBad(env, a, b, k, j);
    }
  }

  function Hashed(env: Env, prev: string, row: Row): (r: Row)
    ensures Fields(env, r) == Fields(env, row) && r.hash == AuditHash(env, prev, r)
  {
    row.(hash := AuditHash(env, prev, row))
  }

  /** The first two rows of a chain. */
  lemma TwoRows(env: Env, x: Row, y: Row)
    ensures Preimage(env, [x, y], 0) == Canonical(env, x) && Preimage(env, [x, y], 1) == x.hash + Canonical(env, y)
    ensures ChainValid(env, [x, y]) <==> x.hash == AuditHash(env, "", x) && y.hash == AuditHash(env, x.hash, y)
  {
    var rows := [x, y];
    assert rows[..0] == [] && rows[..1] == [x];
    assert "" + Canonical(env, x) == Canonical(env, x);
    assert RowOk(env, rows, 0) <==> x.hash == AuditHash(env, "", x);
    assert RowOk(env, rows, 1) <==> y.hash == AuditHash(env, x.hash, y);
  }

  /** A row hashed after two different rows is good after only one of them, short of a collision. */
  lemma OnePredecessor(env: Env, x: Row, y: Row, next: Row)
    requires Sound(env) && Canonical(env, x) != Canonical(env, y)
    requires x.hash == AuditHash(env, "", x) && y.hash == AuditHash(env, "", y)
    requires next.hash == AuditHash(env, x.hash, next) == AuditHash(env, y.hash, next)
    ensures Collide(env, [x, next], [y, next])
  {
    var a, b := [x, next], [y, next];
    TwoRows(env, x, next);
    TwoRows(env, y, next);
    assert "" + Canonical(env, x) == Canonical(env, x) && "" + Canonical(env, y) == Canonical(env, y);
    if x.hash == y.hash {
      assert Collision(env, Preimage(env, a, 0), Preimage(env, b, 0));
    } else {
      assert Preimage(env, a, 1)[..64] == x.hash && Preimage(env, b, 1)[..64] == y.hash;
      assert Collision(env, Preimage(env, a, 1), Preimage(env, b, 1));
    }
  }

  const SAMPLE := Row("e_00000000", "t", "message", "", "", 0, "", "")

  lemma SampleIsClean()
    ensures EventId(SAMPLE.id) && Clean(SAMPLE)
  {
  }

  lemma DivergeAtOnce(x: Row, y: Row, next: Row)
    requires x.event != y.event
    ensures DivergeAt([x, next], [y, next], 0)
  {
    assert [x, next][..0] == [y, next][..0];
  }

  /** The other case: a row that was edited and rehashed is believed, and the row after it is reported. */
  lemma RehashedFirst(env: Env, row: Row, other: Row) returns (a: seq<Row>, b: seq<Row>)
    requires Sound(env) && EventId(row.id) && Clean(row)
    requires other == row.(event := other.event) && other.event != row.event
    ensures HasIds(a) && HasIds(b) && OfTenant(a, row.tenant) && OfTenant(b, row.tenant) && AllClean(a)
    ensures ChainValid(env, a) && Head(a) == Head(b) && DivergeAt(a, b, 0)
    ensures FirstBad(env, b, 1) || Collide(env, a, b)
  {
    var x, y := Hashed(env, "", row), Hashed(env, "", other);
    var next := Hashed(env, x.hash, row);
    a, b := [x, next], [y, next];
    TwoRows(env, x, next);
    DivergeAtOnce(x, y, next);
    CleanTextDiffers(env, x, y);
    if next.hash != AuditHash(env, y.hash, next) {
      FirstOfTwoGood(env, y, next);
    } else {
      OnePredecessor(env, x, y, next);
    }
  }

  lemma RehashedRowBelieved(env: Env) returns (a: seq<Row>, b: seq<Row>)
    requires Sound(env)
    ensures HasIds(a) && HasIds(b) && OfTenant(a, SAMPLE.tenant) && OfTenant(b, SAMPLE.tenant) && AllClean(a)
    ensures ChainValid(env, a) && Head(a) == Head(b) && DivergeAt(a, b, 0)
    ensures FirstBad(env, b, 1) || Collide(env, a, b)
  {
    SampleIsClean();
    a, b := RehashedFirst(env, SAMPLE, SAMPLE.(event := "tool_call"));
  }

  lemma FirstOfTwoGood(env: Env, x: Row, y: Row)
    requires x.hash == AuditHash(env, "", x) && y.hash != AuditHash(env, x.hash, y)
    ensures FirstBad(env, [x, y], 1)
  {
    TwoRows(env, x, y);
    assert "" + Canonical(env, x) == Canonical(env, x);
    assert RowOk(env, [x, y], 0) && !RowOk(env, [x, y], 1);
  }

  /** Such chains exist. */
  lemma PipedChain(env: Env) returns (a: seq<Row>)
    ensures HasIds(a) && OfTenant(a, SAMPLE.tenant) && ChainValid(env, a) && !AllClean(a)
  {
    SampleIsClean();
    var row := Hashed(env, "", SAMPLE.(event := "message" + "|" + "send"));
    ChainExtends(env, [], row);
    a := [] + [row];
    assert a[0].event == "message" + "|" + "send";
    assert a[0].event[7] == '|';
    assert !Clean(a[0]);
  }

  lemma CleanTextDiffers(env: Env, x: Row, y: Row)
    requires Sound(env) && Clean(x) && x.tenant == y.tenant && x.event != y.event
    ensures Canonical(env, x) != Canonical(env, y)
  {
    if Canonical(env, x) == Canonical(env, y) {
      CleanTextFixesColumns(env, x, y.(hash := x.hash));
    }
  }

  lemma AgreeingRowsVerify(env: Env, a: seq<Row>, b: seq<Row>, k: nat)
    requires ChainValid(env, a) && k <= |a| && k <= |b| && SameAudits(a[..k], b[..k])
    ensures forall i :: 0 <= i < k ==> RowOk(env, b, i)
    ensures Head(a[..k]) == Head(b[..k])
  {
    forall i | 0 <= i < k ensures RowOk(env, b, i) {
      assert RowOk(env, a, i);
      assert SameAudit(a[..k][i], b[..k][i]);
      assert Fields(env, a[i]) == Fields(env, b[i]);
      if i > 0 {
        assert SameAudit(a[..k][i - 1], b[..k][i - 1]);
      }
      assert Head(a[..i]) == Head(b[..i]);
    }
    if k > 0 {
      assert SameAudit(a[..k][k - 1], b[..k][k - 1]);
    }
  }

  /**
    Why rows are walked by `seq`: when a row was chained after one with a later timestamp,
    walking the two by timestamp verifies only if the digest collides.
   */
  lemma TimestampOrderBreaks(env: Env, early: Row, late: Row)
    requires Sound(env) && early.recordedAt < late.recordedAt
    requires ChainValid(env, [late, early]) && ChainValid(env, [early, late])
    ensures Collision(env, Canonical(env, early), late.hash + Canonical(env, early))
  {
    assert RowOk(env, [late, early], 0) && RowOk(env, [late, early], 1) && RowOk(env, [early, late], 0);
    assert [late, early][..1] == [late] && [late, early][..0] == [] && [early, late][..0] == [];
    assert "" + Canonical(env, early) == Canonical(env, early);
    assert |late.hash| == 64;
    assert |Canonical(env, early)| < |late.hash + Canonical(env, early)|;
  }
}
