/**
  `ListTasks` of `adapters/a2a/server.go`: tasks matching a filter, sorted by id with an
  in-place insertion sort, cut into pages that a caller follows with a cursor.
 */
module TaskPages {
  import opened Basics

  datatype Task = Task(id: string, session: string, state: string, statusMessage: Option<string>, statusAt: int,
                       history: seq<string>, artifacts: seq<string>, metadata: map<string, string>)

  datatype Filter = Filter(session: string, states: seq<string>)

  datatype Page = Page(tasks: seq<Task>, nextCursor: string, total: nat)

  predicate Matches(f: Filter, t: Task) {
    (f.session == "" || t.session == f.session) && (f.states == [] || t.state in f.states)
  }

  // ----- Order of ids -----

  /** Go's `<` on strings. */
  predicate Less(a: string, b: string) {
    b != [] && (a == [] || a[0] < b[0] || (a[0] == b[0] && Less(a[1..], b[1..])))
  }

  lemma {:induction false} LessTotal(a: string, b: string)
    ensures Less(a, b) || Less(b, a) || a == b
    ensures !(Less(a, b) && Less(b, a)) && !Less(a, a)
  {
    if a != [] && b != [] {
      LessTotal(a[1..], b[1..]);
      LessTotal(a[1..], a[1..]);
      assert a == [a[0]] + a[1..] && b == [b[0]] + b[1..];
    } else if a != [] {
      LessTotal(a[1..], a[1..]);
    }
  }

  lemma {:induction false} LessTransitive(a: string, b: string, c: string)
    requires Less(a, b) && Less(b, c)
    ensures Less(a, c)
  {
    if a != [] && a[0] == b[0] == c[0] {
      LessTransitive(a[1..], b[1..], c[1..]);
    }
  }

  /** No task comes before one with a smaller id. */
  ghost predicate SortedById(s: seq<Task>) {
    forall i, j :: 0 <= i < j < |s| ==> !Less(s[j].id, s[i].id)
  }

  ghost predicate StrictlySorted(s: seq<Task>) {
    forall i, j :: 0 <= i < j < |s| ==> Less(s[i].id, s[j].id)
  }

  /** Not-less is transitive too, the order being total. */
  lemma NotLessTransitive(a: string, b: string, c: string)
    requires !Less(b, a) && !Less(c, b)
    ensures !Less(c, a)
  {
    LessTotal(a, b);
    LessTotal(b, c);
    LessTotal(a, c);
    if a != b && b != c {
      LessTransitive(a, b, c);
    }
  }

  /** All but position `j` is in order among the first `i + 1`, and what follows `j` is not below it. */
  ghost predicate Sinking(s: seq<Task>, i: nat, j: nat)
    requires j <= i < |s|
  {
    forall p, q :: 0 <= p < q <= i && q != j ==> !Less(s[q].id, s[p].id)
  }

  lemma SinkStep(s: seq<Task>, i: nat, j: nat)
    requires 0 < j <= i < |s| && Sinking(s, i, j) && Less(s[j].id, s[j - 1].id)
    ensures Sinking(s[j := s[j - 1]][j - 1 := s[j]], i, j - 1)
  {
    LessTotal(s[j].id, s[j - 1].id);
    var t := s[j := s[j - 1]][j - 1 := s[j]];
    forall p, q | 0 <= p < q <= i && q != j - 1 ensures !Less(t[q].id, t[p].id) {
      if q == j && p < j - 1 {
        assert !Less(s[j - 1].id, s[p].id);
      }
    }
  }

  lemma SinkDone(s: seq<Task>, i: nat, j: nat)
    requires j <= i < |s| && Sinking(s, i, j) && (j > 0 ==> !Less(s[j].id, s[j - 1].id))
    ensures SortedById(s[..i + 1])
  {
    forall p, q | 0 <= p < q <= i ensures !Less(s[q].id, s[p].id) {
      if q == j && p < j - 1 {
        NotLessTransitive(s[p].id, s[j - 1].id, s[j].id);
      }
    }
  }

  /** The inner loop: the element at `i` sinks to its place among those before it. */
  method Sink(a: array<Task>, i: nat)
    requires i < a.Length && SortedById(a[..i])
    modifies a
    ensures SortedById(a[..i + 1])
    ensures multiset(a[..]) == multiset(old(a[..]))
  {
    var j := i;
    assert a[..i] == a[..][..i];
    while j > 0 && Less(a[j].id, a[j - 1].id)
      invariant 0 <= j <= i && Sinking(a[..], i, j)
      invariant multiset(a[..]) == multiset(old(a[..]))
    {
      SinkStep(a[..], i, j);
      ghost var s := a[..];
      a[j], a[j - 1] := a[j - 1], a[j];
      assert a[..] == s[j := s[j - 1]][j - 1 := s[j]];
      j := j - 1;
    }
    SinkDone(a[..], i, j);
    assert a[..i + 1] == a[..][..i + 1];
  }

  method SortTasksByID(a: array<Task>)
    modifies a
    ensures SortedById(a[..])
    ensures multiset(a[..]) == multiset(old(a[..]))
  {
    var i := 1;
    while i < a.Length
      invariant i <= a.Length || a.Length == 0
      invariant a.Length > 0 ==> 1 <= i && SortedById(a[..i])
      invariant multiset(a[..]) == multiset(old(a[..]))
    {
      Sink(a, i);
      i := i + 1;
    }
    assert a.Length > 0 ==> a[..i] == a[..];
  }

  // ----- The listing -----

  /** All matching tasks of the store, each once, in increasing order of id. */
  ghost predicate Listing(tasks: map<string, Task>, f: Filter, list: seq<Task>) {
    && StrictlySorted(list)
    && (forall t :: t in list <==> t.id in tasks && tasks[t.id] == t && Matches(f, t))
  }

  ghost predicate Keyed(tasks: map<string, Task>) {
    forall id :: id in tasks ==> tasks[id].id == id && id != ""
  }

  /** There is only one listing. */
  lemma {:induction false} SameElementsSameOrder(a: seq<Task>, b: seq<Task>)
    requires StrictlySorted(a) && StrictlySorted(b) && forall t :: t in a <==> t in b
    ensures a == b
    decreases |a|
  {
    SomeElement(a);
    SomeElement(b);
    if a != [] {
      assert a[0] in b;
      SmallestFirst(a, b);
      assert forall t :: t in a[1..] <==> t in a && t != a[0] by { TailElements(a); }
      assert forall t :: t in b[1..] <==> t in b && t != b[0] by { TailElements(b); }
      SameElementsSameOrder(a[1..], b[1..]);
      assert a == [a[0]] + a[1..] && b == [b[0]] + b[1..];
    }
  }

  lemma SomeElement(s: seq<Task>)
    ensures s != [] ==> exists t :: t in s
  {
    if s != [] {
      assert s[0] in s;
    }
  }

  lemma TailElements(s: seq<Task>)
    requires s != [] && StrictlySorted(s)
    ensures forall t :: t in s[1..] <==> t in s && t != s[0]
  {
    forall i | 0 < i < |s| ensures s[i] != s[0] {
      LessTotal(s[0].id, s[i].id);
    }
  }

  lemma SmallestFirst(a: seq<Task>, b: seq<Task>)
    requires StrictlySorted(a) && StrictlySorted(b) && a != [] && b != []
    requires a[0] in b && b[0] in a
    ensures a[0] == b[0]
  {
    var i :| 0 <= i < |b| && b[i] == a[0];
    var j :| 0 <= j < |a| && a[j] == b[0];
    LessTotal(a[0].id, b[0].id);
  }

  lemma ListingUnique(tasks: map<string, Task>, f: Filter, a: seq<Task>, b: seq<Task>)
    requires Listing(tasks, f, a) && Listing(tasks, f, b)
    ensures a == b
  {
    SameElementsSameOrder(a, b);
  }

  // ----- Pages -----

  const DEFAULT_LIMIT := 10
  const MAX_LIMIT := 100

  function Clamp(limit: int): nat {
    if limit <= 0 then DEFAULT_LIMIT else if limit > MAX_LIMIT then MAX_LIMIT else limit
  }

  /** The position after the task named by the cursor; the beginning if there is no such task. */
  function After(list: seq<Task>, cursor: string): nat {
    if cursor == "" then 0 else AfterFrom(list, cursor, 0)
  }

  function AfterFrom(list: seq<Task>, cursor: string, i: nat): (n: nat)
    requires i <= |list|
    ensures n <= |list|
    ensures n > 0 ==> i < n && list[n - 1].id == cursor && forall k :: i <= k < n - 1 ==> list[k].id != cursor
    ensures n == 0 <==> forall k :: i <= k < |list| ==> list[k].id != cursor
    decreases |list| - i
  {
    if i == |list| then 0 else if list[i].id == cursor then i + 1 else AfterFrom(list, cursor, i + 1)
  }

  function PageOf(list: seq<Task>, cursor: string, limit: int): Page {
    var start := After(list, cursor);
    var end := if start + Clamp(limit) > |list| then |list| else start + Clamp(limit);
    Page(list[start..end], if end < |list| then list[end - 1].id else "", |list|)
  }

  /** What a listing is: in order of ids, none of which is the empty cursor. */
  ghost predicate Walkable(list: seq<Task>) {
    StrictlySorted(list) && forall t :: t in list ==> t.id != ""
  }

  /** The cursor a page hands out leads to the page that starts where it ended. */
  lemma CursorAdvances(list: seq<Task>, cursor: string, limit: int)
    requires Walkable(list)
    ensures var p := PageOf(list, cursor, limit);
            p.nextCursor != "" ==> After(list, p.nextCursor) == After(list, cursor) + Clamp(limit) < |list|
    ensures var p := PageOf(list, cursor, limit);
            p.nextCursor == "" ==> After(list, cursor) + |p.tasks| == |list|
  {
    var p, start := PageOf(list, cursor, limit), After(list, cursor);
    if start + Clamp(limit) < |list| {
      var end := start + Clamp(limit);
      assert list[end - 1] in list;
      var n := After(list, p.nextCursor);
      assert 0 < n <= end && list[n - 1].id == list[end - 1].id;
      LessTotal(list[n - 1].id, list[n - 1].id);
      assert n == end;
    }
  }

  /** What a client sees that follows the cursors, from `cursor` on, until there is none. */
  function Walk(list: seq<Task>, cursor: string, limit: int): seq<Page>
    requires Walkable(list)
    decreases |list| - After(list, cursor)
  {
    var p := PageOf(list, cursor, limit);
    CursorAdvances(list, cursor, limit);
    [p] + (if p.nextCursor == "" then [] else Walk(list, p.nextCursor, limit))
  }

  function Visited(pages: seq<Page>): seq<Task> {
    if pages == [] then [] else pages[0].tasks + Visited(pages[1..])
  }

  /** Every page but the last is full, and every page tells the same total. */
  ghost predicate FullPages(pages: seq<Page>, size: nat, total: nat) {
    && (forall k :: 0 <= k < |pages| ==> pages[k].total == total && |pages[k].tasks| <= size)
    && (forall k :: 0 <= k < |pages| - 1 ==> |pages[k].tasks| == size)
  }

  /** The pages show these tasks, in full pages but for the last. */
  ghost predicate Shows(pages: seq<Page>, tasks: seq<Task>, size: nat, total: nat) {
    Visited(pages) == tasks && FullPages(pages, size, total)
  }

  lemma ShowsMore(p: Page, pages: seq<Page>, tasks: seq<Task>, size: nat, total: nat)
    requires Shows(pages, tasks, size, total) && p.total == total && |p.tasks| == size
    ensures Shows([p] + pages, p.tasks + tasks, size, total)
  {
    assert ([p] + pages)[1..] == pages;
  }

  lemma OnePage(p: Page, size: nat, total: nat)
    requires p.total == total && |p.tasks| <= size
    ensures Shows([p], p.tasks, size, total)
  {
  }

  lemma WalkUnfolds(list: seq<Task>, cursor: string, limit: int)
    requires Walkable(list)
    ensures var p := PageOf(list, cursor, limit);
            Walk(list, cursor, limit) == if p.nextCursor == "" then [p] else [p] + Walk(list, p.nextCursor, limit)
  {
  }

  lemma PageIs(list: seq<Task>, cursor: string, limit: int)
    ensures var p, start := PageOf(list, cursor, limit), After(list, cursor);
            && p.total == |list| && |p.tasks| <= Clamp(limit)
            && p.tasks == if start + Clamp(limit) < |list| then list[start..start + Clamp(limit)] else list[start..]
  {
    var p, start := PageOf(list, cursor, limit), After(list, cursor);
    if start + Clamp(limit) >= |list| {
      assert p.tasks == list[start..|list|];
    }
  }

  lemma SliceSplits(list: seq<Task>, start: nat, end: nat)
    requires start <= end <= |list|
    ensures list[start..] == list[start..end] + list[end..]
  {
  }

  /** One page, and what it leaves for the rest of the walk. */
  lemma PageThenRest(list: seq<Task>, cursor: string, limit: int)
    requires Walkable(list)
    ensures var p, rest := PageOf(list, cursor, limit), list[After(list, cursor)..];
            && p.total == |list| && |p.tasks| <= Clamp(limit)
            && if p.nextCursor == "" then p.tasks == rest
               else |p.tasks| == Clamp(limit) && rest == p.tasks + list[After(list, p.nextCursor)..]
  {
    var p, start := PageOf(list, cursor, limit), After(list, cursor);
    CursorAdvances(list, cursor, limit);
    PageIs(list, cursor, limit);
    if p.nextCursor != "" {
      SliceSplits(list, start, start + Clamp(limit));
    }
  }

  /** From `cursor` on the walk shows the rest of the list, in full pages but for the last. */
  lemma {:induction false} WalkFrom(list: seq<Task>, cursor: string, limit: int)
    requires Walkable(list)
    ensures Shows(Walk(list, cursor, limit), list[After(list, cursor)..], Clamp(limit), |list|)
    decreases |list| - After(list, cursor)
  {
    var p := PageOf(list, cursor, limit);
    PageThenRest(list, cursor, limit);
    WalkUnfolds(list, cursor, limit);
    if p.nextCursor == "" {
      OnePage(p, Clamp(limit), |list|);
    } else {
      CursorAdvances(list, cursor, limit);
      WalkFrom(list, p.nextCursor, limit);
      ShowsMore(p, Walk(list, p.nextCursor, limit), list[After(list, p.nextCursor)..], Clamp(limit), |list|);
    }
  }

  /** What a filter asks for: a session, unless it names none, and one of the states, unless it names none. */
  ghost predicate Wanted(f: Filter, t: Task) {
    && (f.session != "" ==> t.session == f.session)
    && (|f.states| > 0 ==> exists k :: 0 <= k < |f.states| && f.states[k] == t.state)
  }

  /**
    Following the cursor from the start over an unchanged store shows every matching task
    exactly once, in increasing order, in full pages but for the last, with a constant total.
   */
  lemma WalkVisitsAllOnce(tasks: map<string, Task>, f: Filter, list: seq<Task>, limit: int)
    requires Keyed(tasks) && Listing(tasks, f, list)
    ensures Walkable(list)
    ensures var pages := Walk(list, "", limit);
            && Visited(pages) == list
            && (forall t :: t in Visited(pages) <==> t.id in tasks && tasks[t.id] == t && Wanted(f, t))
            && StrictlySorted(Visited(pages))
            && FullPages(pages, Clamp(limit), |list|)
            && (forall k :: 0 <= k < |pages| - 1 ==>
                  |pages[k].tasks| == if limit < 1 then 10 else if limit < 100 then limit else 100)
  {
    assert Walkable(list);
    WalkFrom(list, "", limit);
    assert list[0..] == list;
  }

  /** Going on from a cursor shows everything again exactly when the task it names is not in the listing any more. */
  lemma StaleCursorRestarts(tasks: map<string, Task>, f: Filter, list: seq<Task>, cursor: string, limit: int)
    requires Keyed(tasks) && Listing(tasks, f, list) && cursor != ""
    ensures Walkable(list)
    ensures Visited(Walk(list, cursor, limit)) == list <==> !(cursor in tasks && Matches(f, tasks[cursor]))
  {
    assert Walkable(list);
    WalkFrom(list, cursor, limit);
    var n := After(list, cursor);
    assert list[0..] == list;
    assert |list[n..]| == |list| - n;
    if n > 0 {
      assert list[n - 1] in list;
    }
    if cursor in tasks && Matches(f, tasks[cursor]) {
      assert tasks[cursor] in list;
    }
  }
}
