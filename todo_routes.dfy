/**
 * The request logic of the task routes that does not touch the store: the
 * id check, the list query, sort and pagination parameters, the in-place
 * priority re-sort of a fetched page, the partial update of a record, and
 * the pieces of the statistics summary.
 */
module TodoRoutes {
  import opened Wrappers
  import opened JsText
  import opened TodoModel
  import opened Ordering

  // ---------------------------------------------------------------------
  // Responses

  /** The JSON envelope of a response, with its HTTP status. */
  datatype Reply<T> =
    | Ok(status: nat, message: Option<string>, data: T)
    | Fail(status: nat, error: string, errors: seq<string>)

  const InvalidIdMessage := "Invalid todo ID format"
  const NotFoundMessage := "Todo not found"
  const ValidationMessage := "Validation error"

  const BadId: Reply<Task> := Fail(400, InvalidIdMessage, [])
  const NotFound: Reply<Task> := Fail(404, NotFoundMessage, [])

  // ---------------------------------------------------------------------
  // validateObjectId

  predicate IsHexDigit(c: char) {
    ('0' <= c <= '9') || ('a' <= c <= 'f') || ('A' <= c <= 'F')
  }

  /** The pattern `[0-9a-fA-F]{n}$` matched against `s`, one character at a time. */
  predicate MatchesHexRun(s: string, n: nat)
    decreases n
  {
    if n == 0 then s == []
    else s != [] && IsHexDigit(s[0]) && MatchesHexRun(s[1..], n - 1)
  }

  lemma {:induction false} HexRunIff(s: string, n: nat)
    ensures MatchesHexRun(s, n) <==> |s| == n && forall i :: 0 <= i < |s| ==> IsHexDigit(s[i])
    decreases n
  {
    if n > 0 && s != [] {
      HexRunIff(s[1..], n - 1);
      if forall i :: 0 <= i < |s| ==> IsHexDigit(s[i]) {
        assert forall i :: 0 <= i < |s[1..]| ==> IsHexDigit(s[1..][i]) by {
          forall i | 0 <= i < |s[1..]| ensures IsHexDigit(s[1..][i]) {
            assert s[1..][i] == s[i + 1];
          }
        }
      }
      if MatchesHexRun(s, n) {
        forall i | 0 <= i < |s| ensures IsHexDigit(s[i]) {
          if i > 0 { assert s[i] == s[1..][i - 1]; }
        }
      }
    }
  }

  /** The number of hexadecimal digits of an ObjectId. */
  const ObjectIdLength: nat := 24

  /** `/^[0-9a-fA-F]{24}$/.test(id)`. */
  predicate ValidObjectId(id: string) {
    MatchesHexRun(id, ObjectIdLength)
  }

  /** An id is accepted exactly when it has 24 characters, each a hexadecimal digit of either case. */
  lemma ValidObjectIdIff(id: string)
    ensures ValidObjectId(id) <==> |id| == ObjectIdLength && forall i :: 0 <= i < |id| ==> IsHexDigit(id[i])
  {
    HexRunIff(id, ObjectIdLength);
  }

  // ---------------------------------------------------------------------
  // findById: casting the id string to an ObjectId

  /** The value of a hexadecimal digit of either case. */
  function HexValue(c: char): nat {
    if '0' <= c <= '9' then (c as int - '0' as int) as nat
    else if 'a' <= c <= 'f' then (c as int - 'a' as int + 10) as nat
    else if 'A' <= c <= 'F' then (c as int - 'A' as int + 10) as nat
    else 0
  }

  /** `A`-`F` in lower case; every other character unchanged. */
  function LowerHex(c: char): char {
    if 'A' <= c <= 'F' then (c as int - 'A' as int + 'a' as int) as char else c
  }

  /**
   * The id a `findById` lookup casts `id` to, in the lower-case hexadecimal
   * the store writes its generated ids in.
   */
  function CanonicalId(id: string): (k: string)
    ensures |k| == |id|
    ensures forall i :: 0 <= i < |id| ==> k[i] == LowerHex(id[i])
  {
    seq(|id|, i requires 0 <= i < |id| => LowerHex(id[i]))
  }

  lemma LowerHexSameValue(c: char, d: char)
    requires IsHexDigit(c) && IsHexDigit(d)
    ensures IsHexDigit(LowerHex(c)) && HexValue(LowerHex(c)) == HexValue(c)
    ensures LowerHex(c) == LowerHex(d) <==> HexValue(c) == HexValue(d)
  {
  }

  /**
   * Two accepted ids reach the same record exactly when they spell the same
   * ObjectId: digit by digit the same hexadecimal value, whatever the case.
   */
  lemma CanonicalIdSameObjectId(a: string, b: string)
    requires ValidObjectId(a) && ValidObjectId(b)
    ensures |a| == |b| == ObjectIdLength
    ensures CanonicalId(a) == CanonicalId(b) <==> forall i :: 0 <= i < |a| ==> HexValue(a[i]) == HexValue(b[i])
  {
    ValidObjectIdIff(a);
    ValidObjectIdIff(b);
    var ka, kb := CanonicalId(a), CanonicalId(b);
    forall i | 0 <= i < |a| ensures ka[i] == kb[i] <==> HexValue(a[i]) == HexValue(b[i]) {
      LowerHexSameValue(a[i], b[i]);
    }
    if forall i :: 0 <= i < |a| ==> HexValue(a[i]) == HexValue(b[i]) {
      assert forall i :: 0 <= i < |ka| ==> ka[i] == kb[i];
    }
  }

  /** The canonical form of an accepted id is accepted, and canonicalising it again changes nothing. */
  lemma CanonicalIdAccepted(id: string)
    requires ValidObjectId(id)
    ensures ValidObjectId(CanonicalId(id)) && CanonicalId(CanonicalId(id)) == CanonicalId(id)
  {
    ValidObjectIdIff(id);
    var k := CanonicalId(id);
    forall i | 0 <= i < |k| ensures IsHexDigit(k[i]) && LowerHex(k[i]) == k[i] {
      LowerHexSameValue(id[i], id[i]);
    }
    ValidObjectIdIff(k);
    assert CanonicalId(k) == k;
  }

  /** An upper-case spelling of a generated id reaches the same record. */
  lemma UpperCaseSpellingSameId()
    ensures ValidObjectId("ABCDEFABCDEFABCDEFABCDEF")
    ensures CanonicalId("ABCDEFABCDEFABCDEFABCDEF") == "abcdefabcdefabcdefabcdef"
  {
    var u, l := "ABCDEFABCDEFABCDEFABCDEF", "abcdefabcdefabcdefabcdef";
    UpperCaseDigits(u, l);
    ValidObjectIdIff(u);
    assert CanonicalId(u) == l;
  }

  lemma UpperCaseDigits(u: string, l: string)
    requires u == "ABCDEFABCDEFABCDEFABCDEF" && l == "abcdefabcdefabcdefabcdef"
    ensures |u| == |l| == ObjectIdLength
    ensures forall i :: 0 <= i < |u| ==> IsHexDigit(u[i]) && LowerHex(u[i]) == l[i]
  {
    forall i | 0 <= i < |u| ensures IsHexDigit(u[i]) && LowerHex(u[i]) == l[i] {
      assert 'A' <= u[i] <= 'F' && u[i] as int + 32 == l[i] as int;
    }
  }

  // ---------------------------------------------------------------------
  // GET / : the list pipeline

  /** The query string of a list request; `limit` and `page` already `parseInt`-ed. */
  datatype ListRequest = ListRequest(
    filter: Option<string>,
    sortBy: Option<string>,
    priority: Option<string>,
    limit: Option<int>,
    page: Option<int>)

  const DefaultLimit := 100
  const MaxLimit := 100

  /** The numeric parameters the model admits (a non-positive limit or page is left out). */
  predicate ListRequestOk(req: ListRequest) {
    (req.limit.Some? ==> req.limit.value >= 1) && (req.page.Some? ==> req.page.value >= 1)
  }

  /**
   * The equality filter of the list route: `filter` constrains `completed`
   * only when it is "active" or "completed", and `priority` is added only
   * when it names one of the three priorities.
   */
  function BuildQuery(filter: Option<string>, priority: Option<string>): (q: Query)
    ensures q.completed == (if filter == Some("active") then Some(false)
                            else if filter == Some("completed") then Some(true)
                            else None)
    ensures q.priority.Some? <==> priority.Some? && ParsePriority(priority.value).Some?
    ensures q.priority.Some? ==> Name(q.priority.value) == priority.value
    ensures forall t :: Matches(q, t) <==>
      && (filter == Some("active") ==> !t.completed)
      && (filter == Some("completed") ==> t.completed)
      && (priority.Some? && ParsePriority(priority.value).Some? ==> Name(t.priority) == priority.value)
  {
    var completed := if filter == Some("active") then Some(false)
                     else if filter == Some("completed") then Some(true)
                     else None;
    var p := if priority.Some? && priority.value != "" then ParsePriority(priority.value) else None;
    Query(completed, p)
  }

  /** The store-level sort order chosen by `sortBy`. */
  function SortFor(sortBy: Option<string>): (o: Order)
    ensures sortBy == Some("priority") ==> o == PriorityNameDesc
    ensures sortBy == Some("oldest") ==> o == CreatedAsc
    ensures sortBy == Some("lastModified") ==> o == LastModifiedDesc
    ensures sortBy != Some("priority") && sortBy != Some("oldest") && sortBy != Some("lastModified")
      ==> o == CreatedDesc
  {
    if sortBy == Some("priority") then PriorityNameDesc
    else if sortBy == Some("recent") then CreatedDesc
    else if sortBy == Some("oldest") then CreatedAsc
    else if sortBy == Some("lastModified") then LastModifiedDesc
    else CreatedDesc
  }

  /** `Math.min(parseInt(limit), 100)`, with the default of 100. */
  function LimitFor(limit: Option<int>): (n: int)
    requires limit.Some? ==> limit.value >= 1
    ensures 1 <= n <= MaxLimit
    ensures limit.Some? && limit.value <= MaxLimit ==> n == limit.value
    ensures limit.None? || limit.value >= MaxLimit ==> n == MaxLimit
  {
    var l := if limit.Some? then limit.value else DefaultLimit;
    if l < MaxLimit then l else MaxLimit
  }

  /** `parseInt(page)`, with the default of 1. */
  function PageFor(page: Option<int>): (p: int)
    requires page.Some? ==> page.value >= 1
    ensures page.Some? ==> p == page.value
    ensures page.None? ==> p == 1
    ensures p >= 1
  {
    if page.Some? then page.value else 1
  }

  /** `(page - 1) * limitNum`: the number of matches before the page. */
  function SkipFor(req: ListRequest): (k: nat)
    requires ListRequestOk(req)
  {
    (PageFor(req.page) - 1) * LimitFor(req.limit)
  }

  /**
   * `.skip(skip).limit(n)` over an ordered result: at most `n` elements,
   * those at `skip`, `skip + 1`, ... of `s`; nothing when `skip` is past the end.
   */
  function Window(s: seq<Task>, skip: nat, n: nat): (r: seq<Task>)
    ensures |r| <= n
    ensures skip >= |s| ==> r == []
    ensures skip < |s| ==> |r| == if skip + n <= |s| then n else |s| - skip
    ensures forall i :: 0 <= i < |r| ==> skip + i < |s| && r[i] == s[skip + i]
    ensures forall t :: t in r ==> t in s
  {
    var lo := if skip < |s| then skip else |s|;
    var hi := if skip + n < |s| then skip + n else |s|;
    s[lo..hi]
  }

  /** `Math.ceil(total / limit)`: the fewest pages of `limit` that hold `total` items. */
  function CeilDiv(total: nat, limit: int): (pages: nat)
    requires limit >= 1
    ensures pages * limit >= total
    ensures pages > 0 ==> (pages - 1) * limit < total
  {
    var q := (total + limit - 1) / limit;
    assert q * limit + (total + limit - 1) % limit == total + limit - 1;
    assert (q - 1) * limit == q * limit - limit;
    q
  }

  /** The list response: `{ success, count, total, page, totalPages, data }`. */
  datatype ListReply = ListReply(count: nat, total: nat, page: int, totalPages: nat, data: seq<Task>)

  /**
   * What `find(query).sort(sortOptions).skip(skip).limit(limitNum)` returns
   * over the collection `s`: the matches, in the store order `sortBy`
   * selects, from the page's first position on.
   */
  function Fetched(s: seq<Task>, req: ListRequest): seq<Task>
    requires ListRequestOk(req)
  {
    Window(Sort(SortFor(req.sortBy), Where(s, BuildQuery(req.filter, req.priority))), SkipFor(req), LimitFor(req.limit))
  }

  /**
   * The fetched page holds at most `limitNum` records, each a stored record
   * matching the filter (so not completed under "active", completed under
   * "completed"), and is empty once the page starts past the last match. A
   * page holds `limitNum` records when that many matches remain, and the
   * remaining matches otherwise.
   */
  lemma FetchedSpec(s: seq<Task>, req: ListRequest)
    requires ListRequestOk(req)
    ensures |Fetched(s, req)| <= LimitFor(req.limit)
    ensures var m, k, n := |Where(s, BuildQuery(req.filter, req.priority))|, SkipFor(req), LimitFor(req.limit);
      |Fetched(s, req)| == if k >= m then 0 else if k + n <= m then n else m - k
    ensures forall t :: t in Fetched(s, req) ==> t in s && Matches(BuildQuery(req.filter, req.priority), t)
    ensures req.filter == Some("active") ==> forall t :: t in Fetched(s, req) ==> !t.completed
    ensures req.filter == Some("completed") ==> forall t :: t in Fetched(s, req) ==> t.completed
    ensures SkipFor(req) >= |Where(s, BuildQuery(req.filter, req.priority))| ==> Fetched(s, req) == []
  {
    var q := BuildQuery(req.filter, req.priority);
    var sorted := Sort(SortFor(req.sortBy), Where(s, q));
    SortSpec(SortFor(req.sortBy), Where(s, q));
    forall t | t in Fetched(s, req) ensures t in Where(s, q) {
      assert t in multiset(sorted);
    }
  }

  /**
   * Consecutive pages of the same listing are adjacent: the next page starts
   * where the page before it ends, so the two together are the run of twice
   * `limitNum` matches from the first page's start, and no match between them
   * is skipped or shown twice.
   */
  lemma ConsecutivePagesAdjacent(s: seq<Task>, req1: ListRequest, req2: ListRequest)
    requires ListRequestOk(req1) && ListRequestOk(req2)
    requires req1.filter == req2.filter && req1.priority == req2.priority
    requires req1.sortBy == req2.sortBy && req1.limit == req2.limit
    requires PageFor(req2.page) == PageFor(req1.page) + 1
    ensures SkipFor(req2) == SkipFor(req1) + LimitFor(req1.limit)
    ensures Fetched(s, req1) + Fetched(s, req2) ==
      Window(Sort(SortFor(req1.sortBy), Where(s, BuildQuery(req1.filter, req1.priority))), SkipFor(req1), 2 * LimitFor(req1.limit))
  {
    var sorted := Sort(SortFor(req1.sortBy), Where(s, BuildQuery(req1.filter, req1.priority)));
    var n := LimitFor(req1.limit);
    assert Fetched(s, req1) == Window(sorted, SkipFor(req1), n);
    assert Fetched(s, req2) == Window(sorted, SkipFor(req2), n);
    NextPageSkip(req1, req2);
    WindowsJoin(sorted, SkipFor(req1), n);
  }

  lemma NextPageSkip(req1: ListRequest, req2: ListRequest)
    requires ListRequestOk(req1) && ListRequestOk(req2) && req1.limit == req2.limit
    requires PageFor(req2.page) == PageFor(req1.page) + 1
    ensures SkipFor(req2) == SkipFor(req1) + LimitFor(req1.limit)
  {
    MulStep(PageFor(req1.page) - 1, LimitFor(req1.limit));
  }

  /** Two windows of `n` side by side make the window of `2 * n`. */
  lemma WindowsJoin(s: seq<Task>, k: nat, n: nat)
    ensures Window(s, k, n) + Window(s, k + n, n) == Window(s, k, 2 * n)
  {
    if k + n < |s| {
      var hi := if k + 2 * n < |s| then k + 2 * n else |s|;
      assert s[k..k + n] + s[k + n..hi] == s[k..hi];
    }
  }

  /**
   * With `sortBy=priority` the store orders the fetched records by the
   * priority strings, "medium" > "low" > "high", and only the fetched page is
   * then re-sorted by rank. So with one medium task and one high task and a
   * limit of 1, the first page shows the medium task and the high task is
   * left to the second page.
   */
  lemma PriorityPagingSplitsRanks(m: Task, h: Task)
    requires m.priority == Medium && h.priority == High
    ensures var first := ListRequest(None, Some("priority"), None, Some(1), Some(1));
      var second := ListRequest(None, Some("priority"), None, Some(1), Some(2));
      && Sort(PriorityRankDesc, Fetched([h, m], first)) == [m]
      && Sort(PriorityRankDesc, Fetched([h, m], second)) == [h]
      && Before(PriorityRankDesc, h, m)
  {
    var first := ListRequest(None, Some("priority"), None, Some(1), Some(1));
    var second := ListRequest(None, Some("priority"), None, Some(1), Some(2));
    var s := [h, m];
    assert ListRequestOk(first) && ListRequestOk(second);
    assert LimitFor(Some(1)) == 1 && SkipFor(first) == 0 && SkipFor(second) == 1;
    assert SortFor(Some("priority")) == PriorityNameDesc;
    assert BuildQuery(None, None) == Query(None, None);
    WhereNoFilter(s);
    MediumBeforeHighInStore(h, m);
    assert Sort(PriorityNameDesc, s) == [m, h];
    assert Fetched(s, first) == [m];
    assert Fetched(s, second) == [h];
    SortSingleton(PriorityRankDesc, m);
    SortSingleton(PriorityRankDesc, h);
  }

  /** The store puts a medium task ahead of a high one stored before it. */
  lemma MediumBeforeHighInStore(h: Task, m: Task)
    requires m.priority == Medium && h.priority == High
    ensures Sort(PriorityNameDesc, [h, m]) == [m, h]
  {
    var s := [h, m];
    SortSingleton(PriorityNameDesc, h);
    assert s[..1] == [h] && [h][..0] == [];
    assert Before(PriorityNameDesc, m, h);
    assert Sort(PriorityNameDesc, s) == Insert(PriorityNameDesc, [h], m);
    assert Insert(PriorityNameDesc, [h], m) == Insert(PriorityNameDesc, [], m) + [h];
  }

  lemma SortSingleton(o: Order, x: Task)
    ensures Sort(o, [x]) == [x]
  {
    assert [x][..0] == [];
  }

  /**
   * The page a rank sort of all matches before paging would give: the
   * records of the `page`-th group of `limitNum` in rank order.
   */
  function RankedFetched(s: seq<Task>, req: ListRequest): seq<Task>
    requires ListRequestOk(req)
  {
    Window(Sort(PriorityRankDesc, Where(s, BuildQuery(req.filter, req.priority))), SkipFor(req), LimitFor(req.limit))
  }

  /**
   * Paging after the rank sort keeps the pages in rank order: no record of a
   * later page goes before a record of an earlier page, and each page is
   * itself in rank order.
   */
  lemma RankedPagesInOrder(s: seq<Task>, req1: ListRequest, req2: ListRequest)
    requires ListRequestOk(req1) && ListRequestOk(req2)
    requires req1.filter == req2.filter && req1.priority == req2.priority && req1.limit == req2.limit
    requires PageFor(req1.page) < PageFor(req2.page)
    ensures forall i, j :: 0 <= i < |RankedFetched(s, req1)| && 0 <= j < |RankedFetched(s, req2)| ==>
      !Before(PriorityRankDesc, RankedFetched(s, req2)[j], RankedFetched(s, req1)[i])
    ensures Sorted(PriorityRankDesc, RankedFetched(s, req1))
  {
    var sorted := Sort(PriorityRankDesc, Where(s, BuildQuery(req1.filter, req1.priority)));
    LaterPageSkip(req1, req2);
    SortSpec(PriorityRankDesc, Where(s, BuildQuery(req1.filter, req1.priority)));
    WindowsOfSorted(PriorityRankDesc, sorted, SkipFor(req1), SkipFor(req2), LimitFor(req1.limit));
  }

  /** A later page starts past the end of an earlier one. */
  lemma LaterPageSkip(req1: ListRequest, req2: ListRequest)
    requires ListRequestOk(req1) && ListRequestOk(req2) && req1.limit == req2.limit
    requires PageFor(req1.page) < PageFor(req2.page)
    ensures SkipFor(req1) + LimitFor(req1.limit) <= SkipFor(req2)
  {
    PagesApart(PageFor(req1.page), PageFor(req2.page), LimitFor(req1.limit));
  }

  /** Two disjoint windows of a sorted sequence: the later one never goes before the earlier one. */
  lemma WindowsOfSorted(o: Order, sorted: seq<Task>, k1: nat, k2: nat, n: nat)
    requires Sorted(o, sorted) && k1 + n <= k2
    ensures forall i, j :: 0 <= i < |Window(sorted, k1, n)| && 0 <= j < |Window(sorted, k2, n)| ==>
      !Before(o, Window(sorted, k2, n)[j], Window(sorted, k1, n)[i])
    ensures Sorted(o, Window(sorted, k1, n))
  {
    var p1, p2 := Window(sorted, k1, n), Window(sorted, k2, n);
    forall i, j | 0 <= i < |p1| && 0 <= j < |p2| ensures !Before(o, p2[j], p1[i]) {
      assert p1[i] == sorted[k1 + i] && p2[j] == sorted[k2 + j];
    }
    forall i, j | 0 <= i < j < |p1| ensures !Before(o, p1[j], p1[i]) {
      assert p1[i] == sorted[k1 + i] && p1[j] == sorted[k1 + j];
    }
  }

  /** The first position of a later page is past every position of an earlier one. */
  lemma {:induction false} PagesApart(p1: int, p2: int, n: nat)
    requires 1 <= p1 < p2
    ensures (p1 - 1) * n + n <= (p2 - 1) * n
    decreases p2 - p1
  {
    MulStep(p2 - 2, n);
    if p1 < p2 - 1 {
      PagesApart(p1, p2 - 1, n);
    }
  }

  lemma MulStep(a: int, n: nat)
    ensures (a + 1) * n == a * n + n
  {
  }

  /**
   * The in-memory re-sort of the fetched page under `sortBy=priority`: the
   * page is copied into an array and sorted there by rank.
   */
  method RankPage(fetched: seq<Task>) returns (r: seq<Task>)
    ensures r == Sort(PriorityRankDesc, fetched)
    ensures |r| == |fetched|
    ensures multiset(r) == multiset(fetched) && Sorted(PriorityRankDesc, r)
    ensures forall t :: t in r ==> t in fetched
  {
    var a := new Task[|fetched|](i requires 0 <= i < |fetched| => fetched[i]);
    assert a[..] == fetched;
    SortByRank(a);
    r := a[..];
    SortSpec(PriorityRankDesc, fetched);
    forall t | t in r ensures t in fetched {
      assert t in multiset(r);
    }
  }

  /**
   * `todos.sort(...)` with the priority comparator, in place on the fetched
   * page. JavaScript's sort is stable, as `Sort` is, so the resulting order is
   * exactly `Sort(PriorityRankDesc, ...)`: non-increasing in rank, ties by
   * `createdAt` descending, a permutation of the page.
   */
  method SortByRank(a: array<Task>)
    modifies a
    ensures a[..] == Sort(PriorityRankDesc, old(a[..]))
  {
    ghost var input := a[..];
    var i := 0;
    while i < a.Length
      invariant 0 <= i <= a.Length
      invariant a[..i] == Sort(PriorityRankDesc, input[..i])
      invariant a[i..] == input[i..]
    {
      assert a[i] == input[i];
      InsertIntoPrefix(PriorityRankDesc, a, i);
      assert input[..i + 1][..i] == input[..i];
      assert a[i + 1..] == input[i + 1..];
      i := i + 1;
    }
    assert input[..a.Length] == input;
  }

  /**
   * One pass of the insertion sort: moves `a[i]` left past every element of
   * the prefix `a[..i]` it goes strictly before.
   */
  method InsertIntoPrefix(o: Order, a: array<Task>, i: nat)
    requires i < a.Length
    modifies a
    ensures a[..i + 1] == Insert(o, old(a[..i]), old(a[i]))
    ensures a[i + 1..] == old(a[i + 1..])
  {
    ghost var sorted := a[..i];
    ghost var rest := a[i + 1..];
    var x := a[i];
    assert a[..] == sorted + [x] + rest;
    var j := MoveLeft(o, a, i, sorted, x, rest);
    InsertStops(o, sorted[..j], x);
    InsertedPrefix(o, sorted, x, rest, a[..]);
    assert a[..][..i + 1] == a[..i + 1];
  }

  /**
   * The loop of one insertion pass: `x` starts at `a[i]`, after the prefix
   * `sorted`, and swaps left while it goes before its left neighbour.
   */
  method MoveLeft(o: Order, a: array<Task>, i: nat, ghost sorted: seq<Task>, x: Task, ghost rest: seq<Task>)
    returns (j: nat)
    requires i == |sorted| && a[..] == sorted + [x] + rest
    modifies a
    ensures j <= i && a[..] == sorted[..j] + [x] + sorted[j..] + rest
    ensures Insert(o, sorted, x) == Insert(o, sorted[..j], x) + sorted[j..]
    ensures j == 0 || !Before(o, x, sorted[j - 1])
  {
    j := i;
    assert sorted[..i] == sorted && sorted[i..] == [];
    while j > 0 && Before(o, x, a[j - 1])
      invariant 0 <= j <= i
      invariant a[..] == sorted[..j] + [x] + sorted[j..] + rest
      invariant Insert(o, sorted, x) == Insert(o, sorted[..j], x) + sorted[j..]
    {
      InsertStepLeft(o, sorted, j, x);
      SwapLeft(a, j, sorted, x, rest);
      j := j - 1;
    }
    if j > 0 {
      assert a[j - 1] == sorted[j - 1];
    }
  }

  /** Splitting `Insert(o, s, x) + rest` after its first `|s| + 1` elements. */
  lemma InsertedPrefix(o: Order, s: seq<Task>, x: Task, rest: seq<Task>, full: seq<Task>)
    requires full == Insert(o, s, x) + rest
    ensures |Insert(o, s, x)| == |s| + 1 && full[..|s| + 1] == Insert(o, s, x) && full[|s| + 1..] == rest
  {
    InsertPermutes(o, s, x);
    assert |multiset(Insert(o, s, x))| == |s| + 1;
  }

  /** Swap `x`, at `a[j]`, with the element to its left. */
  method SwapLeft(a: array<Task>, j: nat, ghost s: seq<Task>, ghost x: Task, ghost rest: seq<Task>)
    requires 0 < j <= |s| && a[..] == s[..j] + [x] + s[j..] + rest
    modifies a
    ensures a[..] == s[..j - 1] + [x] + s[j - 1..] + rest
  {
    SwapStep(s, j, x, rest);
    a[j - 1], a[j] := a[j], a[j - 1];
  }

  /** Swapping `x` with the element to its left moves it one place left in the sequence. */
  lemma SwapStep(s: seq<Task>, j: nat, x: Task, rest: seq<Task>)
    requires 0 < j <= |s|
    ensures (s[..j] + [x] + s[j..] + rest)[j - 1] == s[j - 1] && (s[..j] + [x] + s[j..] + rest)[j] == x
    ensures (s[..j] + [x] + s[j..] + rest)[j - 1 := x][j := s[j - 1]] == s[..j - 1] + [x] + s[j - 1..] + rest
  {
    var u := (s[..j] + [x] + s[j..] + rest)[j - 1 := x][j := s[j - 1]];
    var v := s[..j - 1] + [x] + s[j - 1..] + rest;
    assert |u| == |v|;
    forall k | 0 <= k < |u| ensures u[k] == v[k] {
      if k < j - 1 {
      } else if j < k <= |s| {
        assert u[k] == s[k - 1];
      }
    }
  }

  // ---------------------------------------------------------------------
  // POST / and PUT /:id

  /** A `dueDate` in a request body: a falsy value, or a date. */
  datatype DateInput = Falsy | Date(time: int)

  /** `dueDate ? new Date(dueDate) : null`. */
  function DueDateValue(d: DateInput): Option<int> {
    if d.Date? then Some(d.time) else None
  }

  /** The body of a create request. */
  datatype CreateBody = CreateBody(
    text: Option<string>,
    priority: Option<string>,
    category: Option<string>,
    dueDate: Option<DateInput>)

  /** `!text || text.trim().length === 0` */
  predicate TextMissing(text: Option<string>)
    ensures TextMissing(text) <==> text.None? || AllWhitespace(text.value)
  {
    TrimEmptyIffBlank(if text.Some? then text.value else "");
    text.None? || text.value == "" || |Trim(text.value)| == 0
  }

  /** `priority || "medium"`: a missing or empty priority defaults to medium. */
  function DefaultedPriority(priority: Option<string>): (p: string)
    ensures priority.None? || priority.value == "" ==> p == DefaultPriority
    ensures priority.Some? && priority.value != "" ==> p == priority.value
  {
    if priority.Some? && priority.value != "" then priority.value else DefaultPriority
  }

  /**
   * The record a POST saves, or the validation messages, for a body whose
   * text is present and not blank: the route trims the text and defaults the
   * priority, the setters trim text and category, the schema defaults give
   * an open task, and the save hook runs at `now`.
   */
  function Created(body: CreateBody, id: Id, now: Time): Result<Task, seq<string>>
    requires !TextMissing(body.text)
  {
    var text := Trim(Trim(body.text.value));
    var priority := DefaultedPriority(body.priority);
    var category := if body.category.Some? then Some(Trim(body.category.value)) else None;
    var dueDate := if body.dueDate.Some? then DueDateValue(body.dueDate.value) else None;
    var errs := SchemaErrors(text, priority, category);
    if errs != [] then Failure(errs)
    else Success(Task(id, text, false, ParsePriority(priority).value, category, dueDate, now, None, now))
  }

  /**
   * Create semantics: the save is rejected exactly when the trimmed text is
   * too long, the (defaulted) priority is not one of the three, or the
   * trimmed category is too long; the text can no longer be missing or too
   * short. A saved task is open, has the trimmed text, priority medium unless
   * one is given, no due date unless a truthy one is given, both timestamps
   * `now`, and is well formed.
   */
  lemma CreatedSpec(body: CreateBody, id: Id, now: Time)
    requires !TextMissing(body.text)
    ensures var r := Created(body, id, now);
      && (r.Failure? <==>
            || |Trim(body.text.value)| > MaxTextLength
            || ParsePriority(DefaultedPriority(body.priority)).None?
            || (body.category.Some? && |Trim(body.category.value)| > MaxCategoryLength))
      && (r.Failure? ==> TextRequired !in r.error && TextTooShort !in r.error)
      && (r.Success? ==>
            var t := r.value;
            && t.id == id && t.text == Trim(body.text.value)
            && !t.completed && t.completedAt == None
            && (body.priority.None? || body.priority.value == "" ==> t.priority == Medium)
            && (body.priority.Some? && body.priority.value != "" ==> Name(t.priority) == body.priority.value)
            && t.category == (if body.category.Some? then Some(Trim(body.category.value)) else None)
            && (body.dueDate.None? || body.dueDate == Some(Falsy) ==> t.dueDate == None)
            && (body.dueDate.Some? && body.dueDate.value.Date? ==> t.dueDate == Some(body.dueDate.value.time))
            && t.createdAt == now && t.lastModified == now
            && WellFormed(t))
  {
    TrimEmptyIffBlank(body.text.value);
    TrimIdempotent(body.text.value);
    TrimIsTrimmed(body.text.value);
    if body.category.Some? {
      TrimIsTrimmed(body.category.value);
    }
  }

  /** The body of an update request; an absent field is `None`. */
  datatype UpdateBody = UpdateBody(
    text: Option<string>,
    completed: Option<bool>,
    priority: Option<string>,
    category: Option<string>,
    dueDate: Option<DateInput>)

  /**
   * The fields of `t` after the assignments of a PUT: each field the body
   * carries is assigned, text trimmed by the route and then by the setter,
   * category trimmed by the setter, a due date through `DueDateValue`.
   */
  function AssignedFields(t: Task, body: UpdateBody): Fields {
    Fields(
      if body.text.Some? then Trim(Trim(body.text.value)) else t.text,
      if body.completed.Some? then body.completed.value else t.completed,
      if body.priority.Some? then body.priority.value else Name(t.priority),
      if body.category.Some? then Some(Trim(body.category.value)) else t.category,
      if body.dueDate.Some? then DueDateValue(body.dueDate.value) else t.dueDate)
  }

  /**
   * The record a PUT saves, or the validation messages: the present fields
   * are assigned (text trimmed by the route and the setter, category by the
   * setter), then the document is validated and the save hook runs at `now`.
   */
  function ApplyUpdate(t: Task, body: UpdateBody, now: Time): Result<Task, seq<string>> {
    var f := AssignedFields(t, body);
    var errs := SchemaErrors(f.text, f.priority, f.category);
    if errs != [] then Failure(errs)
    else
      Success(Task(t.id, f.text, f.completed, ParsePriority(f.priority).value, f.category, f.dueDate,
                   t.createdAt, SavedCompletedAt(f.completed != t.completed, f.completed, t.completedAt, now), now))
  }

  /**
   * Partial-update semantics: a field absent from the body keeps its value,
   * a present one takes the (trimmed) value given, a falsy `dueDate` clears
   * it and a truthy one sets it; `id` and `createdAt` never change and `lastModified` becomes `now`.
   * The update is rejected exactly when a resulting field is invalid.
   */
  lemma ApplyUpdateFields(t: Task, body: UpdateBody, now: Time)
    requires WellFormed(t)
    ensures var r := ApplyUpdate(t, body, now);
      && (r.Failure? <==>
            || (body.text.Some? && !(1 <= |Trim(body.text.value)| <= MaxTextLength))
            || (body.priority.Some? && ParsePriority(body.priority.value).None?)
            || (body.category.Some? && |Trim(body.category.value)| > MaxCategoryLength))
      && (r.Success? ==>
            var u := r.value;
            && u.id == t.id && u.createdAt == t.createdAt && u.lastModified == now
            && u.text == (if body.text.Some? then Trim(body.text.value) else t.text)
            && u.completed == (if body.completed.Some? then body.completed.value else t.completed)
            && (body.priority.None? ==> u.priority == t.priority)
            && (body.priority.Some? ==> Name(u.priority) == body.priority.value)
            && u.category == (if body.category.Some? then Some(Trim(body.category.value)) else t.category)
            && (body.dueDate.None? ==> u.dueDate == t.dueDate)
            && (body.dueDate == Some(Falsy) ==> u.dueDate == None)
            && (body.dueDate.Some? && body.dueDate.value.Date? ==> u.dueDate == Some(body.dueDate.value.time)))
  {
    if body.text.Some? {
      TrimIdempotent(body.text.value);
    }
  }

  /**
   * A successful update of a stored task at a later time keeps it well formed;
   * completing it stamps `now` unless it was already completed, reopening
   * clears `completedAt`, and `lastModified` strictly increases.
   */
  lemma ApplyUpdatePreservesWellFormed(t: Task, body: UpdateBody, now: Time)
    requires WellFormed(t) && t.lastModified < now
    requires ApplyUpdate(t, body, now).Success?
    ensures var u := ApplyUpdate(t, body, now).value;
      && WellFormed(u)
      && t.lastModified < u.lastModified
      && (u.completed && !t.completed ==> u.completedAt == Some(now))
      && (u.completed && t.completed ==> u.completedAt == t.completedAt)
      && (!u.completed ==> u.completedAt == None)
  {
    if body.text.Some? {
      TrimIsTrimmed(Trim(body.text.value));
    }
    if body.category.Some? {
      TrimIsTrimmed(body.category.value);
    }
  }

  // ---------------------------------------------------------------------
  // DELETE /

  function DigitChar(d: nat): char
    requires d < 10
  {
    "0123456789"[d]
  }

  /** The decimal digits of `n`, as a template literal prints it. */
  function NatToString(n: nat): string
  {
    if n < 10 then [DigitChar(n)] else NatToString(n / 10) + [DigitChar(n % 10)]
  }

  /** The value of a decimal digit character. */
  function DigitValue(c: char): nat {
    if '0' <= c <= '9' then (c as int - '0' as int) as nat else 0
  }

  /** The number a string of decimal digits denotes, most significant digit first. */
  function ParseDecimal(s: string): nat {
    if s == [] then 0 else 10 * ParseDecimal(s[..|s| - 1]) + DigitValue(s[|s| - 1])
  }

  /**
   * `NatToString(n)` is a non-empty string of decimal digits without a
   * leading zero (other than "0" itself) that denotes `n`.
   */
  lemma {:induction false} NatToStringRoundTrip(n: nat)
    ensures var d := NatToString(n);
      && d != []
      && (forall i :: 0 <= i < |d| ==> '0' <= d[i] <= '9')
      && (|d| > 1 ==> d[0] != '0')
      && ParseDecimal(d) == n
  {
    var d := NatToString(n);
    if n < 10 {
      DigitCharValue(n);
    } else {
      var init := NatToString(n / 10);
      NatToStringRoundTrip(n / 10);
      DigitCharValue(n % 10);
      assert d == init + [DigitChar(n % 10)];
      assert d[..|d| - 1] == init;
      assert ParseDecimal(d) == 10 * (n / 10) + n % 10;
      forall i | 0 <= i < |d| ensures '0' <= d[i] <= '9' {
        if i < |init| {
          assert d[i] == init[i];
        }
      }
    }
  }

  lemma DigitCharValue(k: nat)
    requires k < 10
    ensures '0' <= DigitChar(k) <= '9' && DigitValue(DigitChar(k)) == k
    ensures k > 0 ==> DigitChar(k) != '0'
  {
  }

  function DeletedMessage(n: nat): string {
    NatToString(n) + " completed todos deleted"
  }

  /** The delete-completed response: `{ success, message, deletedCount }`. */
  datatype DeleteCompletedReply = DeleteCompletedReply(message: string, deletedCount: nat)

  // ---------------------------------------------------------------------
  // GET /stats/summary

  /** One document of the `$group` stage: a priority and how many tasks have it. */
  datatype PriorityGroup = PriorityGroup(priority: Priority, count: nat)

  /** A group for `p` when some task of the collection has priority `p`. */
  function GroupIf(s: seq<Task>, p: Priority): seq<PriorityGroup> {
    var n := |GetByPriority(s, p)|;
    if n > 0 then [PriorityGroup(p, n)] else []
  }

  /**
   * The `$group` stage by priority over the collection `s`: one group per
   * priority that occurs, with its count. The store returns groups in no
   * particular order; this one lists them high, medium, low.
   */
  function GroupByPriority(s: seq<Task>): (g: seq<PriorityGroup>)
    ensures forall k :: 0 <= k < |g| ==> g[k].count == |GetByPriority(s, g[k].priority)| > 0
    ensures forall p :: |GetByPriority(s, p)| > 0 ==> PriorityGroup(p, |GetByPriority(s, p)|) in g
    ensures forall i, j :: 0 <= i < j < |g| ==> g[i].priority != g[j].priority
  {
    var g := GroupIf(s, High) + GroupIf(s, Medium) + GroupIf(s, Low);
    assert forall gr :: gr in g <==> gr in GroupIf(s, High) || gr in GroupIf(s, Medium) || gr in GroupIf(s, Low);
    assert forall k :: 0 <= k < |g| ==> g[k] in g;
    g
  }

  /**
   * `groups.reduce((acc, item) => { acc[item._id] = item.count; ... }, {})`,
   * keyed by priority name.
   */
  function Breakdown(groups: seq<PriorityGroup>): map<string, nat> {
    if groups == [] then map[]
    else
      var last := groups[|groups| - 1];
      Breakdown(groups[..|groups| - 1])[Name(last.priority) := last.count]
  }

  /** The keys of the reduced object are the names of the grouped priorities. */
  lemma {:induction false} BreakdownKeys(groups: seq<PriorityGroup>)
    ensures Breakdown(groups).Keys == set g | g in groups :: Name(g.priority)
  {
    if groups != [] {
      var init, last := groups[..|groups| - 1], groups[|groups| - 1];
      BreakdownKeys(init);
      assert groups == init + [last];
      assert forall g :: g in groups <==> g in init || g == last;
    }
  }

  /** A key whose groups all carry the count `c` maps to `c`. */
  lemma {:induction false} BreakdownValue(groups: seq<PriorityGroup>, p: Priority, c: nat)
    requires Name(p) in Breakdown(groups)
    requires forall k :: 0 <= k < |groups| && groups[k].priority == p ==> groups[k].count == c
    ensures Breakdown(groups)[Name(p)] == c
  {
    var init, last := groups[..|groups| - 1], groups[|groups| - 1];
    NameInjective(last.priority, p);
    if last.priority != p {
      BreakdownValue(init, p, c);
    }
  }

  /** The sum of a breakdown's counts; a priority without a key adds nothing. */
  function BreakdownSum(m: map<string, nat>): nat {
    (if "low" in m then m["low"] else 0)
    + (if "medium" in m then m["medium"] else 0)
    + (if "high" in m then m["high"] else 0)
  }

  /**
   * The breakdown of the collection `s` maps each priority that occurs to the
   * number of tasks with it, has no key for a priority that does not occur nor
   * any other key, and its counts sum to the number of tasks.
   */
  lemma BreakdownOfCollection(s: seq<Task>)
    ensures var m := Breakdown(GroupByPriority(s));
      && (forall p :: Name(p) in m <==> |GetByPriority(s, p)| > 0)
      && (forall p :: Name(p) in m ==> m[Name(p)] == |GetByPriority(s, p)|)
      && (forall k :: k in m ==> ParsePriority(k).Some?)
      && BreakdownSum(m) == |s|
  {
    BreakdownEntries(s);
    PriorityCountsAddUp(s);
    assert Name(Low) == "low" && Name(Medium) == "medium" && Name(High) == "high";
  }

  /** The keys and counts of the breakdown of `s`. */
  lemma BreakdownEntries(s: seq<Task>)
    ensures var m := Breakdown(GroupByPriority(s));
      && (forall p :: Name(p) in m <==> |GetByPriority(s, p)| > 0)
      && (forall p :: Name(p) in m ==> m[Name(p)] == |GetByPriority(s, p)|)
      && (forall k :: k in m ==> ParsePriority(k).Some?)
  {
    var g := GroupByPriority(s);
    var m := Breakdown(g);
    BreakdownKeys(g);
    forall p ensures Name(p) in m <==> |GetByPriority(s, p)| > 0 {
      if Name(p) in m {
        var gr :| gr in g && Name(gr.priority) == Name(p);
        NameInjective(gr.priority, p);
        var k :| 0 <= k < |g| && g[k] == gr;
      }
    }
    forall p | Name(p) in m ensures m[Name(p)] == |GetByPriority(s, p)| {
      BreakdownValue(g, p, |GetByPriority(s, p)|);
    }
    forall k | k in m ensures ParsePriority(k).Some? {
      var gr :| gr in g && Name(gr.priority) == k;
    }
  }

  lemma RoundedPercentAtMost100(completed: nat, total: nat, r: int)
    requires 0 < total && completed <= total
    requires 2 * total * r <= 200 * completed + total
    ensures r <= 100
  {
  }

  /** `Math.round(completed / total * 100)`, or 0 for an empty collection, as rounding half up. */
  function CompletionRate(completed: nat, total: nat): (rate: nat)
    ensures total == 0 ==> rate == 0
    ensures total > 0 ==> 2 * total * rate <= 200 * completed + total < 2 * total * rate + 2 * total
    ensures completed <= total ==> rate <= 100
  {
    if total == 0 then 0
    else
      var r := (200 * completed + total) / (2 * total);
      assert 2 * total * r + (200 * completed + total) % (2 * total) == 200 * completed + total;
      if completed <= total then RoundedPercentAtMost100(completed, total, r); r else r
  }

  /** The statistics summary: `{ total, completed, active, completionRate, priorityBreakdown }`. */
  datatype Stats = Stats(
    total: nat,
    completed: nat,
    active: nat,
    completionRate: nat,
    priorityBreakdown: map<string, nat>)
}
