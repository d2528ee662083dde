/**
 * The task routes over an in-memory store. A `Todos` object stands for the
 * collection: the stored records keyed by id, the order the store holds
 * them in, and a clock that gives each save a strictly later instant. Each
 * handler is a method whose contract ties its reply and the new store to
 * the request logic of `TodoRoutes` and the document semantics of
 * `TodoModel`.
 */
module TodoRouter {
  import opened Wrappers
  import opened JsText
  import opened TodoModel
  import opened Ordering
  import opened TodoRoutes

  // ---------------------------------------------------------------------
  // Ids in stored order

  /** No id occurs twice. */
  ghost predicate Distinct(s: seq<Id>) {
    forall i, j :: 0 <= i < j < |s| ==> s[i] != s[j]
  }

  lemma DistinctTail(s: seq<Id>)
    requires s != []
    ensures Distinct(s) <==> s[0] !in s[1..] && Distinct(s[1..])
  {
    var tail := s[1..];
    assert forall i :: 0 <= i < |tail| ==> tail[i] == s[i + 1];
    if s[0] !in tail && Distinct(tail) {
      forall i, j | 0 <= i < j < |s| ensures s[i] != s[j] {
        assert s[j] == tail[j - 1];
        if i > 0 {
          assert s[i] == tail[i - 1];
        }
      }
    }
  }

  /** A list of distinct ids has as many ids as elements. */
  lemma {:induction false} DistinctCard(s: seq<Id>)
    requires Distinct(s)
    ensures |set k | k in s| == |s|
  {
    if s != [] {
      DistinctTail(s);
      DistinctCard(s[1..]);
      assert (set k | k in s) == {s[0]} + (set k | k in s[1..]);
    }
  }

  /** The records of `m` in the order `o` lists their ids. */
  function InOrder(o: seq<Id>, m: map<Id, Task>): (r: seq<Task>)
    requires forall k :: k in o ==> k in m
    ensures |r| == |o|
    ensures forall i :: 0 <= i < |o| ==> r[i] == m[o[i]]
  {
    if o == [] then [] else [m[o[0]]] + InOrder(o[1..], m)
  }

  /** The ids of `o` whose records match `q`, in order: what a `deleteMany` keeps with the complement. */
  function KeepIds(o: seq<Id>, m: map<Id, Task>, q: Query): (r: seq<Id>)
    requires forall k :: k in o ==> k in m
    ensures |r| <= |o|
    ensures forall k :: k in r <==> k in o && Matches(q, m[k])
  {
    if o == [] then []
    else (if Matches(q, m[o[0]]) then [o[0]] else []) + KeepIds(o[1..], m, q)
  }

  lemma {:induction false} KeepIdsDistinct(o: seq<Id>, m: map<Id, Task>, q: Query)
    requires forall k :: k in o ==> k in m
    requires Distinct(o)
    ensures Distinct(KeepIds(o, m, q))
  {
    if o != [] {
      DistinctTail(o);
      KeepIdsDistinct(o[1..], m, q);
      var r := KeepIds(o, m, q);
      if Matches(q, m[o[0]]) {
        assert r == [o[0]] + KeepIds(o[1..], m, q);
        assert r[1..] == KeepIds(o[1..], m, q);
        DistinctTail(r);
      }
    }
  }

  /**
   * Keeping the ids that match `q` and reading their records from any map
   * that agrees on them gives the records `find(q)` returns, in stored order.
   */
  lemma {:induction false} KeepIdsInOrder(o: seq<Id>, m: map<Id, Task>, m2: map<Id, Task>, q: Query)
    requires forall k :: k in o ==> k in m
    requires forall k :: k in o && Matches(q, m[k]) ==> k in m2 && m2[k] == m[k]
    ensures InOrder(KeepIds(o, m, q), m2) == Where(InOrder(o, m), q)
  {
    if o != [] {
      KeepIdsInOrder(o[1..], m, m2, q);
      var s := InOrder(o, m);
      assert s[0] == m[o[0]];
      assert s[1..] == InOrder(o[1..], m);
      var r := KeepIds(o, m, q);
      if Matches(q, m[o[0]]) {
        assert r == [o[0]] + KeepIds(o[1..], m, q);
        assert r[1..] == KeepIds(o[1..], m, q);
        assert InOrder(r, m2) == [m2[o[0]]] + InOrder(r[1..], m2);
      }
    }
  }

  /** `o` without `id`. */
  function Erase(o: seq<Id>, id: Id): (r: seq<Id>)
    ensures forall k :: k in r <==> k in o && k != id
  {
    if o == [] then []
    else (if o[0] == id then [] else [o[0]]) + Erase(o[1..], id)
  }

  /** Erasing an id from distinct ids keeps them distinct and drops one element when it is there. */
  lemma {:induction false} EraseDistinct(o: seq<Id>, id: Id)
    requires Distinct(o)
    ensures Distinct(Erase(o, id))
    ensures |Erase(o, id)| == if id in o then |o| - 1 else |o|
  {
    if o != [] {
      DistinctTail(o);
      EraseDistinct(o[1..], id);
      var r := Erase(o, id);
      if o[0] != id {
        assert r == [o[0]] + Erase(o[1..], id);
        assert r[1..] == Erase(o[1..], id);
        DistinctTail(r);
      } else {
        assert id !in o[1..];
      }
    }
  }

  /**
   * What every stored record satisfies, given its key and the clock: it sits
   * under its own id, written in lower case as the store generates ids.
   */
  predicate StoredUnder(k: Id, t: Task, clock: Time) {
    t.id == k && CanonicalId(k) == k && WellFormed(t) && t.lastModified <= clock
  }

  /**
   * The store invariant on values: every stored id is listed once in
   * `order`, every listed id is stored, and every record satisfies
   * `StoredUnder` at `clock`.
   */
  ghost predicate StoreValid(tasks: map<Id, Task>, order: seq<Id>, clock: Time) {
    && Distinct(order)
    && (forall k :: k in tasks <==> k in order)
    && (forall k :: k in tasks ==> StoredUnder(k, tasks[k], clock))
  }

  /** Adding a new record at the end of the store, saved at `now`, keeps the invariant. */
  lemma AddKeepsValid(tasks: map<Id, Task>, order: seq<Id>, clock: Time, k: Id, t: Task, now: Time)
    requires StoreValid(tasks, order, clock) && k !in tasks
    requires StoredUnder(k, t, now) && clock <= now
    ensures StoreValid(tasks[k := t], order + [k], now)
  {
    var o := order + [k];
    forall i, j | 0 <= i < j < |o| ensures o[i] != o[j] {
      if j < |order| {
        assert o[i] == order[i] && o[j] == order[j];
      } else {
        assert o[i] in order;
      }
    }
  }

  /** Replacing a stored record by one saved at `now` keeps the invariant. */
  lemma ReplaceKeepsValid(tasks: map<Id, Task>, order: seq<Id>, clock: Time, k: Id, t: Task, now: Time)
    requires StoreValid(tasks, order, clock) && k in tasks
    requires StoredUnder(k, t, now) && clock <= now
    ensures StoreValid(tasks[k := t], order, now)
  {
  }

  /** Removing a stored record keeps the invariant and shortens the store by one. */
  lemma RemoveKeepsValid(tasks: map<Id, Task>, order: seq<Id>, clock: Time, k: Id)
    requires StoreValid(tasks, order, clock) && k in tasks
    ensures StoreValid(tasks - {k}, Erase(order, k), clock)
    ensures |Erase(order, k)| == |order| - 1
  {
    EraseDistinct(order, k);
  }

  /** The records matching `q`, keyed by id. */
  function Restrict(tasks: map<Id, Task>, q: Query): (m: map<Id, Task>)
    ensures forall k :: k in m <==> k in tasks && Matches(q, tasks[k])
    ensures forall k :: k in m ==> m[k] == tasks[k]
  {
    map k | k in tasks && Matches(q, tasks[k]) :: tasks[k]
  }

  /**
   * Keeping only the records that match `q` keeps the invariant, and the
   * records left, in stored order, are what `find(q)` returns.
   */
  lemma RestrictKeepsValid(tasks: map<Id, Task>, order: seq<Id>, clock: Time, q: Query)
    requires StoreValid(tasks, order, clock)
    ensures StoreValid(Restrict(tasks, q), KeepIds(order, tasks, q), clock)
    ensures InOrder(KeepIds(order, tasks, q), Restrict(tasks, q)) == Where(InOrder(order, tasks), q)
  {
    KeepIdsDistinct(order, tasks, q);
    KeepIdsInOrder(order, tasks, Restrict(tasks, q), q);
  }

  const CreatedMessage := "Todo created successfully"
  const UpdatedMessage := "Todo updated successfully"
  const DeletedOneMessage := "Todo deleted successfully"

  /** The message of a toggle reply: `Todo ${completed ? "completed" : "reopened"}`. */
  function ToggleMessage(completed: bool): string {
    "Todo " + if completed then "completed" else "reopened"
  }

  // ---------------------------------------------------------------------
  // The document work of the write handlers

  /**
   * The document part of POST /: build the document from the body (text
   * trimmed, priority defaulted, a falsy due date as null) and save it at
   * `now`.
   */
  method SaveNew(body: CreateBody, id: Id, now: Time) returns (res: Result<Task, seq<string>>)
    requires !TextMissing(body.text)
    ensures res == Created(body, id, now)
  {
    var dueDate := if body.dueDate.Some? then DueDateValue(body.dueDate.value) else None;
    var doc := new TodoDoc.New(id, Trim(body.text.value), DefaultedPriority(body.priority),
                               body.category, dueDate, now);
    res := doc.Save(now);
  }

  /**
   * The document part of PUT /:id: load the stored record, assign each field
   * the body carries (text trimmed), and save at `now`.
   */
  method SaveUpdate(t: Task, body: UpdateBody, now: Time) returns (res: Result<Task, seq<string>>)
    requires WellFormed(t) && t.lastModified <= now
    ensures res == ApplyUpdate(t, body, now)
  {
    var doc := new TodoDoc.Load(t);
    ApplyBody(doc, t, body);
    res := SaveAssigned(doc, t, body, now);
  }

  /** The save of PUT /:id, on a document that holds the assigned fields. */
  method SaveAssigned(doc: TodoDoc, t: Task, body: UpdateBody, now: Time) returns (res: Result<Task, seq<string>>)
    requires WellFormed(t) && t.lastModified <= now
    requires doc.Valid() && doc.Holds(t, AssignedFields(t, body))
    modifies doc`lastModified, doc`completedAt, doc`completedModified
    ensures res == ApplyUpdate(t, body, now)
  {
    ghost var f := AssignedFields(t, body);
    ghost var errs := doc.Errors();
    assert errs == SchemaErrors(f.text, f.priority, f.category);
    res := doc.Save(now);
    if errs == [] {
      assert doc.id == t.id && doc.text == f.text && doc.completed == f.completed && doc.priority == f.priority;
      assert doc.category == f.category && doc.dueDate == f.dueDate && doc.createdAt == t.createdAt;
    }
  }

  /**
   * The assignments of PUT /:id onto the loaded document: each field the body
   * carries goes through its setter, and the others are left alone.
   */
  method ApplyBody(doc: TodoDoc, t: Task, body: UpdateBody)
    requires doc.Valid() && doc.Holds(t, FieldsOf(t))
    modifies doc`text, doc`completed, doc`priority, doc`category, doc`dueDate, doc`completedModified
    ensures doc.Valid() && doc.Holds(t, AssignedFields(t, body))
  {
    ApplyTextAndCompleted(doc, t, body);
    ApplyRest(doc, t, body);
  }

  /** The `text` and `completed` assignments of PUT /:id. */
  method ApplyTextAndCompleted(doc: TodoDoc, t: Task, body: UpdateBody)
    requires doc.Valid() && doc.Holds(t, FieldsOf(t))
    modifies doc`text, doc`completed, doc`completedModified
    ensures doc.Valid()
    ensures var g := AssignedFields(t, body); doc.Holds(t, FieldsOf(t).(text := g.text, completed := g.completed))
  {
    ghost var g := AssignedFields(t, body);
    if body.text.Some? {
      doc.SetText(Trim(body.text.value));
    }
    assert doc.Holds(t, FieldsOf(t).(text := g.text));
    if body.completed.Some? {
      doc.SetCompleted(body.completed.value);
    }
  }

  /** The `priority`, `category` and `dueDate` assignments of PUT /:id. */
  method ApplyRest(doc: TodoDoc, t: Task, body: UpdateBody)
    requires var g := AssignedFields(t, body);
      doc.Valid() && doc.Holds(t, FieldsOf(t).(text := g.text, completed := g.completed))
    modifies doc`priority, doc`category, doc`dueDate
    ensures doc.Valid() && doc.Holds(t, AssignedFields(t, body))
  {
    ghost var g := AssignedFields(t, body);
    if body.priority.Some? {
      doc.SetPriority(body.priority.value);
    }
    assert doc.Holds(t, g.(category := t.category, dueDate := t.dueDate));
    if body.category.Some? {
      doc.SetCategory(body.category.value);
    }
    assert doc.Holds(t, g.(dueDate := t.dueDate));
    if body.dueDate.Some? {
      doc.SetDueDate(DueDateValue(body.dueDate.value));
    }
  }

  /** The document part of PATCH /:id/toggle: load the stored record and toggle it at `now`; the save cannot fail. */
  method SaveToggle(t: Task, now: Time) returns (u: Task)
    requires WellFormed(t) && t.lastModified <= now
    ensures u == Toggled(t, now)
  {
    var doc := new TodoDoc.Load(t);
    var res := doc.ToggleCompletion(now);
    u := res.value;
  }

  // ---------------------------------------------------------------------
  // The collection

  class Todos {
    var tasks: map<Id, Task>
    var order: seq<Id>
    /** The latest instant any record was saved at. */
    var clock: Time

    /**
     * Every stored id is listed once in `order`, every listed id is stored,
     * and every record is stored under its own id, is well formed, and was
     * saved no later than `clock`.
     */
    ghost predicate Valid()
      reads this
    {
      StoreValid(tasks, order, clock)
    }

    /** The documents of the collection, in stored order. */
    function Stored(): seq<Task>
      reads this
      requires Valid()
    {
      InOrder(order, tasks)
    }

    /** `countDocuments()`: the stored sequence holds one record per stored id. */
    lemma StoredCount()
      requires Valid()
      ensures |Stored()| == |tasks|
    {
      DistinctCard(order);
      assert tasks.Keys == set k | k in order;
    }

    /** An empty collection. */
    constructor()
      ensures Valid() && tasks == map[] && order == [] && clock == 0
    {
      tasks := map[];
      order := [];
      clock := 0;
    }

    /** Store the record `t`, saved at `now`, under the stored id `id`. */
    method Put(id: Id, t: Task, now: Time)
      requires Valid() && id in tasks && StoredUnder(id, t, now) && clock <= now
      modifies this
      ensures Valid() && tasks == old(tasks)[id := t] && order == old(order) && clock == now
    {
      ReplaceKeepsValid(tasks, order, clock, id, t, now);
      tasks := tasks[id := t];
      clock := now;
    }

    /** Take the stored id `id` and its record out of the store. */
    method Remove(id: Id)
      requires Valid() && id in tasks
      modifies this
      ensures Valid() && tasks == old(tasks) - {id} && order == Erase(old(order), id)
      ensures |order| == |old(order)| - 1 && clock == old(clock)
    {
      RemoveKeepsValid(tasks, order, clock, id);
      tasks := tasks - {id};
      order := Erase(order, id);
    }

    /** Keep only the records that match `q`, in their stored order. */
    method Keep(q: Query)
      requires Valid()
      modifies this
      ensures Valid() && tasks == Restrict(old(tasks), q) && order == KeepIds(old(order), old(tasks), q)
      ensures Stored() == Where(old(Stored()), q) && clock == old(clock)
    {
      ghost var before := Stored();
      RestrictKeepsValid(tasks, order, clock, q);
      var kept, restricted := KeepIds(order, tasks, q), Restrict(tasks, q);
      assert InOrder(kept, restricted) == Where(before, q);
      tasks, order := restricted, kept;
      assert Valid();
    }

    /**
     * GET /:id. `findById` casts the id to an ObjectId, so the lookup is by
     * `CanonicalId(id)` and any spelling of a stored id finds its record.
     */
    method Get(id: string) returns (r: Reply<Task>)
      requires Valid()
      ensures !ValidObjectId(id) ==> r == BadId
      ensures ValidObjectId(id) && CanonicalId(id) !in tasks ==> r == NotFound
      ensures ValidObjectId(id) && CanonicalId(id) in tasks ==>
        r == Ok(200, None, tasks[CanonicalId(id)]) && WellFormed(r.data) && r.data.id == CanonicalId(id)
    {
      if !ValidObjectId(id) {
        return BadId;
      }
      var key := CanonicalId(id);
      if key !in tasks {
        return NotFound;
      }
      r := Ok(200, None, tasks[key]);
    }

    /**
     * GET /: the matches of the filter, in the store order `sortBy` selects,
     * paged by `limit` and `page`; with `sortBy=priority` the page is then
     * re-sorted in memory by rank. `total` counts every match, and the page is
     * empty past the end.
     */
    method List(req: ListRequest) returns (r: ListReply)
      requires Valid() && ListRequestOk(req)
      ensures var q := BuildQuery(req.filter, req.priority);
        var matches := Where(Stored(), q);
        var fetched := Fetched(Stored(), req);
        && r.total == |matches|
        && r.count == |r.data| <= LimitFor(req.limit) <= MaxLimit
        && r.page == PageFor(req.page)
        && r.totalPages == CeilDiv(r.total, LimitFor(req.limit))
        && (forall t :: t in r.data ==> t in Stored() && Matches(q, t))
        && (req.filter == Some("active") ==> forall t :: t in r.data ==> !t.completed)
        && (req.filter == Some("completed") ==> forall t :: t in r.data ==> t.completed)
        && (SkipFor(req) >= r.total ==> r.data == [])
        && (req.sortBy == Some("priority") ==>
              && r.data == Sort(PriorityRankDesc, fetched)
              && multiset(r.data) == multiset(fetched)
              && Sorted(PriorityRankDesc, r.data))
        && (req.sortBy != Some("priority") ==> r.data == fetched)
    {
      var q := BuildQuery(req.filter, req.priority);
      var limitNum := LimitFor(req.limit);
      var matches := Where(Stored(), q);
      var todos := Fetched(Stored(), req);
      FetchedSpec(Stored(), req);
      assert |todos| <= limitNum;
      if req.sortBy == Some("priority") {
        todos := RankPage(todos);
      }
      assert |todos| <= limitNum;
      r := ListReply(|todos|, |matches|, PageFor(req.page), CeilDiv(|matches|, limitNum), todos);
    }

    /**
     * POST /, with `newId` the id the store assigns. Blank or missing text is
     * refused before a document is built; otherwise the document is saved at
     * the next instant and, when it validates, added at the end of the store.
     */
    method Create(body: CreateBody, newId: Id) returns (r: Reply<Task>)
      requires Valid() && newId !in tasks && CanonicalId(newId) == newId
      modifies this
      ensures Valid()
      ensures TextMissing(body.text) ==> r == Fail(400, TextRequired, []) && unchanged(this)
      ensures !TextMissing(body.text) && Created(body, newId, old(clock) + 1).Failure? ==>
        && r == Fail(400, ValidationMessage, Created(body, newId, old(clock) + 1).error)
        && unchanged(this)
      ensures !TextMissing(body.text) && Created(body, newId, old(clock) + 1).Success? ==>
        var t := Created(body, newId, old(clock) + 1).value;
        && r == Ok(201, Some(CreatedMessage), t)
        && tasks == old(tasks)[newId := t]
        && order == old(order) + [newId]
        && clock == old(clock) + 1
    {
      if TextMissing(body.text) {
        return Fail(400, TextRequired, []);
      }
      var now := clock + 1;
      var res := SaveNew(body, newId, now);
      CreatedSpec(body, newId, now);
      if res.Failure? {
        return Fail(400, ValidationMessage, res.error);
      }
      var t := res.value;
      AddKeepsValid(tasks, order, clock, newId, t, now);
      tasks := tasks[newId := t];
      order := order + [newId];
      clock := now;
      r := Ok(201, Some(CreatedMessage), t);
    }

    /**
     * PUT /:id: load the record, assign the fields the body carries, and save
     * at the next instant. A bad id or a missing record leaves the store as it
     * was, and so does a rejected save.
     */
    method Update(id: string, body: UpdateBody) returns (r: Reply<Task>)
      requires Valid()
      modifies this
      ensures Valid()
      ensures !ValidObjectId(id) ==> r == BadId && unchanged(this)
      ensures ValidObjectId(id) && CanonicalId(id) !in old(tasks) ==> r == NotFound && unchanged(this)
      ensures ValidObjectId(id) && CanonicalId(id) in old(tasks) ==>
        match ApplyUpdate(old(tasks)[CanonicalId(id)], body, old(clock) + 1)
        case Failure(errs) => r == Fail(400, ValidationMessage, errs) && unchanged(this)
        case Success(t) =>
          && r == Ok(200, Some(UpdatedMessage), t)
          && tasks == old(tasks)[CanonicalId(id) := t]
          && order == old(order)
          && clock == old(clock) + 1
    {
      if !ValidObjectId(id) {
        return BadId;
      }
      var key := CanonicalId(id);
      if key !in tasks {
        return NotFound;
      }
      var now := clock + 1;
      var res := SaveUpdate(tasks[key], body, now);
      if res.Failure? {
        return Fail(400, ValidationMessage, res.error);
      }
      var t := res.value;
      ApplyUpdatePreservesWellFormed(tasks[key], body, now);
      Put(key, t, now);
      r := Ok(200, Some(UpdatedMessage), t);
    }

    /** PATCH /:id/toggle: load the record and save it toggled at the next instant. */
    method Toggle(id: string) returns (r: Reply<Task>)
      requires Valid()
      modifies this
      ensures Valid()
      ensures !ValidObjectId(id) ==> r == BadId && unchanged(this)
      ensures ValidObjectId(id) && CanonicalId(id) !in old(tasks) ==> r == NotFound && unchanged(this)
      ensures ValidObjectId(id) && CanonicalId(id) in old(tasks) ==>
        var t := Toggled(old(tasks)[CanonicalId(id)], old(clock) + 1);
        && r == Ok(200, Some(ToggleMessage(t.completed)), t)
        && tasks == old(tasks)[CanonicalId(id) := t]
        && order == old(order)
        && clock == old(clock) + 1
    {
      if !ValidObjectId(id) {
        return BadId;
      }
      var key := CanonicalId(id);
      if key !in tasks {
        return NotFound;
      }
      var now := clock + 1;
      var t := SaveToggle(tasks[key], now);
      ToggledSpec(tasks[key], now);
      Put(key, t, now);
      r := Ok(200, Some(ToggleMessage(t.completed)), t);
    }

    /**
     * DELETE /:id: remove the record the id casts to; a later lookup of `id`
     * finds nothing. The reply echoes the id as the request spelled it.
     */
    method Delete(id: string) returns (r: Reply<Id>)
      requires Valid()
      modifies this
      ensures Valid()
      ensures !ValidObjectId(id) ==> r == Fail(400, InvalidIdMessage, []) && unchanged(this)
      ensures ValidObjectId(id) && CanonicalId(id) !in old(tasks) ==> r == Fail(404, NotFoundMessage, []) && unchanged(this)
      ensures ValidObjectId(id) && CanonicalId(id) in old(tasks) ==>
        && r == Ok(200, Some(DeletedOneMessage), id)
        && tasks == old(tasks) - {CanonicalId(id)}
        && order == Erase(old(order), CanonicalId(id))
        && |order| == |old(order)| - 1
        && clock == old(clock)
    {
      if !ValidObjectId(id) {
        return Fail(400, InvalidIdMessage, []);
      }
      var key := CanonicalId(id);
      if key !in tasks {
        return Fail(404, NotFoundMessage, []);
      }
      Remove(key);
      r := Ok(200, Some(DeletedOneMessage), id);
    }

    /**
     * DELETE /: remove every completed record. The count reported is the
     * number of completed records there were; what remains is exactly the
     * active records, in their stored order, and none of them is completed.
     */
    method DeleteCompleted() returns (r: DeleteCompletedReply)
      requires Valid()
      modifies this
      ensures Valid()
      ensures r.deletedCount == |GetCompleted(old(Stored()))|
      ensures r.message == DeletedMessage(r.deletedCount)
      ensures Stored() == GetActive(old(Stored()))
      ensures GetCompleted(Stored()) == []
      ensures forall k :: k in tasks <==> k in old(tasks) && !old(tasks)[k].completed
      ensures forall k :: k in tasks ==> tasks[k] == old(tasks)[k]
      ensures clock == old(clock)
    {
      ghost var before := Stored();
      var n := |order|;
      Keep(Query(Some(false), None));
      ActivePlusCompleted(before);
      CompletedOfActive(before);
      var count := n - |order|;
      r := DeleteCompletedReply(DeletedMessage(count), count);
    }

    /**
     * GET /stats/summary: the total, completed and active counts, the
     * rounded completion percentage, and the per-priority breakdown.
     */
    method Summary() returns (st: Stats)
      requires Valid()
      ensures st.total == |tasks|
      ensures st.completed == |GetCompleted(Stored())| && st.active == |GetActive(Stored())|
      ensures st.total == st.active + st.completed
      ensures st.completionRate == CompletionRate(st.completed, st.total) <= 100
      ensures forall p :: Name(p) in st.priorityBreakdown <==> |GetByPriority(Stored(), p)| > 0
      ensures forall p :: Name(p) in st.priorityBreakdown ==>
        st.priorityBreakdown[Name(p)] == |GetByPriority(Stored(), p)|
      ensures forall k :: k in st.priorityBreakdown ==> ParsePriority(k).Some?
      ensures BreakdownSum(st.priorityBreakdown) == st.total
    {
      var all := Stored();
      StoredCount();
      ActivePlusCompleted(all);
      BreakdownOfCollection(all);
      var total := |tasks|;
      var completed := |GetCompleted(all)|;
      var active := |GetActive(all)|;
      st := Stats(total, completed, active, CompletionRate(completed, total),
                  Breakdown(GroupByPriority(all)));
    }
  }
}
