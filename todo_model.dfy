/**
 * The Todo model: the schema's field constraints and defaults, the stored
 * task record, the `pre("save")` hook, `toggleCompletion`, and the three
 * static queries `getByPriority`, `getCompleted` and `getActive`.
 *
 * A stored task is a `Task` value. A Mongoose document, which the route
 * handlers load, assign fields on and save, is a `TodoDoc` object.
 */
module TodoModel {
  import opened Wrappers
  import opened JsText

  /** A document identifier (an ObjectId in its 24-hex-digit string form). */
  type Id = string

  /** A reading of the server clock; only the order of readings matters. */
  type Time = nat

  datatype Priority = Low | Medium | High

  /** The string a priority is stored and sent as. */
  function Name(p: Priority): string {
    match p
    case Low => "low"
    case Medium => "medium"
    case High => "high"
  }

  /** Distinct priorities have distinct names. */
  lemma NameInjective(p: Priority, q: Priority)
    ensures Name(p) == Name(q) ==> p == q
  {
  }

  /** The schema's enum check on a priority string. */
  function ParsePriority(s: string): (r: Option<Priority>)
    ensures forall p: Priority :: r == Some(p) <==> Name(p) == s
  {
    if s == "low" then Some(Low)
    else if s == "medium" then Some(Medium)
    else if s == "high" then Some(High)
    else None
  }

  const DefaultPriority := "medium"
  const MaxTextLength := 500
  const MaxCategoryLength := 50

  const TextRequired := "Todo text is required"
  const TextTooShort := "Todo text must be at least 1 character long"
  const TextTooLong := "Todo text cannot exceed 500 characters"
  const PriorityInvalid := "Priority must be low, medium, or high"
  const CategoryTooLong := "Category cannot exceed 50 characters"

  /**
   * The validators of the `text` path, in the order Mongoose runs them
   * (required first); only the first failing one is reported.
   */
  function TextError(text: string): Option<string> {
    if text == "" then Some(TextRequired)
    else if |text| < 1 then Some(TextTooShort)
    else if |text| > MaxTextLength then Some(TextTooLong)
    else None
  }

  function PriorityError(priority: string): Option<string> {
    if ParsePriority(priority).None? then Some(PriorityInvalid) else None
  }

  /** An absent category is not validated. */
  function CategoryError(category: Option<string>): Option<string> {
    if category.Some? && |category.value| > MaxCategoryLength then Some(CategoryTooLong) else None
  }

  function Messages(e: Option<string>): seq<string> {
    if e.Some? then [e.value] else []
  }

  /** The constraints a document's fields must meet for a save to go through. */
  predicate FieldsValid(text: string, priority: string, category: Option<string>) {
    && 1 <= |text| <= MaxTextLength
    && ParsePriority(priority).Some?
    && (category.Some? ==> |category.value| <= MaxCategoryLength)
  }

  /**
   * The messages of a `ValidationError`: one per failing path, in schema
   * order. Each message is reported exactly when its constraint is violated,
   * and there is none exactly when the fields are valid.
   */
  function SchemaErrors(text: string, priority: string, category: Option<string>): (errs: seq<string>)
    ensures errs == [] <==> FieldsValid(text, priority, category)
    ensures TextRequired in errs <==> text == ""
    ensures TextTooShort !in errs
    ensures TextTooLong in errs <==> |text| > MaxTextLength
    ensures PriorityInvalid in errs <==> ParsePriority(priority).None?
    ensures CategoryTooLong in errs <==> category.Some? && |category.value| > MaxCategoryLength
  {
    Messages(TextError(text)) + Messages(PriorityError(priority)) + Messages(CategoryError(category))
  }

  /** A persisted task. */
  datatype Task = Task(
    id: Id,
    text: string,
    completed: bool,
    priority: Priority,
    category: Option<string>,
    dueDate: Option<int>,
    createdAt: Time,
    completedAt: Option<Time>,
    lastModified: Time)

  /** `completedAt` is set exactly when the task is completed. */
  predicate CompletionSettled(completed: bool, completedAt: Option<Time>) {
    completedAt.Some? <==> completed
  }

  /** What every stored task satisfies. */
  predicate WellFormed(t: Task) {
    && IsTrimmed(t.text) && 1 <= |t.text| <= MaxTextLength
    && (t.category.Some? ==> IsTrimmed(t.category.value) && |t.category.value| <= MaxCategoryLength)
    && CompletionSettled(t.completed, t.completedAt)
    && t.createdAt <= t.lastModified
    && (t.completedAt.Some? ==> t.createdAt <= t.completedAt.value <= t.lastModified)
  }

  /**
   * The completion clause of the `pre("save")` hook: `completedAt` after a
   * save at `now`, given whether `completed` was modified since the load.
   */
  function SavedCompletedAt(completedModified: bool, completed: bool, completedAt: Option<Time>, now: Time): Option<Time> {
    if completedModified then
      if completed && completedAt.None? then Some(now)
      else if !completed then None
      else completedAt
    else completedAt
  }

  /**
   * The three cases of the hook: completing stamps `now` unless a completion
   * time is already there, reopening clears it, and an untouched `completed`
   * leaves it alone.
   */
  lemma SavedCompletedAtCases(completedModified: bool, completed: bool, completedAt: Option<Time>, now: Time)
    ensures var r := SavedCompletedAt(completedModified, completed, completedAt, now);
      && (completedModified && completed && completedAt.None? ==> r == Some(now))
      && (completedModified && completed && completedAt.Some? ==> r == completedAt)
      && (completedModified && !completed ==> r == None)
      && (!completedModified ==> r == completedAt)
  {
  }

  /**
   * The hook restores "`completedAt` set iff `completed`" whenever the field
   * was modified, and keeps it when it held and `completed` was not touched.
   */
  lemma SaveSettlesCompletion(completedModified: bool, completed: bool, completedAt: Option<Time>, now: Time)
    requires completedModified || CompletionSettled(completed, completedAt)
    ensures CompletionSettled(completed, SavedCompletedAt(completedModified, completed, completedAt, now))
  {
  }

  /** The record `toggleCompletion` saves at `now`. */
  function Toggled(t: Task, now: Time): Task {
    var completed := !t.completed;
    t.(completed := completed,
       completedAt := if completed then Some(now) else None,
       lastModified := now)
  }

  /**
   * Toggling negates `completed`, stamps or clears `completedAt` to match,
   * refreshes `lastModified`, touches nothing else, and keeps a stored task
   * well formed.
   */
  lemma ToggledSpec(t: Task, now: Time)
    requires WellFormed(t) && t.lastModified <= now
    ensures var u := Toggled(t, now);
      && u.completed == !t.completed
      && u.completedAt == (if u.completed then Some(now) else None)
      && u.lastModified == now
      && u.(completed := t.completed, completedAt := t.completedAt, lastModified := t.lastModified) == t
      && WellFormed(u)
  {
  }

  /**
   * Toggling twice restores `completed` and whether `completedAt` is set,
   * while `lastModified` increases both times.
   */
  lemma ToggleTwice(t: Task, now1: Time, now2: Time)
    requires WellFormed(t) && t.lastModified < now1 < now2
    ensures var once := Toggled(t, now1); var twice := Toggled(once, now2);
      && twice.completed == t.completed
      && twice.completedAt.Some? == t.completedAt.Some?
      && t.lastModified < once.lastModified < twice.lastModified
      && WellFormed(twice)
  {
    ToggledSpec(t, now1);
    ToggledSpec(Toggled(t, now1), now2);
  }

  /** An equality filter of `find` / `countDocuments`: `{ completed?, priority? }`. */
  datatype Query = Query(completed: Option<bool>, priority: Option<Priority>)

  predicate Matches(q: Query, t: Task) {
    && (q.completed.Some? ==> t.completed == q.completed.value)
    && (q.priority.Some? ==> t.priority == q.priority.value)
  }

  /**
   * `find(q)` over a collection whose documents are `s`, in stored order:
   * each matching task is kept as often as it occurs, and nothing else.
   */
  function Where(s: seq<Task>, q: Query): (r: seq<Task>)
    ensures |r| <= |s|
    ensures forall t :: t in r <==> t in s && Matches(q, t)
  {
    if s == [] then []
    else
      assert s == [s[0]] + s[1..];
      (if Matches(q, s[0]) then [s[0]] else []) + Where(s[1..], q)
  }

  /** `find` keeps every matching task as often as it occurs, and nothing else. */
  lemma {:induction false} WhereMultiset(s: seq<Task>, q: Query)
    ensures forall t :: multiset(Where(s, q))[t] == if Matches(q, t) then multiset(s)[t] else 0
  {
    if s != [] {
      WhereMultiset(s[1..], q);
      assert s == [s[0]] + s[1..];
    }
  }

  /** The empty filter `{}` keeps the whole collection, in order. */
  lemma {:induction false} WhereNoFilter(s: seq<Task>)
    ensures Where(s, Query(None, None)) == s
  {
    if s != [] {
      WhereNoFilter(s[1..]);
      assert s == [s[0]] + s[1..];
    }
  }

  /** `Todo.getByPriority(p)`: exactly the tasks of priority `p`. */
  function GetByPriority(s: seq<Task>, p: Priority): (r: seq<Task>)
    ensures forall t :: t in r <==> t in s && t.priority == p
  {
    Where(s, Query(None, Some(p)))
  }

  /** `Todo.getCompleted()`: exactly the completed tasks. */
  function GetCompleted(s: seq<Task>): (r: seq<Task>)
    ensures forall t :: t in r <==> t in s && t.completed
  {
    Where(s, Query(Some(true), None))
  }

  /** `Todo.getActive()`: exactly the tasks not completed. */
  function GetActive(s: seq<Task>): (r: seq<Task>)
    ensures forall t :: t in r <==> t in s && !t.completed
  {
    Where(s, Query(Some(false), None))
  }

  /** `find` keeps or drops the first document and proceeds with the rest. */
  lemma WhereLength(s: seq<Task>, q: Query)
    requires s != []
    ensures |Where(s, q)| == (if Matches(q, s[0]) then 1 else 0) + |Where(s[1..], q)|
  {
  }

  /** No active task is completed: filtering the active tasks for completed ones leaves nothing. */
  lemma CompletedOfActive(s: seq<Task>)
    ensures GetCompleted(GetActive(s)) == []
  {
    var r := GetCompleted(GetActive(s));
    WhereMultiset(s, Query(Some(false), None));
    WhereMultiset(GetActive(s), Query(Some(true), None));
    assert multiset(r) == multiset{};
  }

  /** Every task is either active or completed, so the two counts add up. */
  lemma {:induction false} ActivePlusCompleted(s: seq<Task>)
    ensures |GetActive(s)| + |GetCompleted(s)| == |s|
  {
    if s != [] {
      ActivePlusCompleted(s[1..]);
      WhereLength(s, Query(Some(false), None));
      WhereLength(s, Query(Some(true), None));
    }
  }

  /** Every task has exactly one of the three priorities. */
  lemma {:induction false} PriorityCountsAddUp(s: seq<Task>)
    ensures |GetByPriority(s, Low)| + |GetByPriority(s, Medium)| + |GetByPriority(s, High)| == |s|
  {
    if s != [] {
      PriorityCountsAddUp(s[1..]);
      WhereLength(s, Query(None, Some(Low)));
      WhereLength(s, Query(None, Some(Medium)));
      WhereLength(s, Query(None, Some(High)));
    }
  }

  /** The fields a request may assign on a document, with the priority still a string. */
  datatype Fields = Fields(
    text: string,
    completed: bool,
    priority: string,
    category: Option<string>,
    dueDate: Option<int>)

  /** The assignable fields of a stored record. */
  function FieldsOf(t: Task): Fields {
    Fields(t.text, t.completed, Name(t.priority), t.category, t.dueDate)
  }

  /**
   * A Mongoose document of the Todo model, as the route handlers use it:
   * built with `new Todo({...})` or loaded by `findById`, then assigned
   * through the schema's setters and saved.
   */
  class TodoDoc {
    var id: Id
    var text: string
    var completed: bool
    var priority: string
    var category: Option<string>
    var dueDate: Option<int>
    var createdAt: Time
    var completedAt: Option<Time>
    var lastModified: Time
    /** `isModified("completed")`: `completed` was assigned a different value since the load. */
    var completedModified: bool

    /**
     * The trim setters have run on the string fields, and `completedAt`
     * matches `completed` unless `completed` was changed since the load.
     */
    ghost predicate Valid()
      reads this
    {
      && IsTrimmed(text)
      && (category.Some? ==> IsTrimmed(category.value))
      && (completedModified || CompletionSettled(completed, completedAt))
      && createdAt <= lastModified
      && (completedAt.Some? ==> createdAt <= completedAt.value)
    }

    /** No timestamp on the document is later than `now`. */
    ghost predicate NotAfter(now: Time)
      reads this
    {
      createdAt <= now && lastModified <= now && (completedAt.Some? ==> completedAt.value <= now)
    }

    /**
     * The document was loaded from `t` and its assignable fields now hold
     * `f`; the other fields are those of `t`, and `completed` counts as
     * modified exactly when it differs from `t`'s.
     */
    ghost predicate Holds(t: Task, f: Fields)
      reads this
    {
      && id == t.id && createdAt == t.createdAt
      && completedAt == t.completedAt && lastModified == t.lastModified
      && text == f.text && completed == f.completed && priority == f.priority
      && category == f.category && dueDate == f.dueDate
      && completedModified == (f.completed != t.completed)
    }

    /** The messages `validate` would report for the current fields. */
    function Errors(): seq<string>
      reads this
    {
      SchemaErrors(text, priority, category)
    }

    /** The record a successful save persists. */
    function Record(): Task
      reads this
      requires ParsePriority(priority).Some?
    {
      Task(id, text, completed, ParsePriority(priority).value, category, dueDate,
           createdAt, completedAt, lastModified)
    }

    /**
     * `new Todo({ text, priority, category, dueDate })` at time `now`: the
     * trim setters run on `text` and `category`, and the schema defaults give
     * `completed = false`, `completedAt = null` and both timestamps `now`.
     */
    constructor New(id: Id, text: string, priority: string, category: Option<string>,
                    dueDate: Option<int>, now: Time)
      ensures Valid() && NotAfter(now)
      ensures this.id == id && this.text == Trim(text) && this.priority == priority
      ensures this.category == (if category.Some? then Some(Trim(category.value)) else None)
      ensures this.dueDate == dueDate
      ensures !completed && completedAt == None && !completedModified
      ensures createdAt == now && lastModified == now
    {
      TrimIsTrimmed(text);
      if category.Some? {
        TrimIsTrimmed(category.value);
      }
      this.id := id;
      this.text := Trim(text);
      this.completed := false;
      this.priority := priority;
      this.category := if category.Some? then Some(Trim(category.value)) else None;
      this.dueDate := dueDate;
      this.createdAt := now;
      this.completedAt := None;
      this.lastModified := now;
      this.completedModified := false;
      new;
      assert IsTrimmed(this.text);
    }

    /** `findById`: a document holding the stored record `t`, with nothing modified. */
    constructor Load(t: Task)
      requires WellFormed(t)
      ensures Valid() && Holds(t, FieldsOf(t))
      ensures ParsePriority(priority).Some? && Record() == t
      ensures Errors() == []
    {
      id := t.id;
      text := t.text;
      completed := t.completed;
      priority := Name(t.priority);
      category := t.category;
      dueDate := t.dueDate;
      createdAt := t.createdAt;
      completedAt := t.completedAt;
      lastModified := t.lastModified;
      completedModified := false;
    }

    /** `doc.text = s`, through the schema's trim setter. */
    method SetText(s: string)
      requires Valid()
      modifies this`text
      ensures Valid() && text == Trim(s)
    {
      TrimIsTrimmed(s);
      text := Trim(s);
      assert IsTrimmed(text);
    }

    /** `doc.completed = b`; only a change of value marks the path modified. */
    method SetCompleted(b: bool)
      requires Valid()
      modifies this`completed, this`completedModified
      ensures Valid() && completed == b
      ensures completedModified == (old(completedModified) || b != old(completed))
    {
      if b != completed {
        completed := b;
        completedModified := true;
      }
    }

    /** `doc.priority = s`; the enum is checked on save, not here. */
    method SetPriority(s: string)
      requires Valid()
      modifies this`priority
      ensures Valid() && priority == s
    {
      priority := s;
    }

    /** `doc.category = s`, through the schema's trim setter. */
    method SetCategory(s: string)
      requires Valid()
      modifies this`category
      ensures Valid() && category == Some(Trim(s))
    {
      TrimIsTrimmed(s);
      category := Some(Trim(s));
      assert IsTrimmed(category.value);
    }

    /** `doc.dueDate = d`, where `None` is `null`. */
    method SetDueDate(d: Option<int>)
      requires Valid()
      modifies this`dueDate
      ensures Valid() && dueDate == d
    {
      dueDate := d;
    }

    /**
     * `save()` at time `now`. Validation runs first: on any violation the save
     * is rejected with every message and the document is left as it was.
     * Otherwise the `pre("save")` hook sets `lastModified` to `now` and fixes
     * `completedAt`, the modified flag is cleared, and the saved record is
     * returned; it is well formed.
     */
    method Save(now: Time) returns (res: Result<Task, seq<string>>)
      requires Valid() && NotAfter(now)
      modifies this`lastModified, this`completedAt, this`completedModified
      ensures Valid() && NotAfter(now)
      ensures old(Errors()) != [] ==> res == Failure(old(Errors())) && unchanged(this)
      ensures old(Errors()) == [] ==>
        && lastModified == now
        && completedAt == SavedCompletedAt(old(completedModified), completed, old(completedAt), now)
        && !completedModified
        && ParsePriority(priority).Some?
        && res == Success(Record())
        && WellFormed(res.value)
    {
      var errs := Errors();
      if errs != [] {
        return Failure(errs);
      }
      SaveSettlesCompletion(completedModified, completed, completedAt, now);
      lastModified := now;
      if completedModified {
        if completed && completedAt.None? {
          completedAt := Some(now);
        } else if !completed {
          completedAt := None;
        }
      }
      completedModified := false;
      res := Success(Record());
    }

    /**
     * `toggleCompletion()` at time `now`: negate `completed`, stamp or clear
     * `completedAt` accordingly, then save. On a document with valid fields
     * the save succeeds and stores the toggled record.
     */
    method ToggleCompletion(now: Time) returns (res: Result<Task, seq<string>>)
      requires Valid() && NotAfter(now)
      modifies this`completed, this`completedAt, this`lastModified, this`completedModified
      ensures Valid() && NotAfter(now)
      ensures completed == !old(completed)
      ensures completedAt == (if completed then Some(now) else None)
      ensures old(Errors()) == [] ==> lastModified == now && res == Success(Record())
      ensures old(Errors()) != [] ==> res == Failure(old(Errors()))
    {
      completed := !completed;
      completedModified := true;
      if completed {
        completedAt := Some(now);
      } else {
        completedAt := None;
      }
      res := Save(now);
    }
  }
}
