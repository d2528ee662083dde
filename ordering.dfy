/**
 * Orders on tasks: the four sort specifications the list route hands to the
 * store, and the in-memory priority comparator it re-sorts a page with.
 * Every order compares a two-part key, larger first; `Sort` is a stable
 * insertion sort by such an order, proved to sort and to permute.
 */
module Ordering {
  import opened TodoModel

  /** `priorityOrder` of the list route: high = 3, medium = 2, low = 1. */
  function Rank(p: Priority): int {
    match p
    case High => 3
    case Medium => 2
    case Low => 1
  }

  /**
   * The position of a priority's name among "high" < "low" < "medium":
   * the order the store sorts the stored strings in.
   */
  function NameRank(p: Priority): int {
    match p
    case High => 0
    case Low => 1
    case Medium => 2
  }

  /** Strict lexicographic order on strings, by code point. */
  predicate LexLess(a: string, b: string) {
    if a == [] then b != []
    else if b == [] then false
    else a[0] < b[0] || (a[0] == b[0] && LexLess(a[1..], b[1..]))
  }

  lemma {:induction false} LexLessIrreflexive(a: string)
    ensures !LexLess(a, a)
  {
    if a != [] {
      LexLessIrreflexive(a[1..]);
    }
  }

  /** `NameRank` is the lexicographic order of the priority names. */
  lemma NameRankIsLexOrder(p: Priority, q: Priority)
    ensures NameRank(p) < NameRank(q) <==> LexLess(Name(p), Name(q))
  {
    if p == q {
      LexLessIrreflexive(Name(p));
    } else {
      assert Name(p)[0] != Name(q)[0];
    }
  }

  datatype Order =
    | CreatedDesc       // { createdAt: -1 }
    | CreatedAsc        // { createdAt: 1 }
    | LastModifiedDesc  // { lastModified: -1 }
    | PriorityNameDesc  // { priority: -1, createdAt: -1 }, as the store compares strings
    | PriorityRankDesc  // the in-memory comparator: rank descending, then createdAt descending

  datatype Key = Key(major: int, minor: int)

  function KeyOf(o: Order, t: Task): Key {
    match o
    case CreatedDesc => Key(t.createdAt, 0)
    case CreatedAsc => Key(0 - t.createdAt as int, 0)
    case LastModifiedDesc => Key(t.lastModified, 0)
    case PriorityNameDesc => Key(NameRank(t.priority), t.createdAt)
    case PriorityRankDesc => Key(Rank(t.priority), t.createdAt)
  }

  /** `x` goes strictly before `y` under `o`: its key is lexicographically larger. */
  predicate Before(o: Order, x: Task, y: Task) {
    var kx, ky := KeyOf(o, x), KeyOf(o, y);
    kx.major > ky.major || (kx.major == ky.major && kx.minor > ky.minor)
  }

  /**
   * The in-memory comparator of the list route: `x` goes first when its rank
   * is higher, or when the ranks tie and it was created later.
   */
  lemma RankOrderIsComparator(x: Task, y: Task)
    ensures Before(PriorityRankDesc, x, y) <==>
      Rank(x.priority) > Rank(y.priority)
      || (Rank(x.priority) == Rank(y.priority) && x.createdAt > y.createdAt)
  {
  }

  /** No later element of `s` goes strictly before an earlier one. */
  ghost predicate Sorted(o: Order, s: seq<Task>) {
    forall i, j :: 0 <= i < j < |s| ==> !Before(o, s[j], s[i])
  }

  /** Insert `x` after every element it does not go strictly before (so after its ties). */
  function Insert(o: Order, s: seq<Task>, x: Task): seq<Task> {
    if s == [] then [x]
    else if Before(o, x, s[|s| - 1]) then Insert(o, s[..|s| - 1], x) + [s[|s| - 1]]
    else s + [x]
  }

  /** Stable insertion sort, taking the elements from left to right. */
  function Sort(o: Order, s: seq<Task>): seq<Task> {
    if s == [] then [] else Insert(o, Sort(o, s[..|s| - 1]), s[|s| - 1])
  }

  /** Inserting into a prefix of `s` that ends with an element `x` goes before moves one step left. */
  lemma InsertStepLeft(o: Order, s: seq<Task>, j: nat, x: Task)
    requires 0 < j <= |s| && Before(o, x, s[j - 1])
    ensures Insert(o, s[..j], x) + s[j..] == Insert(o, s[..j - 1], x) + s[j - 1..]
  {
    assert s[..j][..j - 1] == s[..j - 1];
    assert s[j - 1..] == [s[j - 1]] + s[j..];
  }

  /** Inserting stops in front of the first element, or after one `x` does not go before. */
  lemma InsertStops(o: Order, s: seq<Task>, x: Task)
    requires s == [] || !Before(o, x, s[|s| - 1])
    ensures Insert(o, s, x) == s + [x]
  {
  }

  /** "Not strictly before" is transitive. */
  lemma NotBeforeTransitive(o: Order, a: Task, b: Task, c: Task)
    requires !Before(o, a, b) && !Before(o, b, c)
    ensures !Before(o, a, c)
  {
  }

  lemma {:induction false} InsertPermutes(o: Order, s: seq<Task>, x: Task)
    ensures multiset(Insert(o, s, x)) == multiset(s) + multiset{x}
  {
    if s != [] && Before(o, x, s[|s| - 1]) {
      var init := s[..|s| - 1];
      InsertPermutes(o, init, x);
      assert s == init + [s[|s| - 1]];
    }
  }

  lemma {:induction false} InsertSorted(o: Order, s: seq<Task>, x: Task)
    requires Sorted(o, s)
    ensures Sorted(o, Insert(o, s, x))
  {
    if s == [] {
    } else if Before(o, x, s[|s| - 1]) {
      var init, last := s[..|s| - 1], s[|s| - 1];
      assert Sorted(o, init);
      InsertSorted(o, init, x);
      InsertPermutes(o, init, x);
      var u := Insert(o, init, x);
      forall k | 0 <= k < |u| ensures !Before(o, last, u[k]) {
        assert u[k] in multiset(u);
        if u[k] in init {
          var i :| 0 <= i < |init| && init[i] == u[k];
          assert s[i] == u[k];
        }
      }
      var r := u + [last];
      forall i, j | 0 <= i < j < |r| ensures !Before(o, r[j], r[i]) {
        if j < |u| {
          assert r[i] == u[i] && r[j] == u[j];
        } else {
          assert r[i] == u[i];
        }
      }
    } else {
      var last := s[|s| - 1];
      var r := s + [x];
      forall i, j | 0 <= i < j < |r| ensures !Before(o, r[j], r[i]) {
        if j == |s| && i < |s| - 1 {
          NotBeforeTransitive(o, x, last, s[i]);
        }
      }
    }
  }

  /** The elements of `s` whose key under `o` is `k`, in their order in `s`. */
  function WithKey(o: Order, s: seq<Task>, k: Key): seq<Task> {
    if s == [] then []
    else WithKey(o, s[..|s| - 1], k) + (if KeyOf(o, s[|s| - 1]) == k then [s[|s| - 1]] else [])
  }

  lemma {:induction false} WithKeyAppend(o: Order, a: seq<Task>, b: seq<Task>, k: Key)
    ensures WithKey(o, a + b, k) == WithKey(o, a, k) + WithKey(o, b, k)
    decreases |b|
  {
    if b == [] {
      assert a + b == a;
    } else {
      WithKeyAppend(o, a, b[..|b| - 1], k);
      assert (a + b)[..|a + b| - 1] == a + b[..|b| - 1];
    }
  }

  /**
   * Inserting `x` adds it behind every element with the same key: it only
   * passes elements it goes strictly before, whose keys are smaller.
   */
  lemma {:induction false} InsertKeepsTies(o: Order, s: seq<Task>, x: Task, k: Key)
    ensures WithKey(o, Insert(o, s, x), k) == WithKey(o, s, k) + WithKey(o, [x], k)
  {
    if s == [] {
      WithKeyOne(o, x, k);
    } else if Before(o, x, s[|s| - 1]) {
      var init, last := s[..|s| - 1], s[|s| - 1];
      var wi, wx, wl := WithKey(o, init, k), WithKey(o, [x], k), WithKey(o, [last], k);
      InsertKeepsTies(o, init, x, k);
      WithKeyAppend(o, Insert(o, init, x), [last], k);
      WithKeyOne(o, x, k);
      WithKeyOne(o, last, k);
      assert WithKey(o, Insert(o, s, x), k) == wi + wx + wl;
      assert WithKey(o, s, k) == wi + wl;
      assert wx == [] || wl == [];
    } else {
      WithKeyAppend(o, s, [x], k);
    }
  }

  lemma WithKeyOne(o: Order, x: Task, k: Key)
    ensures WithKey(o, [x], k) == if KeyOf(o, x) == k then [x] else []
  {
    assert [x][..0] == [];
  }

  /**
   * `Sort` is stable: for every key, the elements with that key appear in
   * the result in the same order as in the input.
   */
  lemma {:induction false} SortStable(o: Order, s: seq<Task>, k: Key)
    ensures WithKey(o, Sort(o, s), k) == WithKey(o, s, k)
  {
    if s != [] {
      var init, last := s[..|s| - 1], s[|s| - 1];
      SortStable(o, init, k);
      InsertKeepsTies(o, Sort(o, init), last, k);
      WithKeyAppend(o, init, [last], k);
      assert s == init + [last];
    }
  }

  /** `Sort` returns a permutation of its input in which no element goes before an earlier one. */
  lemma {:induction false} SortSpec(o: Order, s: seq<Task>)
    ensures multiset(Sort(o, s)) == multiset(s)
    ensures Sorted(o, Sort(o, s))
    ensures |Sort(o, s)| == |s|
  {
    if s != [] {
      var init, last := s[..|s| - 1], s[|s| - 1];
      SortSpec(o, init);
      InsertPermutes(o, Sort(o, init), last);
      InsertSorted(o, Sort(o, init), last);
      assert s == init + [last];
    }
  }
}
