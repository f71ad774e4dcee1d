/**
 The in-memory task store of package `task`: a map from integer IDs to tasks
 together with the package-level counter `count` that hands out new IDs.

 The Go code keeps `count` in a global variable and the map in a value passed
 around by the caller; here both live in one immutable `Store`, and every
 operation returns the new store together with the `error` it reports. File
 access is reduced to its outcome, given as an argument: `FileRead` for
 loading, `WriteResult` for the rewrite that follows each mutation. Go's `int`
 is taken to be 64 bits wide.
 */
module TaskStore {
  import opened Wrappers
  import Decimal

  const MinInt: int := -0x8000_0000_0000_0000
  const MaxInt: int := 0x7fff_ffff_ffff_ffff

  /** Go's `int` on a 64-bit platform. */
  type Int64 = x: int | MinInt <= x <= MaxInt

  /** Task identifiers (`type ID = int`). */
  type Id = Int64

  /**
   A `time.Time` value, opaque: it carries an instant, a location and possibly
   a monotonic reading, and the store only copies and compares it.
   */
  type Timestamp(==)

  datatype Task = Task(description: string, status: string, createdate: Timestamp, updatedate: Timestamp)

  /** The `Tasks` map type. */
  type Tasks = map<Id, Task>

  /** The map the caller owns together with the package counter. */
  datatype Store = Store(tasks: Tasks, count: Int64)

  /** What an operation leaves behind: the new store and the error (None for `nil`). */
  datatype Outcome = Outcome(store: Store, err: Option<string>)

  /** Status given to every new task. */
  const Pending: string := "Pending"

  /** ID freshness: the counter is at least every key, so `count + 1` is unused. */
  predicate CountCoversKeys(s: Store) {
    forall id :: id in s.tasks ==> id <= s.count
  }

  // ---------------------------------------------------------------------------
  // Construction

  /** `NewTasks`: a fresh, empty map. */
  function NewTasks(): (t: Tasks)
    ensures |t| == 0
  {
    map[]
  }

  /** The state at program start: an empty map and `count` at its initial 0. */
  function InitialStore(): (s: Store)
    ensures s.tasks == NewTasks() && s.count == 0
    ensures CountCoversKeys(s)
  {
    Store(NewTasks(), 0)
  }

  // ---------------------------------------------------------------------------
  // Loading

  /** The largest of `c` and the elements of `ks`. */
  ghost function MaxOf(c: Id, ks: set<Id>): (r: Id)
    ensures r >= c
    ensures forall j :: j in ks ==> j <= r
    ensures r == c || r in ks
    decreases ks
  {
    if ks == {} then c
    else
      var k :| k in ks;
      var m := MaxOf(c, ks - {k});
      assert forall j :: j in ks ==> j == k || j in ks - {k};
      if k > m then k else m
  }

  /** The three properties of `MaxOf` determine it. */
  lemma MaxOfUnique(c: Id, ks: set<Id>, m: Id)
    requires m >= c
    requires forall k :: k in ks ==> k <= m
    requires m == c || m in ks
    ensures m == MaxOf(c, ks)
  {
  }

  /**
   The loop after a successful decode: every key larger than `count` raises it.
   Keys are visited in an arbitrary order, as Go's map iteration is unordered.
   */
  method RaiseCount(count: Int64, tasks: Tasks) returns (c: Int64)
    ensures c == MaxOf(count, tasks.Keys)
  {
    c := count;
    var rest := tasks.Keys;
    while rest != {}
      invariant rest <= tasks.Keys
      invariant c >= count
      invariant forall id :: id in tasks && id !in rest ==> id <= c
      invariant c == count || c in tasks
      decreases rest
    {
      var id :| id in rest;
      if id > c {
        c := id;
      }
      rest := rest - {id};
    }
    MaxOfUnique(count, tasks.Keys, c);
  }

  /**
   What reading the task file yields. `Unreadable` is a failed open or stat,
   `EmptyFile` a file of size 0. A JSON object is merged by the decoder into
   the caller's map, which may already hold some of its entries when the
   decoder reports an error, so `Decoded` and `DecodeFailed` carry the map as
   the decoder left it. A JSON `null` only resets `LoadTasks`'s own copy of the
   map variable: the caller's map is untouched and the key loop sees no keys.
   */
  datatype FileRead =
    | Unreadable(reason: string)
    | EmptyFile
    | DecodeFailed(left: Tasks, reason: string)
    | DecodedNull
    | Decoded(merged: Tasks)

  /** `LoadTasks`. */
  ghost function LoadTasks(s: Store, file: FileRead): (r: Outcome)
    ensures file.Unreadable? ==> r == Outcome(s, Some(file.reason))
    ensures file.EmptyFile? || file.DecodedNull? ==> r == Outcome(s, None)
    ensures file.DecodeFailed? ==> r == Outcome(Store(file.left, s.count), Some(file.reason))
    ensures file.Decoded? ==>
              && r.err == None
              && r.store.tasks == file.merged
              && r.store.count >= s.count
              && CountCoversKeys(r.store)
              && (r.store.count == s.count || r.store.count in file.merged)
  {
    match file
    case Unreadable(reason) => Outcome(s, Some(reason))
    case EmptyFile => Outcome(s, None)
    case DecodedNull => Outcome(s, None)
    case DecodeFailed(left, reason) => Outcome(Store(left, s.count), Some(reason))
    case Decoded(merged) => Outcome(Store(merged, MaxOf(s.count, merged.Keys)), None)
  }

  /** Loading an empty file into a fresh store succeeds and leaves it empty. */
  lemma LoadEmptyIntoFresh()
    ensures LoadTasks(InitialStore(), EmptyFile) == Outcome(InitialStore(), None)
    ensures |LoadTasks(InitialStore(), EmptyFile).store.tasks| == 0
  {
  }

  /**
   Decoding a JSON object establishes freshness from any state; an empty file
   or a JSON `null` keeps it when it already held.
   */
  lemma LoadKeepsOrEstablishesInvariant(s: Store, file: FileRead)
    requires file.Decoded? || ((file.EmptyFile? || file.DecodedNull?) && CountCoversKeys(s))
    ensures LoadTasks(s, file).err == None
    ensures CountCoversKeys(LoadTasks(s, file).store)
    ensures LoadTasks(s, file).store.count >= s.count
  {
  }

  /**
   A successful load does not establish freshness by itself: a map filled
   without the counter, loaded with a file holding `null`, stays uncovered.
   */
  lemma LoadNullKeepsUncoveredKey(t: Task)
    ensures var s := Store(map[5 := t], 0);
            && LoadTasks(s, DecodedNull) == Outcome(s, None)
            && !CountCoversKeys(LoadTasks(s, DecodedNull).store)
  {
    var s := Store(map[5 := t], 0);
    assert 5 in s.tasks && 5 > s.count;
  }

  // ---------------------------------------------------------------------------
  // Mutation

  /** `count++` on a 64-bit int: two's-complement wrap-around at the top. */
  function Increment(c: Int64): (r: Int64)
    ensures c < MaxInt ==> r == c + 1
    ensures c == MaxInt ==> r == MinInt
  {
    (c + 1 - MinInt) % 0x1_0000_0000_0000_0000 + MinInt
  }

  /** Outcome of truncating and re-encoding the whole map into the task file. */
  datatype WriteResult = Written | OpenFailed(reason: string) | EncodeFailed(reason: string)

  /** The error a mutation reports for the file rewrite. */
  function WriteError(w: WriteResult): (e: Option<string>)
    ensures e == None <==> w == Written
  {
    match w
    case Written => None
    case OpenFailed(reason) => Some("error opening json file: " + reason)
    case EncodeFailed(reason) => Some("error writing task to JSON: " + reason)
  }

  /**
   `AddTask`: the counter is incremented and a pending task stored under its
   new value, both before the file is opened; `now` is the one `NowFunc()`
   reading, used for both timestamps.
   */
  function AddTask(s: Store, description: string, now: Timestamp, write: WriteResult): (r: Outcome)
    ensures r.store.count == Increment(s.count)
    ensures r.store.tasks.Keys == s.tasks.Keys + {r.store.count}
    ensures r.store.tasks[r.store.count] == Task(description, Pending, now, now)
    ensures forall id :: id in s.tasks && id != r.store.count ==> r.store.tasks[id] == s.tasks[id]
    ensures r.err == WriteError(write)
  {
    var id := Increment(s.count);
    Outcome(Store(s.tasks[id := Task(description, Pending, now, now)], id), WriteError(write))
  }

  /** The error for deleting an absent ID; the ID can be read back from it. */
  function NotFoundMessage(id: Id): (m: string)
    ensures |m| > 23
    ensures m[..13] == "task with ID " && m[|m| - 10..] == " not found"
    ensures Decimal.ParseInt(m[13..|m| - 10]) == Some(id)
  {
    var digits := Decimal.IntToString(id);
    var m := "task with ID " + digits + " not found";
    assert m[13..|m| - 10] == digits;
    Decimal.IntToStringRoundTrip(id);
    m
  }

  /** The not-found message names the ID it was built from. */
  lemma NotFoundMessageInjective(a: Id, b: Id)
    ensures NotFoundMessage(a) == NotFoundMessage(b) ==> a == b
  {
  }

  /**
   `DeleteTask`: an absent ID is reported and nothing changes; otherwise the
   entry is removed before the file is opened. `count` is never touched.
   */
  function DeleteTask(s: Store, id: Id, write: WriteResult): (r: Outcome)
    ensures id !in s.tasks ==> r == Outcome(s, Some(NotFoundMessage(id)))
    ensures id in s.tasks ==>
              && r.store.count == s.count
              && r.store.tasks.Keys == s.tasks.Keys - {id}
              && |r.store.tasks| == |s.tasks| - 1
              && (forall k :: k in r.store.tasks ==> r.store.tasks[k] == s.tasks[k])
              && r.err == WriteError(write)
  {
    if id !in s.tasks then Outcome(s, Some(NotFoundMessage(id)))
    else Outcome(Store(s.tasks - {id}, s.count), WriteError(write))
  }

  // ---------------------------------------------------------------------------
  // Properties of the mutators

  /**
   With the counter covering every key and below the top of the range, the ID
   `AddTask` uses is fresh: the map grows by exactly one entry, nothing earlier
   changes, and the invariant holds again.
   */
  lemma AddTaskFresh(s: Store, description: string, now: Timestamp, write: WriteResult)
    requires CountCoversKeys(s)
    requires s.count < MaxInt
    ensures var r := AddTask(s, description, now, write).store;
            && r.count == s.count + 1
            && r.count !in s.tasks
            && |r.tasks| == |s.tasks| + 1
            && (forall id :: id in s.tasks ==> id in r.tasks && r.tasks[id] == s.tasks[id])
            && CountCoversKeys(r)
  {
  }

  /**
   The bound on the counter is needed: after loading keys MaxInt and MinInt
   into a fresh store, `count` sits at MaxInt, and the next `AddTask` wraps to
   MinInt and overwrites that task.
   */
  lemma AddTaskOverwritesAfterWrap(t1: Task, t2: Task, description: string, now: Timestamp, write: WriteResult)
    requires t2 != Task(description, Pending, now, now)
    ensures var loaded := LoadTasks(InitialStore(), Decoded(map[MaxInt := t1, MinInt := t2])).store;
            var r := AddTask(loaded, description, now, write).store;
            && CountCoversKeys(loaded)
            && loaded.count == MaxInt
            && r.count == MinInt
            && MinInt in loaded.tasks
            && |r.tasks| == |loaded.tasks|
            && r.tasks[MinInt] != loaded.tasks[MinInt]
            && !CountCoversKeys(r)
  {
    var merged: Tasks := map[MaxInt := t1, MinInt := t2];
    assert merged.Keys == {MaxInt, MinInt};
    var loaded := LoadTasks(InitialStore(), Decoded(merged)).store;
    assert loaded.count == MaxInt;
    var r := AddTask(loaded, description, now, write).store;
    assert r.tasks.Keys == {MaxInt, MinInt};
    assert MaxInt in r.tasks && MaxInt > r.count;
  }

  /** Adding to a fresh store stores exactly one pending task, under ID 1. */
  lemma AddToFreshStore(description: string, now: Timestamp, write: WriteResult)
    ensures AddTask(InitialStore(), description, now, write).store.tasks == map[1 := Task(description, Pending, now, now)]
    ensures |AddTask(InitialStore(), description, now, write).store.tasks| == 1
  {
  }

  /** Deleting never breaks freshness, since `count` stays and keys only disappear. */
  lemma DeleteTaskKeepsInvariant(s: Store, id: Id, write: WriteResult)
    requires CountCoversKeys(s)
    ensures CountCoversKeys(DeleteTask(s, id, write).store)
    ensures DeleteTask(s, id, write).store.count == s.count
  {
  }

  /**
   Both mutators change memory before the file is opened: the new store is the
   same whatever the rewrite does, and only the error differs.
   */
  lemma AddTaskMemoryIndependentOfWrite(s: Store, description: string, now: Timestamp, w1: WriteResult, w2: WriteResult)
    ensures AddTask(s, description, now, w1).store == AddTask(s, description, now, w2).store
    ensures AddTask(s, description, now, w1).err == None <==> w1 == Written
  {
  }

  lemma DeleteTaskMemoryIndependentOfWrite(s: Store, id: Id, w1: WriteResult, w2: WriteResult)
    ensures DeleteTask(s, id, w1).store == DeleteTask(s, id, w2).store
    ensures DeleteTask(s, id, w1).err == None <==> id in s.tasks && w1 == Written
  {
  }
}
