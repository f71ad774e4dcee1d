# Task store of a command-line task tracker, in Dafny

The program keeps a task list in a JSON file. Package `task` holds it in memory
as a map from integer IDs to tasks (`Tasks`), next to a package-level counter
`count` that hands out IDs. Four operations act on the pair:

- `LoadTasks` leaves everything alone on an empty file. After decoding a JSON
  object it sets `count` to the maximum of its old value and every loaded key.
- `AddTask` increments `count` and stores a `"Pending"` task under the new value.
- `DeleteTask` removes a present ID, or reports `task with ID <id> not found`.
- `ListTasks` writes one line per entry.

The model is a small state machine. The state is `TaskStore.Store(tasks, count)`.
Every transition returns an `Outcome`: the new store plus the error it reports
(`None` stands for Go's `nil`). The central invariant is `CountCoversKeys`: the
counter is at least every key. The lemmas show four things:

- Loading a JSON object establishes the invariant.
- Adds and deletes preserve it.
- An add therefore never overwrites a task.
- A deleted ID is never issued again within a process (`Freshness`).

The invariant is not automatic. A caller can fill the map directly without
touching the counter, as the package's own tests do. So it appears as a
hypothesis wherever it is needed.

Both mutators change memory before they open the file. Each takes the outcome
of the file rewrite as an argument (`WriteResult`). The lemmas show that the new
store does not depend on that outcome; only the error does.

Go's `int` is taken to be 64 bits. `count++` wraps from the largest to the
smallest value (`TaskStore.Increment`). So the freshness results also need the
counter to be below the top of the range. `AddTaskOverwritesAfterWrap` shows
that this condition cannot be dropped. Loading keys 2^63-1 and -2^63 into a
fresh store puts `count` at 2^63-1. The next add then wraps and overwrites the
task stored under -2^63.

Modules:

- `Wrappers`: `Option`.
- `Decimal`: what `%v` prints for an `int`, with its inverse.
- `TaskStore`: data model, the four store operations, single-step properties.
- `Freshness`: runs of adds and deletes.
- `Listing`: `ListTasks` and its line format.

Outside inputs become arguments:

- The result of reading the file (`FileRead`).
- The result of rewriting it (`WriteResult`).
- The single `NowFunc()` reading (`now`).
- The RFC 3339 formatter (`rfc3339: Timestamp -> string`).

Map iteration order is arbitrary. `ListTasks` picks keys with `:|`, and its
contract says only that it writes the lines of some enumeration of the keys.
`ListingDeterminedUpToOrder` proves that every enumeration yields the same
multiset of lines.

A few behaviours of the program that the model keeps:

- A new task's status is always `"Pending"`.
- After a load the counter is the maximum of its old value and the loaded keys,
  so a load never lowers it.
- A file holding JSON `null` decodes without error but leaves the caller's map
  and the counter as they were. `LoadNullKeepsUncoveredKey` shows that such a
  load does not establish the invariant for a map filled directly.
- The counter is one package-level variable. The model keeps one counter with
  each map in `Store`, which is the same thing as long as the process uses a
  single map.

## Model

| member | source | states |
|---|---|---|
| TaskStore.NewTasks | pkg/task/task.go:32-35 | a new task map is empty |
| TaskStore.InitialStore | pkg/task/task.go:15-16 | at start the map is empty, the counter is 0, and the freshness invariant holds |
| TaskStore.MaxOf | pkg/task/task.go:61-66 | the counter after loading is at least its old value and at least every loaded key, and equals one of them |
| TaskStore.MaxOfUnique | pkg/task/task.go:61-66 | those three properties determine the raised counter, whatever order the keys are visited in |
| TaskStore.RaiseCount | pkg/task/task.go:62-66 | the key loop, over keys in any order, leaves the counter at the maximum of its old value and all keys |
| TaskStore.LoadTasks | pkg/task/task.go:38-70 | an open/stat failure is returned with nothing changed; an empty file or a JSON `null` succeeds with nothing changed; a decode failure is returned with the counter unchanged; decoding a JSON object never lowers the counter, leaves it at least every key, and sets it to its old value or to one of the keys |
| TaskStore.LoadEmptyIntoFresh | pkg/task/task_test.go:30-41 | loading an empty file into a fresh store succeeds and leaves zero tasks |
| TaskStore.LoadKeepsOrEstablishesInvariant | pkg/task/task.go:50-66 | decoding a JSON object establishes freshness from any state; an empty file or a JSON `null` keeps it when it held; none lowers the counter |
| TaskStore.LoadNullKeepsUncoveredKey | pkg/task/task.go:55-66 | a JSON `null` loaded into a map filled without the counter succeeds, changes nothing, and leaves a key above the counter |
| TaskStore.Increment | pkg/task/task.go:75 | `count++` adds one below the top of the 64-bit range and wraps to the minimum at the top |
| TaskStore.WriteError | pkg/task/task.go:83-93 | a mutation reports an error from its file rewrite exactly when the rewrite fails |
| TaskStore.AddTask | pkg/task/task.go:73-97 | the counter advances by one step; the key set gains exactly the new counter value; that key holds a Pending task with the given description and both dates equal to `now`; other entries are untouched; the error is that of the rewrite |
| TaskStore.AddTaskFresh | pkg/task/task.go:75-81 | with the invariant and no wrap, the new key was absent, the map grows by one, every earlier entry keeps its value, and the invariant holds again |
| TaskStore.AddTaskOverwritesAfterWrap | pkg/task/task.go:62-81 | a store reachable by loading keys 2^63-1 and -2^63 satisfies the invariant, yet the next add wraps onto -2^63, replaces that task, leaves the size unchanged and breaks the invariant |
| TaskStore.AddToFreshStore | pkg/task/task_test.go:81-102 | adding to a fresh store yields exactly one task, under ID 1, Pending, with the given description |
| TaskStore.NotFoundMessage | pkg/task/task.go:114 | the not-found error reads `task with ID `, then the ID, which parses back, then ` not found` |
| TaskStore.NotFoundMessageInjective | pkg/task/task.go:113-115 | the not-found message names its ID: different IDs give different messages |
| TaskStore.DeleteTask | pkg/task/task.go:112-131 | an absent ID returns the not-found message and leaves the store exactly as it was; a present ID is removed alone, the map shrinks by one, other entries and the counter are unchanged, and the error is that of the rewrite |
| TaskStore.DeleteTaskKeepsInvariant | pkg/task/task.go:117 | deleting never breaks freshness and never changes the counter |
| TaskStore.AddTaskMemoryIndependentOfWrite | pkg/task/task.go:74-93 | the store after an add is the same whatever the file rewrite does; the add reports no error exactly when the rewrite succeeds |
| TaskStore.DeleteTaskMemoryIndependentOfWrite | pkg/task/task.go:113-129 | the store after a delete is the same whatever the file rewrite does; no error is reported exactly when the ID is present and the rewrite succeeds |
| Decimal.IntToString | pkg/task/task.go:114 | `%v` of an int is a non-empty string of digits, with a leading '-' exactly for negatives and no leading zero except for 0 itself |
| Decimal.IntToStringRoundTrip | pkg/task/task.go:102 | reading back the printed ID gives the ID |
| Freshness.RunKeepsInvariant | pkg/task/task.go:73-131 | any run of adds and deletes that cannot reach the wrap keeps freshness and moves the counter up by at most one per command |
| Freshness.IssuedIncreasing | pkg/task/task.go:75-76 | IDs issued in a run are strictly increasing and above the starting counter |
| Freshness.AddInRunIsFresh | pkg/task/task.go:75-76 | every add in such a run uses a key absent from the map at that point and grows the map by one |
| Freshness.DeletedIdNeverReissued | pkg/task/task.go:112-117 | an ID that was present and is deleted is never issued by any later add in the run |
| Listing.ListTasks | pkg/task/task.go:100-109 | the output is the concatenation of one line per key, for an order that lists every key exactly once; `kind` has no influence |
| Listing.LineTail | pkg/task/task.go:102-103 | after the ID a line continues with the description, status and creation time fields, starting at a ',' and ending with a newline |
| Listing.Line | pkg/task/task.go:102-103 | each line begins with `ID: ` and the entry's ID, which can be read back, and ends with a newline |
| Listing.LinesDistinct | pkg/task/task.go:101-103 | lines of different entries differ, so each entry appears exactly once |
| Listing.InListing | pkg/task/task.go:101-103 | a line is in the listing exactly when some entry renders to it |
| Listing.ListingDeterminedUpToOrder | pkg/task/task.go:101 | any two iteration orders write the same multiset of lines |
| Listing.ListSingleTask | pkg/task/task_test.go:53-76 | the single task under ID 1 lists as `ID: 1, Description: <d>, Status: <s>, CreatedAt: <rfc3339>` and a newline |

## Left out

- File I/O (`os.OpenFile`, `Stat`, `Truncate`, `Seek`, `Close`) is reduced to its outcome. That outcome is an argument of each operation. `LoadTasks` creating a missing file is not modelled.
- JSON encoding and decoding are library behaviour, so the map as the decoder leaves it is an argument. This covers merging into the existing map and partial filling before a type error. Because of this, the round trip between saving and loading is not stated.
- Time: `NowFunc` is the `now` argument. `Timestamp` is an opaque type with equality, so its instant, location and monotonic reading are not modelled. RFC 3339 rendering (section 5.6 of RFC 3339) is a function argument. The model does not state how timestamps are truncated in the file.
- Log and print output (`log.Println`, `log.Printf`, the `fmt.Printf` reporting the new ID) are not modelled.
- Listing.ListTasks: a writer error that stops the listing early is not modelled. The output is the full text that a writer that never fails would receive.
- TaskStore.LoadTasks: the loaded map is taken as given, so its keys are not tied to the file contents.
- TaskStore.Store: a nil `Tasks` (the zero value of the map type) is not modelled; the store always holds a real map. On a nil map the program behaves differently in two ways. `LoadTasks` decoding a JSON object allocates a new map only in its own local variable, so the caller keeps the nil map while `count` is still raised to the decoded keys. `AddTask` panics when it stores the new task. The program itself always passes a map from `NewTasks`.
- TaskStore.Store: the counter is a field of each store, but in the program one package-level `count` serves every map in the process. The model does not cover several maps used in one process, as the package's tests do when each subtest builds a new map, where one map's adds and loads move the counter the others see.
- The ID width is fixed at 64 bits. A 32-bit platform, where Go's `int` wraps at 2^31, is not modelled.
- The verb dispatcher in pkg/cli/cli.go is not modelled. It is a bare map write plus a call that ignores the map, and its tests exercise functions that file does not define.
- taskCLI.go and taskCLI_test.go are an older list-based variant that does not compile, so they are not modelled.
- main.go only wires the store to the dispatcher, so it is not modelled.
