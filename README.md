# FileDB mutation engine in Dafny

A model of the core of FileDB (`lib/file_db.rb`), a single-file key-value
store with versioned records, compare-and-swap / compare-and-delete, and
named namespaces. The store file holds one JSON document: root keys map to
records `{'v' => value, 'i' => version}`, and the reserved root key
`_namespaces` maps each namespace name to its own key -> record map.

The model has these modules:

- `Documents` (documents.dfy): the document shape, lookup, the `||=`
  namespace creation, record insertion and deletion, and the well-formedness
  invariant (no record under the reserved key, every version at least 1).
- `Engine` (engine.dfy): the bodies of the four mutation lambdas (`set`,
  `compare_and_swap`, `del`, `compare_and_delete`), `key_check`,
  `compare_check`, `new_state`, and `Commit`. `Commit` stands for
  `rw_unmarshal`, which rewrites the file only when the block returns.
- `Properties` (properties.dfy): lemmas over several calls. They cover the
  version rule, isolation of spaces, the namespace quirks and preservation
  of the invariant.
- `Reads` (reads.dfy): `one` and `all`.
- `Facade` (facade.dfy): the public mutation calls. This covers the
  `prev_node` dispatch, `key_check` before anything is built, and
  `wait_or_queue`, all as the pure function `Call`.
- `Writer` (writer.dfy): the writer thread's loop as a sequential FIFO
  fold. Its lemmas cover FIFO composition, dropped errors, agreement with a
  reference replay, and when the writer can abort.
- `FileStore` (store.dfy): class `Store`. Its fields are the file's
  document, the reader's cached copy `@db` and the write queue. Its methods
  are `init`/`ensure_db`, `flush`, one refresher turn, the writer drain, the
  four mutation calls and `get`.

The model follows the code, including these behaviours that a reader of the API might not expect:

- `del`/`compare_and_delete` test `namespace.empty?`, which looks at the
  namespace NAME, not at its map. So a namespace emptied by its last delete
  stays in the document as `{}`. The namespace named `""` is dropped whole
  after any delete in it, even when other keys remain. Testing the map,
  with `d[NS_KEY][namespace].empty?`, would have removed exactly the
  emptied namespaces.
- `compare_and_swap` given a `prev_node` for a key that is not stored does
  not raise CompareAndSwap. `compare_check` evaluates `p['i']` on `nil`,
  which raises NoMethodError (`Error.Crash`). A waiting call raises it to
  its caller. The writer thread does not rescue it, so the thread dies;
  because `abort_on_exception` is set, the error is raised again in the
  main thread and the process ends. It is not reported as the version
  conflict (CompareAndSwap) that a stale `prev_node` gets.
- Versions are not kept across a delete: setting a key again after a
  delete starts at version 1 once more, so a version number can be reused
  for the same key.
- The writer does not survive an unexpected error: any error other than
  NotFound, CompareAndSwap and CompareAndDelete ends it, and nothing queued
  behind it runs.
- `||=` stores an empty namespace map in the in-memory document even when
  the mutation then fails. That copy is never written back (`Step.doc`
  against `Commit`), and no lookup can tell it apart from a missing
  namespace (`Documents.Touch`).

## Model

| member | source | states |
|---|---|---|
| `Documents.Lookup` | lib/file_db.rb:123 | a lookup finds a record exactly when the key is stored in the space, and then finds that record; a namespace that is not in the index holds nothing |
| `Documents.Touch` | lib/file_db.rb:123 | creating the namespace on lookup adds at most one empty namespace map, keeps root and every existing namespace, and changes no space as any lookup sees it |
| `Documents.Put` | lib/file_db.rb:195 | after the assignment the key holds the new record; every other (space, key) pair reads as before; a root write keeps the namespace index; a namespace write keeps the root and every other entry of the namespace index, empty ones included |
| `Documents.Remove` | lib/file_db.rb:231-236 | the key reads as absent; no other lookup gains or changes a record; for a namespace delete, the root and every other entry of the namespace index, empty ones included, stay as they were; a root delete keeps the namespace index; other keys of the same space are untouched unless the namespace is named ""; namespace "" is dropped; any other emptied namespace stays |
| `Documents.SkeletonEmpty` | lib/file_db.rb:89-95 | the `{ NS_KEY => {} }` skeleton is well formed and every space of it is empty |
| `Documents.TouchKeepsWf` | lib/file_db.rb:123 | the namespace creation neither makes nor breaks a well-formed document |
| `Engine.KeyCheck` | lib/file_db.rb:176-178 | InvalidKey is raised exactly when the key is the reserved `_namespaces` |
| `Engine.CompareCheck` | lib/file_db.rb:170-173 | passes iff no `prev_node` is given or its version equals the stored one; otherwise raises the given error, or NoMethodError when nothing is stored |
| `Engine.NewState` | lib/file_db.rb:114-120 | the state has the given action; `node` and `prev_node` are present exactly when their records are, each carrying that record's version and value under the key |
| `Engine.NextVersion` | lib/file_db.rb:193 | a key not yet stored gets version 1; a stored key gets exactly one more than its stored version; the result is at least 1 whenever the stored version is |
| `Engine.RunSet` | lib/file_db.rb:188-198 | always succeeds with action set; a first write stores version 1 and no `prev_node`; a later write stores the old version + 1 and returns the old record as `prev_node`; `node` is the stored record; every other (space, key) is unchanged |
| `Engine.RunCas` | lib/file_db.rb:204-215 | NoMethodError iff a `prev_node` is given and nothing is stored; CompareAndSwap iff a stored version differs from `prev_node`'s; succeeds iff no `prev_node` is given or it matches the stored version; on success it is exactly `set` with action compare_and_swap; on failure only the namespace creation is applied |
| `Engine.RunDel` | lib/file_db.rb:225-239 | NotFound iff the key is absent, with only the namespace creation applied; on success returns no `node` and the old record as `prev_node`, and the document is the key's removal |
| `Engine.RunCad` | lib/file_db.rb:245-260 | absent key gives NotFound whatever `prev_node` is; CompareAndDelete iff the key is present and `prev_node`'s version differs; succeeds iff present and matching or no `prev_node`; on success it is exactly `del` with action compare_and_delete |
| `Engine.Run` | lib/file_db.rb:181-262 | no queued operation raises InvalidKey; NoMethodError only for compare-and-swap with `prev_node` on an absent key; a failure leaves only the namespace creation; root operations keep the namespace index after the namespace creation; namespace operations keep the root and every other entry of the namespace index, empty ones included; no other space reads differently |
| `Engine.Commit` | lib/file_db.rb:147-157 | the file takes the block's document only when the block returns; when it raises, the file keeps its old document |
| `Properties.SetTwiceVersions` | test/test_file_db.rb:33-44 | two sets of a fresh key store versions 1 then 2, and the second returns version 1 as `prev_node` |
| `Properties.SameSpaceOtherKeys` | lib/file_db.rb:192-195 | a mutation changes no other key of its own space, except a delete in the namespace named "" |
| `Properties.SpacesIsolated` | lib/file_db.rb:123-124 | a root mutation leaves the namespace index as it was; a namespace mutation leaves the root and every other entry of the namespace index as they were, empty ones included; no other space reads differently |
| `Properties.NamespaceSetHiddenFromRoot` | test/test_file_db.rb:13-18 | after a namespace set, a root lookup of the same key still finds nothing while the namespace lookup finds the record |
| `Properties.EmptiedNamespacePersists` | lib/file_db.rb:231-233 | deleting the only key of a namespace whose name is not "" leaves that namespace in the index as an empty map |
| `Properties.EmptyNamedNamespaceDropped` | lib/file_db.rb:231-233 | a successful delete in namespace "" removes the namespace and every other key in it |
| `Properties.DeleteThenSetRestartsVersion` | lib/file_db.rb:192-193 | a set after a successful delete of the key stores version 1 again |
| `Properties.RunPreservesWf` | lib/file_db.rb:187-196 | an operation on a key that passed `key_check` keeps the document free of records under the reserved key and with every version at least 1 |
| `Reads.One` | lib/file_db.rb:122-126 | NotFound iff the key is absent in the space; otherwise a get state whose node is the stored record and with no `prev_node` |
| `Reads.All` | lib/file_db.rb:129-136 | returns exactly one get state per key of the space other than the reserved key, each key once, each carrying its stored record; as many states as such keys |
| `Reads.ListsCount` | test/test_file_db.rb:20-31 | an exact listing has as many states as the space has user keys |
| `Facade.Prepare` | lib/file_db.rb:181-187 | InvalidKey iff the key is reserved, before any operation exists; the operation keeps the key, space, value and `prev_node`; set/del become CAS/CAD exactly when a `prev_node` is given |
| `Facade.Call` | lib/file_db.rb:160-167 | the reserved key raises InvalidKey with file and queue unchanged whatever `wait` is; without `wait` the operation is appended to the queue and `true` returned; with `wait` it runs and the file is rewritten only on success; any raised error leaves file and queue unchanged |
| `Facade.PrevNodeDispatch` | lib/file_db.rb:219-223 | `set` with a `prev_node` is `compare_and_swap`, and `del` with one is `compare_and_delete` |
| `Facade.SetThenGet` | lib/file_db.rb:188-197 | a waiting set of an absent key returns version 1 and no `prev_node`, and the file then holds the value at version 1 |
| `Facade.CurrentPrevNodeSucceeds` | lib/file_db.rb:182-186 | a waiting set carrying the stored record's current node succeeds as compare_and_swap, returns that node as `prev_node`, stores its version + 1 and leaves the queue alone |
| `Facade.StalePrevNodeRaises` | test/test_file_db.rb:51-78 | after two sets, a set or del carrying the first node raises CompareAndSwap or CompareAndDelete and leaves the file as the second set left it |
| `Writer.Advance` | lib/file_db.rb:60-65 | one writer turn stops exactly when the operation raises NoMethodError; otherwise the writer goes on from the document the operation commits, the old one when a rescued error was raised |
| `Writer.DrainResult` | lib/file_db.rb:58-68 | an empty queue leaves the document as it is; an abort leaves queued a strict suffix of the queue |
| `Writer.CrashStopsDrain` | lib/file_db.rb:60-68 | an operation raising NoMethodError, which the `rescue` does not name, stops the writer at once, with the document unchanged and every operation behind it still queued |
| `Writer.AbortKeepsEarlierWrites` | lib/file_db.rb:58-68 | on an abort, the operations before the remaining suffix drain to the end and leave exactly the aborted document, and the one right before the suffix raises NoMethodError on it, so the queued rest is exactly what follows the raising operation and its own write never lands |
| `Writer.DrainAppend` | lib/file_db.rb:58-66 | draining `q1 + q2` is draining `q1`, then `q2` from the resulting document; if `q1` aborts, `q2` stays queued behind what was left |
| `Writer.SwallowedOpDropped` | lib/file_db.rb:61-65 | an operation ending in NotFound, CompareAndSwap or CompareAndDelete is dropped: the document stays as it was and the rest of the queue runs |
| `Writer.DrainedIsReplay` | lib/file_db.rb:60-62 | a drain that reaches the end leaves exactly the document of applying every queued operation in FIFO order, failed ones changing nothing |
| `Writer.DrainWithoutBlindCas` | lib/file_db.rb:63-68 | a queue with no compare-and-swap carrying a `prev_node` always drains to the end without aborting the writer |
| `Writer.DrainPreservesWf` | lib/file_db.rb:58-66 | draining key-checked operations keeps a well-formed document well formed |
| `FileStore.Store.Init` | lib/file_db.rb:24-44 | an empty file gets the skeleton, otherwise its document is loaded; the cache starts as that document and the queue empty; the store invariant holds |
| `FileStore.Store.Flush` | lib/file_db.rb:89-95 | the file becomes the skeleton, every space empty; the result is the byte count of the skeleton's JSON; queue and cache untouched |
| `FileStore.Store.Refresh` | lib/file_db.rb:47-51 | the cache becomes the file's document |
| `FileStore.Store.Drain` | lib/file_db.rb:58-70 | file, queue and the crash flag end as the FIFO fold `DrainResult` describes; the invariant is kept |
| `FileStore.Store.Submit` | lib/file_db.rb:160-167 | file, queue and reply are those of `Call` |
| `FileStore.Store.Set` | lib/file_db.rb:181-200 | the call `set` as `Call` describes it |
| `FileStore.Store.CompareAndSwap` | lib/file_db.rb:202-217 | the call `compare_and_swap` as `Call` describes it |
| `FileStore.Store.Del` | lib/file_db.rb:219-241 | the call `del` as `Call` describes it |
| `FileStore.Store.CompareAndDelete` | lib/file_db.rb:243-262 | the call `compare_and_delete` as `Call` describes it |
| `FileStore.Store.Get` | lib/file_db.rb:101-112 | a waiting get drains the queue and reads the file, replying NoMethodError if the writer aborted; a non-waiting get reads the cache, whose namespace creation is kept; one key gives `one`, no key an exact listing of the space |
| `FileStore.FlushThenList` | lib/file_db.rb:89-136 | after `flush` with nothing queued, a waiting root listing is empty: the skeleton holds only the namespace index, which `all` skips |

## Left out

- File I/O and locking (`File.open`, `flock`, `rewind`, `truncate`, `full_path`): the store file is a `Document` value, replaced atomically.
- JSON `marshal`/`unmarshal`: assumed to round-trip exactly. Only the skeleton's JSON text is kept, because `flush` returns its byte count.
- Documents that did not come from this store: a missing `_namespaces` key, records that are not `{'v', 'i'}` objects, a `nil` record, a non-integer version. In Ruby these raise or behave differently; the model's `Document` cannot express them.
- `FileStore.Store.Init`: asks that a loaded document be well formed (no record under the reserved key, every version at least 1). Every document this store writes is well formed; a hand-made file that is not belongs to the line above.
- JSON values are modelled without floating-point numbers; values are never inspected, so this changes nothing.
- Threads and timing: the reader's 100 ms loop, the mutex around `@db`, thread spawning. `Refresh` and `Drain` are one reader turn and one writer run, called explicitly.
- `FileStore.Store.Get`: the busy wait `until @queue.empty?` is modelled as the writer draining the queue. The writer aborting is modelled as the reply NoMethodError, not as the process ending.
- The ordering between `wait: true` writes and writes still queued: it only exists when threads interleave.
- `Reads.All`: does not fix the order of the listing, because a Dafny map has no insertion order. Ruby lists keys in the order they were first inserted.
- At the root, the model keeps records and the namespace index apart. For mutations this changes nothing, because `Facade.Prepare` never builds an operation on the reserved key. Reads differ, as the next two lines say.
- `Reads.One`: a root read of the reserved key `_namespaces` replies NotFound. In Ruby `d['_namespaces']` is the namespace index, a hash and therefore truthy, so `one` returns a get state whose node is built from that hash (its version is the namespace named `i` and its value the namespace named `v`, normally both nil). The model's typed records cannot hold that node.
- `FileStore.Store.Get`: inherits the difference above for `get(key: '_namespaces')` without a namespace; the model replies NotFound where Ruby returns the node built from the namespace index.
- `FileStore.Store.Drain`: after an abort, the next `Drain` or waiting `Get` goes on with the rest of the queue. In Ruby the writer thread is dead, and with `abort_on_exception` the process ends, so nothing runs after it.
- `VERSION` and the test harness setup.
