# Named-list store

A Dafny model of the server object of a remote named-list store. The store
keeps a map from string list ids to growable lists of Java `int` values and
answers six calls:

- `append` creates the list on first use and adds a value at its tail.
- `get` reads one element by position. It fails on an unknown id or an index outside the list.
- `remove` takes the tail element off and returns it. It fails on an unknown id or an empty list.
- `size` gives the length of a list, and 0 for an unknown id.
- `listIds` gives every id that has a list.
- `shutdown` does nothing.

The model has four modules:

- `NamedLists` (`named_lists.dfy`) states the store as a value: the `Store` map and one pure
  function per operation. `Append`, `Get` and `Remove` carry contracts that describe their
  results per id; `Contents`, `Size` and `ListIds` are plain definitions used in those contracts.
- `RemoteListStore` (`remote_list_impl.dfy`) is the server object: class `RemoteListImpl`
  with the mutable `lists` field. Its methods are proved against the `NamedLists` functions.
  A thrown `RemoteException` becomes an `Err` result.
- `ListTraces` (`list_traces.dfy`) reasons about sequences of calls, each one atomic step:
  - the LIFO round trip of appends followed by removes;
  - the ids in the store are exactly the ids ever appended to;
  - no append is lost, however calls that reach the store one at a time are interleaved.
- `BasicDemo` (`basic_demo.dfy`) is the console client's basic demonstration, run against the
  class. It first clears the `demo_` lists, then fills them, reads, sizes and removes. Its
  results are proved from the class's contracts, whatever the store held before.

## Model

| member | source | states |
|---|---|---|
| `NamedLists.Append` | src/RemoteListImpl.java:17-21 | the list under the id becomes its previous contents (empty if the id was absent) with the value at the end; its size grows by exactly 1; the id joins `listIds`; every other id's list is unchanged |
| `NamedLists.Get` | src/RemoteListImpl.java:23-30 | succeeds if and only if `0 <= index < size(id)` (so never for an unknown id); on success returns the element at `index`; otherwise the invalid-index-or-missing-list error |
| `NamedLists.Remove` | src/RemoteListImpl.java:32-39 | fails if and only if the size is 0 (unknown or empty list), and then leaves the store unchanged; on success the old list equals the new list plus the returned value at its tail, the size drops by 1, the set of ids is unchanged (the key stays even when emptied), and other lists are unchanged |
| `NamedLists.UnknownId` | src/RemoteListImpl.java:24-45 | an id never created has size 0, while `get` and `remove` on it fail and `remove` leaves the store unchanged |
| `NamedLists.GetAfterAppend` | src/RemoteListImpl.java:17-30 | a `get` at the old size right after `append(id, v)` returns `v` |
| `NamedLists.RemoveAfterAppend` | src/RemoteListImpl.java:17-39 | `remove` right after `append(id, v)` returns `v` and restores the list; the id stays in the store |
| `RemoteListStore.RemoteListImpl.constructor` | src/RemoteListImpl.java:10-14 | a new store holds no list |
| `RemoteListStore.RemoteListImpl.Append` | src/RemoteListImpl.java:17-21 | always returns true; the new map is `NamedLists.Append` of the old one: the id's list gains the value at its tail, the keys gain the id, and other lists are unchanged |
| `RemoteListStore.RemoteListImpl.Get` | src/RemoteListImpl.java:23-30 | returns `NamedLists.Get` of the current map: an element if and only if the id is present and the index is within bounds, that element being the one at `index`; changes nothing |
| `RemoteListStore.RemoteListImpl.Remove` | src/RemoteListImpl.java:32-39 | returns and applies `NamedLists.Remove`: an error, with the map unchanged, exactly when the id is absent or its list is empty; otherwise the old tail, with the list shortened by it, the same keys, and other lists unchanged |
| `RemoteListStore.RemoteListImpl.Size` | src/RemoteListImpl.java:41-45 | the length of the id's list, and 0 for an unknown id; changes nothing |
| `RemoteListStore.RemoteListImpl.ListIds` | src/RemoteListImpl.java:47-50 | exactly the ids present in the map; changes nothing |
| `RemoteListStore.RemoteListImpl.Shutdown` | src/RemoteListImpl.java:52-56 | leaves the map unchanged |
| `ListTraces.ListIdsGrowByAppends` | src/RemoteListImpl.java:17-50 | after any sequence of calls, `listIds` is the earlier set plus the ids appended to: it never shrinks, and only `append` adds to it |
| `ListTraces.ListedIffAppended` | src/RemoteListImpl.java:17-50 | from a new store, an id is listed if and only if some call appended to it; an id never appended to has size 0 |
| `ListTraces.SizeCountsAppends` | src/RemoteListImpl.java:17-45 | with no `remove` on an id, its size grows by exactly the number of appends to it, in any interleaving of one-at-a-time calls on other ids and reads (no lost updates between atomic calls) |
| `ListTraces.AppendAllContents` | src/RemoteListImpl.java:17-21 | appending the values `vs` in order puts `vs` at the tail of the id's list, lists the id (if `vs` is not empty), and leaves other lists unchanged |
| `ListTraces.RemoveTimesTail` | src/RemoteListImpl.java:32-39 | removing `|vs|` times from a list `prefix + vs` returns `vs` reversed and leaves `prefix` under the id |
| `ListTraces.LifoRoundTrip` | src/RemoteListImpl.java:17-39 | N appends followed by N removes return the values in reverse order and restore the list; the id stays listed; for a fresh id the final size is 0 |
| `ListTraces.ReverseAt` | src/RemoteListImpl.java:38 | the reversed sequence used for removal order holds `s[|s| - 1 - k]` at position `k` |
| `BasicDemo.Drain` | src/RemoteListClient.java:91-93 | removing until `size` is 0 leaves the id's list empty (and an unknown id absent) and touches nothing else |
| `BasicDemo.ClearDemoLists` | src/RemoteListClient.java:87-98 | every list whose id starts with `demo_` is emptied; every id and every other list is kept |
| `BasicDemo.AppendEverySecond` | src/RemoteListClient.java:104-107 | appending `first, first + 2, ..., last` extends the id's list by exactly those values in order and changes no other list |
| `BasicDemo.FillDemoLists` | src/RemoteListClient.java:102-114 | from empty demo lists, the store becomes the old one with `demo_pares` holding 2,4,6,8,10 and `demo_impares` holding 1,3,5,7,9, and nothing else changed |
| `BasicDemo.QueryDemoLists` | src/RemoteListClient.java:117-130 | on the filled demo lists, the reads give 2, 6 and 3, both sizes are 5, the removes return 10 and 9, and the store is the old one with both tails taken off |
| `BasicDemo.RunBasicDemo` | src/RemoteListClient.java:83-130 | whatever the store held, the demonstration reads `demo_pares[0] == 2`, `demo_pares[2] == 6` and `demo_impares[1] == 3`; both sizes are 5; `remove` returns 10 and 9; the ids are the old ids plus the two demonstration ids; every other `demo_` list ends empty; lists without the `demo_` prefix are untouched |

## Left out

- Concurrency. Every call is one atomic step. The source uses `ConcurrentHashMap.computeIfAbsent`
  around a plain `ArrayList`, and its atomicity under parallel callers is not modelled.
  `ListTraces.SizeCountsAppends` states "no lost appends" for every sequential interleaving only.
  The source does not guarantee it under parallel calls: after `computeIfAbsent` returns, `.add`
  runs on an unsynchronised `ArrayList`, so parallel appends to one id can be lost or can throw.
- Null list ids. A Dafny `string` cannot be null. In the source a null id makes `append`, `get`,
  `remove` and `size` throw `NullPointerException`, because `ConcurrentHashMap` refuses null
  keys. In particular `size(null)` fails, while the model's `Size` answers 0 for every unknown id.
- RMI plumbing is not modelled: `UnicastRemoteObject`, the transport exceptions, and the registry
  in `src/RemoteListServer.java`. Only the two store failures are modelled, as `Err` results.
- The console logging of `append`, the constructor and `shutdown` is not modelled.
- The order of `listIds`. The source returns hash-map key order, which is unspecified, so the
  model returns a set.
- `RemoteListStore.RemoteListImpl.Size` returns a `nat`, not a 32-bit `int`. An `ArrayList`
  cannot grow past `Integer.MAX_VALUE` elements, and the model does not model that growth limit
  or the out-of-memory failure of `append` at it.
- Each list is a value (`seq`) stored in the map, not a separate `ArrayList` object. No caller can
  reach a list except through the store, so the aliasing of the inner lists is not modelled.
- The periodic persistence that the server and client announce does not exist in the code, so
  it is not modelled.
- The rest of the interactive console client (`src/RemoteListClient.java`) is not modelled: menu,
  parsing, printing, and the persistence and concurrency demonstrations. Only its basic
  demonstration is modelled.
- The load generator `src/ConcurrentTestClient.java` (thread pool, `Random`, sleeps, deadline,
  throughput, the integrity pass) is not modelled, because it is about concurrency and timing.
- `BasicDemo.AppendEverySecond` requires `first <= last < 0x7fff_fffe`. The client's loops only
  use constant bounds that satisfy it. The upper bound excludes the 32-bit overflow of `i += 2`,
  on which the Java loop would never end.
