# Reactive cells and a "no index" query, in Dafny

This project models the small reactive data layer behind a Rust-versus-Node
benchmark and proves properties of it.

- `reactive.dfy` (module `Reactive`) models `src/main.ts`. `Row` is a mutable
  source cell with a listener list. `ToLowercase` is a memoizing node whose
  cache is empty or holds the lowercase of its input's value.
  `makeToLowercase` wires a node as a listener of its input. `NoIndex.runQuery`
  pulls every producer in order and collects the positions whose value equals
  the target. A row's `set` marks each listener dirty (push). A node
  recomputes only when `getCurrent` finds its cache empty (pull).
- `row_scan.dfy` (module `RowScan`) models `src/main.rs`. Rows sit in cells
  that are overwritten in place, and `run_query` enumerates them, pushing each
  matching position.
- `positions.dfy` (module `Positions`) holds what both queries share. A
  strictly ascending list of positions is fixed by its elements. So the
  queries' contracts (in range, ascending, "i is in the result exactly when
  row i matches") determine the result completely.

How the TypeScript types are represented:

- The `ValueProducer` interface becomes the datatype
  `Producer = Source(Row) | Transform(ToLowercase)`.
- Calls through the interface go through `GetCurrentOf` and `AddListenerTo`.
- Only `ToLowercase` implements `Listener`, so a row's listener list is a
  `seq<ToLowercase>`.
- A ghost log `Row.notified` records every `setDirty` call a row makes, in
  order.
- A node's input may itself be a node. Each node has a ghost `depth` above
  its input. `WellFormed(p)` says the input chain below `p` reaches a row.
  The constructor establishes it, since an input always exists before the
  node built over it.
- `Current(p)` is the value `getCurrent` on `p` returns in the current state.
- `ToLowercase.Wired()` is the invariant `makeToLowercase` sets up over a
  row. The node is registered with the row, and its cache is empty or equals
  `Lower(row.data)`, so it is never stale. `Row.Set`, `ToLowercase.SetDirty`,
  `ToLowercase.GetCurrent` and `NoIndex.RunQuery` preserve it.

`Lower` is ASCII-only lowering.

## Model

| member | source | states |
|---|---|---|
| `Reactive.Lower` | src/main.ts:45 | the lowered string has the input's length, each character is the ASCII lowering of the input's character at that position, and no upper-case ASCII letter remains |
| `Reactive.LowerIdempotent` | src/main.ts:45 | lowering an already lowered value changes nothing |
| `Reactive.Row.constructor` | src/main.ts:13-15 | a new row holds the constructor's value, has no listeners and has notified nobody |
| `Reactive.Row.Set` | src/main.ts:17-23 | afterwards the row holds v and its listener list is unchanged. The notification log grows by exactly the listener list, once per registration and in registration order. Every listener's cache is empty. Every wired node stays wired, and a node wired to this row now reads `Lower(v)` |
| `Reactive.Row.GetCurrent` | src/main.ts:25-27 | returns the stored value (the constructor's value until the first set, then the last value set). It has no modifies clause, so it changes nothing |
| `Reactive.Row.AddListener` | src/main.ts:29-31 | appends the listener at the end with no duplicate check; the value and the log are unchanged |
| `Reactive.ToLowercase.constructor` | src/main.ts:34-37 | a new node keeps its input and starts with an empty cache; its input chain is well formed |
| `Reactive.ToLowercase.SetDirty` | src/main.ts:39-41 | the cache is empty afterwards. On an already empty cache nothing changes (idempotent). A wired node stays wired |
| `Reactive.ToLowercase.GetCurrent` | src/main.ts:43-48 | returns the value the node stood for before the call. With a filled cache it returns the stored value and no cache on the chain changes. With an empty cache it returns `Lower` of the input's value. Afterwards the cache holds the result. Caches on the chain are only ever filled, each with the value it stood for. Every wired node on the chain stays wired |
| `Reactive.ToLowercase.AddListener` | src/main.ts:50-52 | accepts a registration and changes nothing |
| `Reactive.GetCurrentOf` | src/main.ts:7-10 | `getCurrent` through the producer interface returns the producer's current value. For a node, its cache holds the result afterwards. It only fills caches on its chain and keeps every wired node on the chain wired |
| `Reactive.AddListenerTo` | src/main.ts:7-10 | `addListener` through the producer interface appends to a row's list and leaves a node unchanged |
| `Reactive.MakeToLowercase` | src/main.ts:74-78 | returns a fresh node over the input with an empty cache. Over a row, the node is appended to the row's listeners and is wired. The row's value and notification log are unchanged |
| `Reactive.CurrentPreserved` | src/main.ts:43-48 | filling caches with the values they stood for, while the bottom row's value is unchanged, changes no producer's current value. So a pull is pure from the caller's point of view |
| `Reactive.NoIndex.constructor` | src/main.ts:59-60 | the index keeps the producer list it was built with |
| `Reactive.NoIndex.Pull` | src/main.ts:65-66 | pulling the producer at position i yields its value and leaves the current value of every producer of the index unchanged. A node at position i caches that value afterwards. Every cache of the index either keeps its content or goes from empty to the value its node stood for, so every node of the index keeps its current value. Every wired node of the index stays wired |
| `Reactive.NoIndex.RunQuery` | src/main.ts:62-71 | the result's positions are all below the number of producers and strictly ascending. Position i is in the result exactly when producer i's value before the query equals the target. Afterwards every producer still has that value, and every node in the index list caches that value. Every cache of the index either keeps its content or goes from empty to the value its node stood for, so every node of the index, at any depth, keeps its current value. Every wired node of the index is still wired |
| `Reactive.BuildGraph` | src/main.ts:82-85 | builds fresh rows "Foo" and "BAr" that have notified nobody. The node over the first row has an empty cache, is the row's only listener, and is wired. The second row has no listeners. The index is over the node and the second row |
| `Reactive.QueryGraph` | src/main.ts:87-90 | in the program's object graph, a query for a target gives [0] when `Lower` of the first row's value is the target, plus [1] when the second row's value is. The graph stays wired |
| `Reactive.SetThenQuery` | src/main.ts:92-100 | in the program's object graph, writing v to the first row and then querying for a target gives [0] when `Lower(v)` is the target, plus [1] when the second row's value is. The graph stays wired |
| `Reactive.MainScenario` | src/main.ts:82-101 | the program's run: querying "quux" before any write gives [], after writing "quuX" gives [0], and querying "boo" after writing "BOO" gives [0] |
| `Reactive.TwoLevelChainStale` | src/main.ts:50-52 | a lowercase node built over another lowercase node is never invalidated, because registration on a node is ignored. After the row changes from "A" to "B", the outer node still returns "a" while the inner one returns "b" |
| `RowScan.Row.constructor` | src/main.rs:3-5 | a new row holds the given data |
| `RowScan.RunQuery` | src/main.rs:15-23 | the result has at most as many positions as there are rows, every position is below the row count, and the positions are strictly ascending. A position is in the result exactly when that row's data equals the target. It has no modifies clause, so no row's data changes |
| `RowScan.Scenario` | src/main.rs:28-49 | with rows "foo" and "bar", the first overwritten with "quux" after the index is made, querying "bar" gives [1] |
| `Positions.AscendingDetermined` | src/main.rs:15-23 | two strictly ascending position lists with the same elements are equal, so the query contracts determine the query result |

## Left out

- Unicode lowering: JavaScript's `toLowerCase` is modelled as ASCII-only lowering (`Lower`). None of the properties depend on how other characters are lowered.
- Weak references: a row's listener list holds strong references in a plain array (and the Rust file has no listeners), so no liveness check or skipping of dead listeners is modelled.
- Aliasing of the producer list: the TypeScript index keeps the array it is given, while `NoIndex.rows` is a `seq` value. The program never changes that array after building the index, so the difference is not observable here.
- The benchmark driver: the 100000 outer and 100 inner repetitions, the timing, `throw new Error`, `console` and `println!` output. `MainScenario` and `SetThenQuery` model one pass. The thrown error is replaced by the results stated in their ensures clauses.
- Rust `RefCell` dynamic borrow checks and the lifetime on `NoIndex<'a>`: rows are class instances whose `data` the program overwrites in place. `run_query` only reads them.
- Performance, and the comparison between the two languages.
