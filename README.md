# cube — a Dafny model of its statable logic

The repository is a web starter template (React components, a TanStack Query based CRUD
helper, a zustand store). This project models the parts that carry logic and proves what
they promise:

- **CRUD cache logic** (`src/services/CRUDService.ts`), module `CrudService`. It covers:
  - the query-key factory (`all`, `lists`, `details`, `detail`) over a token datatype;
  - `buildListUrl`, as a loop that sets each kept entry as a search parameter;
  - the list and detail `queryFn` branches after the fetch;
  - the optimistic create and delete updaters over `Plain(items) | Envelope(list, meta)`;
  - the query cache as a class: `Snapshot` (`getQueriesData`), `ApplyUpdater`
    (`setQueriesData`), the rollback of `onError`, and the detail write of update's `onSuccess`.
    The cache is one keyed store, held as two maps split by the kind of entry (list data,
    entity). No key is in both maps, and a write to a key replaces its entry in either map.
- **Decimal text of integers** (`String(v)` and `${id}`), module `JsText`: `IntToText` and an
  inverse parser. The round trip is proved.
- **The grid** (`src/components/Main.tsx`), module `CubeGrid`: class `Grid` with `order` and a
  `running` flag standing for `intervalRef.current != null`. It has the methods `Click`, `Tick`,
  `Effect` (the `useEffect` on `order`) and `Press` (a click on a rendered box). The module also
  has the render derivation (`isGreen`, `showBorder`).
- **The box** (`src/components/Box.tsx`), module `Box`: the click guard, the 1-based grid
  placement and the class list.
- **`capitalize`** (`src/utils/index.ts`), module `Utils`, for strings whose first character is ASCII.
- **The app store** (`src/store/useAppStore.ts`), module `AppStore`: the initial state, the
  store's `set` as a shallow merge of a partial state, and the three actions.

Facts about the code the model keeps:
- The envelope's field is `list`.
- The errors are plain `Error`s carrying `"Failed to fetch " + entityKey` or `notFoundMessage`.
- A list key carries its params token whenever params are not `null`/`undefined`. That
  includes primitives and empty objects.

Inputs that the code takes from outside are parameters of the model:
- the response status (`ok`) and the decoded body;
- the temporary id that `Date.now()` supplies;
- the percent-encoder of the query string.

## Model

| member | source | states |
|---|---|---|
| `CrudService.Lists` | src/services/CRUDService.ts:123-126 | `lists()` is `[entityKey, "list"]`; with params not null/undefined it has a third token holding the params; `all` is a prefix |
| `CrudService.All` | src/services/CRUDService.ts:122 | `all` is the one-token key `[entityKey]` |
| `CrudService.Detail` | src/services/CRUDService.ts:127-128 | `detail(id)` has `details()` as prefix and ends in the id token |
| `CrudService.Details` | src/services/CRUDService.ts:127 | `details()` is `all` followed by the `"detail"` token |
| `CrudService.KeyHierarchy` | src/services/CRUDService.ts:121-129 | prefix consistency: `all` prefixes every key, `lists()` prefixes `lists(p)`, `detail(id) == details() + [id]`, every list key matches the `lists()` filter |
| `CrudService.KeysIdentifyArguments` | src/services/CRUDService.ts:123-128 | two list keys are equal iff their params are equal; two detail keys are equal iff their ids are equal |
| `CrudService.ListFilterScope` | src/services/CRUDService.ts:179-182 | the `lists()` filter reaches no detail key and no list key of another entity |
| `CrudService.ToText` | src/services/CRUDService.ts:135 | `String(v)`: a string is itself; a number's text parses back to the number; a boolean gives `"true"` or `"false"` accordingly |
| `CrudService.WithQuery` | src/services/CRUDService.ts:137 | `url.toString()`: the base URL, unchanged exactly when there are no pairs; otherwise followed by `?` and the serialised pairs |
| `CrudService.SetParam` | src/services/CRUDService.ts:135 | `searchParams.set`: exactly one pair carries the name, with the new value; a new name is appended at the end; an existing name keeps the position of its first pair, the pairs before it are unchanged and the pairs of other names keep their values and order |
| `CrudService.BuildListUrl` | src/services/CRUDService.ts:131-138 | absent or non-object params give exactly `baseUrl`; otherwise the URL carries exactly the kept pairs `(key, String(v))` in entry order |
| `CrudService.KeptPairsAppend` | src/services/CRUDService.ts:134-136 | the kept pairs of `a + b` are those of `a` followed by those of `b`, so entry order is preserved |
| `CrudService.KeptPairsMembers` | src/services/CRUDService.ts:135 | `(k, s)` is a query pair iff some entry has name `k`, a value that is not null, undefined or `""`, and `String(v) == s` |
| `CrudService.DroppedEntryAbsent` | src/services/CRUDService.ts:135 | an entry whose value is null, undefined or `""` leaves no pair of its name in the query |
| `CrudService.ListUrlExample` | tests/services/CRUDService.test.ts:111-157 | `{status: "active", q: "test"}` gives `https://api.test/items?status=active&q=test`; `{a: "only", b: ""}` keeps only `a=only` |
| `CrudService.ReadList` | src/services/CRUDService.ts:148-152 | a non-ok response fails with `"Failed to fetch " + entityKey`; otherwise `parseListResponse` wins over `listFromResponse`, which wins over the raw body |
| `CrudService.ReadListConforms` | src/services/CRUDService.ts:145-152 | the list data a read yields has the shape the updaters accept; it is an envelope exactly when a parser is configured |
| `CrudService.NotFoundMessage` | src/services/CRUDService.ts:114 | the message is `notFoundMessage` when given, `"Not found"` otherwise |
| `CrudService.ItemRequest` | src/services/CRUDService.ts:156-165 | no request is made exactly when the id is 0 |
| `CrudService.ItemRequestIdentifiesId` | src/services/CRUDService.ts:160 | two ids with the same detail URL are the same id |
| `CrudService.ReadItem` | src/services/CRUDService.ts:161-162 | a non-ok response fails with the not-found message; an ok one yields the body |
| `CrudService.IsListResponseExact` | src/services/CRUDService.ts:186-187 | on a value of the shape the cache holds, `isListResponse` holds exactly for an envelope; without a parser it never holds |
| `CrudService.OldItems` | src/services/CRUDService.ts:188 | `arr` is the cached list, whether bare or in an envelope, and `[]` for a missing entry |
| `CrudService.WithItems` | src/services/CRUDService.ts:193-195 | the updater's result holds exactly the new list; it is an envelope iff `isListResponse`, with the old metadata |
| `CrudService.CreateUpdater` | src/services/CRUDService.ts:185-196 | the new list is the temporary entity followed by the old list; envelope form iff a parser is configured and the old value is an envelope; envelope metadata unchanged |
| `CrudService.CreateUpdaterPrepends` | src/services/CRUDService.ts:188-192 | length grows by one; index 0 has the submitted fields and the temporary id; the rest is the old list; a missing entry acts as `[]`; the shape invariant is kept |
| `CrudService.RemoveId` | src/services/CRUDService.ts:247 | every survivor is an old element with a different id, and every old element with a different id survives |
| `CrudService.RemoveIdCounts` | src/services/CRUDService.ts:247 | the filter keeps every copy: an entity without the id occurs exactly as often as before; one with the id does not occur |
| `CrudService.RemoveIdIsSubsequence` | src/services/CRUDService.ts:247 | survivors keep their relative order: the result is a subsequence of the old list |
| `CrudService.RemoveIdIdempotent` | src/services/CRUDService.ts:247 | filtering out an id twice equals filtering once |
| `CrudService.RemoveIdAbsent` | src/services/CRUDService.ts:247 | deleting an id that no element has leaves the list unchanged |
| `CrudService.DeleteUpdater` | src/services/CRUDService.ts:243-251 | the new list is the filtered old list; envelope form and metadata as for create |
| `CrudService.DeleteUpdaterProperties` | src/services/CRUDService.ts:243-251 | no element with the id remains; order kept; missing entry becomes `Plain([])`; shape kept; applying it twice equals once |
| `CrudService.Update` | src/services/CRUDService.ts:183-197 | both optimistic edits keep the shape invariant of list entries |
| `CrudService.QueryCache.Snapshot` | src/services/CRUDService.ts:180-182 | one pair per matching list key, keys distinct, each with its current value |
| `CrudService.QueryCache.constructor` | src/services/CRUDService.ts:178-182 | a cache of this service's entries: the given list entries, no detail entries, the shape invariant established |
| `CrudService.QueryCache.ApplyUpdater` | src/services/CRUDService.ts:183-197 | every matching entry is replaced by the updater's result; other entries, the key set and detail entries are unchanged |
| `CrudService.QueryCache.OnMutate` | src/services/CRUDService.ts:178-199 | snapshot of the pre-mutation list entries, then the optimistic edit on all of them |
| `CrudService.QueryCache.SetQueryData` | src/services/CRUDService.ts:202 | the library's `setQueryData`: `undefined` leaves the cache as it is; any other value becomes the key's entry, replacing whatever entry the key held |
| `CrudService.QueryCache.RollbackAsWritten` | src/services/CRUDService.ts:200-204 | every snapshotted key with data gets its data back; a key with no pair holding data keeps its current value; the keys of the cache afterwards are the old keys plus the keys of the pairs with data |
| `CrudService.QueryCache.Rollback` | src/services/CRUDService.ts:255-258 | the corrected rollback (see Findings): every snapshotted key holds exactly its snapshotted value; no other entry changes |
| `CrudService.QueryCache.OnErrorAsWritten` | src/services/CRUDService.ts:200-204 | `onError` as written: without a context nothing changes; with one, `RollbackAsWritten` of it |
| `CrudService.QueryCache.OnError` | src/services/CRUDService.ts:255-258 | the corrected `onError` (see Findings): without a context nothing changes; with one, the snapshot is restored exactly |
| `CrudService.QueryCache.FailedMutationAsWritten` | src/services/CRUDService.ts:178-204 | a failed create or delete as written: every list entry is back to its pre-mutation value, except a matching entry that had no data, which holds the updater's result on an empty list; keys and detail entries unchanged |
| `CrudService.QueryCache.FailedMutation` | src/services/CRUDService.ts:178-204 | with the corrected onError (see Findings), onMutate followed by onError of its context leaves list and detail entries exactly as before |
| `CrudService.QueryCache.FailedCreate` | src/services/CRUDService.ts:178-204 | with the corrected onError (see Findings), after onMutate and onError of create the list entries equal their pre-mutation values exactly |
| `CrudService.QueryCache.FailedDelete` | src/services/CRUDService.ts:236-258 | with the corrected onError (see Findings), after onMutate and onError of delete the list entries equal their pre-mutation values exactly, envelope metadata included |
| `CrudService.QueryCache.OnUpdateSuccess` | src/services/CRUDService.ts:222-223 | the response body becomes the entry of `detail(data.id)`, replacing whatever entry that key held; nothing else changes |
| `CrudService.UndefinedEntryKeepsOptimisticItem` | src/services/CRUDService.ts:200-204 | a list query without data before a failed create holds `[temp]` after onError as written |
| `CrudService.UndefinedEntryRestored` | src/services/CRUDService.ts:255-258 | with the corrected rollback the same query has no data again |
| `JsText.NatToDigits` | src/services/CRUDService.ts:135 | decimal digits, at least one, no leading zero |
| `JsText.IntToTextRoundTrip` | src/services/CRUDService.ts:135 | parsing `String(n)` gives back `n` |
| `JsText.IntToText` | src/services/CRUDService.ts:135 | `String(n)`: at least one character; a leading `-` exactly for negative numbers, then decimal digits |
| `JsText.IntToTextInjective` | src/services/CRUDService.ts:160 | distinct integers have distinct decimal texts |
| `Box.Clicked` | src/components/Box.tsx:16-19 | no call when `showBorder` is false; otherwise exactly one `onClick` call, with the box's own row and col |
| `Box.Placement` | src/components/Box.tsx:28 | `gridRow` is `row + 1` and `gridColumn` is `col + 1`, so non-negative coordinates land on lines of at least 1 |
| `Box.PlacementInjective` | src/components/Box.tsx:28 | two boxes share a placement iff they share row and column |
| `Box.ClassNames` | src/components/Box.tsx:23-27 | the class list has exactly the non-empty names passed |
| `Box.ClassNamesAppend` | src/components/Box.tsx:23-27 | argument order is kept: the names of `a + b` are those of `a` followed by those of `b` |
| `Box.BoxClasses` | src/components/Box.tsx:23-27 | the class list is `box`, then `border` when `showBorder`, then `green` when `isGreen` |
| `Box.BoxClassesExact` | src/components/Box.tsx:23-27 | the border class is present iff `showBorder`; the green class iff `isGreen` |
| `CubeGrid.FlatMapOne` | src/components/Main.tsx:24 | `flatMap(() => 1)` yields one element per click |
| `CubeGrid.RequiredClicksIsSeven` | src/components/Main.tsx:9-13 | `BOX_DATA` has seven `1` cells |
| `CubeGrid.BoxDataLayout` | src/components/Main.tsx:9-13 | `BOX_DATA` is three rows of three cells, all `0` or `1`; the empty cells are exactly `(1, 1)` and `(1, 2)` |
| `CubeGrid.CountdownDueExactly` | src/components/Main.tsx:24-26 | the countdown is due iff at least seven clicks are recorded |
| `CubeGrid.Popped` | src/components/Main.tsx:31-39 | a tick on a non-empty order removes exactly one click; the result is a prefix |
| `CubeGrid.CountdownEmpties` | src/components/Main.tsx:30-40 | after `n <= |order|` ticks the order is its first `|order| - n` clicks |
| `CubeGrid.CountdownReachesEmpty` | src/components/Main.tsx:30-40 | after `n` ticks the order is empty iff `n` is at least the number of recorded clicks |
| `CubeGrid.IsGreenIffClicked` | src/components/Main.tsx:49-52 | the filter count is positive iff the cell's coordinates occur in `order` |
| `CubeGrid.Render` | src/components/Main.tsx:46-78 | one props value per cell of `BOX_DATA`, row by row |
| `CubeGrid.CellProps` | src/components/Main.tsx:54-74 | a box gets its own coordinates; a border iff a `1` cell; green iff a `1` cell whose coordinates occur in `order` |
| `CubeGrid.RenderedCell` | src/components/Main.tsx:54-74 | each box gets its own coordinates; border iff a `1` cell; green iff a `1` cell that was clicked, so `0` cells are never green |
| `CubeGrid.Grid.constructor` | src/components/Main.tsx:16-17 | no clicks, no interval |
| `CubeGrid.Grid.Effect` | src/components/Main.tsx:23-28 | the interval is started once the order is long enough; order unchanged |
| `CubeGrid.Grid.Click` | src/components/Main.tsx:19-21 | `[row, col]` is appended at the end, earlier clicks unchanged, no de-duplication; the effect then runs |
| `CubeGrid.Grid.Tick` | src/components/Main.tsx:28-40 | at most one click left: order becomes `[]` and the interval is cleared; otherwise the last click is dropped |
| `CubeGrid.Grid.Press` | src/components/Main.tsx:54-74 | clicking a `0` cell changes nothing; clicking a `1` cell appends its coordinates |
| `Utils.ToUpperAscii` | src/utils/index.ts:28 | lower-case ASCII letters become upper case; other ASCII characters are unchanged |
| `Utils.Capitalize` | src/utils/index.ts:27-29 | same length; the first character is upper-cased; the rest is unchanged; `""` stays `""` |
| `Utils.CapitalizeFixedPoints` | src/utils/index.ts:28 | a string is unchanged iff it is empty or does not start with a lower-case letter |
| `Utils.CapitalizeIdempotent` | tests/utils.test.ts:36-38 | capitalising twice equals capitalising once |
| `Utils.CapitalizeExamples` | tests/utils.test.ts:22-38 | `"hello"`, `"world"`, `""`, `"a"` and `"Hello"` give `"Hello"`, `"World"`, `""`, `"A"`, `"Hello"` |
| `AppStore.Merge` | src/store/useAppStore.ts:34-43 | `set`: a field present in the partial state takes its value; an absent field keeps the current one |
| `AppStore.MenuOpenPatch` | src/store/useAppStore.ts:40 | merging `{ isMenuOpen: open }` into any state sets the flag to `open` and keeps the font size |
| `AppStore.TogglePatch` | src/store/useAppStore.ts:41 | merging the toggle's partial state into the state it was computed from negates the flag and keeps the font size |
| `AppStore.FontSizePatch` | src/store/useAppStore.ts:42 | merging `{ fontSize: size }` into any state sets the size and keeps the flag |
| `AppStore.SetMenuOpenFacts` | src/store/useAppStore.ts:40 | `setMenuOpen(b)` sets the flag to `b`, keeps the font size, and is idempotent |
| `AppStore.ToggleMenuFacts` | src/store/useAppStore.ts:41 | `toggleMenu` negates the flag and keeps the font size; toggling twice is the identity |
| `AppStore.SetFontSizeFacts` | src/store/useAppStore.ts:42 | `setFontSize(s)` sets the size and keeps the flag |
| `AppStore.Store.constructor` | src/store/useAppStore.ts:35-37 | the store starts in `Initial`: menu closed, font size 16 |
| `AppStore.Store.Set` | src/store/useAppStore.ts:34 | the new state is the old state merged with the partial state |
| `AppStore.Store.SetMenuOpen` | src/store/useAppStore.ts:40 | the flag becomes `open`; the font size is unchanged |
| `AppStore.Store.ToggleMenu` | src/store/useAppStore.ts:41 | the flag is negated; the font size is unchanged |
| `AppStore.Store.SetFontSize` | src/store/useAppStore.ts:42 | the font size becomes `size`; the flag is unchanged |

## Left out

- HTTP and JSON: `fetch`, `res.json()` and the create, update and delete requests are not modelled. A response is its `ok` flag and its decoded body. A transport failure is not modelled.
- Cache library internals are left out: `cancelQueries`, `invalidateQueries` (in `onSettled` and update's `onSuccess`), staleness, refetching and de-duplication.
- The query cache's data between `onMutate` and `onError` is assumed to be untouched by anything else, such as concurrent mutations or refetches.
- Partial key matching is assumed to be a prefix test: `MatchesLists` is stated, not derived from the library. Key identity is structural equality of token sequences. The library hashes param objects with sorted keys, so two objects that differ only in entry order are one key there and two keys here.
- `CrudService.QueryCache.SetQueryData` states the library's handling of `undefined` (no update) as an assumption about the library.
- `CrudService.QueryCache.Snapshot` returns the pairs in an unspecified order: the library's iteration order is not modelled.
- `CrudService.BuildListUrl` requires distinct entry names. `Object.entries` never repeats a key.
- WHATWG URL behaviour is left out. The form-urlencoded percent-encoding is the `encode` parameter. Also left out: the normalisation done by `new URL(baseUrl).toString()`, its exception on a relative `baseUrl`, and a base URL that already has a query or a fragment.
- Parameter values other than null, undefined, strings, integers and booleans are left out. Floating-point numbers and nested objects as values are not modelled. An array passed as params is an object whose entry names are its indices.
- JavaScript numbers (ids, numeric params, `fontSize`) are unbounded integers: there is no floating point, `NaN` or `-0`.
- `CrudService.ItemRequest` treats only `0` as a falsy id, because `NaN` is not an integer.
- The list `queryFn` can return the raw body as `T[]` without checking it: `RawBody`. Cache entries are list data. An envelope is assumed to appear under a list key only when `parseListResponse` is configured, which the list data type guarantees. The `TypeError` the updaters would raise when spreading a non-array is not modelled.
- `Date.now()` as the temporary id is a parameter. Its uniqueness is not proved: the code never checks it against existing ids.
- `CrudService.QueryCache.OnMutate`: one `tempId` value stands for the id of every matching list entry. In the source `Date.now()` is evaluated inside the updater, which `setQueriesData` runs once per matching query, so two list entries may receive different temporary ids.
- Timers are left out. Each `setInterval` callback is one `Tick` call. The effect also runs after a tick, or after further clicks while the order is long enough. In the source each such run starts another interval without clearing the previous one. The model has one `running` flag and does not count those extra intervals. `console.log` is left out.
- `debounce` is left out: it relies on `setTimeout`. `formatDate` is left out: it delegates to `Intl.DateTimeFormat`.
- `Utils.Capitalize`: defined only when the first character is ASCII. Full Unicode upper-casing, where `ß` becomes `SS`, is not modelled.
- `Box.ClassNames`: the class list is a sequence of symbolic names. The space-joined string and the CSS-module hashing are not modelled.
- zustand `persist` and `localStorage` synchronisation and hydration are left out.
- Presentation and wiring files have no logic to model: `Button.tsx`, `Card.tsx`, `page.tsx`, `layout.tsx`, `not-found.tsx`, `TanStackProvider.tsx`, `useIsMounted.ts`, `exampleService.ts`. The configuration files and `constants.ts` are left out too.

## Findings

| source | as written | input that shows it | evidently intended | confidence | as-written member | corrected member |
|---|---|---|---|---|---|---|
| src/services/CRUDService.ts:200-204 | `onError` restores each snapshot pair with `setQueryData(key, data)`. The cache library ignores `setQueryData` with `undefined`, so a pair captured without data is not restored. | A list query registered but without data yet, for example a pending first fetch, then a create whose request fails. The query keeps the optimistic `[temp]` until a refetch replaces it. The same holds for delete at lines 255-258, where the entry keeps `[]`. | Every snapshotted key holds exactly its pre-mutation value, including "no data". | not executed; medium: it relies on the library's `setQueryData` treating `undefined` as no update | `CrudService.UndefinedEntryKeepsOptimisticItem` | `CrudService.QueryCache.Rollback` |
