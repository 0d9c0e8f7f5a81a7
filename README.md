# To-do list application: route handlers over an abstract store

This project models the request handling of a small Express/Mongoose to-do list
application. The application keeps a default list, "Today", as the top-level Item
collection, and any number of custom lists as List documents that embed their items. It
has four routes:

- `GET /` seeds the Item collection with three starter items on the first visit and renders it
  after that.
- `GET /:customListName` normalises the name with lodash's `capitalize`. It renders the list of
  that name, or creates the list with a copy of the starter items and redirects to it.
- `POST /` appends a new item to Today, or to the custom list whose name matches exactly.
- `POST /delete` removes an item by id from Today, or uses `$pull` on the custom list whose name
  matches exactly.

The model is split into four modules:

- `Names` (names.dfy) is `_.capitalize` over ASCII: every character is lower-cased, then the
  first one is upper-cased.
- `Items` (items.dfy) holds the item record, its ids, and removal by id (`$pull`), with
  lemmas on order and uniqueness.
- `Routes` (routes.dfy) holds the store state `Db`:
  - `items` is the Item collection;
  - `lists` maps each list name to its embedded items;
  - `nextId` stands for ObjectId generation.
  It also holds the outcomes `Render(title, entries) | Redirect(path) | Fail | NoResponse`,
  one function per route, Express's dispatch (`Handle`), the replay of a request sequence
  (`Replay`), and the invariant `Valid`. `Valid` says that ids are unique in each collection
  and below the counter, and that every list is stored under its normalised name. Routes
  also holds the lemmas: every reachable state satisfies `Valid`, at most one list exists
  per name, seeding followed by rendering, find-or-create, deletion keeps order, and
  add-then-delete undoes the add.
- `TodoApp` (store.dfy) is the store as a class with fields `items`, `lists` and `nextId`. It
  has one method per route that updates those fields in place. Each method keeps `Valid()`,
  and its new state and outcome are exactly those of the matching `Routes` function.

Store errors are a `Fault` input:
- `ReadFault`: the lookup call (`find`, `findOne`) reports an error.
- `WriteFault`: the update call (`insertMany`, `save`, `findByIdAndDelete`,
  `findOneAndUpdate`) reports an error.

A failed update changes nothing. Handlers that only log an error send no response
(`NoResponse`). Only two handlers still redirect after a failed update: seeding in `GET /`,
and deleting from Today. On the add path, a custom list that is missing, or a failed lookup,
leads to a dereference of `foundList` that throws (`Fail`).

Two details of the code the model keeps:
- Normalisation is full `_.capitalize`. It lower-cases every character after the first, not
  only capitalising the first one.
- When the `$pull` update on a custom list fails, no response is sent. Only deletion from
  Today redirects regardless of errors.

## Model

| member | source | states |
|---|---|---|
| `Names.LowerAll` | app.js:192 | the result has the input's length and each character is the ASCII lower-case of the input's character at that position |
| `Names.Capitalize` | app.js:192 | same length as the input, first character upper-cased, every later character lower-cased (ASCII) |
| `Names.CapitalizeIdempotent` | app.js:192 | normalising an already normalised name gives the same name |
| `Names.CapitalizeCaseInsensitive` | app.js:192-197 | two names normalise to the same stored name if and only if they differ only in ASCII letter case (both directions) |
| `Items.RemoveIdMembers` | app.js:168-175 | after `$pull`, an entry remains exactly when it was there and its id differs from the pulled id |
| `Items.RemoveIdConcat` | app.js:168-175 | removal by id works segment by segment, so the surviving entries keep their relative order |
| `Items.RemoveIdAbsent` | app.js:147-184 | removing an id that no entry carries leaves the collection unchanged |
| `Items.RemoveIdAt` | app.js:147-184 | with unique ids, removing the id at index k yields the collection with exactly position k cut out |
| `Items.RemoveIdAppended` | app.js:90-184 | removing the id of an entry appended with an unused id gives back the original collection |
| `Items.RemoveIdKeepsUnique` | app.js:147-184 | removal by id keeps ids unique |
| `Items.AppendFreshKeepsUnique` | app.js:90-120 | appending an entry whose id is unused keeps ids unique |
| `Routes.Init` | app.js:18-51 | the empty store of a first start satisfies the invariant |
| `Routes.GetRoot` | app.js:53-82 | lookup error: no response, no change; empty Item collection: the three default items in fixed order become the collection (unchanged on an insert error), lists and counter untouched, `Redirect("/")` either way; non-empty: `Render("Today", items)` in stored order and no change |
| `Routes.GetCustom` | app.js:189-229 | Today and the counter are untouched; no existing list changes; at most one list appears, under `Capitalize(name)`; a present list renders with its items and no change; an absent one is created with the default items and redirects to `"/" + Capitalize(name)`; lookup or save errors give no response and no change |
| `Routes.PostAdd` | app.js:85-137 | always draws one fresh id; "Today": the new item is appended at the end of `items`, earlier items unchanged, lists unchanged, `Redirect("/")`; other name found exactly: that list gains the item at its end, no other list or Today changes, `Redirect("/" + listName)`; name not found or lookup error: `Fail` with collections unchanged; save error: no response, collections unchanged |
| `Routes.PostDelete` | app.js:141-186 | counter untouched; "Today": `items` loses the entries with that id, lists unchanged, `Redirect("/")` even on error; other name: Today and the set of list names unchanged, only the list named exactly `listName` (when present) loses the entries with that id, `Redirect("/" + listName)`; update error on a custom list: no response, no change |
| `Routes.FreshIdUnused` | app.js:90 | in a valid state the next id is carried by no item of Today or of any list |
| `Routes.GetRootPreservesValid` | app.js:53-82 | `GET /` keeps the invariant |
| `Routes.GetCustomPreservesValid` | app.js:189-229 | `GET /:customListName` keeps the invariant, in particular lists stay keyed by normalised names |
| `Routes.PostAddPreservesValid` | app.js:85-137 | `POST /` keeps the invariant, in particular ids stay unique |
| `Routes.PostDeletePreservesValid` | app.js:141-186 | `POST /delete` keeps the invariant |
| `Routes.HandlePreservesValid` | app.js:53-229 | every route keeps the invariant |
| `Routes.ReplayPreservesValid` | app.js:53-229 | any sequence of requests, with any store errors, keeps the invariant |
| `Routes.ReachableIsValid` | app.js:53-229 | every state reachable from the empty store satisfies the invariant |
| `Routes.AtMostOneListPerName` | app.js:192-226 | in a valid state, two stored list names that differ only in letter case are the same name |
| `Routes.SeedThenRender` | app.js:59-79 | on an empty Item collection the first visit seeds exactly the three defaults and redirects, and the next visit renders exactly those three |
| `Routes.CaseVariantsResolveAlike` | app.js:192-206 | names that differ only in letter case give the same new state and outcome |
| `Routes.CreateThenRevisit` | app.js:200-226 | the first visit adds one list with the default items; a revisit under any case variant renders it with no change, so it is never duplicated or reseeded |
| `Routes.TodayListIsShadowed` | app.js:96-219 | visiting `/today` creates a List document named "Today", and add and delete requests for "Today" never change any List document |
| `Routes.AddToUnnormalizedNameFails` | app.js:115-120 | in a valid state, adding to a non-"Today" name that is not in normalised form always fails with collections unchanged |
| `Routes.DeleteFromTodayAt` | app.js:147-160 | deleting the id at index k of Today removes exactly that item and keeps the others in order |
| `Routes.DeleteFromListAt` | app.js:161-184 | deleting the id at index k of a custom list removes exactly that item and keeps the others in order |
| `Routes.DeleteAbsentIsNoOp` | app.js:147-184 | deleting an id that the target does not hold, or from a list that does not exist, changes nothing |
| `Routes.AddThenDeleteToday` | app.js:96-160 | deleting the id of the item just added to Today restores Today and the lists |
| `Routes.AddThenDeleteList` | app.js:115-184 | deleting the id of the item just added to a custom list restores every list and Today |
| `TodoApp.Store.constructor` | app.js:18-51 | a fresh store: no items, no lists, counter past the three default ids, invariant holds |
| `TodoApp.Store.GetRoot` | app.js:53-82 | updates the fields in place to exactly the state and outcome of `Routes.GetRoot`, keeping the invariant |
| `TodoApp.Store.GetCustom` | app.js:189-229 | updates the fields in place to exactly the state and outcome of `Routes.GetCustom`, keeping the invariant |
| `TodoApp.Store.PostAdd` | app.js:85-137 | updates the fields in place (push onto the found list, then save) to exactly the state and outcome of `Routes.PostAdd`, keeping the invariant |
| `TodoApp.Store.PostDelete` | app.js:141-186 | updates the fields in place to exactly the state and outcome of `Routes.PostDelete`, keeping the invariant |

## Left out

- Express setup, body parsing, static files and `app.listen` (app.js:1-15, 231-233): HTTP plumbing. A request is its route plus its already-decoded body or path fields.
- The MongoDB connection and configuration (app.js:3-5, 18), and storage internals. They are replaced by the abstract `items`/`lists` state.
- EJS rendering. It appears only as the `Render(title, entries)` outcome.
- `console.log` calls: logging only.
- Asynchronous callbacks and concurrent requests. Each request is one atomic step, so the last-writer-wins race between two concurrent appends to one list is not modelled.
- Partial failure of `insertMany`. A failed seeding inserts nothing in the model.
- Ids that are not well-formed ObjectIds. The store rejects them with a cast error, which the model can only express as a `WriteFault`.
- Item ids across server restarts. The three default items get new ObjectIds each time the process starts. The model covers one process run, where they are fixed (0, 1, 2) and fresh ids start at 3.
- Full Unicode case mapping in `_.capitalize`. Only ASCII letters change case.
- Routes.PostDelete: deleting from Today (`findByIdAndDelete`) removes the one document with that `_id`. The model removes every entry with that id. The two agree because `Valid` keeps ids unique.
- `Fail` ends the process: the TypeError thrown at app.js:120 inside the `findOne` callback is never caught. `Replay` continuing after a `Fail` stands for a restart against the same database, where the default items would get new ids; the model keeps them at 0, 1, 2. `Init` is a first start on an empty database, not a start against a database that already holds data.
