# simple-todo: drag-and-drop coordinator, column manager, request schemas and check endpoint

This project models, in Dafny, the four pieces of logic at the core of the
simple-todo kanban application:

- **The drag-and-drop coordinator** (`src/components/DnDContextProvider.tsx`),
  module `DragDrop`. A class `Coordinator` holds the provider's refs: the
  `isDragging` flag, the hovered zone `isOver`, the origin zone `start`, the
  dragged item `id`, the initial and current pointer positions, the last
  pointer move, and the registry of droppable zones. The registry is an
  ordered sequence of (id, rectangle) entries, because `for...in` visits the
  registry object's keys in insertion order and an object spread keeps an
  existing key in place. The collision scan is a loop proved against
  `Collision`, which picks the last zone in registry order whose rectangle
  contains the pointer, all four edges included.
- **The column manager** (`src/components/Home/TodoColumnManager.tsx`), module
  `Columns`. `Project` is the projection effect. It makes an empty column for
  every state option and then pushes each task onto the column for its state.
  A state that is not an option gets a new column at the end. It is proved
  exact (each column holds precisely the tasks of its state, in input order)
  and total. `DragEndRequest` is the drag-end guard. `EdgeScroll` is the
  edge-zone decision. The class `Manager` holds the projection and the
  carousel's slide index, and its steps are clamped to the slides.
- **The request schemas** (`src/lib/validators/todo.ts`), module `Validators`.
  A body is a record of optional JSON values. Each schema either rejects it or
  yields a typed request. The shared refinement on `dueDate` and
  `plannedFinishDate` is modelled clause for clause. Two round trips pin each
  schema down: every accepted body encodes what it parsed to, and a typed
  request is accepted exactly when it satisfies the Task invariant.
- **The check endpoint** (`src/app/api/todo/check/route.ts`), module
  `CheckRoute`. `Handle` gives the response status and the new store for a
  session, a body and a store. `TodoStore.Patch` is the handler written step
  by step against it. The lemmas state that only the `state` of the one owned
  record changes.

`common.dfy` holds `Option` and `Distinct`.

Behaviour of the source that the model keeps on purpose:
- Ending a drag with no drag-end observer returns at once and does not reset
  the session (`DnDContextProvider.tsx:129`). `HandleDragEnd` models this.
- `handleDragging` is not guarded by `isDragging`
  (`DnDContextProvider.tsx:101-109`), and an end without an observer keeps
  the session. So an idle coordinator may still hold a zone, an item and
  positions, and the model claims no invariant that says otherwise.
- A task whose state is not one of the options gets a column of its own,
  appended after the option columns (`TodoColumnManager.tsx:40-41`). `Project`
  models this.
- The refinement's message says that `plannedFinishDate` must be after
  `dueDate`, but its predicate accepts a `plannedFinishDate` only when it is
  strictly before `dueDate` (`todo.ts:13-16`). The model follows the predicate.

## Model

| member | source | states |
|---|---|---|
| `DragDrop.CollisionNone` | src/components/DnDContextProvider.tsx:111-126 | the lookup returns null exactly when no registered rectangle contains the pointer, edges included |
| `DragDrop.CollisionIsLastMatch` | src/components/DnDContextProvider.tsx:113-123 | a non-null result is the id of a zone that contains the pointer with no later zone containing it; conversely, the last containing zone is always the one returned |
| `DragDrop.OnlyZoneFound` | src/components/DnDContextProvider.tsx:111-126 | a pointer inside exactly one zone's rectangle yields that zone's id |
| `DragDrop.CollisionSound` | src/components/DnDContextProvider.tsx:116-122 | any zone returned is registered and contains the pointer |
| `DragDrop.Upsert` | src/components/DnDContextProvider.tsx:81-86 | the key order is unchanged when the id is present and gains the id at the end otherwise; entries of other ids stay where they were; the new entry is present, and with unique ids every entry of that id holds the new rectangle |
| `DragDrop.UpsertSpec` | src/components/DnDContextProvider.tsx:81-86 | after adding, the registry still holds one entry per id, the id maps to the new rectangle, and every other id maps to what it did before |
| `DragDrop.Remove` | src/components/DnDContextProvider.tsx:88-91 | with unique ids, the key order afterwards is the old one with that id filtered out, and an entry is kept iff it was there and has another id |
| `DragDrop.DeleteAtIds` | src/components/DnDContextProvider.tsx:90 | cutting out the entry at the position of an id in a registry with unique ids filters exactly that id out of the key order |
| `DragDrop.RemoveSpec` | src/components/DnDContextProvider.tsx:88-91 | after removing, the id is gone, ids stay unique, and every other id maps to what it did before |
| `DragDrop.Coordinator.constructor` | src/components/DnDContextProvider.tsx:48-54 | the provider starts not dragging, with null zones and item, both positions at (0,0) and no registry |
| `DragDrop.Coordinator.Reset` | src/components/DnDContextProvider.tsx:72-79 | reset clears the flag, `isOver`, `start` and `id`, puts both positions at (0,0), and leaves the registry alone |
| `DragDrop.Coordinator.AddDroppable` | src/components/DnDContextProvider.tsx:81-86 | the registry becomes the upsert of the old one, the id maps to the rectangle, other ids are unchanged, and the session is untouched |
| `DragDrop.Coordinator.RemoveDroppable` | src/components/DnDContextProvider.tsx:88-91 | with no registry nothing changes; otherwise only the given id leaves, and the session is untouched |
| `DragDrop.Coordinator.CheckDroppableCollision` | src/components/DnDContextProvider.tsx:111-126 | the scan over the registry returns `Collision`, the last zone containing the pointer, or null |
| `DragDrop.Coordinator.HandleDragStart` | src/components/DnDContextProvider.tsx:93-99 | start sets dragging, `start` to the collision at the pointer, both positions to the pointer and `id` to the item, and leaves `isOver` and the registry untouched |
| `DragDrop.Coordinator.HandleDragging` | src/components/DnDContextProvider.tsx:101-109 | a move records the pointer as the last move and current position and sets `isOver` to the collision there; a re-render is requested iff `isOver` changed |
| `DragDrop.Coordinator.HandleDragEnd` | src/components/DnDContextProvider.tsx:128-139 | with an observer it emits `{over, from, item}` from the values before the reset and then resets; without one it returns nothing and changes no state |
| `DragDrop.DragBetweenZones` | src/components/DnDContextProvider.tsx:93-139 | pressing in the "todo" zone, moving into the "done" zone and releasing reports a move from "todo" to "done" for that item |
| `Columns.Project` | src/components/Home/TodoColumnManager.tsx:34-48 | the columns are the state options in order followed by the other states in order of first appearance; each column holds exactly the tasks of its state in input order; the column sizes sum to the number of tasks |
| `Columns.EmptyColumns` | src/components/Home/TodoColumnManager.tsx:35-38 | the initial object has one empty column per state option, in option order |
| `Columns.PushTodo` | src/components/Home/TodoColumnManager.tsx:39-46 | the reducer's step keeps the projection exact for the input seen so far plus the new task, and adds exactly one task |
| `Columns.PushNewColumn` | src/components/Home/TodoColumnManager.tsx:40-41 | a task whose state has no column yet opens a column at the end holding just that task, and the other columns stay exact |
| `Columns.PushExistingColumn` | src/components/Home/TodoColumnManager.tsx:42-43 | a task whose state has a column is pushed onto its end, and no other column changes |
| `Columns.ExtraStatesSpec` | src/components/Home/TodoColumnManager.tsx:40-43 | column keys stay distinct, every task's state has a column, and new columns are only for states that are not options |
| `Columns.InStateMembers` | src/components/Home/TodoColumnManager.tsx:39-46 | a task is in the column of a state iff it is an input task in that state |
| `Columns.InStateNone` | src/components/Home/TodoColumnManager.tsx:35-38 | a state option that no task has keeps an empty column |
| `Columns.InStateAppend` | src/components/Home/TodoColumnManager.tsx:39-46 | the column of the concatenation of two task lists is the first list's column followed by the second's, so relative order is kept |
| `Columns.DragEndRequest` | src/components/Home/TodoColumnManager.tsx:83-93 | a request is issued iff `over` and `from` are both truthy and differ, and its payload is the item id with state `over` |
| `Columns.RequestTargetsDropZone` | src/components/Home/TodoColumnManager.tsx:83-93 | a request built from the coordinator's lookups names a registered zone containing the drop point, different from the zone at the press point |
| `Columns.EdgeScroll` | src/components/Home/TodoColumnManager.tsx:126-138 | scrolling left happens iff `md` is known and false and x < 20; scrolling right iff `md` is known and false, x >= 20 and x > width - 20; otherwise nothing |
| `Columns.StepInRange` | src/components/Home/TodoColumnManager.tsx:97-121 | a left step keeps index 0 and otherwise decrements by one; a right step keeps the last index and otherwise increments by one; either keeps the index within the slides |
| `Columns.RunInRange` | src/components/Home/TodoColumnManager.tsx:25 | starting from an index within the slides (the state starts at 0), any series of steps stays within `[0, n-1]` |
| `Columns.Manager.constructor` | src/components/Home/TodoColumnManager.tsx:25 | the slide index starts at 0, with one slide per state option |
| `Columns.Manager.TodosChanged` | src/components/Home/TodoColumnManager.tsx:34-48 | the stored projection becomes exact and total for the new task list; the slide index is kept |
| `Columns.Manager.ScrollLeftStep` | src/components/Home/TodoColumnManager.tsx:97-106 | the index becomes the clamped left step of the old one and stays within the slides |
| `Columns.Manager.ScrollRightStep` | src/components/Home/TodoColumnManager.tsx:112-121 | the index becomes the clamped right step of the old one and stays within the slides |
| `Columns.Manager.Dragging` | src/components/Home/TodoColumnManager.tsx:126-138 | a pointer position handed to the edge handler moves the index by the edge decision's step when the throttle lets the call through, and otherwise leaves it |
| `Validators.DatesRefine` | src/lib/validators/todo.ts:12-17 | the refine callback accepts iff a truthy `plannedFinishDate` comes with a truthy `dueDate` strictly greater than it; a falsy planned date always passes; `RefineIsDeadlineRule` restates it on positive dates |
| `Validators.RefineIsDeadlineRule` | src/lib/validators/todo.ts:13-16 | on positive dates the refinement accepts iff a planned finish date comes with a due date strictly after it; planned without due is rejected; both present is accepted iff due > planned, so equal dates are rejected; due alone or neither passes |
| `Validators.ParseCreate` | src/lib/validators/todo.ts:4-22 | the create schema rejects a body with no title or no state, and whatever it accepts is a well-formed create request; `ParseCreateSound` and `CreateRoundTrip` pin it down as the inverse of the encoding |
| `Validators.ParseCreateSound` | src/lib/validators/todo.ts:4-22 | an accepted create body has a title of length 1 to 100, a description of at most 1000, one of the four states, positive integer dates in deadline order, and is the encoding of its result |
| `Validators.CreateRoundTrip` | src/lib/validators/todo.ts:4-22 | the encoding of a typed create request is accepted iff the request is well formed, and then parses back to itself |
| `Validators.ParseEdit` | src/lib/validators/todo.ts:29-49 | the edit schema rejects a body with no state, passes the id through unchanged, and whatever it accepts is a well-formed edit request; `ParseEditSound` and `EditRoundTrip` pin it down as the inverse of the encoding |
| `Validators.ParseEditSound` | src/lib/validators/todo.ts:29-49 | an accepted edit body has optional title and description within the same bounds, one of the four states, positive integer dates in deadline order, an order >= 0 when present, and is the encoding of its result |
| `Validators.EditRoundTrip` | src/lib/validators/todo.ts:29-49 | the encoding of a typed edit request is accepted iff it is well formed, and then parses back to itself |
| `Validators.ParseCheck` | src/lib/validators/todo.ts:24-27 | a check body is accepted iff `checked` is a JSON boolean; any id passes through unchanged |
| `Validators.DateExamples` | src/lib/validators/todo.ts:12-22 | due 100 with planned 200 is rejected, planned 50 alone is rejected, due 200 with planned 100 is accepted, equal dates are rejected |
| `CheckRoute.CheckedState` | src/app/api/todo/check/route.ts:21-23 | checked maps to review and unchecked to in-progress, and to nothing else |
| `CheckRoute.Handle` | src/app/api/todo/check/route.ts:7-30 | 401 iff there is no session user; 500 iff the body is not JSON, fails validation or the database does not connect; 404 iff no record matches both id and owner; otherwise 200; every non-200 leaves the store unchanged, and 200 sets only the matching record's state |
| `CheckRoute.HandleFrame` | src/app/api/todo/check/route.ts:21-23 | the store keeps its keys, every record keeps its owner and other fields, and the only record that can change is the one addressed and owned by the session user |
| `CheckRoute.ForeignRecordsUntouched` | src/app/api/todo/check/route.ts:18-23 | a record not owned by the session user is never changed |
| `CheckRoute.HandleIdempotent` | src/app/api/todo/check/route.ts:21-25 | repeating the same check request gives the same response and store as doing it once |
| `CheckRoute.TodoStore.Patch` | src/app/api/todo/check/route.ts:7-30 | the handler's status and new store are those of `Handle` on the old store |

## Left out

- The 100 ms dragging timer (`DnDContextProvider.tsx:58-70`) is timer-driven. The model records the last move it would sample (`lastMove`) but does not model its delivery.
- `forceUpdate` and React's deferred `setIsDragging` are not modelled as rendering. The re-render request is the flag `HandleDragging` returns, and the flag update is immediate.
- The coordinator stores a rectangle per zone. The source reads each node's `getBoundingClientRect()` during the scan. A layout change is modelled by re-adding the zone. Floating-point coordinates are modelled as integers.
- JavaScript enumerates integer-like property keys first, in ascending order, before other keys in insertion order. The model uses insertion order for every key, which matches the source for the state names used as zone ids.
- A numeric `DnDId` becomes a string when it is used as a property key. Zone ids and item ids are modelled as strings.
- The one-second `throttle` is modelled only as a boolean saying whether a call passes. Its timing is not modelled.
- Columns.Manager.Dragging: does not model the boolean `scrolled` that the scroll steps return, because it depends on when React runs the `setValue` updater.
- `handleSlideTo` sets the slide index from a carousel button component that is not part of this model.
- Carousel width measurement and resize listeners are DOM geometry and are not modelled.
- The state-change request built by `DragEndRequest` is not sent. The axios call, the router refresh and the error toast are I/O.
- Columns.Manager.constructor: requires at least one distinct state option. The source's option list is a constant of four distinct states, and with no options its right step would not be clamped.
- Tasks in the column manager carry only an id and a state. Their other fields ride along unchanged in the source.
- String lengths are sequence lengths. Zod counts UTF-16 code units.
- Unknown body keys, which zod strips, and zod's error messages are not modelled. `TodoDeleteValidator` is not part of this model.
- The session provider, `dbConnect` and the document store are abstracted as an optional user id, a connection flag and a map. A failing `updateOne` is not modelled.
- CheckRoute.Handle: an id that is not a record key gets 404 in the model, which differs from the source in these cases. An absent id passes the schema (`todo.ts:25`), the persistence layer drops the undefined `_id` from the query, and the query becomes `{Owner: user}` (`route.ts:18`, `route.ts:21`): the source then answers 200 and changes the state of the user's first record (or 404 if the user owns none). A JSON object or array id also passes `z.custom` and goes into both filters as a query value; an operator object such as `{"$ne": null}` matches every record the user owns, so the source again answers 200 and changes the first of them. An id the persistence layer cannot cast to an object id (a number, or a string such as "abc") throws, and the source answers 500. The store is a map without an order, and ids are opaque keys without query operators, so none of these outcomes has a counterpart in the model.
- CheckRoute.HandleFrame: "only the addressed record can change" holds for ids that are record keys or well-formed object ids; for an absent id or an operator-object id the source changes the user's first owned record, as described above.
- CheckRoute.ForeignRecordsUntouched: the model assumes the session supplies the user's id and filters on it. The source reads `session.user.id` (`route.ts:18`, `route.ts:21`), but `session.user` is `token.user` (`nextauthOptions.ts:35`), built with the fields `_id`, `email`, `name` and `image` only (`nextauthOptions.ts:24-29`), so as written the filter's `Owner` is undefined and is dropped from the query, and any signed-in user can change the state of any record by its id. The ownership check of `Handle`, `HandleFrame` and this lemma is therefore the intended one, not the one the session callbacks in `nextauthOptions.ts` produce; the session layer beyond these callbacks is not part of this model.
- Validators.ParsePositiveInt, Validators.ParseNonNegativeInt: JSON numbers are exact reals in the model, while `req.json()` yields IEEE doubles. Integers beyond 2^53, literals with more significant digits than a double holds, and literals that overflow to Infinity (such as `1e400`) are rounded or rejected by the source but taken exactly by the model. For example the model accepts `dueDate` 9007199254740993 with `plannedFinishDate` 9007199254740992, which the source parses as two equal doubles and so rejects, and the model accepts `1e400` as an integer, which the source's `.int()` rejects as Infinity.
- Columns.Manager.Dragging: nothing in the code calls the edge decision. `TodoColumnManager.tsx:141` gives the provider only `onDragEnd`, so the timer condition `isDragging && onDragging` (`DnDContextProvider.tsx:60`) never holds, and `TodoColumn.tsx:17` ignores the `handleDragging` prop it is passed. The method models what the handler would do if it were called.
