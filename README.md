# Todo list plugin: route handlers and page state

A Dafny model of the two pieces of the todo-list example plugin that have
behaviour of their own:

- the server plugin's five route handlers for `/api/todos` (list, get, create,
  update, delete). Each one turns a request into one call on the saved-objects
  store and turns the store's answer into the response body;
- the `ToDoApp` page component. It holds `todoList` and `newTodo` and replaces
  `todoList` with a transformation of it after each response.

Modules:

- `Wire` (`wire.dfy`): the envelope `{id, attributes: {item, completed}}`, the
  requests the page sends to `/api/todos`, the failures that can come back, and
  JavaScript truthiness of an optional boolean.
- `SavedObjects` (`saved_objects.dfy`): an in-memory stand-in for the host's
  saved-objects client. A class holds the table (`objects: seq<Envelope>`) and
  a ghost log (`sent`) of every call made on it. Its behaviour is an assumption
  (see below), not something the plugin defines.
- `TodoServer` (`server.dfy`): the settings value the list handler reads, the
  pure parts of the handlers (the `completed === false` filter, the update
  attribute choice, the delete body) and the five handlers as methods over the
  store. Lemmas relate sequences of handler calls.
- `JsStrings` (`js_strings.dfy`): `String.prototype.trim` with the ECMAScript
  white-space and line-terminator set.
- `TodoClient` (`client.dfy`): the page's list transformations as functions,
  the per-item controls, and the `ToDoApp` class whose methods assign their
  results.
- `EndToEnd` (`end_to_end.dfy`): one request followed from the page through the
  handler and the store back into the page.

Assumed store behaviour, used only by the store class and the lemmas that
combine handlers:

- objects are kept in creation order, with distinct ids;
- `get`, `update` and `delete` of an unknown id fail with `NotFound`;
- `find` and `create` never fail;
- `update` merges the sent attributes into the stored ones: an attribute that
  is not sent keeps its stored value. It answers with the id and only the
  attributes that were sent, which is why a text-only update's answer has no
  `completed`;
- `delete` answers with an empty acknowledgement;
- `create` assigns an id that no stored object has (`FreshId`, a deterministic
  stand-in for generated ids).

The handler contracts themselves are stated in terms of what each handler
sends to the store (the `sent` log) and the store's answer.

Behaviours the model makes explicit:

- The update handler's asymmetry: `UpdateAttributes` never produces
  `completed: false`, so no update can clear the flag
  (`UpdateNeverClearsCompleted`).
- The page dropping `completed` after a text edit: `TextEditFlow` shows the
  store still holding an item completed while the page's copy has no
  `completed` and is shown editable.

Both are preserved as the code has them.

## Model

| member | source | states |
|---|---|---|
| `TodoServer.Incomplete` | examples/todo_list/server/plugin.ts:47-49 | the result holds exactly the found objects whose `completed` is exactly `false`, and is no longer than the input |
| `TodoServer.IncompleteIsSubsequence` | examples/todo_list/server/plugin.ts:48 | the filter keeps the relative order of the objects it keeps |
| `TodoServer.IncompleteMultiplicity` | examples/todo_list/server/plugin.ts:48 | each kept object occurs as often as it was found; objects with `completed` true or absent occur zero times |
| `TodoServer.ListBody` | examples/todo_list/server/plugin.ts:45-51 | with the setting off, the body is the `find` result unchanged; with it on, the body is exactly the objects with `completed === false`, in their found order and each as often as found, so an object with no `completed` is hidden too |
| `TodoServer.CreateAttributes` | examples/todo_list/server/plugin.ts:92 | create stores the sent text with a `completed` flag that is present and not set |
| `TodoServer.UpdateAttributes` | examples/todo_list/server/plugin.ts:116-124 | the update sends `item` unchanged and sends `completed` exactly when it is truthy, so it never sends `completed: false` |
| `TodoServer.DeleteResponse` | examples/todo_list/server/plugin.ts:146-147 | the response succeeds exactly when the store's delete does, as `{success: true, deleted}` where `deleted` is the store's answer; a store failure comes back unchanged |
| `TodoServer.UiSettings.constructor` | examples/todo_list/server/plugin.ts:21-30 | `hide_completed_items` starts at its registered default, `false` |
| `TodoServer.ListTodos` | examples/todo_list/server/plugin.ts:42-52 | reads the setting, calls only `find`, leaves the table unchanged and returns `ListBody` of the table |
| `TodoServer.GetTodo` | examples/todo_list/server/plugin.ts:68-73 | calls only `get` with the requested id unchanged, leaves the table unchanged and returns the store's answer, including its not-found failure |
| `TodoServer.CreateTodo` | examples/todo_list/server/plugin.ts:89-94 | sends exactly `{item, completed: false}` to `create` and returns the created object, which is appended to the table; if every stored todo had `completed`, every one still has |
| `TodoServer.UpdateTodo` | examples/todo_list/server/plugin.ts:114-127 | sends `update(id, UpdateAttributes(item, completed))` and returns the store's answer; the table becomes the merged table; if every stored todo had `completed`, every one still has |
| `TodoServer.DeleteTodo` | examples/todo_list/server/plugin.ts:143-148 | sends `delete(id)` and returns `DeleteResponse` of the store's answer; the table loses the object; if every stored todo had `completed`, every one still has |
| `TodoServer.CreateKeepsCompleted` | examples/todo_list/server/plugin.ts:92 | creating through the handler keeps every stored todo carrying `completed` |
| `TodoServer.UpdateKeepsCompleted` | examples/todo_list/server/plugin.ts:120-124 | an update, whatever attributes it sends, never removes a stored `completed` |
| `TodoServer.DeleteKeepsCompleted` | examples/todo_list/server/plugin.ts:146 | a delete keeps every remaining todo carrying `completed` |
| `TodoServer.CreateThenGet` | examples/todo_list/server/plugin.ts:90-93 | a get by the id of a just-created object returns it, with the sent text and `completed: false` |
| `TodoServer.DeleteThenGet` | examples/todo_list/server/plugin.ts:144-147 | after a delete, get of that id is not found, neither list shows it, and get of any other id answers as before |
| `TodoServer.DeleteTwice` | examples/todo_list/server/plugin.ts:144-147 | a second delete of the same id fails with not-found and changes nothing |
| `TodoServer.CompleteThenList` | examples/todo_list/server/plugin.ts:120-121 | after completing a stored id, the hiding list excludes it and the showing list still includes it |
| `TodoServer.UpdateNeverClearsCompleted` | examples/todo_list/server/plugin.ts:120-124 | after any update, a stored completed object is still completed, and `completed: false` is stored only where it already was |
| `SavedObjects.Lookup` | examples/todo_list/server/plugin.ts:71 | assumed store: `get` succeeds exactly when some object has the id, returns an object with that id, and otherwise fails with not-found for that id |
| `SavedObjects.FreshId` | examples/todo_list/server/plugin.ts:92 | assumed store: the id given to a created object is non-empty and used by no stored object |
| `SavedObjects.Updated` | examples/todo_list/server/plugin.ts:121-123 | assumed store: an update keeps length and ids, merges the sent attributes into each object with the id, and leaves the others alone |
| `SavedObjects.Without` | examples/todo_list/server/plugin.ts:146 | assumed store: after a delete, the table holds exactly the objects with other ids, in their order, and is shorter by the number of objects with the id |
| `SavedObjects.LookupUpdated` | examples/todo_list/server/plugin.ts:121-123 | assumed store: a get after an update of a stored id returns the merged attributes |
| `SavedObjects.SavedObjectsClient.Find` | examples/todo_list/server/plugin.ts:45 | assumed store: returns the table and records a `find` call |
| `SavedObjects.SavedObjectsClient.Get` | examples/todo_list/server/plugin.ts:71 | assumed store: returns `Lookup` and records the call |
| `SavedObjects.SavedObjectsClient.Create` | examples/todo_list/server/plugin.ts:92 | assumed store: appends the object under a fresh id, keeps ids distinct and records the call |
| `SavedObjects.SavedObjectsClient.Update` | examples/todo_list/server/plugin.ts:121-123 | assumed store: answers with the id and the sent attributes (or not-found), merges them into the table, keeps ids distinct and records the call |
| `SavedObjects.SavedObjectsClient.Delete` | examples/todo_list/server/plugin.ts:146 | assumed store: acknowledges (or fails with not-found), removes the object, keeps ids distinct and records the call |
| `TodoClient.FromEnvelope` | examples/todo_list/public/app.tsx:33-37 | the page's item has the envelope's id, text and `completed`, and the envelope can be rebuilt from it |
| `TodoClient.Loaded` | examples/todo_list/public/app.tsx:33-37 | the loaded list has the response's length and order, and item i is `{id, item, completed}` taken from envelope i |
| `TodoClient.LoadedIsLossless` | examples/todo_list/public/app.tsx:33-37 | each envelope of the response can be rebuilt from the loaded item at its position |
| `TodoClient.LoadedInjective` | examples/todo_list/public/app.tsx:33-37 | different responses load as different lists |
| `TodoClient.Appended` | examples/todo_list/public/app.tsx:49-50 | the list after an add is the old list unchanged, followed by exactly one item built from the response |
| `TodoClient.TextEdited` | examples/todo_list/public/app.tsx:60 | the item built from a text-edit response has the response's id and text and no `completed` |
| `TodoClient.ReplaceById` | examples/todo_list/public/app.tsx:61 | the list keeps its length; every item with the id becomes the replacement and every other item is unchanged |
| `TodoClient.RemoveById` | examples/todo_list/public/app.tsx:83 | after a delete no item has the id, every other item remains in its original relative order, and the length drops by the number of items with the id |
| `TodoClient.ReplaceKeepsOthers` | examples/todo_list/public/app.tsx:74 | replacing the items of an id by an item with that id leaves the items of other ids exactly as they were, in order |
| `TodoClient.AddGuard` | examples/todo_list/public/app.tsx:150-151 | the add button sends something exactly when the draft has a non-white-space character, and what it sends is the non-empty trimmed draft |
| `TodoClient.Controls` | examples/todo_list/public/app.tsx:100-126 | the text is read-only, and Complete is disabled and reads "Completed", exactly when `completed` is true; Delete is always offered |
| `TodoClient.TextEditUnlocks` | examples/todo_list/public/app.tsx:60-62 | after a text edit, every edited item is editable and completable again, because it has lost `completed` |
| `TodoClient.ToDoApp.constructor` | examples/todo_list/public/app.tsx:27-28 | the page starts with an empty list and an empty draft |
| `TodoClient.ToDoApp.FetchData` | examples/todo_list/public/app.tsx:30-42 | sends the list request; on success the list becomes `Loaded` of the response, on failure it stays |
| `TodoClient.ToDoApp.AddTodoItem` | examples/todo_list/public/app.tsx:44-53 | sends `{item}` to create; on success the list becomes `Appended`, on failure it stays |
| `TodoClient.ToDoApp.UpdateTodoItem` | examples/todo_list/public/app.tsx:55-66 | sends `{item}` without `completed`; on success every item with the id becomes `{id, item}` from the response, with no `completed` |
| `TodoClient.ToDoApp.CompleteTodoItem` | examples/todo_list/public/app.tsx:68-78 | sends `{item, completed: true}`; on success every item with the id becomes the full item from the response |
| `TodoClient.ToDoApp.DeleteTodoItem` | examples/todo_list/public/app.tsx:80-87 | sends the delete; on success the list becomes `RemoveById` of itself |
| `TodoClient.ToDoApp.ChangeDraft` | examples/todo_list/public/app.tsx:141 | typing sets the draft |
| `TodoClient.ToDoApp.ClickAdd` | examples/todo_list/public/app.tsx:148-154 | with a non-blank draft, sends the trimmed text and clears the draft even if the request fails; with a blank draft, changes nothing and sends nothing |
| `TodoClient.ToDoApp.SaveEdit` | examples/todo_list/public/app.tsx:100-105 | saving the inline editor of a read-only item does nothing; otherwise it is a text edit of that item's id |
| `TodoClient.ToDoApp.ClickComplete` | examples/todo_list/public/app.tsx:109-113 | the disabled Complete button does nothing; otherwise it completes that item's id with its current text |
| `TodoClient.ToDoApp.ClickDelete` | examples/todo_list/public/app.tsx:123-126 | Delete always deletes that item's id, whatever its state |
| `JsStrings.Trim` | examples/todo_list/public/app.tsx:150 | the result is the slice of the input that starts after the leading white space and is followed only by white space, and it neither starts nor ends with white space; it is empty exactly when the input is all white space |
| `EndToEnd.AddFlow` | examples/todo_list/public/app.tsx:150-153 | a non-blank draft reaches the store as the trimmed text with `completed: false`; the page appends that item under the store's id, and its Complete button is enabled |
| `EndToEnd.CompleteFlow` | examples/todo_list/public/app.tsx:70-75 | completing a stored item makes the store hold it completed; on the page, every item with that id becomes the completed item and is locked, and other items are untouched |
| `EndToEnd.TextEditFlow` | examples/todo_list/public/app.tsx:57-62 | a text edit of a completed item leaves the store's copy completed while the page's copy loses `completed` and is shown editable |
| `EndToEnd.HiddenListLoadsNoCompleted` | examples/todo_list/server/plugin.ts:47-49 | when completed items are hidden, every item the page loads has `completed: false` and an enabled Complete button |

## Left out

- Saved-object type registration and the registration metadata of the setting are left out. Only the setting's default `false` is used.
- HTTP transport, router registration, request-schema validation, authorization blocks and route options are host-library behaviour. Handler parameters are typed as the validated request shapes.
- The `'todo'` type argument passed to every store call is not modelled. The table holds only todo objects.
- The real saved-objects client is external. Its merge, id assignment, not-found and failure semantics are replaced by the assumed in-memory behaviour above. Pagination of `find`, namespaces, versions and timestamps are not modelled.
- `ListTodos`: the assumed `find` never fails, so the list handler's failure path (a rejected `find` or settings read) is not modelled.
- `CreateTodo`: the assumed `create` never fails, so its contract states success only. A real store failure would propagate, as it does for get, update and delete.
- Generated ids: `FreshId` is a deterministic choice of an unused id, not the store's random generation.
- The asynchrony of each page handler is not modelled. Each response is a parameter and is applied to the current list in sequence, so interleaved requests and the stale `todoList` captured by closures are not modelled.
- React rendering, the EUI components, `IntlProvider`/`FormattedMessage` message tables, `ReactDOM.render` and unmount are UI. Only the per-item enablement of the editor and the two buttons is modelled.
- The effect hook's dependency list (when the fetch re-runs) is a rendering concern.
- `console.log` of the loaded items is I/O.
- Plugin lifecycle and lazy-import plumbing is not part of this model: the public and server plugin entry points, and `start`/`stop`.
- The `hideCompleted` configuration schema is not part of this model, because the handler never reads it.
